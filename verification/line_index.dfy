/**
 The line indexer of the tag checker: which lines of a text contain the marker
 (`find_line_numbers`), and a capped sample of those lines with their stripped
 text (`find_line_matches`). Lines are numbered from 1, as `enumerate(..., start=1)`
 numbers them.
 */
module LineIndex {
  import opened Text

  function Min(a: int, b: int): int { if a <= b then a else b }

  function Max(a: int, b: int): int { if a >= b then a else b }

  /** Line number `n`, counting the lines from `first`, contains `marker`. */
  ghost predicate LineHas(lines: seq<string>, marker: string, first: int, n: int) {
    first <= n < first + |lines| && Contains(lines[n - first], marker)
  }

  /** Strictly increasing, so free of repeats. */
  ghost predicate Increasing(ns: seq<nat>) {
    forall k, j :: 0 <= k < j < |ns| ==> ns[k] < ns[j]
  }

  /** The numbers, counting from `first`, of the lines that contain `marker`,
      in the order `enumerate` visits them. */
  function NumbersFrom(lines: seq<string>, marker: string, first: nat): seq<nat>
    decreases |lines|
  {
    if lines == [] then []
    else (if Contains(lines[0], marker) then [first] else []) + NumbersFrom(lines[1..], marker, first + 1)
  }

  /** Every number returned names a line, counting from `first`, that holds
      the marker; they increase strictly; and there are no more than lines. */
  lemma {:induction false} NumbersFromSound(lines: seq<string>, marker: string, first: nat)
    ensures var r := NumbersFrom(lines, marker, first);
            && |r| <= |lines|
            && (forall k :: 0 <= k < |r| ==> LineHas(lines, marker, first, r[k]))
            && Increasing(r)
    decreases |lines|
  {
    if lines != [] {
      NumbersFromSound(lines[1..], marker, first + 1);
      var rest := NumbersFrom(lines[1..], marker, first + 1);
      assert forall k :: 0 <= k < |rest| ==> LineHas(lines, marker, first, rest[k]) by {
        forall k | 0 <= k < |rest| ensures LineHas(lines, marker, first, rest[k]) {
          assert LineHas(lines[1..], marker, first + 1, rest[k]);
          assert lines[1..][rest[k] - (first + 1)] == lines[rest[k] - first];
        }
      }
    }
  }

  /** Every line, counting from `first`, that holds the marker is listed. */
  lemma {:induction false} NumbersFromComplete(lines: seq<string>, marker: string, first: nat, n: int)
    requires LineHas(lines, marker, first, n)
    ensures n in NumbersFrom(lines, marker, first)
    decreases |lines|
  {
    if n > first {
      assert lines[1..][n - (first + 1)] == lines[n - first];
      NumbersFromComplete(lines[1..], marker, first + 1, n);
    }
  }

  /** `find_line_numbers(text, marker)`. */
  function FindLineNumbers(text: string, marker: string): seq<nat> {
    NumbersFrom(Lines(text), marker, 1)
  }

  /** The result of `find_line_numbers` holds the 1-based numbers of the lines
      of `text` that contain `marker`, all of them, in increasing order, each
      once; it is empty exactly when no line contains the marker. */
  lemma {:induction false} FindLineNumbersSpec(text: string, marker: string)
    ensures var r := FindLineNumbers(text, marker);
            && (forall k :: 0 <= k < |r| ==> LineHas(Lines(text), marker, 1, r[k]))
            && (forall n :: LineHas(Lines(text), marker, 1, n) ==> n in r)
            && Increasing(r)
            && |r| <= |Lines(text)|
            && (r == [] <==> forall n :: !LineHas(Lines(text), marker, 1, n))
  {
    var r := NumbersFrom(Lines(text), marker, 1);
    NumbersFromSound(Lines(text), marker, 1);
    forall n | LineHas(Lines(text), marker, 1, n) ensures n in r {
      NumbersFromComplete(Lines(text), marker, 1, n);
    }
    assert r != [] ==> LineHas(Lines(text), marker, 1, r[0]);
  }

  /** The loop of `find_line_matches` from the line numbered `first` on, with
      `budget` standing for `max_matches - len(matches)`: a matching line is
      appended first and the cap checked after, so the loop stops once the
      budget drops to zero or below but always keeps the first match. */
  function MatchesFrom(lines: seq<string>, marker: string, first: nat, budget: int): (r: seq<(nat, string)>)
    ensures |r| == Min(|NumbersFrom(lines, marker, first)|, Max(budget, 1))
    decreases |lines|
  {
    if lines == [] then []
    else if Contains(lines[0], marker) then
      [(first, Strip(lines[0]))]
        + (if budget <= 1 then [] else MatchesFrom(lines[1..], marker, first + 1, budget - 1))
    else MatchesFrom(lines[1..], marker, first + 1, budget)
  }

  /** The `k`-th sample carries the `k`-th matching line number. */
  lemma {:induction false} MatchesFromNumbers(lines: seq<string>, marker: string, first: nat, budget: int, k: nat)
    requires k < |MatchesFrom(lines, marker, first, budget)|
    ensures var ns := NumbersFrom(lines, marker, first);
            k < |ns| && MatchesFrom(lines, marker, first, budget)[k].0 == ns[k]
    decreases |lines|
  {
    var r := MatchesFrom(lines, marker, first, budget);
    var ns, ns' := NumbersFrom(lines, marker, first), NumbersFrom(lines[1..], marker, first + 1);
    if Contains(lines[0], marker) {
      assert ns == [first] + ns';
      if k > 0 {
        var rest := MatchesFrom(lines[1..], marker, first + 1, budget - 1);
        assert r == [(first, Strip(lines[0]))] + rest;
        MatchesFromNumbers(lines[1..], marker, first + 1, budget - 1, k - 1);
      }
    } else {
      MatchesFromNumbers(lines[1..], marker, first + 1, budget, k);
    }
  }

  /** The first sample's text is the stripped line its number names. */
  lemma {:induction false} FirstMatchText(lines: seq<string>, marker: string, first: nat, budget: int)
    requires 0 < |MatchesFrom(lines, marker, first, budget)|
    ensures var m := MatchesFrom(lines, marker, first, budget)[0];
            first <= m.0 < first + |lines| && m.1 == Strip(lines[m.0 - first])
    decreases |lines|
  {
    if !Contains(lines[0], marker) {
      var rest := MatchesFrom(lines[1..], marker, first + 1, budget);
      FirstMatchText(lines[1..], marker, first + 1, budget);
      assert lines[1..][rest[0].0 - (first + 1)] == lines[rest[0].0 - first];
    }
  }

  /** The `k`-th sample's text is the stripped line its number names. */
  lemma {:induction false} MatchesFromText(lines: seq<string>, marker: string, first: nat, budget: int, k: nat)
    requires k < |MatchesFrom(lines, marker, first, budget)|
    ensures var m := MatchesFrom(lines, marker, first, budget)[k];
            first <= m.0 < first + |lines| && m.1 == Strip(lines[m.0 - first])
    decreases |lines|
  {
    if k == 0 {
      FirstMatchText(lines, marker, first, budget);
    } else {
      var r := MatchesFrom(lines, marker, first, budget);
      var d := if Contains(lines[0], marker) then 1 else 0;
      var b := budget - d;
      var rest := MatchesFrom(lines[1..], marker, first + 1, b);
      assert r[k] == rest[k - d];
      MatchesFromText(lines[1..], marker, first + 1, b, k - d);
      assert lines[1..][r[k].0 - (first + 1)] == lines[r[k].0 - first];
    }
  }

  /** `find_line_matches(text, marker, max_matches)`. */
  function FindLineMatches(text: string, marker: string, maxMatches: int): seq<(nat, string)> {
    MatchesFrom(Lines(text), marker, 1, maxMatches)
  }

  /** The result of `find_line_matches` pairs the first matching line numbers,
      in order, with the stripped text of those lines. There are at most
      `max_matches` pairs, but one when any line matches and `max_matches <= 0`,
      and all matching lines when no more of them match than the cap allows. */
  lemma {:induction false} FindLineMatchesSpec(text: string, marker: string, maxMatches: int)
    ensures var r := FindLineMatches(text, marker, maxMatches);
            var ns := FindLineNumbers(text, marker);
            && |r| <= Max(maxMatches, 1)
            && |r| == Min(|ns|, Max(maxMatches, 1))
            && (|ns| <= maxMatches ==> |r| == |ns|)
            && (forall k :: 0 <= k < |r| ==> r[k].0 == ns[k])
            && (forall k :: 0 <= k < |r| ==> 1 <= r[k].0 <= |Lines(text)|)
            && (forall k :: 0 <= k < |r| ==> r[k].1 == Strip(Lines(text)[r[k].0 - 1]))
  {
    var lines := Lines(text);
    var r := MatchesFrom(lines, marker, 1, maxMatches);
    var ns := NumbersFrom(lines, marker, 1);
    assert |r| == Min(|ns|, Max(maxMatches, 1));
    forall k | 0 <= k < |r|
      ensures r[k].0 == ns[k]
      ensures 1 <= r[k].0 <= |lines|
      ensures r[k].1 == Strip(lines[r[k].0 - 1])
    {
      MatchesFromNumbers(lines, marker, 1, maxMatches, k);
      MatchesFromText(lines, marker, 1, maxMatches, k);
    }
  }

  /** A marker found on some line is found in the text; so both indexer results
      are empty when the text does not contain the marker. */
  lemma {:induction false} NoContainsNoLines(text: string, marker: string)
    ensures !Contains(text, marker) ==> FindLineNumbers(text, marker) == []
    ensures !Contains(text, marker) ==> forall m :: FindLineMatches(text, marker, m) == []
  {
    var ns := FindLineNumbers(text, marker);
    FindLineNumbersSpec(text, marker);
    forall m ensures |FindLineMatches(text, marker, m)| <= |ns| {
      FindLineMatchesSpec(text, marker, m);
    }
    if ns != [] {
      var n := ns[0];
      assert LineHas(Lines(text), marker, 1, n);
      LineInText(text, n - 1);
      ContainsTransitive(text, Lines(text)[n - 1], marker);
    }
  }
}
