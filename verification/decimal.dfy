/**
 Decimal rendering of line numbers, as Python's `str(n)` writes them, and the
 `", ".join(...)` of such numbers that the checker puts in its detail lines and
 its summary table; with the parser that reads such a list back.
 */
module Decimal {
  import opened Wrappers

  predicate IsDigit(c: char) {
    '0' <= c <= '9'
  }

  predicate AllDigits(s: string) {
    forall k :: 0 <= k < |s| ==> IsDigit(s[k])
  }

  function DigitChar(d: nat): (c: char)
    requires d < 10
    ensures IsDigit(c) && c as int - '0' as int == d
  {
    ('0' as int + d) as char
  }

  /** Python's `str(n)` for a non-negative integer: its decimal digits, most
      significant first, without leading zeros. */
  function NatToString(n: nat): (s: string)
    ensures |s| >= 1 && AllDigits(s)
    ensures s[0] == '0' ==> n == 0 && |s| == 1
    decreases n
  {
    if n < 10 then [DigitChar(n)] else NatToString(n / 10) + [DigitChar(n % 10)]
  }

  /** The number a string of decimal digits denotes. */
  function DigitsValue(s: string): nat
    requires AllDigits(s)
    decreases |s|
  {
    if s == [] then 0
    else DigitsValue(s[..|s| - 1]) * 10 + (s[|s| - 1] as int - '0' as int)
  }

  /** Reading the digits of a number gives the number back. */
  lemma {:induction false} NatToStringRoundTrip(n: nat)
    ensures DigitsValue(NatToString(n)) == n
    decreases n
  {
    if n >= 10 {
      var s := NatToString(n);
      NatToStringRoundTrip(n / 10);
      assert s[..|s| - 1] == NatToString(n / 10);
    }
  }

  /** Python's `", ".join(map(str, ns))`. */
  function JoinNumbers(ns: seq<nat>): (s: string)
    ensures s == [] <==> ns == []
    decreases |ns|
  {
    if ns == [] then ""
    else if |ns| == 1 then NatToString(ns[0])
    else NatToString(ns[0]) + ", " + JoinNumbers(ns[1..])
  }

  /** Number of leading decimal digits of `s`. */
  function DigitRun(s: string): (k: nat)
    ensures k <= |s| && AllDigits(s[..k])
    ensures k < |s| ==> !IsDigit(s[k])
    decreases |s|
  {
    if s != [] && IsDigit(s[0]) then
      var k := 1 + DigitRun(s[1..]);
      assert s[..k] == [s[0]] + s[1..][..k - 1];
      k
    else 0
  }

  /** Reads a `", "`-separated list of decimal numbers; None if `s` is not one. */
  function ParseNumbers(s: string): Option<seq<nat>> {
    if s == [] then Some([]) else ParseNonEmpty(s)
  }

  function ParseNonEmpty(s: string): Option<seq<nat>>
    decreases |s|
  {
    var k := DigitRun(s);
    if k == 0 then None
    else
      var n := DigitsValue(s[..k]);
      if k == |s| then Some([n])
      else if k + 2 <= |s| && s[k] == ',' && s[k + 1] == ' ' then
        match ParseNonEmpty(s[k + 2..])
        case Some(ns) => Some([n] + ns)
        case None => None
      else None
  }

  /** The digit run of a number followed by a non-digit is exactly the number. */
  lemma {:induction false} DigitRunOfNumber(digits: string, rest: string)
    requires |digits| >= 1 && AllDigits(digits)
    requires rest == [] || !IsDigit(rest[0])
    ensures DigitRun(digits + rest) == |digits|
    decreases |digits|
  {
    var s := digits + rest;
    assert s[0] == digits[0];
    if |digits| == 1 {
      assert s[1..] == rest;
    } else {
      assert s[1..] == digits[1..] + rest;
      DigitRunOfNumber(digits[1..], rest);
    }
  }

  /** Joining numbers and parsing the text gives the numbers back: the joined
      text loses no information. */
  lemma {:induction false} JoinNumbersRoundTrip(ns: seq<nat>)
    ensures ParseNumbers(JoinNumbers(ns)) == Some(ns)
    decreases |ns|
  {
    if ns != [] {
      var head := NatToString(ns[0]);
      NatToStringRoundTrip(ns[0]);
      if |ns| == 1 {
        DigitRunOfNumber(head, []);
        assert head + [] == head;
        assert DigitRun(head) == |head|;
        assert head[..|head|] == head;
        assert ParseNonEmpty(head) == Some([ns[0]]);
        assert ns == [ns[0]];
      } else {
        var tail := JoinNumbers(ns[1..]);
        var s := head + ", " + tail;
        assert s == head + (", " + tail);
        DigitRunOfNumber(head, ", " + tail);
        assert s[..|head|] == head;
        assert s[|head| + 2..] == tail;
        JoinNumbersRoundTrip(ns[1..]);
        assert ParseNonEmpty(tail) == Some(ns[1..]);
        assert [ns[0]] + ns[1..] == ns;
      }
    }
  }
}
