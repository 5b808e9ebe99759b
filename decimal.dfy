/**
 * Decimal text of integers, as a JavaScript template literal renders a
 * whole Number (`${n}`) whose magnitude is below 10^21: an optional minus
 * sign, then digits with no leading zero. The reader `ReadNat` / `ReadInt` is the partner of the
 * writer and is used to state that the formatted strings can be read back.
 */
module Decimal {
  import opened Wrappers

  predicate IsDigit(c: char) {
    '0' <= c <= '9'
  }

  predicate AllDigits(s: string) {
    forall i :: 0 <= i < |s| ==> IsDigit(s[i])
  }

  /** A non-empty run of digits without a superfluous leading zero. */
  predicate Canonical(s: string) {
    |s| >= 1 && AllDigits(s) && (s[0] == '0' ==> |s| == 1)
  }

  function DigitValue(c: char): (d: nat)
    requires IsDigit(c)
    ensures d < 10
  {
    c as int - '0' as int
  }

  function DigitChar(d: nat): (c: char)
    requires d < 10
    ensures IsDigit(c) && DigitValue(c) == d
    ensures d == 0 <==> c == '0'
  {
    ('0' as int + d) as char
  }

  /** The decimal text of `n`. */
  function NatToString(n: nat): (s: string)
    ensures Canonical(s)
    ensures n < 10 <==> |s| == 1
    decreases n
  {
    if n < 10 then [DigitChar(n)] else NatToString(n / 10) + [DigitChar(n % 10)]
  }

  /** The value of a run of digits, most significant first. */
  function DigitsToNat(s: string): (n: nat)
    requires AllDigits(s)
  {
    if s == [] then 0 else DigitsToNat(s[..|s| - 1]) * 10 + DigitValue(s[|s| - 1])
  }

  /** The decimal text of `i`: a minus sign for negative values, never "-0". */
  function IntToString(i: int): (s: string)
    ensures |s| >= 1
    ensures i < 0 <==> s[0] == '-'
    ensures i >= 0 ==> Canonical(s)
    ensures i < 0 ==> Canonical(s[1..]) && s[1] != '0'
  {
    if i < 0 then "-" + NatToString(-i) else NatToString(i)
  }

  lemma {:induction false} NatToStringRoundTrip(n: nat)
    ensures DigitsToNat(NatToString(n)) == n
    decreases n
  {
    if n >= 10 {
      var s := NatToString(n);
      assert s[..|s| - 1] == NatToString(n / 10);
      NatToStringRoundTrip(n / 10);
    }
  }

  lemma {:induction false} LeadingDigitPositive(s: string)
    requires Canonical(s) && s[0] != '0'
    ensures DigitsToNat(s) >= 1
    decreases |s|
  {
    if |s| > 1 {
      var p := s[..|s| - 1];
      assert p[0] == s[0];
      LeadingDigitPositive(p);
    } else {
      assert DigitsToNat(s) == DigitsToNat(s[..0]) * 10 + DigitValue(s[0]);
    }
  }

  /** Every canonical digit run is the decimal text of its own value. */
  lemma {:induction false} DigitsRoundTrip(s: string)
    requires Canonical(s)
    ensures NatToString(DigitsToNat(s)) == s
    decreases |s|
  {
    if |s| == 1 {
      assert s == [DigitChar(DigitValue(s[0]))];
    } else {
      var p := s[..|s| - 1];
      assert p[0] == s[0];
      LeadingDigitPositive(p);
      DigitsRoundTrip(p);
      var n := DigitsToNat(s);
      assert n / 10 == DigitsToNat(p) && n % 10 == DigitValue(s[|s| - 1]);
      assert s == p + [DigitChar(DigitValue(s[|s| - 1]))];
    }
  }

  /** Splits off the longest run of leading digits. */
  function SplitDigits(s: string): (r: (string, string))
    ensures r.0 + r.1 == s
    ensures AllDigits(r.0)
    ensures r.1 == [] || !IsDigit(r.1[0])
  {
    if s != [] && IsDigit(s[0]) then
      var t := SplitDigits(s[1..]);
      ([s[0]] + t.0, t.1)
    else
      ([], s)
  }

  lemma {:induction false} SplitDigitsOf(ds: string, rest: string)
    requires AllDigits(ds)
    requires rest == [] || !IsDigit(rest[0])
    ensures SplitDigits(ds + rest) == (ds, rest)
    decreases |ds|
  {
    if ds != [] {
      assert (ds + rest)[1..] == ds[1..] + rest;
      SplitDigitsOf(ds[1..], rest);
      assert [ds[0]] + ds[1..] == ds;
    } else {
      assert ds + rest == rest;
    }
  }

  datatype Read = Read(value: int, rest: string)

  /** Reads a canonical decimal natural number at the front of `s`. */
  function ReadNat(s: string): (r: Option<Read>)
    ensures r.Some? ==> r.value.value >= 0
    ensures r.Some? ==> s == NatToString(r.value.value) + r.value.rest
    ensures r.Some? ==> r.value.rest == [] || !IsDigit(r.value.rest[0])
  {
    var t := SplitDigits(s);
    if Canonical(t.0) then
      DigitsRoundTrip(t.0);
      Some(Read(DigitsToNat(t.0), t.1))
    else
      None
  }

  lemma {:induction false} ReadNatOfNatToString(n: nat, rest: string)
    requires rest == [] || !IsDigit(rest[0])
    ensures ReadNat(NatToString(n) + rest) == Some(Read(n, rest))
  {
    SplitDigitsOf(NatToString(n), rest);
    NatToStringRoundTrip(n);
  }

  lemma NegativeText(s: string, n: nat, rest: string)
    requires s != [] && s[0] == '-' && n > 0
    requires s[1..] == NatToString(n) + rest
    ensures s == IntToString(-(n as int)) + rest
  {
    calc {
      s;
    ==  { assert s == [s[0]] + s[1..]; }
      "-" + (NatToString(n) + rest);
    ==  { AppendAssociates3("-", NatToString(n), rest); }
      ("-" + NatToString(n)) + rest;
    }
  }

  lemma AppendAssociates3<T>(a: seq<T>, b: seq<T>, c: seq<T>)
    ensures a + (b + c) == (a + b) + c
  {
  }

  /** Reads an optionally negative integer in the form `IntToString` writes. */
  function ReadInt(s: string): (r: Option<Read>)
    ensures r.Some? ==> s == IntToString(r.value.value) + r.value.rest
    ensures r.Some? ==> r.value.rest == [] || !IsDigit(r.value.rest[0])
  {
    if s != [] && s[0] == '-' then
      var n :- ReadNat(s[1..]);
      if n.value > 0 then
        NegativeText(s, n.value, n.rest);
        Some(Read(-n.value, n.rest))
      else
        None
    else
      ReadNat(s)
  }

  lemma {:induction false} ReadIntOfIntToString(i: int, rest: string)
    requires rest == [] || !IsDigit(rest[0])
    ensures ReadInt(IntToString(i) + rest) == Some(Read(i, rest))
  {
    if i < 0 {
      var t := NatToString(-i) + rest;
      AppendAssociates3("-", NatToString(-i), rest);
      assert ("-" + t)[1..] == t;
      ReadNatOfNatToString(-i, rest);
    } else {
      ReadNatOfNatToString(i, rest);
    }
  }
}
