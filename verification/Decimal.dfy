/** Decimal text of integers: what strconv.Itoa prints and what an integer token of a JSON text holds. */
module Decimal {
  import opened Wrappers

  predicate IsDigit(c: char) {
    '0' <= c <= '9'
  }

  predicate AllDigits(s: string) {
    forall i :: 0 <= i < |s| ==> IsDigit(s[i])
  }

  function Digit(d: nat): (c: char)
    requires d < 10
    ensures IsDigit(c)
  {
    '0' + d as char
  }

  function DigitValue(c: char): (d: nat)
    requires IsDigit(c)
    ensures d < 10 && Digit(d) == c
  {
    (c - '0') as nat
  }

  /** The digits of a natural number: never empty, and a leading zero only for zero itself. */
  function PrintNat(n: nat): (s: string)
    ensures s != [] && AllDigits(s)
    ensures s[0] == '0' <==> n == 0
    ensures n == 0 ==> s == "0"
  {
    if n < 10 then [Digit(n)] else PrintNat(n / 10) + [Digit(n % 10)]
  }

  function ParseNat(s: string): nat
    requires AllDigits(s)
  {
    if s == [] then 0 else 10 * ParseNat(s[..|s| - 1]) + DigitValue(s[|s| - 1])
  }

  lemma {:induction false} ParsePrintNat(n: nat)
    ensures ParseNat(PrintNat(n)) == n
  {
    if n >= 10 {
      ParsePrintNat(n / 10);
      var s := PrintNat(n);
      assert s[..|s| - 1] == PrintNat(n / 10);
      assert DigitValue(Digit(n % 10)) == n % 10;
    }
  }

  function PrintInt(i: int): (s: string)
    ensures s != []
  {
    if i < 0 then "-" + PrintNat(-i) else PrintNat(i)
  }

  /** How many characters of s, from the front, are digits. */
  function DigitSpan(s: string): (n: nat)
    ensures n <= |s| && AllDigits(s[..n])
    ensures n < |s| ==> !IsDigit(s[n])
  {
    if s == [] || !IsDigit(s[0]) then 0
    else
      var m := DigitSpan(s[1..]);
      assert s[..m + 1] == [s[0]] + s[1..][..m];
      1 + m
  }

  function ReadNat(s: string): Option<(int, string)> {
    var n := DigitSpan(s);
    if n == 0 then None else Some((ParseNat(s[..n]), s[n..]))
  }

  /** Reads an integer off the front of s. */
  function ReadInt(s: string): Option<(int, string)> {
    if s != [] && s[0] == '-' then
      match ReadNat(s[1..])
      case Some((n, rest)) => Some((-n, rest))
      case None => None
    else
      match ReadNat(s)
      case Some((n, rest)) => Some((n, rest))
      case None => None
  }

  /** True when a number printed just before s ends there. */
  predicate NumberEnds(s: string) {
    s == [] || !IsDigit(s[0])
  }

  lemma {:induction false} DigitSpanStops(d: string, rest: string)
    requires AllDigits(d) && NumberEnds(rest)
    ensures DigitSpan(d + rest) == |d|
  {
    if d == [] {
      assert d + rest == rest;
    } else {
      assert (d + rest)[1..] == d[1..] + rest;
      DigitSpanStops(d[1..], rest);
    }
  }

  lemma ReadPrintNat(n: nat, rest: string)
    requires NumberEnds(rest)
    ensures ReadNat(PrintNat(n) + rest) == Some((n, rest))
  {
    var d := PrintNat(n);
    DigitSpanStops(d, rest);
    assert (d + rest)[..|d|] == d && (d + rest)[|d|..] == rest;
    ParsePrintNat(n);
  }

  lemma ReadPrintInt(i: int, rest: string)
    requires NumberEnds(rest)
    ensures ReadInt(PrintInt(i) + rest) == Some((i, rest))
  {
    hide ReadNat;
    if i < 0 {
      var d := PrintNat(-i) + rest;
      ReadPrintNat(-i, rest);
      assert PrintInt(i) + rest == "-" + d;
      assert ("-" + d)[1..] == d;
    } else {
      ReadPrintNat(i, rest);
      assert (PrintInt(i) + rest)[0] == PrintNat(i)[0];
    }
  }

  /** What strconv.Atoi accepts: an optional sign, then digits, within 64 bits. */
  function Atoi(s: string): Option<int> {
    var digits := if s != [] && s[0] in "+-" then s[1..] else s;
    if digits == [] || !AllDigits(digits) then None
    else
      var n: int := ParseNat(digits);
      var v := if s[0] == '-' then -n else n;
      if -0x8000_0000_0000_0000 <= v < 0x8000_0000_0000_0000 then Some(v) else None
  }

  /** A number is its last digit behind the number without it. */
  lemma PrintNatDigits(n: nat, d: nat)
    requires d < 10
    ensures PrintNat(d) == ["0123456789"[d]]
    ensures n > 0 ==> PrintNat(10 * n + d) == PrintNat(n) + ["0123456789"[d]]
  {
    assert Digit(d) == "0123456789"[d];
    assert (10 * n + d) / 10 == n && (10 * n + d) % 10 == d;
  }

  /** A printed number is read back if it fits 64 bits, and refused otherwise. */
  lemma AtoiPrintAny(i: int)
    ensures Atoi(PrintInt(i)) == if -0x8000_0000_0000_0000 <= i < 0x8000_0000_0000_0000 then Some(i) else None
  {
    hide ParseNat;
    if i < 0 {
      ParsePrintNat(-i);
      assert PrintInt(i)[1..] == PrintNat(-i);
    } else {
      ParsePrintNat(i);
      assert IsDigit(PrintInt(i)[0]);
    }
  }

  /** Anything but digits behind at most one sign is refused, and so is nothing at all. */
  lemma AtoiRefuses(s: string)
    ensures (exists k :: 0 <= k < |s| && s[k] !in "0123456789" && !(k == 0 && s[k] in "+-")) ==> Atoi(s) == None
    ensures s in {"", "+", "-"} ==> Atoi(s) == None
  {
    hide ParseNat;
    if k :| 0 <= k < |s| && s[k] !in "0123456789" && !(k == 0 && s[k] in "+-") {
      assert !IsDigit(s[k]);
      var digits := if s[0] in "+-" then s[1..] else s;
      if s[0] in "+-" {
        assert digits[k - 1] == s[k];
      }
    }
  }

  /** A plus sign and leading zeros make no difference to a run of digits. */
  lemma AtoiAccepts(d: string)
    requires d != "" && AllDigits(d)
    ensures Atoi("+" + d) == Atoi(d) && Atoi("0" + d) == Atoi(d)
  {
    LeadingZero(d);
    assert ("+" + d)[1..] == d && !IsDigit('+') && !IsDigit('-');
    assert IsDigit(d[0]) && IsDigit('0');
    hide ParseNat, IsDigit;
  }

  lemma {:induction false} LeadingZero(d: string)
    requires AllDigits(d)
    ensures AllDigits("0" + d) && ParseNat("0" + d) == ParseNat(d)
    decreases |d|
  {
    if d == "" {
      assert ["0"[0]][..0] == [] && DigitValue('0') == 0 by { assert Digit(0) == '0'; }
      assert ("0" + d)[..0] == [];
    } else {
      var z := "0" + d;
      assert z[..|z| - 1] == "0" + d[..|d| - 1];
      LeadingZero(d[..|d| - 1]);
    }
  }

  /** Itoa and Atoi are inverse on 64-bit integers. */
  lemma AtoiPrintInt(i: int)
    requires -0x8000_0000_0000_0000 <= i < 0x8000_0000_0000_0000
    ensures Atoi(PrintInt(i)) == Some(i)
  {
    AtoiPrintAny(i);
  }
}
