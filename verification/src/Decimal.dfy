/**
 Decimal printing and parsing, as used for week keys and migration file names.
 */
module Decimal {
  import opened Wrappers

  function DigitChar(d: nat): char
    requires d < 10
  {
    '0' + d as char
  }

  predicate IsDigit(c: char) {
    '0' <= c <= '9'
  }

  function DigitValue(c: char): nat
    requires IsDigit(c)
  {
    c as int - '0' as int
  }

  predicate AllDigits(s: string) {
    forall i :: 0 <= i < |s| ==> IsDigit(s[i])
  }

  /** %d of a non-negative number. */
  function PrintNat(n: nat): (s: string)
    ensures s != [] && AllDigits(s)
    ensures |s| > 1 ==> s[0] != '0'
  {
    if n < 10 then [DigitChar(n)] else PrintNat(n / 10) + [DigitChar(n % 10)]
  }

  /** %d of any number. */
  function PrintInt(n: int): string {
    if n < 0 then "-" + PrintNat(-n) else PrintNat(n)
  }

  /** Zeros in front up to the given width. */
  function Pad(s: string, width: nat): (p: string)
    ensures |p| == if |s| < width then width else |s|
    ensures AllDigits(s) ==> AllDigits(p)
    decreases width - |s|
  {
    if |s| < width then Pad("0" + s, width) else s
  }

  function Value(s: string): nat
    requires AllDigits(s)
  {
    if s == [] then 0 else Value(s[..|s| - 1]) * 10 + DigitValue(s[|s| - 1])
  }

  /** Unsigned parsing below a limit: digits only, at least one. */
  function ParseUint(s: string, limit: nat): Result<nat> {
    if s != [] && AllDigits(s) && Value(s) < limit then Success(Value(s)) else Failure
  }

  const INT_LIMIT: int := 0x8000_0000_0000_0000

  /** Signed parsing of a machine integer: an optional sign, then digits. */
  function Atoi(s: string): Result<int> {
    var negative := s != [] && s[0] == '-';
    var digits := if s != [] && (s[0] == '-' || s[0] == '+') then s[1..] else s;
    match ParseUint(digits, if negative then INT_LIMIT + 1 else INT_LIMIT)
    case Success(v) =>
      var n: int := v;
      Success(if negative then -n else n)
    case Failure => Failure
  }

  lemma {:induction false} ValueOfPrinted(n: nat)
    ensures Value(PrintNat(n)) == n
  {
    if n < 10 {
    } else {
      ValueOfPrinted(n / 10);
      var s := PrintNat(n);
      assert s[..|s| - 1] == PrintNat(n / 10);
    }
  }

  lemma {:induction false} LeadingZero(s: string)
    requires AllDigits(s)
    ensures AllDigits("0" + s) && Value("0" + s) == Value(s)
  {
    var z := "0" + s;
    if s == [] {
      assert z[..|z| - 1] == [];
    } else {
      LeadingZero(s[..|s| - 1]);
      assert z[..|z| - 1] == "0" + s[..|s| - 1];
    }
  }

  lemma {:induction false} ValueOfPadded(s: string, width: nat)
    requires AllDigits(s)
    ensures Value(Pad(s, width)) == Value(s)
    decreases width - |s|
  {
    if |s| < width {
      LeadingZero(s);
      ValueOfPadded("0" + s, width);
    }
  }

  /** A number with k digits lies between the powers of ten around it. */
  lemma {:induction false} PrintedLength(n: nat)
    ensures |PrintNat(n)| == 1 <==> n < 10
    ensures |PrintNat(n)| == 2 <==> 10 <= n < 100
    ensures |PrintNat(n)| == 3 <==> 100 <= n < 1000
    ensures |PrintNat(n)| == 4 <==> 1000 <= n < 10000
  {
    if n < 10 {
    } else {
      PrintedLength(n / 10);
    }
  }

  /** Parsing inverts printing, for every machine integer. */
  lemma AtoiInvertsPrint(n: int)
    requires -INT_LIMIT <= n < INT_LIMIT
    ensures Atoi(PrintInt(n)) == Success(n)
  {
    ValueOfPrinted(if n < 0 then -n else n);
    assert n < 0 ==> PrintInt(n)[1..] == PrintNat(-n);
  }
}
