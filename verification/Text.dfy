// Numbers as text, the way Rust's `parse` and `format!` read and write them.
module Text {
  import opened Basics

  predicate IsDigit(c: char) { '0' <= c <= '9' }

  function DigitValue(c: char): nat
    requires IsDigit(c)
  {
    (c as int) - ('0' as int)
  }

  function DigitChar(d: nat): (c: char)
    requires d < 10
    ensures IsDigit(c) && DigitValue(c) == d
  {
    (('0' as int) + d) as char
  }

  predicate AllDigits(s: string) { forall i :: 0 <= i < |s| ==> IsDigit(s[i]) }

  // The number a run of digits stands for.
  function DigitsValue(s: string): nat
    requires AllDigits(s)
  {
    if s == [] then 0 else 10 * DigitsValue(s[..|s| - 1]) + DigitValue(s[|s| - 1])
  }

  // `str::parse::<u64>` (no text here is long enough to overflow one): a
  // leading plus is taken, a minus is not.
  function ParseU64(s: string): Option<nat> {
    var digits := if s != [] && s[0] == '+' then s[1..] else s;
    if digits != [] && AllDigits(digits) then Some(DigitsValue(digits)) else None
  }

  // `str::parse::<i64>`: either sign is taken.
  function ParseI64(s: string): Option<int> {
    if s != [] && s[0] == '-' then
      var digits := s[1..];
      if digits != [] && AllDigits(digits) then (var n: int := DigitsValue(digits); Some(0 - n)) else None
    else
      match ParseU64(s)
      case Some(n) => Some(n)
      case None => None
  }

  predicate IsSpace(c: char) { c == ' ' || '\t' <= c <= '\r' }

  function TrimStart(s: string): string {
    if s != [] && IsSpace(s[0]) then TrimStart(s[1..]) else s
  }

  function TrimEnd(s: string): string {
    if s != [] && IsSpace(s[|s| - 1]) then TrimEnd(s[..|s| - 1]) else s
  }

  // `str::trim`.
  function Trim(s: string): string { TrimEnd(TrimStart(s)) }

  // `str::split_once`: the text either side of the first `sep`.
  function SplitOnce(s: string, sep: char): (r: Option<(string, string)>)
    ensures match r
      case None => sep !in s
      case Some((a, b)) => s == a + [sep] + b && sep !in a
  {
    if s == [] then None
    else if s[0] == sep then Some(([], s[1..]))
    else
      match SplitOnce(s[1..], sep)
      case None => None
      case Some((a, b)) => Some(([s[0]] + a, b))
  }

  // A number below a hundred as two digits, `{:02}`.
  function Pad2(n: nat): (s: string)
    requires n < 100
    ensures |s| == 2 && AllDigits(s)
  {
    [DigitChar(n / 10), DigitChar(n % 10)]
  }

  lemma Pad2Value(n: nat)
    requires n < 100
    ensures DigitsValue(Pad2(n)) == n
  {
    var s := Pad2(n);
    assert s[..1][..0] == [];
    assert DigitsValue(s[..1]) == n / 10;
  }

  // A number in decimal, `{}`.
  function Decimal(n: nat): (s: string)
    ensures s != [] && AllDigits(s)
  {
    if n < 10 then [DigitChar(n)] else Decimal(n / 10) + [DigitChar(n % 10)]
  }

  lemma {:induction false} DecimalValue(n: nat)
    ensures DigitsValue(Decimal(n)) == n
  {
    if n < 10 {
      assert Decimal(n)[..0] == [];
    } else {
      DecimalValue(n / 10);
      assert Decimal(n)[..|Decimal(n)| - 1] == Decimal(n / 10);
    }
  }

  // Four digits is what every year from 1000 to 9999 takes.
  lemma YearIsFourDigits(n: nat)
    requires 1000 <= n < 10000
    ensures |Decimal(n)| == 4
  {
    assert |Decimal(n / 1000)| == 1;
    assert |Decimal(n / 100)| == 2 by { assert n / 100 / 10 == n / 1000; }
    assert |Decimal(n / 10)| == 3 by { assert n / 10 / 10 == n / 100; }
  }
}
