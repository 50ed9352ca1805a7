/** Decimal text of integers (Python's str(n)) and Python's int(text) parser. */
module Numerals {
  import opened Wrappers
  import Text

  predicate IsDigit(c: char)
  {
    '0' <= c <= '9'
  }

  function DigitChar(d: nat): (c: char)
    requires d < 10
    ensures IsDigit(c)
  {
    (('0' as int) + d) as char
  }

  function DigitValue(c: char): (d: nat)
    requires IsDigit(c)
    ensures d < 10 && DigitChar(d) == c
  {
    (c as int) - ('0' as int)
  }

  /** The length of the run of digits s starts with. */
  function DigitRun(s: string): (n: nat)
    ensures n <= |s|
  {
    if s != [] && IsDigit(s[0]) then 1 + DigitRun(s[1..]) else 0
  }

  /** A run of digits ends exactly where the first other character stands. */
  lemma {:induction false} DigitRunIs(s: string, k: nat)
    requires k <= |s| && (forall i :: 0 <= i < k ==> IsDigit(s[i]))
    requires k == |s| || !IsDigit(s[k])
    ensures DigitRun(s) == k
  {
    if k > 0 {
      DigitRunIs(s[1..], k - 1);
    }
  }

  /** A run of digits stops at or before any non-digit. */
  lemma {:induction false} DigitRunBound(s: string, j: nat)
    requires j < |s| && !IsDigit(s[j])
    ensures DigitRun(s) <= j
  {
    if j > 0 && IsDigit(s[0]) {
      DigitRunBound(s[1..], j - 1);
    }
  }

  lemma {:induction false} DigitRunSpec(s: string)
    ensures forall i :: 0 <= i < DigitRun(s) ==> IsDigit(s[i])
    ensures DigitRun(s) == |s| || !IsDigit(s[DigitRun(s)])
  {
    if s != [] && IsDigit(s[0]) {
      DigitRunSpec(s[1..]);
    }
  }

  /** str(n) for n >= 0: decimal digits without leading zeros. */
  function Decimal(n: nat): (r: string)
    ensures |r| > 0 && forall i :: 0 <= i < |r| ==> IsDigit(r[i])
    ensures |r| > 1 ==> r[0] != '0'
    decreases n
  {
    if n < 10 then [DigitChar(n)] else Decimal(n / 10) + [DigitChar(n % 10)]
  }

  /** str(n) for any int. */
  function Show(n: int): string
  {
    if n < 0 then "-" + Decimal(-n) else Decimal(n)
  }

  /** The number of runs of ten decimal digits in Unicode 15.0 (general category Nd). */
  const RunCount := 68

  /**
   * The code point of the digit zero of the i-th run, in increasing order (the last run's
   * for any i past the end); each run holds the digits 0 to 9 at consecutive code points.
   */
  function RunZero(i: nat): int
  {
    match i
    case 0 => 0x30
    case 1 => 0x660
    case 2 => 0x6F0
    case 3 => 0x7C0
    case 4 => 0x966
    case 5 => 0x9E6
    case 6 => 0xA66
    case 7 => 0xAE6
    case 8 => 0xB66
    case 9 => 0xBE6
    case 10 => 0xC66
    case 11 => 0xCE6
    case 12 => 0xD66
    case 13 => 0xDE6
    case 14 => 0xE50
    case 15 => 0xED0
    case 16 => 0xF20
    case 17 => 0x1040
    case 18 => 0x1090
    case 19 => 0x17E0
    case 20 => 0x1810
    case 21 => 0x1946
    case 22 => 0x19D0
    case 23 => 0x1A80
    case 24 => 0x1A90
    case 25 => 0x1B50
    case 26 => 0x1BB0
    case 27 => 0x1C40
    case 28 => 0x1C50
    case 29 => 0xA620
    case 30 => 0xA8D0
    case 31 => 0xA900
    case 32 => 0xA9D0
    case 33 => 0xA9F0
    case 34 => 0xAA50
    case 35 => 0xABF0
    case 36 => 0xFF10
    case 37 => 0x104A0
    case 38 => 0x10D30
    case 39 => 0x11066
    case 40 => 0x110F0
    case 41 => 0x11136
    case 42 => 0x111D0
    case 43 => 0x112F0
    case 44 => 0x11450
    case 45 => 0x114D0
    case 46 => 0x11650
    case 47 => 0x116C0
    case 48 => 0x11730
    case 49 => 0x118E0
    case 50 => 0x11950
    case 51 => 0x11C50
    case 52 => 0x11D50
    case 53 => 0x11DA0
    case 54 => 0x11F50
    case 55 => 0x16A60
    case 56 => 0x16AC0
    case 57 => 0x16B50
    case 58 => 0x1D7CE
    case 59 => 0x1D7D8
    case 60 => 0x1D7E2
    case 61 => 0x1D7EC
    case 62 => 0x1D7F6
    case 63 => 0x1E140
    case 64 => 0x1E2F0
    case 65 => 0x1E4F0
    case 66 => 0x1E950
    case 67 => 0x1FBF0
    case _ => 0x1FBF0
  }

  /** z is zero(i') for some i' in i..count-1. */
  predicate ZeroFrom(z: int, i: nat, zero: nat -> int, count: nat)
    requires i <= count
    decreases count - i
  {
    i < count && (z == zero(i) || ZeroFrom(z, i + 1, zero, count))
  }

  /** Each of the first count zeros lies at least ten code points above the one before. */
  ghost predicate Spaced(zero: nat -> int, count: nat)
  {
    forall i: nat :: i + 1 < count ==> zero(i) + 10 <= zero(i + 1)
  }

  /** z is the code point of the digit zero of a run. */
  predicate DigitZero(z: int)
  {
    ZeroFrom(z, 0, RunZero, RunCount)
  }

  /** The least k' in k..9 such that n - k' is a run's zero: the value of n as a digit. */
  function DigitBack(n: int, k: nat): (d: Option<nat>)
    requires k <= 10
    ensures d.Some? ==> k <= d.value < 10 && DigitZero(n - d.value)
    ensures d.None? ==> forall z :: n - 10 < z <= n - k ==> !DigitZero(z)
    decreases 10 - k
  {
    if k == 10 then None else if DigitZero(n - k) then Some(k) else DigitBack(n, k + 1)
  }

  /**
   * int() reads every Unicode decimal digit, not just '0'..'9': a digit's value is its
   * distance from the zero of its run ("٤" is 4). None for any other character: no run
   * holds it.
   */
  function DecimalValue(c: char): (d: Option<nat>)
    ensures d.Some? ==> d.value < 10
    ensures IsDigit(c) ==> d == Some(DigitValue(c))
  {
    if IsDigit(c) then Some(DigitValue(c)) else DigitBack(c as int, 0)
  }

  /** A character has a value v exactly when it is v above a run's zero and no run holds it otherwise. */
  lemma DecimalValueSpec(c: char)
    ensures DecimalValue(c).Some? ==> DigitZero(c as int - DecimalValue(c).value)
    ensures DecimalValue(c).None? ==> forall z :: c as int - 10 < z <= c as int ==> !DigitZero(z)
  {
    assert RunZero(0) == '0' as int;
  }

  /** The runs never overlap: each zero lies at least ten code points above the one before. */
  lemma RunsSpaced()
    ensures Spaced(RunZero, RunCount)
  {
    forall i: nat | i + 1 < RunCount ensures RunZero(i) + 10 <= RunZero(i + 1) {
      if i < 17 {
      } else if i < 34 {
      } else if i < 51 {
      }
    }
  }

  lemma {:induction false} SpacedOrdered(zero: nat -> int, count: nat, i: nat, j: nat)
    requires Spaced(zero, count) && i < j < count
    ensures zero(i) + 10 <= zero(j)
    decreases j - i
  {
    if i < j - 1 {
      SpacedOrdered(zero, count, i, j - 1);
    }
  }

  /** Nothing below the i-th zero is a zero from the i-th on. */
  lemma {:induction false} BelowZeros(z: int, i: nat, zero: nat -> int, count: nat)
    requires Spaced(zero, count) && i < count && z < zero(i)
    ensures !ZeroFrom(z, i, zero, count)
    decreases count - i
  {
    if i + 1 < count {
      BelowZeros(z, i + 1, zero, count);
    }
  }

  /** The i-th zero is listed from every earlier position on. */
  lemma {:induction false} ZeroListed(i: nat, j: nat, zero: nat -> int, count: nat)
    requires j <= i < count
    ensures ZeroFrom(zero(i), j, zero, count)
    decreases i - j
  {
    if j < i {
      ZeroListed(i, j + 1, zero, count);
    }
  }

  /** None of the nine code points after the i-th zero is a zero. */
  lemma {:induction false} InsideRun(z: int, i: nat, j: nat, zero: nat -> int, count: nat)
    requires Spaced(zero, count) && j <= i < count && zero(i) < z < zero(i) + 10
    ensures !ZeroFrom(z, j, zero, count)
    decreases i - j
  {
    if j < i {
      SpacedOrdered(zero, count, j, i);
      InsideRun(z, i, j + 1, zero, count);
    } else if i + 1 < count {
      BelowZeros(z, i + 1, zero, count);
    }
  }

  /** Searching back from v above a zero with no zero among the nine after it finds v. */
  lemma {:induction false} DigitBackFinds(z: int, v: nat, k: nat)
    requires DigitZero(z) && forall y :: z < y < z + 10 ==> !DigitZero(y)
    requires k <= v < 10
    ensures DigitBack(z + v, k) == Some(v)
    decreases v - k
  {
    if k < v {
      var y := z + v - k;
      assert z < y < z + 10;
      assert !DigitZero(y);
      DigitBackFinds(z, v, k + 1);
    }
  }

  /**
   * The digit v of any run is read as v. With DecimalValue's contract this is exact: a
   * character has a value exactly when it lies in a run, and the value is its place there.
   */
  lemma RunDigit(c: char, i: nat, v: nat)
    requires i < RunCount && v < 10 && c as int == RunZero(i) + v
    ensures DecimalValue(c) == Some(v)
  {
    if 0 < i {
      RunsSpaced();
      SpacedOrdered(RunZero, RunCount, 0, i);
      ZeroListed(i, 0, RunZero, RunCount);
      forall y | RunZero(i) < y < RunZero(i) + 10 ensures !DigitZero(y) {
        InsideRun(y, i, 0, RunZero, RunCount);
      }
      DigitBackFinds(RunZero(i), v, 0);
    }
  }

  /**
   * The digit part of int(text): a non-empty run of decimal digits in which single
   * underscores may stand between two digits ("1_000"); leading zeros are accepted.
   */
  function ParseDigits(s: string): Option<nat>
    decreases |s|
  {
    if s == [] || DecimalValue(s[|s| - 1]).None? then None
    else if |s| == 1 then DecimalValue(s[0])
    else
      var rest := if s[|s| - 2] == '_' then s[..|s| - 2] else s[..|s| - 1];
      match ParseDigits(rest)
      case None => None
      case Some(v) => Some(10 * v + DecimalValue(s[|s| - 1]).value)
  }

  /** A numeral without surrounding whitespace: an optional sign, then digits. */
  function ParseNumeral(s: string): Option<int>
  {
    if s != [] && (s[0] == '+' || s[0] == '-') then
      match ParseDigits(s[1..])
      case None => None
      case Some(v) => var n: int := v; Some(if s[0] == '-' then -n else n)
    else
      match ParseDigits(s)
      case None => None
      case Some(v) => Some(v)
  }

  /** Python's int(text) in base 10: surrounding whitespace is ignored. */
  function ParseInt(text: string): Option<int>
  {
    ParseNumeral(Text.Strip(text))
  }

  lemma {:induction false} ParseDecimal(n: nat)
    ensures ParseDigits(Decimal(n)) == Some(n)
    decreases n
  {
    if n >= 10 {
      var s := Decimal(n);
      var p := Decimal(n / 10);
      assert s == p + [DigitChar(n % 10)];
      assert s[..|s| - 1] == p;
      assert s[|s| - 2] == p[|p| - 1];
      ParseDecimal(n / 10);
    }
  }

  lemma ParseNumeralShow(n: int)
    ensures ParseNumeral(Show(n)) == Some(n)
  {
    var s := Show(n);
    assert s[0] != '+';
    if n < 0 {
      assert s[1..] == Decimal(-n);
      ParseDecimal(-n);
    } else {
      ParseDecimal(n);
    }
  }

  /** The decimal text has no surrounding whitespace. */
  lemma StripShow(n: int)
    ensures Text.Strip(Show(n)) == Show(n)
  {
    Text.StripUnchanged(Show(n), Text.Spaces);
  }

  /** int(str(n)) == n: the decimal text of a number parses back to it. */
  lemma ParseShow(n: int)
    ensures ParseInt(Show(n)) == Some(n)
  {
    StripShow(n);
    ParseNumeralShow(n);
  }

  /** int("٤٢") == 42 and int("４_２") == 42: Arabic-Indic and fullwidth digits count as digits. */
  lemma ParseOtherDigits()
    ensures ParseInt(['\U{0664}', '\U{0662}']) == Some(42)
    ensures ParseInt(['\U{FF14}', '_', '\U{FF12}']) == Some(42)
  {
    var a := ['\U{0664}', '\U{0662}'];
    RunDigit(a[0], 1, 4);
    RunDigit(a[1], 1, 2);
    assert a[..1] == [a[0]];
    Text.StripUnchanged(a, Text.Spaces);
    var f := ['\U{FF14}', '_', '\U{FF12}'];
    RunDigit(f[0], 36, 4);
    RunDigit(f[2], 36, 2);
    assert f[..1] == [f[0]];
    Text.StripUnchanged(f, Text.Spaces);
  }

  /** The text of an integer never parses as another integer. */
  lemma ShowInjective(m: int, n: int)
    requires Show(m) == Show(n)
    ensures m == n
  {
    ParseShow(m);
    ParseShow(n);
  }
}
