/** Decimal digits: the value of a digit run read left to right, and the
    '%d' rendering of an integer. */
module Digits {

  predicate IsDigit(ch: char) {
    '0' <= ch <= '9'
  }

  function DigitValue(ch: char): (d: nat)
    requires IsDigit(ch)
    ensures d < 10
  {
    ch as int - '0' as int
  }

  function DigitChar(d: nat): (ch: char)
    requires d < 10
    ensures IsDigit(ch) && DigitValue(ch) == d
  {
    ('0' as int + d) as char
  }

  predicate AllDigits(ds: seq<char>)
    decreases |ds|
  {
    |ds| == 0 || (IsDigit(ds[0]) && AllDigits(ds[1..]))
  }

  lemma {:induction false} AllDigitsAt(ds: seq<char>, i: nat)
    requires AllDigits(ds) && i < |ds|
    ensures IsDigit(ds[i])
    decreases i
  {
    if 0 < i {
      AllDigitsAt(ds[1..], i - 1);
    }
  }

  lemma {:induction false} AllDigitsAppend(a: seq<char>, b: seq<char>)
    requires AllDigits(a) && AllDigits(b)
    ensures AllDigits(a + b)
    decreases |a|
  {
    if |a| == 0 {
      assert a + b == b;
    } else {
      assert (a + b)[1..] == a[1..] + b;
      AllDigitsAppend(a[1..], b);
    }
  }

  /** The number obtained by appending the digits ds, left to right, to the
      number acc (the reference meaning of a digit run). */
  function Accumulate(acc: nat, ds: seq<char>): nat
    requires AllDigits(ds)
    decreases |ds|
  {
    if |ds| == 0 then acc else Accumulate(acc * 10 + DigitValue(ds[0]), ds[1..])
  }

  /** The value of a digit run. */
  function Value(ds: seq<char>): nat
    requires AllDigits(ds)
  {
    Accumulate(0, ds)
  }

  function Pow10(k: nat): nat {
    if k == 0 then 1 else 10 * Pow10(k - 1)
  }

  /** The '%d' rendering of a natural number. */
  function Decimal(n: nat): (r: seq<char>)
    ensures 1 <= |r|
    decreases n
  {
    if n < 10 then [DigitChar(n)] else Decimal(n / 10) + [DigitChar(n % 10)]
  }

  /** The leading digit of n. */
  function Leading(n: nat): (d: nat)
    ensures d < 10
    decreases n
  {
    if n < 10 then n else Leading(n / 10)
  }

  /** The rendering of a natural number is a digit run that starts with
      its leading digit, which is '0' only when the rendering is "0". */
  lemma {:induction false} DecimalDigits(n: nat)
    ensures AllDigits(Decimal(n)) && Decimal(n)[0] == DigitChar(Leading(n))
    ensures Leading(n) == 0 ==> n == 0 && |Decimal(n)| == 1
    decreases n
  {
    if 10 <= n {
      var d := [DigitChar(n % 10)];
      DecimalDigits(n / 10);
      AllDigitsAppend(Decimal(n / 10), d);
      assert Decimal(n)[0] == Decimal(n / 10)[0];
    }
  }

  /** The '%d' rendering of an integer. */
  function Render(x: int): (r: seq<char>)
    ensures 1 <= |r|
  {
    if x < 0 then "-" + Decimal(-x) else Decimal(x)
  }

  /** A rendering starts with a minus sign exactly when the integer is negative. */
  lemma RenderSign(x: int)
    ensures Render(x)[0] == '-' <==> x < 0
  {
    if 0 <= x {
      DecimalDigits(x);
      AllDigitsAt(Decimal(x), 0);
    }
  }

  /** The number of digits '%d' writes for n. */
  function DigitCount(n: nat): (k: nat)
    ensures 1 <= k
    decreases n
  {
    if n < 10 then 1 else DigitCount(n / 10) + 1
  }

  /** The number of characters '%d' writes for x: the digits of its
      magnitude, after a minus sign when it is negative. */
  function Span(x: int): (k: nat)
    ensures 1 <= k
  {
    if x < 0 then 1 + DigitCount(-x) else DigitCount(x)
  }

  lemma {:induction false} DecimalCount(n: nat)
    ensures |Decimal(n)| == DigitCount(n)
    decreases n
  {
    if 10 <= n {
      DecimalCount(n / 10);
    }
  }

  lemma RenderSpan(x: int)
    ensures |Render(x)| == Span(x)
  {
    if x < 0 {
      DecimalCount(-x);
    } else {
      DecimalCount(x);
    }
  }

  lemma {:induction false} AccumulateAppend(acc: nat, a: seq<char>, b: seq<char>)
    requires AllDigits(a) && AllDigits(b)
    ensures AllDigits(a + b)
    ensures Accumulate(acc, a + b) == Accumulate(Accumulate(acc, a), b)
    decreases |a|
  {
    if |a| == 0 {
      assert a + b == b;
    } else {
      assert (a + b)[1..] == a[1..] + b;
      AccumulateAppend(acc * 10 + DigitValue(a[0]), a[1..], b);
    }
  }

  /** Appending digits never makes a number smaller. */
  lemma {:induction false} AccumulateAtLeast(acc: nat, ds: seq<char>)
    requires AllDigits(ds)
    ensures acc <= Accumulate(acc, ds)
    decreases |ds|
  {
    if |ds| > 0 {
      AccumulateAtLeast(acc * 10 + DigitValue(ds[0]), ds[1..]);
    }
  }

  /** Reading back a rendered number gives the number. */
  lemma {:induction false} ValueOfDecimal(n: nat)
    ensures AllDigits(Decimal(n)) && Value(Decimal(n)) == n
    decreases n
  {
    DecimalDigits(n);
    if n >= 10 {
      var d := [DigitChar(n % 10)];
      ValueOfDecimal(n / 10);
      AccumulateAppend(0, Decimal(n / 10), d);
      assert d[1..] == [];
      assert Accumulate(n / 10, d) == n / 10 * 10 + n % 10;
    } else {
      var d := [DigitChar(n)];
      assert d[1..] == [];
      assert Accumulate(0, d) == Accumulate(n, d[1..]);
    }
  }

  /** A number below 10^k has at most k digits (k >= 1). */
  lemma {:induction false} DecimalLength(n: nat, k: nat)
    requires 1 <= k && n < Pow10(k)
    ensures |Decimal(n)| <= k
    decreases n
  {
    if n >= 10 {
      assert Pow10(k) == 10 * Pow10(k - 1);
      assert Pow10(0) == 1;
      DecimalLength(n / 10, k - 1);
    }
  }

  /** A 32-bit 'int' renders in at most 11 characters. */
  lemma RenderLength(x: int)
    requires -0x8000_0000 <= x <= 0x7fff_ffff
    ensures |Render(x)| <= 11
  {
    assert Pow10(10) == 10_000_000_000;
    if x < 0 {
      DecimalLength(-x, 10);
    } else {
      DecimalLength(x, 10);
    }
  }

  /** Concatenation is associative: a + b + c is a + (b + c). */
  lemma Regroup<T>(a: seq<T>, b: seq<T>, c: seq<T>)
    ensures a + (b + c) == (a + b) + c
  {
  }
}
