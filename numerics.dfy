/** Python numbers as far as the ingestion path needs them: floats that may be
    infinite or NaN, the built-in round, and the decimal text of str(int). */
module Numerics {

  import opened Basics

  /** A Python float. Its IEEE-754 bit layout is not modelled; only whether it is
      finite, and its value when it is. */
  datatype Float = Finite(value: real) | Infinite(negative: bool) | NaN

  /** What round(x) raises for a non-finite x: ValueError for NaN, OverflowError
      for an infinity. */
  datatype RoundError = NaNToInteger | InfinityToInteger

  /** Python's round(x) with one argument on a finite value: the nearest integer,
      ties to the even neighbour. */
  function RoundHalfEven(x: real): (n: int)
    ensures x - 0.5 <= n as real <= x + 0.5
    ensures n as real == x - 0.5 || n as real == x + 0.5 ==> n % 2 == 0
  {
    var f := x.Floor;
    var d := x - f as real;
    if d < 0.5 then f
    else if d > 0.5 then f + 1
    else if f % 2 == 0 then f
    else f + 1
  }

  /** The two properties above pin the result down: round-half-even is the only
      integer within one half of x that is even whenever it sits exactly halfway. */
  lemma RoundHalfEvenUnique(x: real, n: int)
    requires x - 0.5 <= n as real <= x + 0.5
    requires n as real == x - 0.5 || n as real == x + 0.5 ==> n % 2 == 0
    ensures n == RoundHalfEven(x)
  {
  }

  /** round(x) == 1 holds exactly on the open interval (0.5, 1.5): 0.5 and 1.5
      both round to the even neighbours 0 and 2. */
  lemma RoundIsOneIff(x: real)
    ensures RoundHalfEven(x) == 1 <==> 0.5 < x < 1.5
  {
    var n := RoundHalfEven(x);
    if 0.5 < x < 1.5 {
      assert 0.0 < n as real < 2.0;
    }
    if n == 1 {
      assert x != 0.5 && x != 1.5;
    }
  }

  /** Python's round(v): an integer for a finite float, an exception otherwise. */
  function Round(v: Float): Result<int, RoundError>
  {
    match v
    case Finite(x) => Ok(RoundHalfEven(x))
    case Infinite(_) => Err(InfinityToInteger)
    case NaN => Err(NaNToInteger)
  }

  predicate IsDigit(c: char)
  {
    '0' <= c <= '9'
  }

  predicate AllDigits(s: string)
  {
    forall i :: 0 <= i < |s| ==> IsDigit(s[i])
  }

  function DigitValue(c: char): int
    requires IsDigit(c)
  {
    c as int - '0' as int
  }

  function Digit(d: int): (c: char)
    requires 0 <= d < 10
    ensures IsDigit(c) && DigitValue(c) == d
  {
    ('0' as int + d) as char
  }

  /** str(n) for a natural number: its shortest decimal digit string. */
  function NatText(n: nat): (s: string)
    ensures |s| >= 1 && AllDigits(s)
    ensures s[0] == '0' ==> n == 0 && s == "0"
    decreases n
  {
    if n < 10 then [Digit(n)] else NatText(n / 10) + [Digit(n % 10)]
  }

  /** The number a digit string denotes. */
  function TextValue(s: string): nat
    requires AllDigits(s)
    decreases |s|
  {
    if s == [] then 0 else 10 * TextValue(s[..|s| - 1]) + DigitValue(s[|s| - 1])
  }

  lemma {:induction false} NatTextValue(n: nat)
    ensures TextValue(NatText(n)) == n
    decreases n
  {
    if n >= 10 {
      NatTextValue(n / 10);
      var s := NatText(n);
      assert s[..|s| - 1] == NatText(n / 10);
    }
  }

  /** str(i) for a Python int. */
  function IntText(i: int): string
  {
    if i < 0 then "-" + NatText(-i) else NatText(i)
  }

  /** int(s) on the texts str() of an int writes: an optional minus sign
      followed by digits. Every other text is None here, although int() also
      takes a leading "+", surrounding whitespace and "_" between digits. */
  function IntOfText(s: string): Option<int>
  {
    if |s| > 1 && s[0] == '-' && AllDigits(s[1..]) then Some(-(TextValue(s[1..]) as int))
    else if |s| > 0 && AllDigits(s) then Some(TextValue(s))
    else None
  }

  /** int(str(i)) == i. */
  lemma IntTextRoundTrip(i: int)
    ensures IntOfText(IntText(i)) == Some(i)
  {
    if i < 0 {
      assert IntText(i)[1..] == NatText(-i);
      NatTextValue(-i);
    } else {
      assert IntText(i)[0] != '-' by {
        assert IsDigit(NatText(i)[0]);
      }
      NatTextValue(i);
    }
  }

  /** Distinct integers have distinct decimal texts, so comparing str(i) is
      comparing i. */
  lemma IntTextInjective(a: int, b: int)
    requires IntText(a) == IntText(b)
    ensures a == b
  {
    IntTextRoundTrip(a);
    IntTextRoundTrip(b);
  }

  /** The value of a two- or four-digit field. */
  function Value2(s: string): int
    requires |s| == 2 && AllDigits(s)
  {
    10 * DigitValue(s[0]) + DigitValue(s[1])
  }

  function Value4(s: string): int
    requires |s| == 4 && AllDigits(s)
  {
    100 * Value2(s[..2]) + Value2(s[2..])
  }

  /** A zero-padded two-digit field, as strftime's %m, %d, %H, %M, %S write it. */
  function Pad2(n: int): (s: string)
    requires 0 <= n < 100
    ensures |s| == 2 && AllDigits(s) && Value2(s) == n
  {
    [Digit(n / 10), Digit(n % 10)]
  }

  /** A zero-padded four-digit year field, as strftime's %Y. */
  function Pad4(n: int): (s: string)
    requires 0 <= n < 10000
    ensures |s| == 4 && AllDigits(s) && Value4(s) == n
  {
    var s := Pad2(n / 100) + Pad2(n % 100);
    assert s[..2] == Pad2(n / 100) && s[2..] == Pad2(n % 100);
    s
  }

  lemma Pad2OfValue(s: string)
    requires |s| == 2 && AllDigits(s)
    ensures Pad2(Value2(s)) == s
  {
    var n := Value2(s);
    assert n / 10 == DigitValue(s[0]) && n % 10 == DigitValue(s[1]);
  }

  lemma Pad4OfValue(s: string)
    requires |s| == 4 && AllDigits(s)
    ensures Pad4(Value4(s)) == s
  {
    var n := Value4(s);
    assert n / 100 == Value2(s[..2]) && n % 100 == Value2(s[2..]);
    Pad2OfValue(s[..2]);
    Pad2OfValue(s[2..]);
    assert s == s[..2] + s[2..];
  }
}
