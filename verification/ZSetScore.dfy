/** Score texts of sorted sets: "%li" as stored value and "%021li" in the index key. */
module ZSetScore {
  import opened Bytes
  import opened Decimal

  const MIN64: int := -0x8000_0000_0000_0000
  const MAX64: int := 0x7FFF_FFFF_FFFF_FFFF
  const WIDTH: nat := 21

  predicate Is64(x: int) {
    MIN64 <= x <= MAX64
  }

  /** Two's-complement wrap-around of 64-bit addition. */
  function Wrap64(x: int): (r: int)
    ensures Is64(r) && (Is64(x) ==> r == x)
    ensures exists k: int :: r == x + k * 0x1_0000_0000_0000_0000
  {
    assert (x - MIN64) % 0x1_0000_0000_0000_0000 ==
           (x - MIN64) + -((x - MIN64) / 0x1_0000_0000_0000_0000) * 0x1_0000_0000_0000_0000;
    (x - MIN64) % 0x1_0000_0000_0000_0000 + MIN64
  }

  /** Wrapping in between makes no difference to a sum. */
  lemma WrapSum(x: int, y: int)
    ensures Wrap64(Wrap64(x) + y) == Wrap64(x + y)
  {
    var k: int :| Wrap64(x) == x + k * 0x1_0000_0000_0000_0000;
    WrapShift(x + y, k);
  }

  lemma WrapShift(x: int, k: int)
    ensures Wrap64(x + k * 0x1_0000_0000_0000_0000) == Wrap64(x)
  {
  }

  function Zeros(k: nat): (z: Bytes)
    ensures |z| == k && forall i :: 0 <= i < k ==> z[i] == ZERO
  {
    if k == 0 then [] else [ZERO] + Zeros(k - 1)
  }

  function Pad(n: nat, width: nat): Bytes {
    var d := Digits(n);
    Zeros(if |d| < width then width - |d| else 0) + d
  }

  function ScoreText(x: int): Bytes {
    if x < 0 then [MINUS] + Digits(-x) else Digits(x)
  }

  function Score21(x: int): Bytes {
    if x < 0 then [MINUS] + Pad(-x, WIDTH - 1) else Pad(x, WIDTH)
  }

  /** db_strtoll on the texts written by "%li". */
  function ParseScore(s: Bytes): Option<int> {
    if s != [] && s[0] == MINUS then
      if |s| > 1 && AllDigits(s[1..]) && Is64(0 - Value(s[1..])) then Some(0 - Value(s[1..])) else None
    else if s != [] && AllDigits(s) && Is64(Value(s)) then Some(Value(s)) else None
  }

  lemma ParseScoreText(x: int)
    requires Is64(x)
    ensures ParseScore(ScoreText(x)) == Some(x)
  {
    if x < 0 {
      ValueOfDigits(-x);
      assert ScoreText(x)[1..] == Digits(-x);
    } else {
      ValueOfDigits(x);
      assert IsDigit(Digits(x)[0]);
    }
  }

  lemma PadFacts(n: nat, width: nat)
    requires n <= 0x8000_0000_0000_0000 && width >= 19
    ensures |Pad(n, width)| == width && AllDigits(Pad(n, width)) && Value(Pad(n, width)) == n
  {
    assert Pow10(19) == 10_000_000_000_000_000_000 by {
      assert Pow10(5) == 100000;
      assert Pow10(10) == 10000000000;
      assert Pow10(15) == 1000000000000000;
    }
    DigitsLength(n, 19);
    ValueOfDigits(n);
    ValueOfPadded(Zeros(width - |Digits(n)|), Digits(n));
  }

  /** The index text of every 64-bit score has 21 characters. */
  lemma Score21Length(x: int)
    requires Is64(x)
    ensures |Score21(x)| == 21
  {
    if x < 0 { PadFacts(-x, WIDTH - 1); } else { PadFacts(x, WIDTH); }
  }

  // ---------------------------------------------------------------- order

  /** Byte-wise order, as the storage compares keys. */
  predicate LexLess(a: Bytes, b: Bytes) {
    b != [] && (a == [] || a[0] < b[0] || (a[0] == b[0] && LexLess(a[1..], b[1..])))
  }

  predicate LexLeq(a: Bytes, b: Bytes) {
    a == b || LexLess(a, b)
  }

  lemma {:induction false} LexSnoc(x: Bytes, c: byte, y: Bytes, d: byte)
    requires |x| == |y|
    ensures LexLess(x + [c], y + [d]) <==> LexLess(x, y) || (x == y && c < d)
  {
    if x == [] {
      assert ([] + [c])[1..] == [] && ([] + [d])[1..] == [];
    } else {
      assert (x + [c])[1..] == x[1..] + [c] && (y + [d])[1..] == y[1..] + [d];
      LexSnoc(x[1..], c, y[1..], d);
      assert x == y <==> x[0] == y[0] && x[1..] == y[1..] by {
        assert x == [x[0]] + x[1..] && y == [y[0]] + y[1..];
      }
    }
  }

  /** Digit strings of one length are ordered like their values. */
  lemma {:induction false} ValueOrder(x: Bytes, y: Bytes)
    requires |x| == |y| && AllDigits(x) && AllDigits(y)
    ensures LexLess(x, y) <==> Value(x) < Value(y)
    ensures Value(x) == Value(y) ==> x == y
  {
    if x != [] {
      var n := |x| - 1;
      var a, c, b, d := x[..n], x[n], y[..n], y[n];
      assert x == a + [c] && y == b + [d];
      ValueOrder(a, b);
      LexSnoc(a, c, b, d);
      assert a == b ==> Value(a) == Value(b);
    }
  }

  lemma Score21Injective(a: int, b: int)
    requires Is64(a) && Is64(b) && Score21(a) == Score21(b)
    ensures a == b
  {
    hide Pad;
    if a < 0 { PadFacts(-a, WIDTH - 1); assert Score21(a)[1..] == Pad(-a, WIDTH - 1); }
    else { PadFacts(a, WIDTH); assert IsDigit(Pad(a, WIDTH)[0]); }
    if b < 0 { PadFacts(-b, WIDTH - 1); assert Score21(b)[1..] == Pad(-b, WIDTH - 1); }
    else { PadFacts(b, WIDTH); assert IsDigit(Pad(b, WIDTH)[0]); }
  }

  /** The index orders scores by number, except that two negative scores come in the
      opposite order. */
  lemma Score21Order(a: int, b: int)
    requires Is64(a) && Is64(b)
    ensures LexLess(Score21(a), Score21(b)) <==> if a < 0 && b < 0 then b < a else a < b
  {
    hide Pad;
    if a < 0 { PadFacts(-a, WIDTH - 1); assert Score21(a)[1..] == Pad(-a, WIDTH - 1); }
    else { PadFacts(a, WIDTH); assert IsDigit(Pad(a, WIDTH)[0]); }
    if b < 0 { PadFacts(-b, WIDTH - 1); assert Score21(b)[1..] == Pad(-b, WIDTH - 1); }
    else { PadFacts(b, WIDTH); assert IsDigit(Pad(b, WIDTH)[0]); }
    if a < 0 && b < 0 {
      ValueOrder(Pad(-a, WIDTH - 1), Pad(-b, WIDTH - 1));
    } else if a >= 0 && b >= 0 {
      ValueOrder(Pad(a, WIDTH), Pad(b, WIDTH));
    }
  }

  /** A range read by score starts at the text of min and stops behind the text of max. */
  predicate InTextRange(min: int, x: int, max: int) {
    LexLeq(Score21(min), Score21(x)) && LexLeq(Score21(x), Score21(max))
  }

  lemma TextRangeIs(min: int, x: int, max: int)
    requires Is64(min) && Is64(x) && Is64(max)
    ensures InTextRange(min, x, max) <==>
      && (if min < 0 && x < 0 then x <= min else min <= x)
      && (if x < 0 && max < 0 then max <= x else x <= max)
  {
    hide Score21, LexLess;
    Score21Order(min, x);
    Score21Order(x, max);
    if Score21(min) == Score21(x) { Score21Injective(min, x); }
    if Score21(x) == Score21(max) { Score21Injective(x, max); }
  }

  /** The range from -2 to 0 does not return -1. */
  lemma NegativeRangeExample()
    ensures !InTextRange(-2, -1, 0)
  {
    hide InTextRange;
    TextRangeIs(-2, -1, 0);
  }

  /** A range read returns exactly the scores between min and max if and only if min is not
      negative or the range is a single score. */
  lemma RangeExact(min: int, max: int)
    requires Is64(min) && Is64(max) && min <= max
    ensures (forall x :: Is64(x) ==> (InTextRange(min, x, max) <==> min <= x <= max)) <==> min >= 0 || min == max
  {
    hide InTextRange;
    forall x | Is64(x)
      ensures InTextRange(min, x, max) <==>
        (if min < 0 && x < 0 then x <= min else min <= x) && (if x < 0 && max < 0 then max <= x else x <= max)
    {
      TextRangeIs(min, x, max);
    }
    if min < 0 && min != max {
      var bad := if max < 0 then min else if min == -1 then -2 else -1;
      assert Is64(bad) && !(InTextRange(min, bad, max) <==> min <= bad <= max);
    }
  }
}
