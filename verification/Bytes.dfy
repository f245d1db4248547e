/** Bytes, byte strings and the option type shared by all modules. */
module Bytes {

  type byte = x: int | 0 <= x < 256

  type Bytes = seq<byte>

  datatype Option<+T> = None | Some(value: T)

  const TAB: byte := 9
  const LF: byte := 10
  const CR: byte := 13
  const SPACE: byte := 32
  const DQUOTE: byte := 34
  const DOLLAR: byte := 36
  const PERCENT: byte := 37
  const SQUOTE: byte := 39
  const STAR: byte := 42
  const MINUS: byte := 45
  const ZERO: byte := 48
  const COLON: byte := 58
  const QUESTION: byte := 63
  const BACKSLASH: byte := 92
  const BAR: byte := 124

  predicate IsAscii(s: string) {
    forall i :: 0 <= i < |s| ==> s[i] as int < 128
  }

  /** The bytes of a text. */
  function Ascii(s: string): (b: Bytes)
    requires IsAscii(s)
    ensures |b| == |s| && forall i :: 0 <= i < |s| ==> b[i] == s[i] as int
  {
    seq(|s|, i requires 0 <= i < |s| => s[i] as int)
  }

  /** The concatenation of a list of byte strings. */
  function Flat(chunks: seq<Bytes>): Bytes {
    if chunks == [] then [] else chunks[0] + Flat(chunks[1..])
  }

  /** Index of the first line feed at or after i, or |b|. */
  function FindLF(b: Bytes, i: nat): (k: nat)
    requires i <= |b|
    ensures i <= k <= |b|
    ensures k < |b| ==> b[k] == LF
    ensures forall j :: i <= j < k ==> b[j] != LF
    decreases |b| - i
  {
    if i == |b| || b[i] == LF then i else FindLF(b, i + 1)
  }

  lemma FindLFIs(b: Bytes, i: nat, k: nat)
    requires i <= k < |b| && b[k] == LF
    requires forall j :: i <= j < k ==> b[j] != LF
    ensures FindLF(b, i) == k
  {
  }

  lemma FindLFOfPrefix(p: Bytes, s: Bytes, i: nat)
    requires i <= |p|
    ensures FindLF(p, i) < |p| ==> FindLF(p + s, i) == FindLF(p, i)
  {
    if FindLF(p, i) < |p| {
      FindLFIs(p + s, i, FindLF(p, i));
    }
  }
}

/** Character classes as texts. */
module Letters {
  const UPPER: string := "ABCDEFGHIJKLMNOPQRSTUVWXYZ"
  const LOWER: string := "abcdefghijklmnopqrstuvwxyz"
  const NUMERALS: string := "0123456789"

  lemma UpperAt(v: nat)
    requires v < 26
    ensures UPPER[v] as int == 65 + v
  {
  }

  lemma LowerAt(v: nat)
    requires v < 26
    ensures LOWER[v] as int == 97 + v
  {
  }

  lemma NumeralAt(v: nat)
    requires v < 10
    ensures NUMERALS[v] as int == 48 + v
  {
  }

  /** The texts hold the characters between their first and their last. */
  lemma InLetters(c: char)
    ensures c in UPPER <==> 65 <= c as int <= 90
    ensures c in LOWER <==> 97 <= c as int <= 122
    ensures c in NUMERALS <==> 48 <= c as int <= 57
  {
    if 65 <= c as int <= 90 { UpperAt(c as int - 65); }
    if 97 <= c as int <= 122 { LowerAt(c as int - 97); }
    if 48 <= c as int <= 57 { NumeralAt(c as int - 48); }
    forall i | 0 <= i < 26 ensures 65 <= UPPER[i] as int <= 90 { UpperAt(i); }
    forall i | 0 <= i < 26 ensures 97 <= LOWER[i] as int <= 122 { LowerAt(i); }
    forall i | 0 <= i < 10 ensures 48 <= NUMERALS[i] as int <= 57 { NumeralAt(i); }
  }
}

/** Decimal text of natural numbers, as written by strconv.FormatInt and by the
    printf conversion %u. */
module Decimal {
  import opened Bytes

  predicate IsDigit(b: byte) {
    ZERO <= b <= ZERO + 9
  }

  predicate AllDigits(s: Bytes) {
    forall i :: 0 <= i < |s| ==> IsDigit(s[i])
  }

  function Digits(n: nat): (text: Bytes)
    ensures text != [] && AllDigits(text)
  {
    if n < 10 then [ZERO + n] else Digits(n / 10) + [ZERO + n % 10]
  }

  /** The number a digit string denotes. */
  function Value(s: Bytes): nat
    requires AllDigits(s)
  {
    if s == [] then 0 else Value(s[..|s| - 1]) * 10 + (s[|s| - 1] - ZERO)
  }

  lemma {:induction false} ValueOfDigits(n: nat)
    ensures Value(Digits(n)) == n
  {
    if n >= 10 {
      ValueOfDigits(n / 10);
      assert Digits(n)[..|Digits(n)| - 1] == Digits(n / 10);
    }
  }

  lemma DigitsInjective(a: nat, b: nat)
    requires Digits(a) == Digits(b)
    ensures a == b
  {
    ValueOfDigits(a);
    ValueOfDigits(b);
  }

  function Pow10(k: nat): nat {
    if k == 0 then 1 else 10 * Pow10(k - 1)
  }

  /** A number below 10^k has at most k digits (k at least 1). */
  lemma {:induction false} DigitsLength(n: nat, k: nat)
    requires k >= 1 && n < Pow10(k)
    ensures |Digits(n)| <= k
  {
    if n >= 10 {
      assert k > 1;
      DigitsLength(n / 10, k - 1);
    }
  }

  /** Leading zeros do not change the value. */
  lemma {:induction false} ValueOfPadded(zeros: Bytes, s: Bytes)
    requires forall i :: 0 <= i < |zeros| ==> zeros[i] == ZERO
    requires AllDigits(s)
    ensures AllDigits(zeros + s) && Value(zeros + s) == Value(s)
  {
    var all := zeros + s;
    if s != [] {
      ValueOfPadded(zeros, s[..|s| - 1]);
      assert all[..|all| - 1] == zeros + s[..|s| - 1];
    } else if zeros != [] {
      ValueOfPadded(zeros[..|zeros| - 1], []);
      assert all == zeros;
      assert all[..|all| - 1] == zeros[..|zeros| - 1] + [];
    } else {
      assert all == [];
    }
  }
}
