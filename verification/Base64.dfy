/** Base64 of hustdb/sync/module/c_base64.cpp (section 4 of RFC 4648). Shifts and masks are
    written as division and remainder. */
module Base64 {
  import opened Bytes
  import opened Letters

  type Sextet = x: int | 0 <= x < 64

  const PADDING: byte := 61
  const NOT_A_CHAR: int := 77

  function Char(v: Sextet): byte {
    if v < 26 then 65 + v
    else if v < 52 then 97 + (v - 26)
    else if v < 62 then 48 + (v - 52)
    else if v == 62 then 43 else 47
  }

  /** The decoding table: the sextet of a character, or 77. */
  function SextetOf(c: byte): int {
    if 65 <= c <= 90 then c - 65
    else if 97 <= c <= 122 then c - 97 + 26
    else if 48 <= c <= 57 then c - 48 + 52
    else if c == 43 then 62
    else if c == 47 then 63
    else NOT_A_CHAR
  }

  predicate IsChar(c: byte) {
    SextetOf(c) != NOT_A_CHAR
  }

  /** The two tables are inverse to each other. */
  lemma Tables(v: Sextet, c: byte)
    ensures SextetOf(Char(v)) == v && Char(v) != PADDING
    ensures IsChar(c) ==> 0 <= SextetOf(c) < 64 && Char(SextetOf(c)) == c
    ensures !IsChar(PADDING)
  {
  }

  const ALPHABET: string := UPPER + LOWER + NUMERALS + "+/"

  /** Table 1 in section 4 of RFC 4648. */
  lemma AlphabetIs(v: Sextet)
    ensures Char(v) == ALPHABET[v] as int
  {
    if v < 26 { UpperAt(v); } else if v < 52 { LowerAt(v - 26); } else if v < 62 { NumeralAt(v - 52); }
  }

  function Encode3(a: byte, b: byte, c: byte): Bytes {
    [Char(a / 4), Char(a % 4 * 16 + b / 16), Char(b % 16 * 4 + c / 64), Char(c % 64)]
  }

  /** The characters of an encoding, without padding. */
  function Chars(s: Bytes): Bytes {
    if s == [] then []
    else if |s| == 1 then [Char(s[0] / 4), Char(s[0] % 4 * 16)]
    else if |s| == 2 then [Char(s[0] / 4), Char(s[0] % 4 * 16 + s[1] / 16), Char(s[1] % 16 * 4)]
    else Encode3(s[0], s[1], s[2]) + Chars(s[3..])
  }

  function PaddingFor(n: nat): Bytes {
    if n % 3 == 0 then [] else if n % 3 == 1 then [PADDING, PADDING] else [PADDING]
  }

  function Encode(s: Bytes): Bytes {
    Chars(s) + PaddingFor(|s|)
  }

  /** What the decoder looks at: the characters before the first '='. */
  function BeforePadding(t: Bytes): Bytes {
    if t == [] || t[0] == PADDING then [] else [t[0]] + BeforePadding(t[1..])
  }

  predicate AllChars(t: Bytes) {
    forall i :: 0 <= i < |t| ==> IsChar(t[i])
  }

  function First(a: byte, b: byte): byte
    requires IsChar(a) && IsChar(b)
  {
    SextetOf(a) * 4 + SextetOf(b) / 16
  }

  function Second(b: byte, c: byte): byte
    requires IsChar(b) && IsChar(c)
  {
    SextetOf(b) % 16 * 16 + SextetOf(c) / 4
  }

  function Third(c: byte, d: byte): byte
    requires IsChar(c) && IsChar(d)
  {
    SextetOf(c) % 4 * 64 + SextetOf(d)
  }

  function DecodeChars(t: Bytes): Bytes
    requires AllChars(t)
  {
    if |t| <= 1 then []
    else if |t| == 2 then [First(t[0], t[1])]
    else if |t| == 3 then [First(t[0], t[1]), Second(t[1], t[2])]
    else [First(t[0], t[1]), Second(t[1], t[2]), Third(t[2], t[3])] + DecodeChars(t[4..])
  }

  /** The decoder accepts exactly when only characters of the alphabet come before the first
      '=' and their number is not 1 modulo 4. */
  predicate Decodable(t: Bytes) {
    AllChars(BeforePadding(t)) && |BeforePadding(t)| % 4 != 1
  }

  function Decode(t: Bytes): Option<Bytes> {
    if Decodable(t) then Some(DecodeChars(BeforePadding(t))) else None
  }

  // ---------------------------------------------------------------- properties

  lemma {:induction false} CharsLength(s: Bytes)
    ensures |Chars(s)| == |s| / 3 * 4 + (if |s| % 3 == 0 then 0 else if |s| % 3 == 1 then 2 else 3)
  {
    hide Char;
    if |s| > 2 {
      CharsLength(s[3..]);
      assert |s| == |s[3..]| + 3;
    }
  }

  lemma CharIsChar(v: Sextet)
    ensures IsChar(Char(v))
  {
  }

  lemma {:induction false} CharsAreChars(s: Bytes)
    ensures AllChars(Chars(s))
  {
    hide Char, IsChar;
    forall v: Sextet ensures IsChar(Char(v)) {
      CharIsChar(v);
    }
    if |s| > 2 {
      CharsAreChars(s[3..]);
    }
  }

  lemma NoPadding(t: Bytes)
    requires AllChars(t)
    ensures PADDING !in t
  {
  }

  lemma {:induction false} BeforePaddingIs(t: Bytes, rest: Bytes)
    requires PADDING !in t && (rest == [] || rest[0] == PADDING)
    ensures BeforePadding(t + rest) == t
  {
    if t == [] {
      assert t + rest == rest;
    } else {
      assert (t + rest)[1..] == t[1..] + rest;
      BeforePaddingIs(t[1..], rest);
    }
  }

  /** Four characters give back the three bytes they were made of. */
  lemma GroupRoundTrip(a: byte, b: byte, c: byte)
    ensures var g := Encode3(a, b, c);
      AllChars(g) && First(g[0], g[1]) == a && Second(g[1], g[2]) == b && Third(g[2], g[3]) == c
  {
    Tables(a / 4, 0);
    Tables(a % 4 * 16 + b / 16, 0);
    Tables(b % 16 * 4 + c / 64, 0);
    Tables(c % 64, 0);
  }

  /** The four sextets of a group are the base-64 digits of its 24-bit number. */
  lemma GroupValue(a: byte, b: byte, c: byte)
    ensures var g := Encode3(a, b, c);
      a * 65536 + b * 256 + c ==
      ((SextetOf(g[0]) * 64 + SextetOf(g[1])) * 64 + SextetOf(g[2])) * 64 + SextetOf(g[3])
  {
    Tables(a / 4, 0);
    Tables(a % 4 * 16 + b / 16, 0);
    Tables(b % 16 * 4 + c / 64, 0);
    Tables(c % 64, 0);
  }

  lemma OneByteRoundTrip(a: byte)
    ensures var g := [Char(a / 4), Char(a % 4 * 16)];
      AllChars(g) && First(g[0], g[1]) == a
  {
  }

  lemma TwoByteRoundTrip(a: byte, b: byte)
    ensures var g := [Char(a / 4), Char(a % 4 * 16 + b / 16), Char(b % 16 * 4)];
      AllChars(g) && First(g[0], g[1]) == a && Second(g[1], g[2]) == b
  {
    Tables(a / 4, 0);
    Tables(a % 4 * 16 + b / 16, 0);
    Tables(b % 16 * 4, 0);
  }

  lemma {:induction false} CharsRoundTrip(s: Bytes)
    requires AllChars(Chars(s))
    ensures DecodeChars(Chars(s)) == s
  {
    hide Char, IsChar, SextetOf, First, Second, Third;
    if |s| == 1 {
      OneByteRoundTrip(s[0]);
    } else if |s| == 2 {
      TwoByteRoundTrip(s[0], s[1]);
    } else if |s| > 2 {
      CharsAreChars(s[3..]);
      CharsRoundTrip(s[3..]);
      GroupRoundTrip(s[0], s[1], s[2]);
      var t := Chars(s);
      assert t[4..] == Chars(s[3..]);
    }
  }

  /** Decoding an encoding succeeds and returns the bytes; the padded encoding has length
      4 * ceil(n / 3). */
  lemma RoundTrip(s: Bytes)
    ensures Decode(Encode(s)) == Some(s)
    ensures |Encode(s)| == 4 * ((|s| + 2) / 3)
  {
    hide Chars, DecodeChars, IsChar;
    CharsLength(s);
    CharsAreChars(s);
    NoPadding(Chars(s));
    CharsRoundTrip(s);
    BeforePaddingIs(Chars(s), PaddingFor(|s|));
  }

  lemma EncodeInjective(s: Bytes, t: Bytes)
    requires Encode(s) == Encode(t)
    ensures s == t
  {
    hide Encode, Decode;
    RoundTrip(s);
    RoundTrip(t);
  }

  /** The number of bytes the decoder writes. */
  function DecodedLength(n: nat): nat {
    n / 4 * 3 + (if n % 4 == 2 then 1 else if n % 4 == 3 then 2 else 0)
  }

  lemma {:induction false} DecodedLengthIs(t: Bytes)
    requires AllChars(t)
    ensures |DecodeChars(t)| == DecodedLength(|t|)
  {
    if |t| > 3 {
      DecodedLengthIs(t[4..]);
    }
  }

  // ---------------------------------------------------------------- the loops

  lemma {:induction false} CharsAppend(s: Bytes, t: Bytes)
    requires |s| % 3 == 0
    ensures Chars(s + t) == Chars(s) + Chars(t)
  {
    if s == [] {
      assert s + t == t;
    } else {
      assert (s + t)[3..] == s[3..] + t;
      CharsAppend(s[3..], t);
    }
  }

  lemma {:induction false} DecodeAppend(s: Bytes, t: Bytes)
    requires |s| % 4 == 0 && AllChars(s) && AllChars(t)
    ensures AllChars(s + t) && DecodeChars(s + t) == DecodeChars(s) + DecodeChars(t)
  {
    hide First, Second, Third, IsChar;
    if s == [] {
      assert s + t == t;
    } else {
      assert (s + t)[4..] == s[4..] + t;
      DecodeAppend(s[4..], t);
    }
  }

  /** Bytes appended at position d; the buffer behind them stays as it was. */
  method Emit(dst: array<byte>, d: nat, group: Bytes)
    requires d + |group| <= dst.Length
    modifies dst
    ensures dst[..d + |group|] == old(dst[..d]) + group
    ensures forall i :: d + |group| <= i < dst.Length ==> dst[i] == old(dst[i])
  {
    var i := 0;
    while i < |group|
      invariant i <= |group|
      invariant dst[..d] == old(dst[..d]) && dst[d..d + i] == group[..i]
      invariant forall j :: d + i <= j < dst.Length ==> dst[j] == old(dst[j])
    {
      dst[d + i] := group[i];
      assert group[..i + 1] == group[..i] + [group[i]];
      i := i + 1;
    }
    assert group[..i] == group;
    assert dst[..d + i] == dst[..d] + dst[d..d + i];
  }

  /** c_encode_base64 into a buffer of sufficient size. */
  method EncodeInto(src: Bytes, dst: array<byte>) returns (len: nat)
    requires dst.Length >= 4 * ((|src| + 2) / 3)
    modifies dst
    ensures len == 4 * ((|src| + 2) / 3) && dst[..len] == Encode(src)
    ensures forall i :: len <= i < dst.Length ==> dst[i] == old(dst[i])
  {
    hide Char, Chars;
    var s, d := 0, 0;
    EncodeNothing(src);
    while |src| - s > 2
      invariant s <= |src| && s % 3 == 0 && d == s / 3 * 4
      invariant dst[..d] == Chars(src[..s])
      invariant forall i :: d <= i < dst.Length ==> dst[i] == old(dst[i])
    {
      Emit(dst, d, Encode3(src[s], src[s + 1], src[s + 2]));
      GroupStep(src, s);
      s, d := s + 3, d + 4;
    }
    var left := |src| - s;
    TailGroup(src, s);
    if left == 1 {
      Emit(dst, d, [Char(src[s] / 4), Char(src[s] % 4 * 16), PADDING, PADDING]);
      d := d + 4;
    } else if left == 2 {
      Emit(dst, d, [Char(src[s] / 4), Char(src[s] % 4 * 16 + src[s + 1] / 16), Char(src[s + 1] % 16 * 4), PADDING]);
      d := d + 4;
    }
    len := d;
  }

  lemma EncodeNothing(src: Bytes)
    ensures Chars(src[..0]) == []
  {
  }

  /** What is left after the whole groups. */
  lemma TailGroup(src: Bytes, s: nat)
    requires s % 3 == 0 && s <= |src| <= s + 2
    ensures Encode(src) == Chars(src[..s]) +
      (if s == |src| then []
       else if |src| == s + 1 then [Char(src[s] / 4), Char(src[s] % 4 * 16), PADDING, PADDING]
       else [Char(src[s] / 4), Char(src[s] % 4 * 16 + src[s + 1] / 16), Char(src[s + 1] % 16 * 4), PADDING])
  {
    hide Char;
    assert src == src[..s] + src[s..];
    CharsAppend(src[..s], src[s..]);
  }

  lemma GroupStep(src: Bytes, s: nat)
    requires s % 3 == 0 && s + 3 <= |src|
    ensures Chars(src[..s + 3]) == Chars(src[..s]) + Encode3(src[s], src[s + 1], src[s + 2])
  {
    var g := src[s..s + 3];
    assert src[..s + 3] == src[..s] + g;
    CharsAppend(src[..s], g);
    assert g[3..] == [] && Chars([]) == [];
  }

  /** The scan for the first '=': the number of characters to decode, or a character outside
      the alphabet. */
  method ScanChars(src: Bytes) returns (len: nat, ok: bool)
    ensures ok <==> AllChars(BeforePadding(src))
    ensures ok ==> len <= |src| && src[..len] == BeforePadding(src)
  {
    len := 0;
    while len < |src|
      invariant len <= |src| && AllChars(src[..len]) && PADDING !in src[..len]
    {
      ScanStep(src, len);
      if src[len] == PADDING {
        break;
      }
      if SextetOf(src[len]) == NOT_A_CHAR {
        return len, false;
      }
      assert src[..len + 1] == src[..len] + [src[len]];
      len := len + 1;
    }
    assert src == src[..len] + src[len..];
    BeforePaddingIs(src[..len], src[len..]);
    ok := true;
  }

  lemma {:induction false} ScanStep(src: Bytes, k: nat)
    requires k < |src| && PADDING !in src[..k]
    ensures src[k] != PADDING ==> k < |BeforePadding(src)| && BeforePadding(src)[k] == src[k]
  {
    if k > 0 {
      assert src[1..][..k - 1] == src[..k][1..];
      assert src[0] == src[..k][0];
      ScanStep(src[1..], k - 1);
    }
  }

  /** c_decode_base64: refuses what is not decodable without touching the buffer; otherwise the
      two phases together write exactly the decoded bytes. */
  method DecodeInto(src: Bytes, dst: array<byte>) returns (ok: bool, written: nat)
    requires dst.Length >= DecodedLength(|BeforePadding(src)|)
    modifies dst
    ensures ok <==> Decode(src).Some?
    ensures ok ==> written == |Decode(src).value| && written <= dst.Length && dst[..written] == Decode(src).value
    ensures ok ==> forall i :: written <= i < dst.Length ==> dst[i] == old(dst[i])
    ensures !ok ==> dst[..] == old(dst[..])
  {
    hide AllChars, First, Second, Third, IsChar, BeforePadding, DecodeChars;
    var len, valid := ScanChars(src);
    if !valid || len % 4 == 1 {
      return false, 0;
    }
    var s, d := 0, 0;
    ghost var body := src[..len];
    DecodedLengthIs(body);
    DecodeNothing(body);
    while len - s > 3
      invariant s <= len && s % 4 == 0 && d == s / 4 * 3
      invariant AllChars(body[..s]) && dst[..d] == DecodeChars(body[..s])
      invariant forall i :: d <= i < dst.Length ==> dst[i] == old(dst[i])
    {
      UngroupStep(body, s);
      Emit(dst, d, [First(src[s], src[s + 1]), Second(src[s + 1], src[s + 2]), Third(src[s + 2], src[s + 3])]);
      s, d := s + 4, d + 3;
    }
    UntailStep(body, s);
    if len - s > 1 {
      Emit(dst, d, [First(src[s], src[s + 1])]);
      d := d + 1;
    }
    if len - s > 2 {
      Emit(dst, d, [Second(src[s + 1], src[s + 2])]);
      d := d + 1;
    }
    ok, written := true, d;
  }

  lemma DecodeNothing(t: Bytes)
    ensures AllChars(t[..0]) && DecodeChars(t[..0]) == []
  {
  }

  lemma UntailStep(t: Bytes, s: nat)
    requires s % 4 == 0 && s <= |t| <= s + 3 && AllChars(t) && |t| % 4 != 1
    ensures AllChars(t[..s])
    ensures |t| > s ==> IsChar(t[s]) && IsChar(t[s + 1])
    ensures |t| == s ==> DecodeChars(t) == DecodeChars(t[..s])
    ensures |t| == s + 2 ==> DecodeChars(t) == DecodeChars(t[..s]) + [First(t[s], t[s + 1])]
    ensures |t| == s + 3 ==> IsChar(t[s + 2])
    ensures |t| == s + 3 ==>
      DecodeChars(t) == DecodeChars(t[..s]) + [First(t[s], t[s + 1])] + [Second(t[s + 1], t[s + 2])]
  {
    hide First, Second, Third, IsChar;
    assert t == t[..s] + t[s..];
    DecodeAppend(t[..s], t[s..]);
  }

  lemma UngroupStep(t: Bytes, s: nat)
    requires s % 4 == 0 && s + 4 <= |t| && AllChars(t)
    ensures IsChar(t[s]) && IsChar(t[s + 1]) && IsChar(t[s + 2]) && IsChar(t[s + 3])
    ensures AllChars(t[..s]) && AllChars(t[..s + 4])
    ensures DecodeChars(t[..s + 4]) ==
      DecodeChars(t[..s]) + [First(t[s], t[s + 1]), Second(t[s + 1], t[s + 2]), Third(t[s + 2], t[s + 3])]
  {
    hide First, Second, Third, IsChar;
    var g := t[s..s + 4];
    assert t[..s + 4] == t[..s] + g;
    DecodeAppend(t[..s], g);
    assert g[4..] == [] && DecodeChars([]) == [];
  }

  /** Test vectors of section 10 of RFC 4648. */
  lemma KnownEncodings()
    ensures Encode(Ascii("f")) == Ascii("Zg==") && Encode(Ascii("fo")) == Ascii("Zm8=")
    ensures Encode(Ascii("foobar")) == Ascii("Zm9vYmFy")
  {
    var s := Ascii("foobar");
    assert s[3..][3..] == [];
    assert Chars(s) == Encode3(s[0], s[1], s[2]) + Encode3(s[3], s[4], s[5]);
  }

  lemma InAlphabet(c: byte)
    ensures IsChar(c) <==> c as char in ALPHABET
  {
    if IsChar(c) {
      Tables(0, c);
      AlphabetIs(SextetOf(c));
      assert ALPHABET[SextetOf(c)] as int == c;
    }
    if c as char in ALPHABET {
      var v :| 0 <= v < 64 && ALPHABET[v] == c as char;
      AlphabetIs(v);
      Tables(v, c);
    }
  }

  /** A text is refused exactly when a character outside the alphabet comes before the first '='
      or one character is left over from the groups of four. */
  lemma RefusalExact(t: Bytes)
    ensures var seen := BeforePadding(t);
      Decode(t).None? <==>
      (exists i :: 0 <= i < |seen| && seen[i] as char !in ALPHABET) || |seen| % 4 == 1
  {
    hide IsChar, ALPHABET;
    var seen := BeforePadding(t);
    forall i | 0 <= i < |seen| ensures IsChar(seen[i]) <==> seen[i] as char in ALPHABET {
      InAlphabet(seen[i]);
    }
  }

  lemma GroupReencodes(a: byte, b: byte, c: byte, d: byte)
    requires IsChar(a) && IsChar(b) && IsChar(c) && IsChar(d)
    ensures Encode3(First(a, b), Second(b, c), Third(c, d)) == [a, b, c, d]
  {
    hide Char, SextetOf;
    Tables(0, a);
    Tables(0, b);
    Tables(0, c);
    Tables(0, d);
    UpperBits(SextetOf(a), SextetOf(b));
    MiddleBits(SextetOf(b), SextetOf(c));
    LowerBits(SextetOf(c), SextetOf(d));
  }

  lemma UpperBits(v: Sextet, w: Sextet)
    ensures (v * 4 + w / 16) / 4 == v && (v * 4 + w / 16) % 4 == w / 16
  {
  }

  lemma MiddleBits(w: Sextet, x: Sextet)
    ensures (w % 16 * 16 + x / 4) / 16 == w % 16 && (w % 16 * 16 + x / 4) % 16 == x / 4
    ensures w / 16 * 16 + w % 16 == w
  {
  }

  lemma LowerBits(x: Sextet, y: Sextet)
    ensures (x % 4 * 64 + y) / 64 == x % 4 && (x % 4 * 64 + y) % 64 == y && x / 4 * 4 + x % 4 == x
  {
  }

  /** Whole groups of characters are the encoding of what they decode to. */
  lemma {:induction false} DecodedReencodes(t: Bytes)
    requires AllChars(t) && |t| % 4 == 0
    ensures Chars(DecodeChars(t)) == t
  {
    hide IsChar, Encode3, First, Second, Third;
    if t != [] {
      var rest := DecodeChars(t[4..]);
      DecodedReencodes(t[4..]);
      GroupReencodes(t[0], t[1], t[2], t[3]);
      assert DecodeChars(t)[3..] == rest;
      assert [t[0], t[1], t[2], t[3]] + t[4..] == t;
    }
  }
}
