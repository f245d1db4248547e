/** Percent-encoding of keys: url_encode_all of the sync daemon and the unescape loop of the
    server (section 2.1 of RFC 3986). */
module UrlCodec {
  import opened Bytes
  import opened Letters

  // ---------------------------------------------------------------- encoding

  /** Bytes the encoder copies. */
  predicate Plain(b: byte) {
    || b == SQUOTE || b == 40 || b == 41 || b == 44 || b == MINUS || b == 46
    || 48 <= b <= 57 || 65 <= b <= 91 || b == 93 || b == 95 || 97 <= b <= 122 || b == BAR
  }

  const PLAIN_TEXT: string := "'(),-." + NUMERALS + UPPER + "[]_" + LOWER + "|"

  /** Exactly these characters are copied; every other byte is escaped. */
  lemma PlainExact(b: byte)
    ensures Plain(b) <==> b as char in PLAIN_TEXT
  {
    hide UPPER, LOWER, NUMERALS;
    var c := b as char;
    InLetters(c);
    MarksAre(c);
  }

  lemma MarksAre(c: char)
    ensures c in "'(),-." <==> c as int in {39, 40, 41, 44, 45, 46}
    ensures c in "[]_" <==> c as int in {91, 93, 95}
    ensures c in "|" <==> c as int == 124
  {
  }

  function UpperHex(n: int): byte
    requires 0 <= n < 16
  {
    if n < 10 then 48 + n else 55 + n
  }

  function Escape(b: byte): (e: Bytes)
    ensures |e| == 1 || |e| == 3
  {
    if Plain(b) then [b] else [PERCENT, UpperHex(b / 16), UpperHex(b % 16)]
  }

  /** The four bytes of a table string, terminator included. */
  function TableEntry(b: byte): (t: Bytes)
    ensures |t| == 4 && t[..|Escape(b)|] == Escape(b)
  {
    if Plain(b) then [b, SPACE, SPACE, 0] else Escape(b) + [0]
  }

  function Escaped(s: Bytes): Bytes {
    if s == [] then [] else Escape(s[0]) + Escaped(s[1..])
  }

  lemma {:induction false} EscapedSnoc(s: Bytes, b: byte)
    ensures Escaped(s + [b]) == Escaped(s) + Escape(b)
  {
    hide Escape;
    if s == [] {
      assert s + [b] == [b] && [b][1..] == [];
    } else {
      assert (s + [b])[1..] == s[1..] + [b];
      EscapedSnoc(s[1..], b);
    }
  }

  /** One step of the loop: a 4-byte store at d, of which only the escape counts. */
  method PutEscape(src: Bytes, i: nat, dst: array<byte>, d: nat) returns (next: nat)
    requires i < |src| && d <= 3 * i && 3 * |src| + 1 <= dst.Length && dst[..d] == Escaped(src[..i])
    modifies dst
    ensures next <= 3 * (i + 1) && dst[..next] == Escaped(src[..i + 1])
    ensures forall j :: 3 * |src| + 1 <= j < dst.Length ==> dst[j] == old(dst[j])
  {
    hide Plain, Escaped, UpperHex;
    var entry := TableEntry(src[i]);
    dst[d], dst[d + 1], dst[d + 2], dst[d + 3] := entry[0], entry[1], entry[2], entry[3];
    next := d + |Escape(src[i])|;
    assert src[..i + 1] == src[..i] + [src[i]];
    EscapedSnoc(src[..i], src[i]);
    assert dst[d..d + 4] == entry;
    assert dst[..next] == dst[..d] + entry[..|Escape(src[i])|];
  }

  /** url_encode_all: fails exactly when the buffer has less than 3n + 1 bytes; otherwise leaves
      the concatenated escapes and a terminator, and never writes behind byte 3n. */
  method EncodeAll(src: Bytes, dst: array<byte>, capacity: nat) returns (ok: bool, len: nat)
    requires capacity <= dst.Length
    modifies dst
    ensures ok <==> capacity >= 3 * |src| + 1
    ensures ok ==> len == |Escaped(src)| <= 3 * |src| && dst[..len] == Escaped(src) && dst[len] == 0
    ensures !ok ==> len == 0 && dst[..] == old(dst[..])
    ensures forall j :: 3 * |src| + 1 <= j < dst.Length ==> dst[j] == old(dst[j])
  {
    hide Escaped;
    if capacity < 3 * |src| + 1 {
      return false, 0;
    }
    var i: nat, d: nat := 0, 0;
    EscapedNothing(src);
    while i + 8 < |src|
      invariant i <= |src| && d <= 3 * i && dst[..d] == Escaped(src[..i])
      invariant forall j :: 3 * |src| + 1 <= j < dst.Length ==> dst[j] == old(dst[j])
    {
      d := PutEscape(src, i, dst, d);
      d := PutEscape(src, i + 1, dst, d);
      d := PutEscape(src, i + 2, dst, d);
      d := PutEscape(src, i + 3, dst, d);
      d := PutEscape(src, i + 4, dst, d);
      d := PutEscape(src, i + 5, dst, d);
      d := PutEscape(src, i + 6, dst, d);
      d := PutEscape(src, i + 7, dst, d);
      i := i + 8;
    }
    while i < |src|
      invariant i <= |src| && d <= 3 * i && dst[..d] == Escaped(src[..i])
      invariant forall j :: 3 * |src| + 1 <= j < dst.Length ==> dst[j] == old(dst[j])
    {
      d := PutEscape(src, i, dst, d);
      i := i + 1;
    }
    assert src[..i] == src;
    ghost var text := dst[..d];
    dst[d] := 0;
    assert dst[..d] == text;
    return true, d;
  }

  lemma EscapedNothing(s: Bytes)
    ensures Escaped(s[..0]) == []
  {
  }

  // ---------------------------------------------------------------- decoding

  /** The flags of c_unescape_uri_internal. */
  datatype Mode = Mode(uri: bool, redirect: bool)

  const URI := Mode(true, false)

  /** `first` is the digit character already read. */
  datatype State = Usual | Quoted | QuotedSecond(decoded: int, first: byte)

  /** The value of a hexadecimal digit, or -1. */
  function HexValue(ch: byte): int {
    var c := if ch / 32 % 2 == 0 then ch + 32 else ch;
    if 48 <= ch <= 57 then ch - 48 else if 97 <= c <= 102 then c - 97 + 10 else -1
  }

  /** What one character does: the bytes written, the next state, and whether decoding ends. */
  datatype Effect = Effect(out: Bytes, state: State, stop: bool)

  predicate StateOk(st: State) {
    st.QuotedSecond? ==> 0 <= st.decoded < 16
  }

  function Redirected(value: byte, first: byte, ch: byte): Bytes {
    if PERCENT < value < 127 then [value] else [PERCENT, first, ch]
  }

  function Read(st: State, ch: byte, mode: Mode): (e: Effect)
    requires StateOk(st)
    ensures StateOk(e.state)
  {
    match st
    case Usual =>
      if ch == QUESTION && (mode.uri || mode.redirect) then Effect([ch], Usual, true)
      else if ch == PERCENT then Effect([], Quoted, false)
      else Effect([ch], Usual, false)
    case Quoted =>
      if HexValue(ch) >= 0 then Effect([], QuotedSecond(HexValue(ch), ch), false) else Effect([ch], Usual, false)
    case QuotedSecond(decoded, first) =>
      if HexValue(ch) < 0 then Effect([], Usual, false)
      else
        var value := decoded * 16 + HexValue(ch);
        if HexValue(ch) < 10 then
          Effect(if mode.redirect then Redirected(value, first, ch) else [value], Usual, false)
        else if mode.uri then Effect([value], Usual, value == QUESTION)
        else if mode.redirect then
          if value == QUESTION then Effect([value], Usual, true) else Effect(Redirected(value, first, ch), Usual, false)
        else Effect([value], Usual, false)
  }

  function Unescape(t: Bytes, st: State, mode: Mode): Bytes
    requires StateOk(st)
  {
    if t == [] then []
    else
      var e := Read(st, t[0], mode);
      if e.stop then e.out else e.out + Unescape(t[1..], e.state, mode)
  }

  /** Characters read and not yet written. */
  function Pending(st: State): nat {
    match st
    case Usual => 0
    case Quoted => 1
    case QuotedSecond(_, _) => 2
  }

  /** A character never makes the output longer than the input read so far; three bytes are
      only written for an escape that is kept. */
  lemma ReadSize(st: State, ch: byte, mode: Mode)
    requires StateOk(st)
    ensures var e := Read(st, ch, mode);
      && |e.out| + Pending(e.state) <= Pending(st) + 1
      && (e.state.QuotedSecond? ==> e.state.first == ch)
      && (|e.out| > 1 ==> st.QuotedSecond? && e.out == [PERCENT, st.first, ch])
  {
  }

  lemma {:induction false} UnescapeShrinks(t: Bytes, st: State, mode: Mode)
    requires StateOk(st)
    ensures |Unescape(t, st, mode)| <= |t| + Pending(st)
  {
    if t != [] {
      ReadSize(st, t[0], mode);
      UnescapeShrinks(t[1..], Read(st, t[0], mode).state, mode);
    }
  }

  // ---------------------------------------------------------------- round trip

  /** A byte string through its first '?'. */
  function UpToQuestion(s: Bytes): Bytes {
    if s == [] then [] else if s[0] == QUESTION then [s[0]] else [s[0]] + UpToQuestion(s[1..])
  }

  lemma HexDigits(n: int)
    requires 0 <= n < 16
    ensures HexValue(UpperHex(n)) == n
  {
  }

  lemma EscapeReadsBack(b: byte, rest: Bytes)
    ensures Unescape(Escape(b) + rest, Usual, URI) == [b] + if b == QUESTION then [] else Unescape(rest, Usual, URI)
  {
    var t := Escape(b) + rest;
    if Plain(b) {
      assert t[1..] == rest;
    } else {
      hide Unescape, HexValue, UpperHex;
      HexDigits(b / 16);
      HexDigits(b % 16);
      var h, l := UpperHex(b / 16), UpperHex(b % 16);
      assert t == [PERCENT, h, l] + rest;
      EscapeDecodes(h, l, rest);
      assert b == b / 16 * 16 + b % 16;
    }
  }

  const HEX_UPPER: string := "0123456789ABCDEF"
  const HEX_LOWER: string := "0123456789abcdef"

  /** Digits above 9 may be written in either case, and no other character is a digit. */
  lemma HexExact(ch: byte)
    ensures forall n :: 0 <= n < 16 ==> HexValue(HEX_UPPER[n] as int) == n == HexValue(HEX_LOWER[n] as int)
    ensures HexValue(ch) >= 0 <==> ch as char in HEX_UPPER || ch as char in HEX_LOWER
  {
  }

  /** An escape with digits h and l, each in either case, decodes to the byte 16 h + l; a question
      mark ends the decoding. */
  lemma EscapeDecodes(h: byte, l: byte, rest: Bytes)
    requires HexValue(h) >= 0 && HexValue(l) >= 0
    ensures var b := HexValue(h) * 16 + HexValue(l);
      Unescape([PERCENT, h, l] + rest, Usual, URI) == [b] + if b == QUESTION then [] else Unescape(rest, Usual, URI)
  {
    hide HexValue;
    HexBounds(h);
    HexBounds(l);
    var t := [PERCENT, h, l] + rest;
    assert t[1..] == [h, l] + rest && ([h, l] + rest)[1..] == [l] + rest && ([l] + rest)[1..] == rest;
    assert Unescape(t, Usual, URI) == Unescape([h, l] + rest, Quoted, URI);
    assert Unescape([h, l] + rest, Quoted, URI) == Unescape([l] + rest, QuotedSecond(HexValue(h), h), URI);
  }

  /** For a redirect, escapes of printable characters behind the percent sign are decoded and all
      others are kept; without flags every escape is decoded and nothing ends the decoding. */
  lemma OtherModes(h: byte, l: byte, rest: Bytes)
    requires HexValue(h) >= 0 && HexValue(l) >= 0
    ensures var b := HexValue(h) * 16 + HexValue(l); var mode := Mode(false, true);
      Unescape([PERCENT, h, l] + rest, Usual, mode) ==
      (if 37 < b < 127 then [b] else [PERCENT, h, l]) + if b == QUESTION then [] else Unescape(rest, Usual, mode)
    ensures var b := HexValue(h) * 16 + HexValue(l); var mode := Mode(false, false);
      Unescape([PERCENT, h, l] + rest, Usual, mode) == [b] + Unescape(rest, Usual, mode)
  {
    hide HexValue;
    HexBounds(h);
    HexBounds(l);
    var t := [PERCENT, h, l] + rest;
    assert t[1..] == [h, l] + rest && ([h, l] + rest)[1..] == [l] + rest && ([l] + rest)[1..] == rest;
    forall mode | mode == Mode(false, true) || mode == Mode(false, false)
      ensures Unescape(t, Usual, mode) == Unescape([l] + rest, QuotedSecond(HexValue(h), h), mode)
    {
      assert Unescape(t, Usual, mode) == Unescape([h, l] + rest, Quoted, mode);
    }
  }

  lemma HexBounds(ch: byte)
    ensures HexValue(ch) < 16
  {
  }

  /** A percent sign that is not followed by two digits is dropped, with the first digit if there
      is one and the character that breaks it off; without one that character stays. */
  lemma BrokenEscape(h: byte, l: byte, rest: Bytes)
    ensures HexValue(h) < 0 ==> Unescape([PERCENT, h] + rest, Usual, URI) == [h] + Unescape(rest, Usual, URI)
    ensures HexValue(h) >= 0 && HexValue(l) < 0 ==>
      Unescape([PERCENT, h, l] + rest, Usual, URI) == Unescape(rest, Usual, URI)
  {
    hide HexValue;
    HexBounds(h);
    var s, t := [PERCENT, h] + rest, [PERCENT, h, l] + rest;
    assert s[1..] == [h] + rest && ([h] + rest)[1..] == rest;
    assert t[1..] == [h, l] + rest && ([h, l] + rest)[1..] == [l] + rest && ([l] + rest)[1..] == rest;
    assert Unescape(s, Usual, URI) == Unescape([h] + rest, Quoted, URI);
    assert Unescape(t, Usual, URI) == Unescape([h, l] + rest, Quoted, URI);
  }

  /** Decoding an encoding returns the bytes through the first '?'. */
  lemma {:induction false} RoundTrip(s: Bytes)
    ensures Unescape(Escaped(s), Usual, URI) == UpToQuestion(s)
  {
    hide Escape, Read;
    if s != [] {
      EscapeReadsBack(s[0], Escaped(s[1..]));
      RoundTrip(s[1..]);
    }
  }

  lemma {:induction false} UpToQuestionExact(s: Bytes)
    ensures UpToQuestion(s) == s <==> forall i :: 0 <= i < |s| - 1 ==> s[i] != QUESTION
  {
    if s != [] {
      UpToQuestionExact(s[1..]);
      assert s == [s[0]] + s[1..];
      assert s[0] != QUESTION ==> UpToQuestion(s)[1..] == UpToQuestion(s[1..]);
      assert forall i :: 0 <= i < |s| - 2 ==> s[1..][i] == s[i + 1];
      if s[0] != QUESTION && |s| > 1 {
        assert (forall i :: 0 <= i < |s| - 1 ==> s[i] != QUESTION) <==>
          (forall i :: 0 <= i < |s| - 2 ==> s[1..][i] != QUESTION) by {
          if forall i :: 0 <= i < |s| - 2 ==> s[1..][i] != QUESTION {
            forall i | 0 <= i < |s| - 1 ensures s[i] != QUESTION {
              assert i > 0 ==> s[i] == s[1..][i - 1];
            }
          }
        }
      }
    }
  }

  /** The round trip is the identity exactly when no '?' comes before the last byte; in
      particular for every byte string without a '?'. */
  lemma RoundTripExact(s: Bytes)
    ensures Unescape(Escaped(s), Usual, URI) == s <==> forall i :: 0 <= i < |s| - 1 ==> s[i] != QUESTION
  {
    hide Unescape, Escaped, UpToQuestion;
    RoundTrip(s);
    UpToQuestionExact(s);
  }

  /** "a?b" comes back as "a?". */
  lemma QuestionExample()
    ensures Unescape(Escaped([97, QUESTION, 98]), Usual, URI) == [97, QUESTION]
  {
    RoundTrip([97, QUESTION, 98]);
    assert [97, QUESTION, 98][1..] == [QUESTION, 98];
  }

  // ---------------------------------------------------------------- the loop

  /** The writes for one character, an escape that is kept being copied from the source. */
  method WriteOut(src: array<byte>, i: nat, dst: array<byte>, d: nat, ghost text: Bytes, st: State, e: Effect) returns (next: nat)
    requires i < |text| <= src.Length && |text| <= dst.Length && d + Pending(st) <= i && |e.out| <= Pending(st) + 1
    requires st.QuotedSecond? ==> st.first == text[i - 1]
    requires |e.out| > 1 ==> st.QuotedSecond? && e.out == [PERCENT, st.first, text[i]]
    requires forall j :: d <= j < |text| ==> src[j] == text[j]
    modifies dst
    ensures next == d + |e.out| && next <= |text| && dst[..next] == old(dst[..d]) + e.out
    ensures forall j :: next <= j < |text| ==> src[j] == text[j]
    ensures forall j :: next <= j < dst.Length ==> dst[j] == old(dst[j])
  {
    next := d + |e.out|;
    if |e.out| > 1 {
      dst[d] := PERCENT;
      dst[d + 1] := src[i - 1];
      dst[d + 2] := src[i];
    } else if |e.out| == 1 {
      dst[d] := e.out[0];
    }
  }

  /** c_unescape_uri_internal. The two buffers may be the same one: the write position never
      passes the read position, so the result is that of decoding the original text. */
  method UnescapeInto(src: array<byte>, size: nat, dst: array<byte>, mode: Mode) returns (len: nat)
    requires size <= src.Length && size <= dst.Length
    modifies dst
    ensures len <= size && dst[..len] == Unescape(old(src[..size]), Usual, mode)
    ensures forall j :: len <= j < dst.Length ==> dst[j] == old(dst[j])
  {
    hide Read, Unescape;
    ghost var text := src[..size];
    var i: nat, d: nat := 0, 0;
    var st := Usual;
    while i < size
      invariant i <= size && StateOk(st) && d + Pending(st) <= i
      invariant st.QuotedSecond? ==> st.first == text[i - 1]
      invariant dst[..d] + Unescape(text[i..], st, mode) == Unescape(text, Usual, mode)
      invariant forall j :: d <= j < size ==> src[j] == text[j]
      invariant forall j :: d <= j < dst.Length ==> dst[j] == old(dst[j])
    {
      var e := Read(st, src[i], mode);
      ReadSize(st, src[i], mode);
      UnescapeOne(text, i, st, mode);
      d := WriteOut(src, i, dst, d, text, st, e);
      if e.stop {
        return d;
      }
      st, i := e.state, i + 1;
    }
    UnescapeNothing(text, st, mode);
    len := d;
  }

  lemma UnescapeNothing(text: Bytes, st: State, mode: Mode)
    requires StateOk(st)
    ensures Unescape(text[|text|..], st, mode) == [] && text[0..] == text
  {
  }

  lemma UnescapeOne(text: Bytes, i: nat, st: State, mode: Mode)
    requires i < |text| && StateOk(st)
    ensures var e := Read(st, text[i], mode);
      Unescape(text[i..], st, mode) == e.out + if e.stop then [] else Unescape(text[i + 1..], e.state, mode)
  {
  }

  /** hustdb_unescape_str: in place, with a terminator. */
  method UnescapeInPlace(str: array<byte>, size: nat) returns (len: nat)
    requires size < str.Length
    modifies str
    ensures len <= size && str[..len] == Unescape(old(str[..size]), Usual, URI) && str[len] == 0
    ensures forall j :: len < j < str.Length ==> str[j] == old(str[j])
  {
    hide Unescape;
    len := UnescapeInto(str, size, str, URI);
    ghost var text := str[..len];
    str[len] := 0;
    assert str[..len] == text;
  }
}
