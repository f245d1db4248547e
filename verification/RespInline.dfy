/** Inline commands: plain and quoted words between spaces. */
module RespInline {
  import opened Bytes
  import opened RespCodec

  // ---------------------------------------------------------------- lines as they are written

  /** A word as it is, or between quotes of one kind with escapes. */
  datatype Item = Plain(text: Bytes) | Quoted(mark: byte, text: Bytes)

  /** A word and the number of spaces behind it. */
  datatype Spaced = Spaced(item: Item, gap: nat)

  predicate PlainByte(c: byte) {
    c != SPACE && c != DQUOTE && c != SQUOTE && c != CR && c != LF
  }

  predicate IsMark(c: byte) {
    c == DQUOTE || c == SQUOTE
  }

  predicate PlainText(t: Bytes) {
    forall i :: 0 <= i < |t| ==> PlainByte(t[i])
  }

  predicate ItemOk(item: Item) {
    match item
    case Plain(t) => t != [] && PlainText(t)
    case Quoted(mark, _) => IsMark(mark)
  }

  /** Between quotes the line ends, the tabulator, the quote and the backslash are escaped. */
  function EscapeByte(mark: byte, c: byte): Bytes {
    if c == LF then Ascii("\\n")
    else if c == CR then Ascii("\\r")
    else if c == TAB then Ascii("\\t")
    else if c == mark || c == BACKSLASH then [BACKSLASH, c]
    else [c]
  }

  function EscapeAll(mark: byte, t: Bytes): Bytes {
    if t == [] then [] else EscapeByte(mark, t[0]) + EscapeAll(mark, t[1..])
  }

  function ItemText(item: Item): Bytes {
    match item
    case Plain(t) => t
    case Quoted(mark, t) => [mark] + EscapeAll(mark, t) + [mark]
  }

  function Spaces(n: nat): (s: Bytes)
    ensures |s| == n && forall i :: 0 <= i < n ==> s[i] == SPACE
  {
    seq(n, _ => SPACE)
  }

  function LineText(items: seq<Spaced>): Bytes {
    if items == [] then [] else ItemText(items[0].item) + Spaces(items[0].gap) + LineText(items[1..])
  }

  /** Every word but the last has a space behind it. */
  predicate LineOk(items: seq<Spaced>) {
    && (forall i :: 0 <= i < |items| ==> ItemOk(items[i].item))
    && (forall i :: 0 <= i < |items| - 1 ==> items[i].gap > 0)
  }

  function Texts(items: seq<Spaced>): seq<Bytes> {
    seq(|items|, i requires 0 <= i < |items| => items[i].item.text)
  }

  // ---------------------------------------------------------------- reading them

  lemma {:induction false} SplitSpaces(n: nat, tail: Bytes, args: seq<Bytes>)
    ensures SplitLine(Spaces(n) + tail, [], None, false, args) == SplitLine(tail, [], None, false, args)
  {
    if n == 0 {
      assert Spaces(0) + tail == tail;
    } else {
      assert (Spaces(n) + tail)[0] == SPACE && (Spaces(n) + tail)[1..] == Spaces(n - 1) + tail;
      SplitSpaces(n - 1, tail, args);
    }
  }

  lemma {:induction false} SplitPlain(t: Bytes, tail: Bytes, word: Bytes, args: seq<Bytes>)
    requires PlainText(t)
    ensures SplitLine(t + tail, word, None, false, args) == SplitLine(tail, word + t, None, false, args)
    decreases |t|
  {
    if t == [] {
      assert t + tail == tail && word + t == word;
    } else {
      assert (t + tail)[0] == t[0] && (t + tail)[1..] == t[1..] + tail;
      SplitPlain(t[1..], tail, word + [t[0]], args);
      assert word + [t[0]] + t[1..] == word + t;
    }
  }

  lemma SplitEscapedByte(mark: byte, c: byte, tail: Bytes, word: Bytes, args: seq<Bytes>)
    requires IsMark(mark)
    ensures SplitLine(EscapeByte(mark, c) + tail, word, Some(mark), false, args) ==
            SplitLine(tail, word + [c], Some(mark), false, args)
  {
    var e := EscapeByte(mark, c);
    if |e| == 2 {
      var line := e + tail;
      assert line[1..] == [e[1]] + tail && ([e[1]] + tail)[1..] == tail;
      assert SplitLine(line, word, Some(mark), false, args) == SplitLine([e[1]] + tail, word, Some(mark), true, args);
      assert Unescape(e[1]) == c;
    } else {
      assert (e + tail)[1..] == tail;
    }
  }

  lemma {:induction false} SplitEscaped(mark: byte, t: Bytes, tail: Bytes, word: Bytes, args: seq<Bytes>)
    requires IsMark(mark)
    ensures SplitLine(EscapeAll(mark, t) + tail, word, Some(mark), false, args) ==
            SplitLine(tail, word + t, Some(mark), false, args)
    decreases |t|
  {
    hide SplitLine, EscapeByte;
    if t == [] {
      assert EscapeAll(mark, t) + tail == tail && word + t == word;
    } else {
      var rest := EscapeAll(mark, t[1..]) + tail;
      assert EscapeAll(mark, t) + tail == EscapeByte(mark, t[0]) + rest;
      SplitEscapedByte(mark, t[0], rest, word, args);
      SplitEscaped(mark, t[1..], tail, word + [t[0]], args);
      assert word + [t[0]] + t[1..] == word + t;
    }
  }

  /** An opened quote. */
  lemma SplitOpen(mark: byte, t: Bytes, tail: Bytes, args: seq<Bytes>)
    requires IsMark(mark)
    ensures SplitLine([mark] + EscapeAll(mark, t) + tail, [], None, false, args) ==
            SplitLine(tail, t, Some(mark), false, args)
  {
    var line := [mark] + EscapeAll(mark, t) + tail;
    assert line[0] == mark && line[1..] == EscapeAll(mark, t) + tail;
    SplitEscaped(mark, t, tail, [], args);
    assert [] + t == t;
  }

  /** One word up to the space behind it, or to the end of the line. */
  lemma SplitItem(item: Item, tail: Bytes, args: seq<Bytes>)
    requires ItemOk(item) && (tail == [] || tail[0] == SPACE)
    ensures SplitLine(ItemText(item) + tail, [], None, false, args) == SplitLine(tail, [], None, false, args + [item.text])
  {
    match item
    case Plain(t) =>
      SplitPlain(t, tail, [], args);
      assert [] + t == t;
    case Quoted(mark, t) =>
      var close := [mark] + tail;
      assert ItemText(item) + tail == [mark] + EscapeAll(mark, t) + close;
      SplitOpen(mark, t, close, args);
      assert close[1..] == tail;
  }

  lemma {:induction false} SplitItems(items: seq<Spaced>, tail: Bytes, args: seq<Bytes>)
    requires LineOk(items) && (tail == [] || items == [] || items[|items| - 1].gap > 0)
    ensures SplitLine(LineText(items) + tail, [], None, false, args) ==
            SplitLine(tail, [], None, false, args + Texts(items))
    decreases |items|
  {
    hide SplitLine, ItemOk, ItemText;
    if items == [] {
      assert LineText(items) + tail == tail && args + Texts(items) == args;
    } else {
      var first := items[0];
      var text, gap, more := ItemText(first.item), Spaces(first.gap), LineText(items[1..]);
      var rest := more + tail;
      var spaced := gap + rest;
      assert text + gap + more + tail == text + spaced;
      if first.gap == 0 {
        assert |items| == 1 && items[1..] == [];
        assert spaced == [];
      }
      SplitItem(first.item, spaced, args);
      SplitSpaces(first.gap, rest, args + [first.item.text]);
      assert LineOk(items[1..]);
      SplitItems(items[1..], tail, args + [first.item.text]);
      assert args + [first.item.text] + Texts(items[1..]) == args + Texts(items);
    }
  }

  // ---------------------------------------------------------------- lines in a buffer

  predicate NoLineEnd(t: Bytes) {
    LF !in t && CR !in t
  }

  lemma {:induction false} EscapedHasNoLineEnd(mark: byte, t: Bytes)
    ensures IsMark(mark) ==> NoLineEnd(EscapeAll(mark, t))
  {
    if t != [] { EscapedHasNoLineEnd(mark, t[1..]); }
  }

  lemma {:induction false} LineHasNoLineEnd(items: seq<Spaced>)
    requires LineOk(items)
    ensures NoLineEnd(LineText(items))
    decreases |items|
  {
    if items != [] {
      var item := items[0].item;
      if item.Quoted? { EscapedHasNoLineEnd(item.mark, item.text); }
      assert NoLineEnd(ItemText(item)) && NoLineEnd(Spaces(items[0].gap));
      LineHasNoLineEnd(items[1..]);
    }
  }

  /** A body without line ends, followed by LF or by CR LF, is the first line. */
  lemma FirstLine(q: Bytes, end: Bytes, s: Bytes)
    requires NoLineEnd(q) && (end == [LF] || end == [CR, LF])
    ensures FindLF(q + end + s, 0) == |q| + |end| - 1
    ensures LineBody(q + end + s, |q| + |end| - 1) == q
  {
    var b := q + end + s;
    assert forall j :: 0 <= j < |q| ==> b[j] == q[j];
    assert b[|q| + |end| - 1] == LF;
    FindLFIs(b, 0, |q| + |end| - 1);
    if end == [LF] && |q| > 0 { assert b[|q| - 1] == q[|q| - 1] != CR; }
  }

  /** A line of plain and quoted words, with any number of spaces in front of, between and behind
      them, ended by LF or CR LF, is taken as exactly those words; the command carries their
      array encoding. A line without words uses its bytes and gives no command. */
  lemma InlineRoundTrip(lead: nat, items: seq<Spaced>, end: Bytes, s: Bytes)
    requires LineOk(items) && (end == [LF] || end == [CR, LF])
    requires var line := Spaces(lead) + LineText(items); line == [] || line[0] != STAR
    ensures var line := Spaces(lead) + LineText(items);
      TakeOne(line + end + s) ==
      Took(if items == [] then None else Some(Command(Encode(Texts(items)), Texts(items))), |line| + |end|)
  {
    hide SplitLine, Encode, LineText, FindLF, LineBody, TakeArray;
    var line := Spaces(lead) + LineText(items);
    LineHasNoLineEnd(items);
    FirstLine(line, end, s);
    SplitSpaces(lead, LineText(items), []);
    SplitItems(items, [], []);
    assert LineText(items) + [] == LineText(items) && [] + Texts(items) == Texts(items);
    SplitNothing(Texts(items));
  }

  lemma SplitNothing(args: seq<Bytes>)
    ensures SplitLine([], [], None, false, args) == Words(args)
  {
  }

  /** Behind any number of good words: a quote inside a plain word, a closing quote that no space
      follows, and a quote that is not closed make the line unbalanced. */
  lemma QuoteErrors(items: seq<Spaced>, mark: byte, t: Bytes, next: byte, rest: Bytes)
    requires LineOk(items) && (items == [] || items[|items| - 1].gap > 0) && IsMark(mark)
    ensures t != [] && PlainText(t) ==>
      SplitLine(LineText(items) + (t + [mark] + rest), [], None, false, []) == WordsFailed
    ensures next != SPACE ==>
      SplitLine(LineText(items) + ([mark] + EscapeAll(mark, t) + ([mark, next] + rest)), [], None, false, []) == WordsFailed
    ensures SplitLine(LineText(items) + ([mark] + EscapeAll(mark, t) + []), [], None, false, []) == WordsFailed
  {
    hide LineText, ItemText, EscapeAll;
    var args := [] + Texts(items);
    SplitItems(items, t + [mark] + rest, []);
    if t != [] && PlainText(t) {
      assert t + [mark] + rest == t + ([mark] + rest);
      SplitPlain(t, [mark] + rest, [], args);
      assert [] + t == t;
    }
    SplitItems(items, [mark] + EscapeAll(mark, t) + ([mark, next] + rest), []);
    SplitOpen(mark, t, [mark, next] + rest, args);
    SplitItems(items, [mark] + EscapeAll(mark, t) + [], []);
    SplitOpen(mark, t, [], args);
  }
}
