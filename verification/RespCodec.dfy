/** The Redis serialization protocol as written by hustdb/goha/server/writer.go and read
    by hustdb/goha/server/reader.go, on byte strings. */
module RespCodec {
  import opened Bytes
  import opened Decimal

  const INT64_LIMIT: nat := 0x8000_0000_0000_0000
  const UINT64_LIMIT: nat := 0x1_0000_0000_0000_0000

  /** The protocol errors, and the run-time panic of an index that left the buffer. */
  datatype Error =
    | UnbalancedQuotes
    | InvalidBulkLength
    | InvalidMultiBulkLength
    | ExpectedDollar(got: byte)
    | IndexOutOfRange

  datatype Command = Command(raw: Bytes, args: seq<Bytes>)

  /** What one attempt at the front of the buffer gives: wait for more bytes, fail, or
      use `used` bytes (an empty inline line uses bytes and yields no command). */
  datatype Outcome =
    | NeedMore
    | Bad(error: Error)
    | Took(command: Option<Command>, used: nat)

  // ---------------------------------------------------------------- writer

  function ArrayHeader(count: nat): Bytes {
    [STAR] + Digits(count) + [CR, LF]
  }

  function Bulk(arg: Bytes): Bytes {
    [DOLLAR] + Digits(|arg|) + [CR, LF] + arg + [CR, LF]
  }

  function Bulks(args: seq<Bytes>): Bytes {
    if args == [] then [] else Bulk(args[0]) + Bulks(args[1..])
  }

  function Encode(args: seq<Bytes>): Bytes {
    ArrayHeader(|args|) + Bulks(args)
  }

  /** Every index of the encoding fits Go's int. */
  predicate Encodable(args: seq<Bytes>) {
    args != [] && |Encode(args)| <= INT64_LIMIT
  }

  lemma {:induction false} BulksAppend(args: seq<Bytes>, last: Bytes)
    ensures Bulks(args + [last]) == Bulks(args) + Bulk(last)
  {
    var all := args + [last];
    if args == [] {
      assert all == [last] && all[1..] == [];
    } else {
      assert all[1..] == args[1..] + [last];
      BulksAppend(args[1..], last);
    }
  }

  // ---------------------------------------------------------------- numbers

  /** Go's conversion int(n) of a uint64. */
  function ToInt(n: nat): int
    requires n < UINT64_LIMIT
  {
    if n < INT64_LIMIT then n else n - UINT64_LIMIT
  }

  /** strconv.ParseUint(s, 10, 64). */
  function ParseUint(s: Bytes): Option<nat> {
    if s != [] && AllDigits(s) && Value(s) < UINT64_LIMIT then Some(Value(s)) else None
  }

  /** parseInt: shortcuts for one and two digits, then the library routine. */
  function ParseInt(b: Bytes): Option<int> {
    if |b| == 1 && IsDigit(b[0]) then
      Some(b[0] - ZERO)
    else if |b| == 2 && IsDigit(b[0]) && IsDigit(b[1]) then
      Some((b[0] - ZERO) * 10 + (b[1] - ZERO))
    else
      match ParseUint(b)
      case None => None
      case Some(n) => if n < UINT64_LIMIT then Some(ToInt(n)) else None
  }

  /** The shortcuts agree with the library routine on every input. */
  lemma ParseIntIsParseUint(b: Bytes)
    ensures ParseInt(b).Some? <==> b != [] && AllDigits(b) && Value(b) < UINT64_LIMIT
    ensures ParseInt(b).Some? ==> ParseInt(b).value == ToInt(Value(b))
  {
  }

  lemma ParseIntOfDigits(n: nat)
    requires n < INT64_LIMIT
    ensures ParseInt(Digits(n)) == Some(n)
  {
    ValueOfDigits(n);
    ParseIntIsParseUint(Digits(n));
  }

  // ---------------------------------------------------------------- array commands

  /** One bulk string: wait, fail, or the argument b[lo..hi] with its last byte at `last`. */
  datatype BulkStep = Wait | Fail(error: Error) | Arg(lo: nat, hi: nat, last: nat)

  /** Reads the bulk string whose first byte is at index i. The sum of the index and the
      declared length is a Go int: past its largest value it turns negative, passes the test
      against the length of the buffer and is then used as an index. */
  function TakeBulk(b: Bytes, i: nat): (r: BulkStep)
    ensures r.Arg? ==> i + 1 < r.lo <= r.hi && r.hi + 1 == r.last < |b|
  {
    if i >= |b| then
      Wait
    else if b[i] != DOLLAR then
      Fail(ExpectedDollar(b[i]))
    else
      var m := FindLF(b, i);
      if m == |b| then
        Wait
      else if b[m - 1] != CR then
        Fail(InvalidBulkLength)
      else
        var size := ParseInt(b[i + 1..m - 1]);
        if size.None? || size.value < 0 then
          Fail(InvalidBulkLength)
        else if m + size.value + 2 >= INT64_LIMIT then
          Fail(IndexOutOfRange)
        else if m + size.value + 2 >= |b| then
          Wait
        else if b[m + size.value + 2] != LF || b[m + size.value + 1] != CR then
          Fail(InvalidBulkLength)
        else
          Arg(m + 1, m + 1 + size.value, m + size.value + 2)
  }

  /** Reads `left` bulk strings, the first starting after index i; `acc` are those read. */
  function TakeBulks(b: Bytes, i: nat, left: nat, acc: seq<Bytes>): Outcome
    requires i < |b|
    decreases left
  {
    if left == 0 then
      Took(Some(Command(b[..i + 1], acc)), i + 1)
    else
      match TakeBulk(b, i + 1)
      case Wait => NeedMore
      case Fail(e) => Bad(e)
      case Arg(lo, hi, last) => TakeBulks(b, last, left - 1, acc + [b[lo..hi]])
  }

  function TakeArray(b: Bytes): Outcome
    requires b != [] && b[0] == STAR
  {
    var k := FindLF(b, 1);
    if k == |b| then
      NeedMore
    else if b[k - 1] != CR then
      Bad(InvalidMultiBulkLength)
    else
      var count := ParseInt(b[1..k - 1]);
      if count.None? || count.value <= 0 then
        Bad(InvalidMultiBulkLength)
      else
        TakeBulks(b, k, count.value, [])
  }

  // ---------------------------------------------------------------- inline commands

  datatype Words = WordsFailed | Words(args: seq<Bytes>)

  function Unescape(c: byte): byte {
    if c == 'n' as int then LF else if c == 'r' as int then CR else if c == 't' as int then TAB else c
  }

  /** Splits the rest of an inline line. `word` is the word being read, `quote` the open
      quote character if any, `escape` says the previous byte was a backslash. */
  function SplitLine(rest: Bytes, word: Bytes, quote: Option<byte>, escape: bool, args: seq<Bytes>): Words
    decreases |rest|
  {
    if rest == [] then
      if quote.Some? then WordsFailed
      else Words(if word != [] then args + [word] else args)
    else
      var c := rest[0];
      if quote.None? then
        if c == SPACE then
          SplitLine(rest[1..], [], None, false, if word != [] then args + [word] else args)
        else if c == DQUOTE || c == SQUOTE then
          if word != [] then WordsFailed else SplitLine(rest[1..], [], Some(c), false, args)
        else
          SplitLine(rest[1..], word + [c], None, false, args)
      else if escape then
        SplitLine(rest[1..], word + [Unescape(c)], quote, false, args)
      else if c == quote.value then
        if |rest| > 1 && rest[1] != SPACE then WordsFailed
        else SplitLine(rest[1..], [], None, false, args + [word])
      else if c == BACKSLASH then
        SplitLine(rest[1..], word, quote, true, args)
      else
        SplitLine(rest[1..], word + [c], quote, false, args)
  }

  /** The line that ends at the line feed at index k, without its line end. */
  function LineBody(b: Bytes, k: nat): Bytes
    requires k < |b|
  {
    if k > 0 && b[k - 1] == CR then b[..k - 1] else b[..k]
  }

  function TakeInline(b: Bytes): Outcome {
    var k := FindLF(b, 0);
    if k == |b| then
      NeedMore
    else
      match SplitLine(LineBody(b, k), [], None, false, [])
      case WordsFailed => Bad(UnbalancedQuotes)
      case Words(args) =>
        Took(if args == [] then None else Some(Command(Encode(args), args)), k + 1)
  }

  /** One pass of the `next` label of readCommands. */
  function TakeOne(b: Bytes): (r: Outcome)
    requires b != []
  {
    if b[0] == STAR then TakeArray(b) else TakeInline(b)
  }

  // ---------------------------------------------------------------- progress and stability

  lemma {:induction false} TakeBulksUses(b: Bytes, i: nat, left: nat, acc: seq<Bytes>)
    requires i < |b|
    ensures TakeBulks(b, i, left, acc).Took? ==>
      var t := TakeBulks(b, i, left, acc);
      && i < t.used <= |b|
      && t.command.Some? && t.command.value.raw == b[..t.used]
      && |t.command.value.args| == |acc| + left
    decreases left
  {
    if left > 0 {
      match TakeBulk(b, i + 1)
      case Wait =>
      case Fail(_) =>
      case Arg(lo, hi, last) => TakeBulksUses(b, last, left - 1, acc + [b[lo..hi]]);
    }
  }

  /** Every step that takes something uses at least one and at most all bytes. */
  lemma TakeOneUses(b: Bytes)
    requires b != []
    ensures TakeOne(b).Took? ==> 0 < TakeOne(b).used <= |b|
    ensures TakeOne(b).Took? && TakeOne(b).command.Some? ==> TakeOne(b).command.value.args != []
  {
    if b[0] == STAR {
      var k := FindLF(b, 1);
      if k < |b| && b[k - 1] == CR {
        var count := ParseInt(b[1..k - 1]);
        if count.Some? && count.value > 0 {
          TakeBulksUses(b, k, count.value, []);
        }
      }
    }
  }

  lemma TakeBulkStable(p: Bytes, s: Bytes, i: nat)
    ensures !TakeBulk(p, i).Wait? ==> TakeBulk(p + s, i) == TakeBulk(p, i)
  {
    if i < |p| {
      FindLFOfPrefix(p, s, i);
      var m := FindLF(p, i);
      if m < |p| && i + 1 <= m - 1 {
        assert (p + s)[i + 1..m - 1] == p[i + 1..m - 1];
      }
    }
  }

  lemma {:induction false} TakeBulksStable(p: Bytes, s: Bytes, i: nat, left: nat, acc: seq<Bytes>)
    requires i < |p|
    ensures !TakeBulks(p, i, left, acc).NeedMore? ==>
      TakeBulks(p + s, i, left, acc) == TakeBulks(p, i, left, acc)
    decreases left
  {
    if left == 0 {
      assert (p + s)[..i + 1] == p[..i + 1];
    } else {
      TakeBulkStable(p, s, i + 1);
      match TakeBulk(p, i + 1)
      case Wait =>
      case Fail(_) =>
      case Arg(lo, hi, last) =>
        assert (p + s)[lo..hi] == p[lo..hi];
        TakeBulksStable(p, s, last, left - 1, acc + [p[lo..hi]]);
    }
  }

  /** Once the front of the buffer decides, later bytes do not change the decision. */
  lemma TakeOneStable(p: Bytes, s: Bytes)
    requires p != [] && !TakeOne(p).NeedMore?
    ensures TakeOne(p + s) == TakeOne(p)
  {
    var b := p + s;
    if p[0] == STAR {
      FindLFOfPrefix(p, s, 1);
      var k := FindLF(p, 1);
      if p[k - 1] == CR {
        assert b[1..k - 1] == p[1..k - 1];
        var count := ParseInt(p[1..k - 1]);
        if count.Some? && count.value > 0 {
          TakeBulksStable(p, s, k, count.value, []);
        }
      }
    } else {
      FindLFOfPrefix(p, s, 0);
      var k := FindLF(p, 0);
      assert LineBody(b, k) == LineBody(p, k);
    }
  }

  lemma TakeBulkPrefix(b: Bytes, i: nat, n: nat)
    requires n <= |b| && TakeBulk(b, i).Arg? && TakeBulk(b, i).last < n
    ensures TakeBulk(b[..n], i) == TakeBulk(b, i)
  {
    var p := b[..n];
    var m := FindLF(b, i);
    FindLFIs(p, i, m);
    assert p[i + 1..m - 1] == b[i + 1..m - 1];
  }

  lemma {:induction false} TakeBulksPrefix(b: Bytes, i: nat, left: nat, acc: seq<Bytes>, n: nat)
    requires i < |b| && TakeBulks(b, i, left, acc).Took? && TakeBulks(b, i, left, acc).used == n
    ensures i < n <= |b| && TakeBulks(b[..n], i, left, acc) == TakeBulks(b, i, left, acc)
    decreases left
  {
    hide TakeBulk;
    TakeBulksUses(b, i, left, acc);
    if left == 0 {
      assert b[..n][..i + 1] == b[..i + 1];
    } else {
      var step := TakeBulk(b, i + 1);
      var more := acc + [b[step.lo..step.hi]];
      TakeBulksUses(b, step.last, left - 1, more);
      TakeBulksPrefix(b, step.last, left - 1, more, n);
      TakeBulkPrefix(b, i + 1, n);
      assert b[..n][step.lo..step.hi] == b[step.lo..step.hi];
    }
  }

  /** What is taken depends on the bytes it uses only. */
  lemma TakeOnePrefix(b: Bytes)
    requires b != [] && TakeOne(b).Took?
    ensures var n := TakeOne(b).used;
      0 < n <= |b| && TakeOne(b[..n]) == TakeOne(b)
  {
    hide TakeBulks, ParseInt, SplitLine;
    TakeOneUses(b);
    var n := TakeOne(b).used;
    var p := b[..n];
    if b[0] == STAR {
      var k := FindLF(b, 1);
      TakeBulksPrefix(b, k, ParseInt(b[1..k - 1]).value, [], n);
      FindLFIs(p, 1, k);
      assert p[1..k - 1] == b[1..k - 1];
    } else {
      FindLFIs(p, 0, n - 1);
      assert LineBody(p, n - 1) == LineBody(b, n - 1);
    }
  }

  // ---------------------------------------------------------------- the grammar of arrays

  /** b has text at index i. */
  predicate At(b: Bytes, i: nat, text: Bytes) {
    i + |text| <= |b| && b[i..i + |text|] == text
  }

  lemma AtSplit(b: Bytes, i: nat, x: Bytes, y: Bytes)
    requires At(b, i, x + y)
    ensures At(b, i, x) && At(b, i + |x|, y)
  {
    assert b[i..i + |x|] == (x + y)[..|x|] == x by {
      assert b[i..i + |x + y|][..|x|] == b[i..i + |x|];
    }
    assert b[i + |x|..i + |x| + |y|] == (x + y)[|x|..] == y by {
      assert b[i..i + |x + y|][|x|..] == b[i + |x|..i + |x| + |y|];
    }
  }

  /** The digits denote n; leading zeros do not matter. */
  predicate IsNumber(digits: Bytes, n: nat) {
    digits != [] && AllDigits(digits) && Value(digits) == n
  }

  lemma DigitsAreNumber(n: nat)
    ensures IsNumber(Digits(n), n)
  {
    ValueOfDigits(n);
  }

  /** A number line is found and parsed. */
  lemma NumberLine(b: Bytes, i: nat, mark: byte, d: Bytes, n: nat)
    requires mark != LF && IsNumber(d, n) && n < INT64_LIMIT
    requires At(b, i, [mark] + d + [CR, LF])
    ensures i + |d| + 2 < |b| && b[i] == mark
    ensures var m := i + |d| + 2;
      FindLF(b, i) == m && b[m - 1] == CR && b[i + 1..m - 1] == d
    ensures FindLF(b, i + 1) == i + |d| + 2
    ensures ParseInt(b[i + 1..i + |d| + 1]) == Some(n)
  {
    var text := [mark] + d + [CR, LF];
    var m := i + |d| + 2;
    forall j | 0 <= j < |text| ensures b[i + j] == text[j] {
      assert b[i..i + |text|][j] == b[i + j];
    }
    forall j | i <= j < m ensures b[j] != LF {
      assert b[j] == text[j - i];
    }
    assert b[m] == text[|d| + 2] == LF;
    assert b[m - 1] == text[|d| + 1] == CR;
    assert b[i] == text[0];
    FindLFIs(b, i, m);
    FindLFIs(b, i + 1, m);
    assert b[i + 1..m - 1] == d by {
      forall j | 0 <= j < |d| ensures b[i + 1..m - 1][j] == d[j] {
        assert b[i + 1 + j] == text[1 + j];
      }
    }
    ParseIntIsParseUint(d);
  }

  /** A bulk string as it may be sent: its length in digits, and its bytes. */
  datatype Piece = Piece(digits: Bytes, arg: Bytes)

  function PieceText(p: Piece): Bytes {
    [DOLLAR] + p.digits + [CR, LF] + p.arg + [CR, LF]
  }

  function PiecesText(ps: seq<Piece>): Bytes {
    if ps == [] then [] else PieceText(ps[0]) + PiecesText(ps[1..])
  }

  function HeadText(digits: Bytes): Bytes {
    [STAR] + digits + [CR, LF]
  }

  predicate PiecesOk(ps: seq<Piece>) {
    forall i :: 0 <= i < |ps| ==> IsNumber(ps[i].digits, |ps[i].arg|)
  }

  function Args(ps: seq<Piece>): (args: seq<Bytes>)
    ensures |args| == |ps|
  {
    if ps == [] then [] else [ps[0].arg] + Args(ps[1..])
  }

  /** The pieces the writer sends. */
  function Written(args: seq<Bytes>): (ps: seq<Piece>)
    ensures |ps| == |args|
  {
    if args == [] then [] else [Piece(Digits(|args[0]|), args[0])] + Written(args[1..])
  }

  lemma WrittenOne(arg: Bytes)
    ensures PieceText(Piece(Digits(|arg|), arg)) == Bulk(arg)
  {
  }

  lemma NoPieces()
    ensures PiecesOk([])
  {
  }

  lemma MorePieces(p: Piece, ps: seq<Piece>)
    requires IsNumber(p.digits, |p.arg|) && PiecesOk(ps)
    ensures PiecesOk([p] + ps) && Args([p] + ps) == [p.arg] + Args(ps)
    ensures PiecesText([p] + ps) == PieceText(p) + PiecesText(ps)
  {
    hide IsNumber, PieceText;
    assert ([p] + ps)[1..] == ps;
  }

  lemma {:induction false} WrittenIs(args: seq<Bytes>)
    ensures PiecesText(Written(args)) == Bulks(args) && PiecesOk(Written(args)) && Args(Written(args)) == args
  {
    hide Digits, IsNumber, PieceText, Bulk, PiecesOk;
    if args == [] {
      assert PiecesOk([]) by { NoPieces(); }
    } else {
      var first, rest := Piece(Digits(|args[0]|), args[0]), Written(args[1..]);
      WrittenIs(args[1..]);
      WrittenOne(args[0]);
      DigitsAreNumber(|args[0]|);
      MorePieces(first, rest);
      assert [args[0]] + args[1..] == args;
    }
  }

  /** The parts of a bulk string in a buffer; `tail` are the two bytes behind the argument. */
  lemma PieceParts(b: Bytes, i: nat, p: Piece, tail: Bytes)
    requires |tail| == 2 && At(b, i, [DOLLAR] + p.digits + [CR, LF] + p.arg + tail)
    ensures At(b, i, [DOLLAR] + p.digits + [CR, LF])
    ensures var o := i + |p.digits| + 3; var e := o + |p.arg|;
      e + 2 <= |b| && b[o..e] == p.arg && b[e] == tail[0] && b[e + 1] == tail[1]
  {
    var head := [DOLLAR] + p.digits + [CR, LF];
    assert head + p.arg + tail == head + (p.arg + tail);
    AtSplit(b, i, head, p.arg + tail);
    AtSplit(b, i + |head|, p.arg, tail);
    var e := i + |head| + |p.arg|;
    assert b[e] == b[e..e + 2][0] && b[e + 1] == b[e..e + 2][1];
  }

  /** Once all announced bytes and two more are there, those two decide. */
  lemma TakeAnnounced(b: Bytes, i: nat, d: Bytes, n: nat)
    requires IsNumber(d, n) && At(b, i, [DOLLAR] + d + [CR, LF])
    requires i + |d| + 3 + n + 2 <= |b| && i + |d| + 3 + n + 2 <= INT64_LIMIT
    ensures var o := i + |d| + 3;
      TakeBulk(b, i) == if b[o + n] == CR && b[o + n + 1] == LF then Arg(o, o + n, o + n + 1) else Fail(InvalidBulkLength)
  {
    hide FindLF, ParseInt, IsNumber, At;
    NumberLine(b, i, DOLLAR, d, n);
  }

  /** One bulk string is read back. */
  lemma TakePiece(b: Bytes, i: nat, p: Piece)
    requires IsNumber(p.digits, |p.arg|) && At(b, i, PieceText(p)) && i + |PieceText(p)| <= INT64_LIMIT
    ensures TakeBulk(b, i).Arg? && TakeBulk(b, i).last == i + |PieceText(p)| - 1
    ensures b[TakeBulk(b, i).lo..TakeBulk(b, i).hi] == p.arg
  {
    hide TakeBulk, IsNumber, At;
    PieceParts(b, i, p, [CR, LF]);
    TakeAnnounced(b, i, p.digits, |p.arg|);
  }

  /** From index i on, b holds bulk strings that read as args and end before index e. */
  predicate BulksAt(b: Bytes, i: nat, args: seq<Bytes>, e: nat)
    decreases |args|
  {
    if args == [] then i == e
    else
      && TakeBulk(b, i).Arg?
      && b[TakeBulk(b, i).lo..TakeBulk(b, i).hi] == args[0]
      && BulksAt(b, TakeBulk(b, i).last + 1, args[1..], e)
  }

  lemma {:induction false} PiecesAt(b: Bytes, i: nat, ps: seq<Piece>)
    requires PiecesOk(ps) && At(b, i, PiecesText(ps)) && i + |PiecesText(ps)| <= INT64_LIMIT
    ensures BulksAt(b, i, Args(ps), i + |PiecesText(ps)|)
    decreases |ps|
  {
    hide TakeBulk, IsNumber;
    if ps != [] {
      var first, rest := PieceText(ps[0]), PiecesText(ps[1..]);
      AtSplit(b, i, first, rest);
      TakePiece(b, i, ps[0]);
      assert TakeBulk(b, i).last + 1 == i + |first|;
      PiecesAt(b, i + |first|, ps[1..]);
      assert i + |first| + |rest| == i + |PiecesText(ps)|;
      assert Args(ps)[1..] == Args(ps[1..]);
    }
  }

  lemma {:induction false} PiecesLength(ps: seq<Piece>)
    ensures |ps| <= |PiecesText(ps)|
  {
    if ps != [] { PiecesLength(ps[1..]); }
  }

  /** After the bulk strings that are there, the rest is read from where they end. */
  lemma {:induction false} TakeBulksAt(b: Bytes, i: nat, args: seq<Bytes>, e: nat, left: nat, acc: seq<Bytes>)
    requires 0 < i <= |b| && BulksAt(b, i, args, e)
    ensures i <= e <= |b|
    ensures TakeBulks(b, i - 1, |args| + left, acc) == TakeBulks(b, e - 1, left, acc + args)
    decreases |args|
  {
    hide TakeBulk;
    if args == [] {
      assert acc + args == acc;
    } else {
      TakeBulksAt(b, TakeBulk(b, i).last + 1, args[1..], e, left, acc + [args[0]]);
      assert acc + [args[0]] + args[1..] == acc + args;
    }
  }

  /** The header and the bulk strings behind it. */
  lemma TakeHead(b: Bytes, d: Bytes, ps: seq<Piece>, left: nat)
    requires IsNumber(d, |ps| + left) && 0 < |ps| + left < INT64_LIMIT && PiecesOk(ps)
    requires At(b, 0, HeadText(d) + PiecesText(ps)) && |HeadText(d) + PiecesText(ps)| <= INT64_LIMIT
    ensures var e := |HeadText(d) + PiecesText(ps)|;
      0 < e <= |b| && TakeOne(b) == TakeBulks(b, e - 1, left, Args(ps))
  {
    hide TakeBulk, ParseInt, TakeBulks, BulksAt, IsNumber, PiecesText;
    var head := HeadText(d);
    AtSplit(b, 0, head, PiecesText(ps));
    NumberLine(b, 0, STAR, d, |ps| + left);
    PiecesAt(b, |head|, ps);
    TakeBulksAt(b, |head|, Args(ps), |head| + |PiecesText(ps)|, left, []);
    assert [] + Args(ps) == Args(ps);
  }

  /** A command as it may be sent. */
  predicate Grammatical(d: Bytes, ps: seq<Piece>) {
    ps != [] && IsNumber(d, |ps|) && PiecesOk(ps) && |HeadText(d) + PiecesText(ps)| <= INT64_LIMIT
  }

  /** Every command of the grammar is taken, whatever follows it in the buffer. */
  lemma GrammarTaken(d: Bytes, ps: seq<Piece>, s: Bytes)
    requires Grammatical(d, ps)
    ensures var text := HeadText(d) + PiecesText(ps);
      TakeOne(text + s) == Took(Some(Command(text, Args(ps))), |text|)
  {
    hide TakeOne, TakeBulk, IsNumber, PiecesText;
    var text := HeadText(d) + PiecesText(ps);
    var b := text + s;
    assert b[0..|text|] == text;
    PiecesLength(ps);
    TakeHead(b, d, ps, 0);
    assert b[..|text|] == text;
  }

  lemma FiveParts(b: Bytes, i: nat, j: nat, k: nat, l: nat, m: nat, n: nat)
    requires i <= j <= k <= l <= m <= n <= |b|
    ensures b[i..n] == b[i..j] + b[j..k] + b[k..l] + b[l..m] + b[m..n]
  {
    assert b[i..k] == b[i..j] + b[j..k];
    assert b[i..l] == b[i..k] + b[k..l];
    assert b[i..m] == b[i..l] + b[l..m];
    assert b[i..n] == b[i..m] + b[m..n];
  }

  /** What is read as a bulk string is one. */
  lemma TakeBulkSound(b: Bytes, i: nat)
    requires TakeBulk(b, i).Arg?
    ensures var r := TakeBulk(b, i);
      && r.last < INT64_LIMIT && i + 2 < r.lo <= |b| && r.hi <= |b|
      && var p := Piece(b[i + 1..r.lo - 2], b[r.lo..r.hi]);
         IsNumber(p.digits, |p.arg|) && b[i..r.last + 1] == PieceText(p)
  {
    hide ParseInt, FindLF;
    var r := TakeBulk(b, i);
    var d := b[i + 1..r.lo - 2];
    ParseIntIsParseUint(d);
    FiveParts(b, i, i + 1, r.lo - 2, r.lo, r.hi, r.last + 1);
    assert b[i..i + 1] == [DOLLAR] && b[r.lo - 2..r.lo] == [CR, LF] && b[r.hi..r.last + 1] == [CR, LF];
  }

  lemma {:induction false} TakeBulksSound(b: Bytes, i: nat, left: nat, acc: seq<Bytes>) returns (ps: seq<Piece>)
    requires i < |b| && TakeBulks(b, i, left, acc).Took?
    ensures var t := TakeBulks(b, i, left, acc);
      && |ps| == left && PiecesOk(ps) && i < t.used <= |b| && (left > 0 ==> t.used <= INT64_LIMIT)
      && b[i + 1..t.used] == PiecesText(ps)
      && t.command == Some(Command(b[..t.used], acc + Args(ps)))
    decreases left
  {
    hide TakeBulk, IsNumber;
    if left == 0 {
      ps := [];
      assert acc + [] == acc;
    } else {
      var r := TakeBulk(b, i + 1);
      TakeBulkSound(b, i + 1);
      var p := Piece(b[i + 2..r.lo - 2], b[r.lo..r.hi]);
      var rest := TakeBulksSound(b, r.last, left - 1, acc + [p.arg]);
      ps := [p] + rest;
      var used := TakeBulks(b, i, left, acc).used;
      assert b[i + 1..used] == b[i + 1..r.last + 1] + b[r.last + 1..used];
      assert acc + [p.arg] + Args(rest) == acc + Args(ps);
    }
  }

  /** A command is taken from an array exactly when its bytes are a command of the grammar, and it
      has the arguments of that command. */
  lemma GrammarExact(b: Bytes) returns (d: Bytes, ps: seq<Piece>)
    requires b != [] && b[0] == STAR && TakeOne(b).Took?
    ensures var t := TakeOne(b);
      && Grammatical(d, ps) && t.used <= |b| && b[..t.used] == HeadText(d) + PiecesText(ps)
      && t.command == Some(Command(b[..t.used], Args(ps)))
  {
    hide TakeBulk, ParseInt, TakeBulks;
    var k := FindLF(b, 1);
    d := b[1..k - 1];
    ParseIntIsParseUint(d);
    var count := ParseInt(d).value;
    ps := TakeBulksSound(b, k, count, []);
    var used := TakeOne(b).used;
    assert b[..used] == [b[0]] + d + b[k - 1..k + 1] + b[k + 1..used];
    assert b[k - 1..k + 1] == [CR, LF];
    assert [] + Args(ps) == Args(ps);
  }

  // ---------------------------------------------------------------- what is refused

  /** The text of a line is a number below 2^63 followed by CR. */
  predicate NumberText(line: Bytes) {
    && |line| >= 2 && line[|line| - 1] == CR && AllDigits(line[..|line| - 1])
    && Value(line[..|line| - 1]) < INT64_LIMIT
  }

  lemma LineAt(b: Bytes, i: nat, mark: byte, line: Bytes)
    requires mark != LF && LF !in line && At(b, i, [mark] + line + [LF])
    ensures i < |b| && b[i] == mark && FindLF(b, i) == FindLF(b, i + 1) == i + 1 + |line| < |b|
    ensures b[i + 1..i + 1 + |line|] == line
  {
    var text := [mark] + line + [LF];
    forall j | 0 <= j < |text| ensures b[i + j] == text[j] {
      assert b[i..i + |text|][j] == b[i + j];
    }
    forall j | i <= j < i + 1 + |line| ensures b[j] != LF {
      assert b[j] == text[j - i];
    }
    FindLFIs(b, i, i + 1 + |line|);
    FindLFIs(b, i + 1, i + 1 + |line|);
    forall j | 0 <= j < |line| ensures b[i + 1..i + 1 + |line|][j] == line[j] {
      assert b[i + 1 + j] == text[1 + j];
    }
  }

  /** A first line that is not a positive number below 2^63 and CR LF is refused. */
  lemma BadHead(line: Bytes, s: Bytes)
    requires LF !in line && !(NumberText(line) && Value(line[..|line| - 1]) > 0)
    ensures TakeOne([STAR] + line + [LF] + s) == Bad(InvalidMultiBulkLength)
  {
    hide ParseInt, FindLF, TakeBulks;
    var b := [STAR] + line + [LF] + s;
    assert b[0..|line| + 2] == [STAR] + line + [LF];
    LineAt(b, 0, STAR, line);
    var k := 1 + |line|;
    if b[k - 1] == CR && line != [] {
      assert b[1..k - 1] == line[..|line| - 1];
      ParseIntIsParseUint(b[1..k - 1]);
    }
  }

  /** A byte other than '$' at the start of a bulk string. */
  lemma BadMark(b: Bytes, i: nat)
    requires i < |b| && b[i] != DOLLAR
    ensures TakeBulk(b, i) == Fail(ExpectedDollar(b[i]))
  {
  }

  /** A length line that is not a number below 2^63 and CR LF. */
  lemma BadLength(b: Bytes, i: nat, line: Bytes)
    requires LF !in line && !NumberText(line) && At(b, i, [DOLLAR] + line + [LF])
    ensures TakeBulk(b, i) == Fail(InvalidBulkLength)
  {
    hide ParseInt, FindLF;
    LineAt(b, i, DOLLAR, line);
    var m := i + 1 + |line|;
    if line != [] && b[m - 1] == CR {
      assert b[i + 1..m - 1] == line[..|line| - 1];
      ParseIntIsParseUint(b[i + 1..m - 1]);
    }
  }

  /** Two bytes other than CR LF behind the announced ones. */
  lemma BadEnd(b: Bytes, i: nat, p: Piece, x: byte, y: byte)
    requires IsNumber(p.digits, |p.arg|) && [x, y] != [CR, LF] && |b| <= INT64_LIMIT
    requires At(b, i, [DOLLAR] + p.digits + [CR, LF] + p.arg + [x, y])
    ensures TakeBulk(b, i) == Fail(InvalidBulkLength)
  {
    hide TakeBulk, IsNumber, At;
    PieceParts(b, i, p, [x, y]);
    TakeAnnounced(b, i, p.digits, |p.arg|);
  }

  /** A command that is broken off by a bad bulk string is refused, however many good ones come
      before it. */
  lemma BadCommand(d: Bytes, ps: seq<Piece>, left: nat, bad: Bytes, e: Error)
    requires IsNumber(d, |ps| + left) && 0 < left && |ps| + left < INT64_LIMIT && PiecesOk(ps)
    requires |HeadText(d) + PiecesText(ps)| <= INT64_LIMIT
    requires var text := HeadText(d) + PiecesText(ps);
      TakeBulk(text + bad, |text|) == Fail(e)
    ensures TakeOne(HeadText(d) + PiecesText(ps) + bad) == Bad(e)
  {
    hide TakeOne, TakeBulk, IsNumber, PiecesText;
    var text := HeadText(d) + PiecesText(ps);
    var b := text + bad;
    assert b[0..|text|] == text;
    TakeHead(b, d, ps, left);
  }

  // ---------------------------------------------------------------- round trip

  /** Reading back an encoded command, whatever follows it in the buffer. */
  lemma RoundTrip(args: seq<Bytes>, s: Bytes)
    requires Encodable(args)
    ensures TakeOne(Encode(args) + s) == Took(Some(Command(Encode(args), args)), |Encode(args)|)
  {
    hide TakeOne, Digits, Bulks, IsNumber, PiecesText, PiecesOk;
    WrittenIs(args);
    DigitsAreNumber(|args|);
    GrammarTaken(Digits(|args|), Written(args), s);
  }

  /** What the writer sends for two arguments and for a bulk string of ten bytes. */
  lemma WrittenExample()
    ensures ArrayHeader(2) == Ascii("*2\r\n") && Bulk(Ascii("user:1:abc")) == Ascii("$10\r\nuser:1:abc\r\n")
  {
    assert Digits(2) == [50];
    assert Digits(10) == Digits(1) + [48] == [49, 48];
  }

  /** A proper prefix of an encoded command is never taken nor refused: the reader waits. */
  lemma ProperPrefixWaits(args: seq<Bytes>, n: nat)
    requires Encodable(args) && 0 < n < |Encode(args)|
    ensures TakeOne(Encode(args)[..n]) == NeedMore
  {
    hide TakeOne, Encode;
    var e := Encode(args);
    RoundTrip(args, []);
    assert e + [] == e && e[..n] + e[n..] == e;
    if !TakeOne(e[..n]).NeedMore? {
      TakeOneStable(e[..n], e[n..]);
      TakeOneUses(e[..n]);
    }
  }

  /** A command of one bulk string, up to the line that declares its length. */
  function Declaring(n: nat): Bytes {
    ArrayHeader(1) + ([DOLLAR] + Digits(n) + [CR, LF])
  }

  lemma DeclaredBulk(b: Bytes, i: nat, n: nat)
    requires n < INT64_LIMIT && i + |Digits(n)| + 3 == |b|
    requires At(b, i, [DOLLAR] + Digits(n) + [CR, LF])
    ensures TakeBulk(b, i) == if |b| + n + 1 < INT64_LIMIT then Wait else Fail(IndexOutOfRange)
  {
    hide Digits, ParseInt, FindLF;
    DigitsAreNumber(n);
    NumberLine(b, i, DOLLAR, Digits(n), n);
  }

  /** A declared length is waited for exactly when the index behind its bytes fits Go's int;
      beyond, the reader panics. */
  lemma DeclaredLengthExact(n: nat)
    requires n < INT64_LIMIT
    ensures TakeOne(Declaring(n)) ==
            if |Declaring(n)| + n + 1 < 0x8000_0000_0000_0000 then NeedMore else Bad(IndexOutOfRange)
  {
    hide Digits, ParseInt, FindLF, TakeBulk;
    var b, head, line := Declaring(n), ArrayHeader(1), [DOLLAR] + Digits(n) + [CR, LF];
    assert b[0..|b|] == head + line;
    AtSplit(b, 0, head, line);
    DigitsAreNumber(1);
    NumberLine(b, 0, STAR, Digits(1), 1);
    DeclaredBulk(b, |head|, n);
  }
}
