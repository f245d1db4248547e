/** The buffered reader and the writer as objects, with the loops of the source. */
module RespReader {
  import opened Bytes
  import opened Decimal
  import opened RespCodec
  import opened RespStream

  /** The other end of the connection: the byte strings that successive reads will see. */
  class Connection {
    var pending: seq<Bytes>

    constructor (chunks: seq<Bytes>)
      ensures pending == chunks
    {
      pending := chunks;
    }

    ghost predicate Valid()
      reads this
    {
      forall i :: 0 <= i < |pending| ==> pending[i] != []
    }

    function Stream(): Bytes
      reads this
    {
      Flat(pending)
    }

    /** io.Reader.Read into a buffer of `limit` bytes; no data means end of stream. */
    method Read(limit: nat) returns (data: Bytes)
      requires Valid() && limit > 0
      modifies this
      ensures Valid()
      ensures |data| <= limit
      ensures old(Stream()) == data + Stream()
      ensures data == [] <==> old(pending) == []
      ensures data == [] ==> pending == []
    {
      if pending == [] {
        return [];
      }
      var first := pending[0];
      if |first| <= limit {
        data := first;
        pending := pending[1..];
      } else {
        data := first[..limit];
        pending := [first[limit..]] + pending[1..];
        assert pending[1..] == old(pending)[1..];
        assert first == data + first[limit..];
      }
    }
  }

  /** The output buffer of writer.go. */
  class Writer {
    var b: Bytes

    constructor ()
      ensures b == []
    {
      b := [];
    }

    method WriteArray(count: nat)
      modifies this
      ensures b == old(b) + ArrayHeader(count)
    {
      b := b + [STAR];
      b := b + Digits(count);
      b := b + [CR, LF];
    }

    method WriteBulk(bulk: Bytes)
      modifies this
      ensures b == old(b) + Bulk(bulk)
    {
      b := b + [DOLLAR];
      b := b + Digits(|bulk|);
      b := b + [CR, LF];
      b := b + bulk;
      b := b + [CR, LF];
    }

    /** The header followed by one bulk string per argument. */
    method WriteCommand(args: seq<Bytes>)
      modifies this
      ensures b == old(b) + Encode(args)
    {
      hide Bulk, ArrayHeader;
      WriteArray(|args|);
      var i := 0;
      while i < |args|
        invariant 0 <= i <= |args|
        invariant b == old(b) + (ArrayHeader(|args|) + Bulks(args[..i]))
      {
        WriteBulk(args[i]);
        BulksAppend(args[..i], args[i]);
        assert args[..i + 1] == args[..i] + [args[i]];
        i := i + 1;
      }
      assert args[..i] == args;
    }
  }

  // ---------------------------------------------------------------- scanning one buffer

  method ScanBulk(b: Bytes, from: nat) returns (r: BulkStep)
    ensures r == TakeBulk(b, from)
  {
    var i := from;
    if i >= |b| {
      return Wait;
    }
    if b[i] != DOLLAR {
      return Fail(ExpectedDollar(b[i]));
    }
    while i < |b|
      invariant from <= i <= |b|
      invariant forall j :: from <= j < i ==> b[j] != LF
    {
      if b[i] == LF {
        FindLFIs(b, from, i);
        if b[i - 1] != CR {
          return Fail(InvalidBulkLength);
        }
        var size := ParseInt(b[from + 1..i - 1]);
        if size.None? || size.value < 0 {
          return Fail(InvalidBulkLength);
        }
        if i + size.value + 2 >= INT64_LIMIT {
          return Fail(IndexOutOfRange);
        }
        if i + size.value + 2 >= |b| {
          return Wait;
        }
        if b[i + size.value + 2] != LF || b[i + size.value + 1] != CR {
          return Fail(InvalidBulkLength);
        }
        return Arg(i + 1, i + 1 + size.value, i + size.value + 2);
      }
      i := i + 1;
    }
    return Wait;
  }

  /** The arguments between the recorded marks. */
  function Slices(b: Bytes, marks: seq<(nat, nat)>): seq<Bytes>
    requires forall h :: 0 <= h < |marks| ==> marks[h].0 <= marks[h].1 <= |b|
  {
    seq(|marks|, h requires 0 <= h < |marks| => b[marks[h].0..marks[h].1])
  }

  method ScanArray(b: Bytes) returns (r: Outcome)
    requires b != [] && b[0] == STAR
    ensures r == TakeArray(b)
  {
    hide TakeBulk, ParseInt;
    var i := 1;
    while i < |b| && b[i] != LF
      invariant 1 <= i <= |b|
      invariant forall j :: 1 <= j < i ==> b[j] != LF
    {
      i := i + 1;
    }
    if i == |b| {
      return NeedMore;
    }
    FindLFIs(b, 1, i);
    if b[i - 1] != CR {
      return Bad(InvalidMultiBulkLength);
    }
    var parsed := ParseInt(b[1..i - 1]);
    if parsed.None? || parsed.value <= 0 {
      return Bad(InvalidMultiBulkLength);
    }
    r := ScanBulks(b, i, parsed.value);
  }

  /** The loop over the bulk strings: once the bytes run out, the remaining rounds do nothing. */
  method ScanBulks(b: Bytes, from: nat, count: nat) returns (r: Outcome)
    requires from < |b|
    ensures r == TakeBulks(b, from, count, [])
  {
    hide TakeBulk;
    var i, j := from, 0;
    var marks: seq<(nat, nat)> := [];
    var starved := false;
    assert Slices(b, marks) == [];
    while j < count
      invariant 0 <= j <= count && from <= i < |b|
      invariant forall h :: 0 <= h < |marks| ==> marks[h].0 <= marks[h].1 <= i
      invariant !starved ==> |marks| == j
      invariant !starved ==> TakeBulks(b, from, count, []) == TakeBulks(b, i, count - j, Slices(b, marks))
      invariant starved ==> |marks| < j && TakeBulks(b, from, count, []) == NeedMore
    {
      if !starved {
        var step := ScanBulk(b, i + 1);
        match step {
          case Wait =>
            starved := true;
          case Fail(e) =>
            return Bad(e);
          case Arg(lo, hi, last) =>
            assert Slices(b, marks + [(lo, hi)]) == Slices(b, marks) + [b[lo..hi]];
            marks := marks + [(lo, hi)];
            i := last;
        }
      }
      j := j + 1;
    }
    if |marks| != count {
      return NeedMore;
    }
    var raw := b[..i + 1];
    assert forall h :: 0 <= h < |marks| ==> raw[marks[h].0..marks[h].1] == b[marks[h].0..marks[h].1];
    assert Slices(raw, marks) == Slices(b, marks);
    return Took(Some(Command(raw, Slices(raw, marks))), i + 1);
  }

  /** The quote-aware split of an inline line: each outer round reads one word. */
  method ScanWords(text: Bytes) returns (r: Words)
    ensures r == SplitLine(text, [], None, false, [])
  {
    var line := text;
    var args: seq<Bytes> := [];
    var quote: Option<byte> := None;
    while true
      invariant SplitLine(text, [], None, false, []) == SplitLine(line, [], quote, false, args)
      decreases |line|
    {
      var nline: Bytes := [];
      var escape := false;
      var i := 0;
      var cut := false;
      while i < |line| && !cut
        invariant 0 <= i <= |line|
        invariant !cut && quote.None? ==> nline == line[..i] && !escape
        invariant cut ==> i < |line|
        invariant !cut ==> SplitLine(text, [], None, false, []) == SplitLine(line[i..], nline, quote, escape, args)
        invariant cut ==> SplitLine(text, [], None, false, []) == SplitLine(line[i + 1..], [], quote, false, args)
        decreases |line| - i, !cut
      {
        var c := line[i];
        assert line[i..][0] == c && line[i..][1..] == line[i + 1..];
        if quote.None? {
          if c == SPACE {
            if nline != [] {
              args := args + [nline];
            }
            cut := true;
            continue;
          }
          if c == DQUOTE || c == SQUOTE {
            if i != 0 {
              return WordsFailed;
            }
            quote := Some(c);
            cut := true;
            continue;
          }
          nline := nline + [c];
        } else if escape {
          escape := false;
          nline := nline + [Unescape(c)];
        } else if c == quote.value {
          quote := None;
          args := args + [nline];
          if i + 1 < |line| && line[i + 1] != SPACE {
            return WordsFailed;
          }
          cut := true;
          continue;
        } else if c == BACKSLASH {
          escape := true;
        } else {
          nline := nline + [c];
        }
        i := i + 1;
      }
      if !cut {
        assert line[i..] == [];
        if quote.Some? {
          return WordsFailed;
        }
        assert nline == line;
        if line != [] {
          args := args + [line];
        }
        return Words(args);
      }
      line := line[i + 1..];
    }
  }

  method ScanInline(b: Bytes) returns (r: Outcome)
    ensures r == TakeInline(b)
  {
    hide SplitLine, Encode;
    var i := 0;
    while i < |b|
      invariant 0 <= i <= |b|
      invariant forall j :: 0 <= j < i ==> b[j] != LF
    {
      if b[i] == LF {
        FindLFIs(b, 0, i);
        var line := if i > 0 && b[i - 1] == CR then b[..i - 1] else b[..i];
        var words := ScanWords(line);
        if words.WordsFailed? {
          return Bad(UnbalancedQuotes);
        }
        if words.args == [] {
          return Took(None, i + 1);
        }
        var wr := new Writer();
        wr.WriteCommand(words.args);
        assert [] + Encode(words.args) == Encode(words.args);
        return Took(Some(Command(wr.b, words.args)), i + 1);
      }
      i := i + 1;
    }
    return NeedMore;
  }

  /** The `next` label: commands are taken until the bytes run out or an error stops it. */
  method ScanAll(text: Bytes) returns (cmds: seq<Command>, rest: Bytes, error: Option<Error>)
    ensures error.None? ==> Drain(text) == Drained(cmds, rest)
    ensures error.Some? ==> Drain(text) == Broken(cmds, error.value)
  {
    hide TakeOne;
    cmds, rest, error := [], text, None;
    PrependTwice([], [], Drain(text));
    while rest != []
      invariant Drain(text) == Prepend(cmds, Drain(rest))
      decreases |rest|
    {
      TakeOneUses(rest);
      var step := ScanOne(rest);
      match step {
        case NeedMore =>
          assert cmds + [] == cmds;
          return;
        case Bad(e) =>
          assert cmds + [] == cmds;
          error := Some(e);
          return;
        case Took(c, n) =>
          PrependTwice(cmds, ToSeq(c), Drain(rest[n..]));
          cmds := cmds + ToSeq(c);
          rest := rest[n..];
      }
    }
    assert cmds + [] == cmds;
  }

  method ScanOne(b: Bytes) returns (r: Outcome)
    requires b != []
    ensures r == TakeOne(b)
  {
    hide TakeArray, TakeInline;
    if b[0] == STAR {
      r := ScanArray(b);
    } else {
      r := ScanInline(b);
    }
  }

  // ---------------------------------------------------------------- the reader

  datatype Status = Ready | Eof | Protocol(error: Error)

  class Reader {
    var buf: array<byte>
    var start: nat
    var end: nat

    ghost predicate Valid()
      reads this
    {
      start <= end <= buf.Length && buf.Length > 0
    }

    /** The bytes received and not yet used. */
    ghost function Unread(): Bytes
      requires Valid()
      reads this, buf
    {
      buf[start..end]
    }

    constructor ()
      ensures Valid() && fresh(buf) && Unread() == []
    {
      buf := new byte[4096];
      start, end := 0, 0;
    }

    /** Makes room at the end of the buffer, rewinding or doubling it. */
    method MakeRoom()
      requires Valid()
      modifies this
      ensures Valid() && end < buf.Length
      ensures buf == old(buf) || fresh(buf)
      ensures Unread() == old(Unread())
    {
      if end == buf.Length {
        if start == end {
          start, end := 0, 0;
        } else {
          var newbuf := new byte[buf.Length * 2];
          var k := 0;
          while k < buf.Length
            invariant 0 <= k <= buf.Length
            invariant newbuf[..k] == buf[..k]
            modifies newbuf
          {
            newbuf[k] := buf[k];
            k := k + 1;
          }
          assert newbuf[..end] == buf[..end];
          assert newbuf[start..end] == newbuf[..end][start..] == buf[..end][start..];
          buf := newbuf;
        }
      }
    }

    /** Stores what one read returned behind the bytes already there. */
    method Append(data: Bytes)
      requires Valid() && |data| <= buf.Length - end
      modifies this`end, buf
      ensures Valid() && Unread() == old(Unread()) + data
    {
      var k := 0;
      while k < |data|
        invariant 0 <= k <= |data|
        invariant buf[..end] == old(buf[..end])
        invariant buf[end..end + k] == data[..k]
        modifies buf
      {
        buf[end + k] := data[k];
        k := k + 1;
      }
      assert buf[end..end + k] == data;
      assert buf[start..end + k] == buf[..end][start..] + buf[end..end + k];
      end := end + |data|;
    }

    /** The scan of the buffered bytes, up to the label `done`. */
    method TakeBuffered() returns (found: seq<Command>, error: Option<Error>)
      requires Valid()
      modifies this`start
      ensures Valid()
      ensures error.None? ==> Drain(old(Unread())) == Drained(found, Unread())
      ensures error.Some? ==>
                Drain(old(Unread())).Broken? && Drain(old(Unread())).error == error.value
    {
      hide Drain;
      ghost var u := Unread();
      var rest;
      found, rest, error := ScanAll(buf[start..end]);
      if error.None? {
        DrainSuffix(u);
        start := end - |rest|;
        assert buf[start..end] == u[|u| - |rest|..];
      }
    }

    /** Room is made and one read goes into it. */
    method Refill(conn: Connection) returns (data: Bytes)
      requires Valid() && conn.Valid()
      modifies this, buf, conn
      ensures Valid() && conn.Valid()
      ensures buf == old(buf) || fresh(buf)
      ensures Unread() == old(Unread()) + data
      ensures old(conn.Stream()) == data + conn.Stream()
      ensures data == [] ==> conn.pending == []
    {
      MakeRoom();
      data := conn.Read(buf.Length - end);
      Append(data);
    }

    /** One call of readCommands. `got` are the byte strings read from the connection
        meanwhile; the call is the part of the session that they make up. */
    method ReadCommands(conn: Connection) returns (cmds: seq<Command>, status: Status, ghost got: seq<Bytes>)
      requires Valid() && conn.Valid()
      modifies this, buf, conn
      ensures Valid() && conn.Valid()
      ensures buf == old(buf) || fresh(buf)
      ensures old(conn.Stream()) == Flat(got) + conn.Stream()
      ensures status.Ready? ==>
                && cmds != [] && Serves(old(Unread()), got, cmds, Unread())
                && Drain(Unread()) == Drained([], Unread())
      ensures status.Ready? ==> |Unread()| + |conn.Stream()| < |old(Unread())| + |old(conn.Stream())|
      ensures status.Eof? ==>
                && cmds == [] && conn.pending == []
                && Serve(old(Unread()), got) == Session([], None, [], Unread())
      ensures status.Protocol? ==>
                && cmds == [] && Serve(old(Unread()), got).cmds == []
                && Serve(old(Unread()), got).error == Some(status.error)
      decreases |conn.Stream()|
    {
      hide Drain, Serves, Serve;
      got := [];
      ghost var u, stream := Unread(), conn.Stream();
      assert Flat([]) + stream == stream;
      var found, error := TakeBuffered();
      ServeBuffered(u);
      if error.Some? {
        return [], Protocol(error.value), [];
      }
      ghost var rest := Unread();
      DrainShrinks(u);
      if found != [] {
        ServesBuffered(u);
        DrainRest(u);
        if start == end {
          start, end := 0, 0;
        }
        return found, Ready, [];
      }
      var data := Refill(conn);
      if data == [] {
        return [], Eof, [];
      }
      ServesRead(u, data);
      ghost var more;
      cmds, status, more := ReadCommands(conn);
      got := [data] + more;
      assert Flat(got) == data + Flat(more);
      if status.Ready? {
        ServesTrans(u, [data], [], rest + data, more, cmds, Unread());
        assert [] + cmds == cmds;
      } else {
        ServesApplied(u, [data], [], rest + data, more);
      }
    }

    /** The loop of a client connection: commands are dispatched until the stream ends, a
        protocol error closes it or a panic ends the process. The session is that of the byte
        strings read, which make up the stream. */
    method Run(conn: Connection) returns (dispatched: seq<Command>, status: Status, ghost got: seq<Bytes>)
      requires Valid() && conn.Valid()
      modifies this, buf, conn
      ensures Valid() && !status.Ready?
      ensures old(conn.Stream()) == Flat(got) + conn.Stream()
      ensures var session := Serve(old(Unread()), got);
        && dispatched == session.cmds
        && session.error == (if status.Protocol? then Some(status.error) else None)
        && (status.Eof? ==> conn.Stream() == [] && Unread() == session.rest)
      ensures match Drain(old(Unread()) + old(conn.Stream()))
        case Drained(cmds, rest) => status == Eof && dispatched == cmds && Unread() == rest
        case Broken(before, e) => status == Protocol(e) && dispatched <= before
    {
      hide Drain, Serve, Serves;
      ghost var u0, stream := Unread(), conn.Stream();
      dispatched, status, got := [], Ready, [];
      ServesNothing(u0);
      assert Flat([]) + stream == stream;
      while status == Ready
        invariant Valid() && conn.Valid()
        invariant buf == old(buf) || fresh(buf)
        invariant stream == Flat(got) + conn.Stream()
        invariant status.Ready? ==> Serves(u0, got, dispatched, Unread())
        invariant status.Eof? ==> conn.Stream() == [] && Serve(u0, got) == Session(dispatched, None, [], Unread())
        invariant status.Protocol? ==>
                    Serve(u0, got).cmds == dispatched && Serve(u0, got).error == Some(status.error)
        decreases if status == Ready then 1 + |Unread()| + |conn.Stream()| else 0
      {
        ghost var u, before := Unread(), conn.Stream();
        var cmds;
        ghost var more;
        cmds, status, more := ReadCommands(conn);
        FlatAppend(got, more);
        assert Flat(got) + (Flat(more) + conn.Stream()) == Flat(got) + Flat(more) + conn.Stream();
        if status.Ready? {
          ServesTrans(u0, got, dispatched, u, more, cmds, Unread());
        } else {
          ServesApplied(u0, got, dispatched, u, more);
          assert dispatched + [] == dispatched;
        }
        got := got + more;
        dispatched := dispatched + cmds;
      }
      SessionOfStream(u0, got, conn.Stream());
    }
  }

  lemma {:induction false} FlatAppend(x: seq<Bytes>, y: seq<Bytes>)
    ensures Flat(x + y) == Flat(x) + Flat(y)
  {
    if x == [] {
      assert x + y == y && [] + Flat(y) == Flat(y);
    } else {
      assert (x + y)[1..] == x[1..] + y;
      FlatAppend(x[1..], y);
      assert x[0] + (Flat(x[1..]) + Flat(y)) == x[0] + Flat(x[1..]) + Flat(y);
    }
  }

  lemma ServesApplied(u: Bytes, r: seq<Bytes>, c: seq<Command>, v: Bytes, more: seq<Bytes>)
    requires Serves(u, r, c, v)
    ensures Serve(u, r + more) == After(c, Serve(v, more))
  {
  }

  /** What a session of part of the stream says about the stream: everything if nothing is left,
      and the error and what came before it if there was one. */
  lemma SessionOfStream(u: Bytes, got: seq<Bytes>, left: Bytes)
    ensures var session := Serve(u, got); var all := Drain(u + (Flat(got) + left));
      && (left == [] && session.error.None? ==> all == Drained(session.cmds, session.rest))
      && (session.error.Some? ==> all.Broken? && all.error == session.error.value && session.cmds <= all.before)
  {
    hide Drain, Serve;
    SplitIndependence(u, got);
    DrainInTwo(u + Flat(got), left);
    assert u + (Flat(got) + left) == u + Flat(got) + left;
    if left == [] { assert u + Flat(got) + left == u + Flat(got); }
  }

  /** The bytes left by a drain are the end of the buffer. */
  lemma {:induction false} DrainSuffix(b: Bytes)
    ensures Drain(b).Drained? ==>
      |Drain(b).rest| <= |b| && Drain(b).rest == b[|b| - |Drain(b).rest|..]
    decreases |b|
  {
    hide TakeOne;
    if b != [] {
      TakeOneUses(b);
      match TakeOne(b)
      case NeedMore =>
      case Bad(e) =>
      case Took(c, n) => DrainSuffix(b[n..]);
    }
  }
}
