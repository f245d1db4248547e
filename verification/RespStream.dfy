/** Pipelined reading: what a whole buffer yields, and independence from how the byte
    stream was split into reads. */
module RespStream {
  import opened Bytes
  import opened RespCodec

  /** All complete commands at the front of a buffer and the bytes left, or the error that
      makes readCommands return without the commands `before` it. */
  datatype Drained =
    | Drained(cmds: seq<Command>, rest: Bytes)
    | Broken(before: seq<Command>, error: Error)

  function ToSeq(c: Option<Command>): seq<Command> {
    if c.Some? then [c.value] else []
  }

  function Prepend(cs: seq<Command>, d: Drained): Drained {
    match d
    case Drained(cmds, rest) => Drained(cs + cmds, rest)
    case Broken(before, e) => Broken(cs + before, e)
  }

  /** The `next` loop of readCommands over a buffer. */
  function Drain(b: Bytes): Drained
    decreases |b|
  {
    if b == [] then Drained([], [])
    else
      TakeOneUses(b);
      match TakeOne(b)
      case NeedMore => Drained([], b)
      case Bad(e) => Broken([], e)
      case Took(c, n) => Prepend(ToSeq(c), Drain(b[n..]))
  }

  lemma PrependTwice(x: seq<Command>, y: seq<Command>, d: Drained)
    ensures Prepend(x, Prepend(y, d)) == Prepend(x + y, d)
    ensures Prepend([], d) == d
  {
  }

  lemma {:induction false} DrainShrinks(b: Bytes)
    ensures Drain(b).Drained? ==> |Drain(b).rest| <= |b|
    ensures Drain(b).Drained? && Drain(b).cmds != [] ==> |Drain(b).rest| < |b|
    decreases |b|
  {
    if b != [] {
      TakeOneUses(b);
      match TakeOne(b)
      case NeedMore =>
      case Bad(e) =>
      case Took(c, n) => DrainShrinks(b[n..]);
    }
  }

  /** Draining a prefix first and the remainder with the later bytes gives what draining
      everything at once gives; an error in the prefix stays. */
  lemma {:induction false} DrainInTwo(p: Bytes, s: Bytes)
    ensures match Drain(p)
      case Drained(cmds, rest) => Drain(p + s) == Prepend(cmds, Drain(rest + s))
      case Broken(_, _) => Drain(p + s) == Drain(p)
    decreases |p|
  {
    if p == [] {
      assert p + s == s == [] + s;
      PrependTwice([], [], Drain(s));
    } else {
      match TakeOne(p)
      case NeedMore => PrependTwice([], [], Drain(p + s));
      case Bad(e) => TakeOneStable(p, s);
      case Took(c, n) =>
        TakeOneUses(p);
        TakeOneStable(p, s);
        assert (p + s)[n..] == p[n..] + s;
        DrainInTwo(p[n..], s);
        if Drain(p[n..]).Drained? {
          PrependTwice(ToSeq(c), Drain(p[n..]).cmds, Drain(Drain(p[n..]).rest + s));
        }
    }
  }

  /** A connection served read by read: the commands dispatched, the protocol error that
      ended it if any, the commands that were complete but dropped with that error, and
      the bytes of an unfinished command at the end. */
  datatype Session = Session(cmds: seq<Command>, error: Option<Error>, lost: seq<Command>, rest: Bytes)

  function Serve(unread: Bytes, chunks: seq<Bytes>): Session
    decreases |chunks|
  {
    match Drain(unread)
    case Broken(before, e) => Session([], Some(e), before, [])
    case Drained(cmds, rest) =>
      if chunks == [] then Session(cmds, None, [], rest)
      else
        var later := Serve(rest + chunks[0], chunks[1..]);
        later.(cmds := cmds + later.cmds)
  }

  /** For every byte stream and every way to split it: without a protocol error the
      commands dispatched and the bytes left are those of the whole stream; with one, the
      dispatched and the lost commands together are those before the error. */
  lemma {:induction false} SplitIndependence(unread: Bytes, chunks: seq<Bytes>)
    ensures var run := Serve(unread, chunks);
      match Drain(unread + Flat(chunks))
      case Drained(cmds, rest) => run == Session(cmds, None, [], rest)
      case Broken(before, e) => run.error == Some(e) && run.cmds + run.lost == before && run.rest == []
    decreases |chunks|
  {
    hide Drain;
    DrainInTwo(unread, Flat(chunks));
    match Drain(unread)
    case Broken(before, e) => assert [] + before == before;
    case Drained(cmds, rest) =>
      if chunks == [] {
        assert rest + [] == rest && unread + [] == unread;
      } else {
        var more := rest + chunks[0];
        assert rest + Flat(chunks) == more + Flat(chunks[1..]);
        SplitIndependence(more, chunks[1..]);
        var later := Serve(more, chunks[1..]);
        assert cmds + later.cmds + later.lost == cmds + (later.cmds + later.lost);
      }
  }

  // ---------------------------------------------------------------- read by read

  lemma {:induction false} DrainRest(b: Bytes)
    requires Drain(b).Drained?
    ensures Drain(Drain(b).rest) == Drained([], Drain(b).rest)
    decreases |b|
  {
    hide TakeOne;
    if b != [] {
      TakeOneUses(b);
      match TakeOne(b)
      case NeedMore =>
      case Bad(e) =>
      case Took(c, n) => DrainRest(b[n..]);
    }
  }

  function After(cmds: seq<Command>, later: Session): Session {
    later.(cmds := cmds + later.cmds)
  }

  /** The byte strings got took the connection from u to v and dispatched cmds on the way. */
  ghost predicate Serves(u: Bytes, got: seq<Bytes>, cmds: seq<Command>, v: Bytes) {
    forall more :: Serve(u, got + more) == After(cmds, Serve(v, more))
  }

  lemma ServesTrans(u: Bytes, r: seq<Bytes>, c: seq<Command>, v: Bytes, q: seq<Bytes>, d: seq<Command>, w: Bytes)
    requires Serves(u, r, c, v) && Serves(v, q, d, w)
    ensures Serves(u, r + q, c + d, w)
  {
    hide Serve;
    forall more ensures Serve(u, r + q + more) == After(c + d, Serve(w, more)) {
      assert r + q + more == r + (q + more);
      assert Serve(u, r + (q + more)) == After(c, Serve(v, q + more));
      assert Serve(v, q + more) == After(d, Serve(w, more));
      assert c + (d + Serve(w, more).cmds) == c + d + Serve(w, more).cmds;
    }
  }

  lemma ServesNothing(u: Bytes)
    ensures Serves(u, [], [], u)
  {
    hide Serve;
    forall more ensures Serve(u, [] + more) == After([], Serve(u, more)) {
      assert [] + more == more && [] + Serve(u, more).cmds == Serve(u, more).cmds;
    }
  }

  /** Commands that are complete in the buffer. */
  lemma ServesBuffered(u: Bytes)
    requires Drain(u).Drained?
    ensures Serves(u, [], Drain(u).cmds, Drain(u).rest)
  {
    hide Drain;
    DrainRest(u);
    var cmds, rest := Drain(u).cmds, Drain(u).rest;
    forall more ensures Serve(u, [] + more) == After(cmds, Serve(rest, more)) {
      assert [] + more == more;
      if more == [] {
        assert cmds + [] == cmds;
      } else {
        var later := Serve(rest + more[0], more[1..]);
        assert [] + later.cmds == later.cmds;
      }
    }
  }

  lemma ServeBuffered(u: Bytes)
    ensures match Drain(u)
      case Broken(before, e) => Serve(u, []) == Session([], Some(e), before, [])
      case Drained(cmds, rest) => Serve(u, []) == Session(cmds, None, [], rest)
  {
    hide Drain;
  }

  /** One read into a buffer without a complete command. */
  lemma ServesRead(u: Bytes, data: Bytes)
    requires Drain(u).Drained? && Drain(u).cmds == []
    ensures Serves(u, [data], [], Drain(u).rest + data)
  {
    hide Drain;
    var v := Drain(u).rest + data;
    forall more ensures Serve(u, [data] + more) == After([], Serve(v, more)) {
      assert ([data] + more)[1..] == more && ([data] + more)[0] == data;
    }
  }

  /** Every way to split a byte stream gives the same session. */
  ghost predicate SplitDoesNotMatter(b: Bytes) {
    forall x, y :: Flat(x) == b && Flat(y) == b ==> Serve([], x) == Serve([], y)
  }

  /** A prefix of the stream that dispatches a command. */
  lemma {:induction false} DispatchingPrefix(b: Bytes) returns (k: nat)
    requires Drain(b).Broken? && Drain(b).before != []
    ensures k <= |b| && Drain(b[..k]).Drained? && Drain(b[..k]).cmds != []
    decreases |b|
  {
    hide TakeOne;
    TakeOneUses(b);
    TakeOnePrefix(b);
    var n, c := TakeOne(b).used, TakeOne(b).command;
    if c.Some? {
      k := n;
      assert b[..n][n..] == [];
    } else {
      var more := DispatchingPrefix(b[n..]);
      k := n + more;
      assert b[..k] == b[..n] + b[n..][..more];
      TakeOneStable(b[..n], b[n..][..more]);
      assert b[..k][n..] == b[n..][..more];
    }
  }

  lemma FlatOne(b: Bytes)
    ensures Flat([b]) == b
  {
    assert b + [] == b;
  }

  lemma FlatTwo(a: Bytes, b: Bytes)
    ensures Flat([a, b]) == a + b
  {
    assert [a, b][1..] == [b];
    FlatOne(b);
  }

  /** In one read the error discards everything. */
  lemma ServeWhole(b: Bytes)
    requires Drain(b).Broken?
    ensures Serve([], [b]).cmds == []
  {
    hide Drain;
    NothingDrains();
    assert [] + b == b && [b][1..] == [];
  }

  lemma NothingDrains()
    ensures Drain([]) == Drained([], [])
  {
  }

  lemma ServeFirst(p: Bytes, rest: Bytes)
    requires Drain(p).Drained? && Drain(p).cmds != []
    ensures Serve([], [p, rest]).cmds != []
  {
    hide Drain;
    NothingDrains();
    assert [] + p == p && [p, rest][1..] == [rest];
    assert Serve([], [p, rest]).cmds == [] + Serve(p, [rest]).cmds;
  }

  /** The split of a stream does not matter exactly when the stream has no protocol error or
      no complete command before it. */
  lemma SplitExact(b: Bytes)
    ensures SplitDoesNotMatter(b) <==> Drain(b).Drained? || Drain(b).before == []
  {
    hide Drain, Serve;
    if Drain(b).Drained? || Drain(b).before == [] {
      forall x, y | Flat(x) == b && Flat(y) == b ensures Serve([], x) == Serve([], y) {
        assert [] + b == b;
        SplitIndependence([], x);
        SplitIndependence([], y);
      }
    } else {
      var k := DispatchingPrefix(b);
      assert b == b[..k] + b[k..];
      FlatOne(b);
      FlatTwo(b[..k], b[k..]);
      ServeWhole(b);
      ServeFirst(b[..k], b[k..]);
      assert Serve([], [b]) != Serve([], [b[..k], b[k..]]);
    }
  }

  function EncodeAll(list: seq<seq<Bytes>>): Bytes {
    if list == [] then [] else Encode(list[0]) + EncodeAll(list[1..])
  }

  function CommandsOf(list: seq<seq<Bytes>>): seq<Command> {
    seq(|list|, i requires 0 <= i < |list| => Command(Encode(list[i]), list[i]))
  }

  lemma {:induction false} DrainEncoded(list: seq<seq<Bytes>>)
    requires forall i :: 0 <= i < |list| ==> Encodable(list[i])
    ensures Drain(EncodeAll(list)) == Drained(CommandsOf(list), [])
    decreases |list|
  {
    hide TakeOne;
    if list != [] {
      var e, tail := Encode(list[0]), EncodeAll(list[1..]);
      RoundTrip(list[0], tail);
      DrainEncoded(list[1..]);
      assert (e + tail)[|e|..] == tail;
      assert CommandsOf(list) == [Command(e, list[0])] + CommandsOf(list[1..]);
    }
  }

  /** Commands written by the writer and split into any chunks are dispatched one by one,
      in order, each with its own encoding as Raw. */
  lemma PipelineRoundTrip(list: seq<seq<Bytes>>, chunks: seq<Bytes>)
    requires forall i :: 0 <= i < |list| ==> Encodable(list[i])
    requires Flat(chunks) == EncodeAll(list)
    ensures Serve([], chunks) == Session(CommandsOf(list), None, [], [])
  {
    DrainEncoded(list);
    assert [] + Flat(chunks) == Flat(chunks);
    SplitIndependence([], chunks);
  }

  /** A complete command followed by bytes that break before their first command is lost
      when both arrive in one read and dispatched when the bytes come later. */
  lemma SplitMattersBefore(args: seq<Bytes>, bad: Bytes)
    requires Encodable(args) && Drain(bad).Broken? && Drain(bad).before == []
    ensures Serve([], [Encode(args) + bad]).cmds == []
    ensures Serve([], [Encode(args), bad]).cmds == [Command(Encode(args), args)]
    ensures !SplitDoesNotMatter(Encode(args) + bad)
  {
    hide Drain;
    var a := Encode(args);
    assert Drain(a) == Drained(CommandsOf([args]), []) by {
      DrainEncoded([args]);
      assert EncodeAll([args]) == a + [] == a;
    }
    DrainInTwo(a, bad);
    NothingDrains();
    assert [] + bad == bad && [] + (a + bad) == a + bad && [] + a == a;
    assert Serve(a + bad, []).cmds == [];
    assert Serve(bad, []).cmds == [];
    assert Serve(a, [bad]).cmds == CommandsOf([args]) + [] == CommandsOf([args]);
    FlatOne(a + bad);
    FlatTwo(a, bad);
  }

  /** A bad array header. */
  lemma SplitMattersWhenMalformed(args: seq<Bytes>)
    requires Encodable(args)
    ensures var bad: Bytes := [STAR, LF];
      && Serve([], [Encode(args) + bad]).cmds == []
      && Serve([], [Encode(args), bad]).cmds == [Command(Encode(args), args)]
      && !SplitDoesNotMatter(Encode(args) + bad)
  {
    var bad: Bytes := [STAR, LF];
    FindLFIs(bad, 1, 1);
    assert Drain(bad) == Broken([], InvalidMultiBulkLength);
    SplitMattersBefore(args, bad);
  }

  /** A well-formed header with the largest length that parses: one read of the stream panics
      before the command is dispatched. */
  lemma SplitMattersWhenOversized(args: seq<Bytes>)
    requires Encodable(args)
    ensures var bad := Declaring(INT64_LIMIT - 1);
      && Serve([], [Encode(args) + bad]).cmds == []
      && Serve([], [Encode(args), bad]).cmds == [Command(Encode(args), args)]
      && !SplitDoesNotMatter(Encode(args) + bad)
  {
    var bad := Declaring(INT64_LIMIT - 1);
    DeclaredLengthExact(INT64_LIMIT - 1);
    assert Drain(bad) == Broken([], IndexOutOfRange);
    SplitMattersBefore(args, bad);
  }
}
