/** Parsing the allow list and the object that holds the table. */
module IpParse {
  import opened Bytes
  import opened Decimal
  import opened Letters
  import opened IpTable

  const COMMA: byte := 44
  const CAPACITY: nat := 1024

  /** The token buffer, which must keep a terminator. */
  const TOKEN_BUFFER: nat := 16

  predicate IsSeparator(c: byte) {
    c == COMMA || c == MINUS
  }

  predicate Allowed(c: byte) {
    48 <= c <= 57 || c == MINUS || c == 46 || c == COMMA
  }

  /** The checks before parsing. */
  predicate Acceptable(text: Bytes) {
    0 < |text| <= 8192 && forall i :: 0 <= i < |text| ==> Allowed(text[i])
  }

  /** inet_addr in host byte order. */
  type Resolver = Bytes -> Address

  /** The table after a separator: a comma after a comma ends a single address, anything after
      a dash ends a range. */
  function AtSeparator(rs: seq<Range>, flag: byte, prev: Address, cur: Address, sep: byte): seq<Range> {
    if flag == COMMA && sep == COMMA then Insert(rs, cur, cur)
    else if flag == MINUS then Insert(rs, prev, cur)
    else rs
  }

  /** The table after the last token. */
  function AtEnd(rs: seq<Range>, flag: byte, prev: Address, cur: Address): seq<Range> {
    if flag == COMMA then Insert(rs, cur, cur)
    else if flag == MINUS then Insert(rs, prev, cur)
    else rs
  }

  /** The parse from position i, with the current token starting at pos. The loop stops early
      when one place is left. None is a token that does not fit its buffer: the copy runs over
      the end and nothing is known about what follows. */
  function Parse(text: Bytes, i: nat, pos: nat, flag: byte, prev: Address, rs: seq<Range>, resolve: Resolver): Option<seq<Range>>
    requires pos <= i <= |text|
    decreases |text| - i
  {
    if i == |text| || |rs| >= CAPACITY - 1 then
      if i - pos >= TOKEN_BUFFER then None else Some(AtEnd(rs, flag, prev, resolve(text[pos..i])))
    else if IsSeparator(text[i]) then
      if i - pos >= TOKEN_BUFFER then None
      else
        var cur := resolve(text[pos..i]);
        Parse(text, i + 1, i + 1, text[i], cur, AtSeparator(rs, flag, prev, cur, text[i]), resolve)
    else Parse(text, i + 1, pos, flag, prev, rs, resolve)
  }

  datatype Outcome = Refused | Overrun | Table(ranges: seq<Range>)

  /** get_ip_allow_map on a table. */
  function Loaded(rs: seq<Range>, text: Bytes, resolve: Resolver): Outcome {
    if !Acceptable(text) then Refused
    else
      match Parse(text, 0, 0, COMMA, 0, rs, resolve)
      case None => Overrun
      case Some(table) => Table(table)
  }

  /** Whatever the text, the table stays sorted and within its capacity, and keeps what it
      covered. */
  lemma {:induction false} ParseKeeps(text: Bytes, i: nat, pos: nat, flag: byte, prev: Address, rs: seq<Range>, resolve: Resolver)
    requires pos <= i <= |text| && Sorted(rs) && |rs| < CAPACITY
    ensures var after := Parse(text, i, pos, flag, prev, rs, resolve);
      after.Some? ==>
        && Sorted(after.value) && |after.value| <= CAPACITY
        && forall x: Address :: Covers(rs, x) ==> Covers(after.value, x)
    decreases |text| - i
  {
    hide Sorted, Insert, Covers;
    var cur := resolve(text[pos..i]);
    InsertFacts(rs, cur, cur);
    InsertFacts(rs, prev, cur);
    if !(i == |text| || |rs| >= CAPACITY - 1) {
      if IsSeparator(text[i]) {
        ParseKeeps(text, i + 1, i + 1, text[i], cur, AtSeparator(rs, flag, prev, cur, text[i]), resolve);
      } else {
        ParseKeeps(text, i + 1, pos, flag, prev, rs, resolve);
      }
    }
  }

  lemma InsertFacts(rs: seq<Range>, start: Address, end: Address)
    requires Sorted(rs)
    ensures var t := Insert(rs, start, end);
      Sorted(t) && |t| <= |rs| + 1 && forall x: Address :: Covers(rs, x) ==> Covers(t, x)
  {
    InsertSorted(rs, start, end);
    forall x: Address ensures Covers(rs, x) ==> Covers(Insert(rs, start, end), x) {
      InsertCovers(rs, start, end, x);
    }
  }

  // ---------------------------------------------------------------- written lists

  /** An entry of an allow list as it is written. */
  datatype Entry = Single(token: Bytes) | Span(first: Bytes, last: Bytes)

  predicate IsWord(t: Bytes) {
    forall i :: 0 <= i < |t| ==> !IsSeparator(t[i])
  }

  predicate IsToken(t: Bytes) {
    IsWord(t) && |t| < TOKEN_BUFFER
  }

  predicate EntryOk(e: Entry) {
    match e
    case Single(t) => IsToken(t)
    case Span(a, b) => IsToken(a) && IsToken(b)
  }

  function EntryText(e: Entry): Bytes {
    match e
    case Single(t) => t
    case Span(a, b) => a + [MINUS] + b
  }

  /** The entries separated by commas. */
  function ListText(es: seq<Entry>): Bytes
    requires es != []
  {
    if |es| == 1 then EntryText(es[0]) else EntryText(es[0]) + [COMMA] + ListText(es[1..])
  }

  function EntryRange(e: Entry, resolve: Resolver): Range {
    match e
    case Single(t) => Range(resolve(t), resolve(t))
    case Span(a, b) => Range(resolve(a), resolve(b))
  }

  function Ranges(es: seq<Entry>, resolve: Resolver): (rs: seq<Range>)
    ensures |rs| == |es|
  {
    if es == [] then [] else [EntryRange(es[0], resolve)] + Ranges(es[1..], resolve)
  }

  /** Reading over the rest of a token. */
  lemma {:induction false} SkipToken(text: Bytes, i: nat, k: nat, pos: nat, flag: byte, prev: Address, rs: seq<Range>, resolve: Resolver)
    requires pos <= i <= k <= |text| && |rs| < CAPACITY - 1
    requires forall j :: i <= j < k ==> !IsSeparator(text[j])
    ensures Parse(text, i, pos, flag, prev, rs, resolve) == Parse(text, k, pos, flag, prev, rs, resolve)
    decreases k - i
  {
    if i < k {
      SkipToken(text, i + 1, k, pos, flag, prev, rs, resolve);
    }
  }

  /** A token t at pos, followed by the end of the text or by a separator. */
  lemma ReadToken(text: Bytes, pos: nat, t: Bytes, rest: Bytes, flag: byte, prev: Address, rs: seq<Range>, resolve: Resolver)
    requires pos <= |text| && text[pos..] == t + rest && IsToken(t) && |rs| < CAPACITY - 1
    ensures rest == [] ==> Parse(text, pos, pos, flag, prev, rs, resolve) == Some(AtEnd(rs, flag, prev, resolve(t)))
    ensures rest != [] && IsSeparator(rest[0]) ==>
      var next := pos + |t| + 1;
      && next <= |text| && text[next..] == rest[1..]
      && Parse(text, pos, pos, flag, prev, rs, resolve) ==
         Parse(text, next, next, rest[0], resolve(t), AtSeparator(rs, flag, prev, resolve(t), rest[0]), resolve)
  {
    hide IsSeparator;
    var k := pos + |t|;
    assert |text| == k + |rest|;
    forall j | pos <= j < k ensures !IsSeparator(text[j]) {
      assert text[j] == text[pos..][j - pos] == t[j - pos];
    }
    SkipToken(text, pos, k, pos, flag, prev, rs, resolve);
    assert text[pos..k] == text[pos..][..|t|] == t;
    if rest != [] {
      assert text[k] == text[pos..][|t|] == rest[0];
      assert text[k + 1..] == text[pos..][|t| + 1..] == rest[1..];
    }
  }

  /** One entry followed by the end or by a comma. */
  lemma ReadEntry(text: Bytes, pos: nat, e: Entry, rest: Bytes, prev: Address, rs: seq<Range>, resolve: Resolver)
    requires pos <= |text| && text[pos..] == EntryText(e) + rest && EntryOk(e) && |rs| < CAPACITY - 1
    requires rest == [] || rest[0] == COMMA
    ensures var r := EntryRange(e, resolve);
      var after := Insert(rs, r.start, r.end);
      && (rest == [] ==> Parse(text, pos, pos, COMMA, prev, rs, resolve) == Some(after))
      && (rest != [] ==>
            var next := pos + |EntryText(e)| + 1;
            && next <= |text| && text[next..] == rest[1..]
            && exists last: Address ::
                 Parse(text, pos, pos, COMMA, prev, rs, resolve) == Parse(text, next, next, COMMA, last, after, resolve))
  {
    hide Insert, Parse, IsToken, AtSeparator, AtEnd;
    match e
    case Single(t) =>
      ReadToken(text, pos, t, rest, COMMA, prev, rs, resolve);
      SeparatorFacts(rs, prev, resolve(t));
    case Span(a, b) => ReadSpan(text, pos, a, b, rest, prev, rs, resolve);
  }

  lemma SeparatorFacts(rs: seq<Range>, prev: Address, cur: Address)
    ensures AtSeparator(rs, COMMA, prev, cur, COMMA) == AtEnd(rs, COMMA, prev, cur) == Insert(rs, cur, cur)
    ensures AtSeparator(rs, COMMA, prev, cur, MINUS) == rs
    ensures AtSeparator(rs, MINUS, prev, cur, COMMA) == AtEnd(rs, MINUS, prev, cur) == Insert(rs, prev, cur)
  {
  }

  lemma ReadSpan(text: Bytes, pos: nat, a: Bytes, b: Bytes, rest: Bytes, prev: Address, rs: seq<Range>, resolve: Resolver)
    requires pos <= |text| && text[pos..] == a + [MINUS] + b + rest && IsToken(a) && IsToken(b) && |rs| < CAPACITY - 1
    requires rest == [] || rest[0] == COMMA
    ensures var after := Insert(rs, resolve(a), resolve(b));
      var next := pos + |a| + 1 + |b| + 1;
      && (rest == [] ==> Parse(text, pos, pos, COMMA, prev, rs, resolve) == Some(after))
      && (rest != [] ==>
            && next <= |text| && text[next..] == rest[1..]
            && Parse(text, pos, pos, COMMA, prev, rs, resolve) == Parse(text, next, next, COMMA, resolve(b), after, resolve))
  {
    hide Insert, Parse, IsToken, AtSeparator, AtEnd;
    var tail := [MINUS] + b + rest;
    assert text[pos..] == a + tail && tail[1..] == b + rest;
    ReadToken(text, pos, a, tail, COMMA, prev, rs, resolve);
    SeparatorFacts(rs, prev, resolve(a));
    ReadToken(text, pos + |a| + 1, b, rest, MINUS, resolve(a), rs, resolve);
    SeparatorFacts(rs, resolve(a), resolve(b));
  }

  /** The table a written list gives: entry by entry until one place is left; then the parser
      stops and takes the empty text at that point for the last address. */
  function Filled(rs: seq<Range>, ranges: seq<Range>, nothing: Address): seq<Range>
    decreases |ranges|
  {
    if ranges == [] then rs
    else if |rs| >= CAPACITY - 1 then Insert(rs, nothing, nothing)
    else Filled(Insert(rs, ranges[0].start, ranges[0].end), ranges[1..], nothing)
  }

  lemma FullStops(text: Bytes, pos: nat, prev: Address, rs: seq<Range>, resolve: Resolver)
    requires pos <= |text| && |rs| >= CAPACITY - 1
    ensures Parse(text, pos, pos, COMMA, prev, rs, resolve) == Some(Insert(rs, resolve([]), resolve([])))
  {
    assert text[pos..pos] == [];
  }

  /** A written list is read back entry by entry as far as there is room. */
  lemma {:induction false} ReadList(text: Bytes, pos: nat, es: seq<Entry>, prev: Address, rs: seq<Range>, resolve: Resolver)
    requires es != [] && pos <= |text| && text[pos..] == ListText(es)
    requires forall i :: 0 <= i < |es| ==> EntryOk(es[i])
    ensures Parse(text, pos, pos, COMMA, prev, rs, resolve) == Some(Filled(rs, Ranges(es, resolve), resolve([])))
    decreases |es|
  {
    hide Insert, Parse, EntryOk, EntryText, EntryRange;
    var r := EntryRange(es[0], resolve);
    var after := Insert(rs, r.start, r.end);
    var ranges := Ranges(es, resolve);
    assert ranges[1..] == Ranges(es[1..], resolve);
    if |rs| >= CAPACITY - 1 {
      FullStops(text, pos, prev, rs, resolve);
    } else if |es| == 1 {
      ReadEntry(text, pos, es[0], [], prev, rs, resolve);
      assert es[1..] == [] && ranges[1..] == [];
    } else {
      var rest := [COMMA] + ListText(es[1..]);
      assert ListText(es) == EntryText(es[0]) + rest && rest[1..] == ListText(es[1..]);
      ReadEntry(text, pos, es[0], rest, prev, rs, resolve);
      var next := pos + |EntryText(es[0])| + 1;
      var last: Address :| Parse(text, pos, pos, COMMA, prev, rs, resolve) == Parse(text, next, next, COMMA, last, after, resolve);
      ReadList(text, next, es[1..], last, after, resolve);
    }
  }

  /** How many ranges are inserted before the parser stops. */
  function ReadCount(rs: seq<Range>, ranges: seq<Range>): (m: nat)
    ensures m <= |ranges|
    decreases |ranges|
  {
    if ranges == [] || |rs| >= CAPACITY - 1 then 0
    else 1 + ReadCount(Insert(rs, ranges[0].start, ranges[0].end), ranges[1..])
  }

  lemma {:induction false} FilledIs(rs: seq<Range>, ranges: seq<Range>, nothing: Address)
    ensures var m := ReadCount(rs, ranges);
      var read := InsertAll(rs, ranges[..m]);
      Filled(rs, ranges, nothing) == if m == |ranges| then read else Insert(read, nothing, nothing)
    decreases |ranges|
  {
    hide Insert;
    if ranges != [] && |rs| < CAPACITY - 1 {
      var after := Insert(rs, ranges[0].start, ranges[0].end);
      FilledIs(after, ranges[1..], nothing);
      var m := ReadCount(rs, ranges);
      assert ranges[..m][1..] == ranges[1..][..m - 1];
    }
  }

  lemma InsertGrows(rs: seq<Range>, start: Address, end: Address)
    ensures |Insert(rs, start, end)| >= |rs|
  {
  }

  lemma {:induction false} InsertAllGrows(rs: seq<Range>, ranges: seq<Range>)
    ensures |InsertAll(rs, ranges)| >= |rs|
    decreases |ranges|
  {
    hide Insert;
    if ranges != [] {
      InsertGrows(rs, ranges[0].start, ranges[0].end);
      InsertAllGrows(Insert(rs, ranges[0].start, ranges[0].end), ranges[1..]);
    }
  }

  /** Every entry is read exactly when the table of all but the last one leaves two places. */
  lemma {:induction false} ReadsAllExact(rs: seq<Range>, ranges: seq<Range>)
    requires ranges != []
    ensures ReadCount(rs, ranges) == |ranges| <==> |InsertAll(rs, ranges[..|ranges| - 1])| < 1023
    decreases |ranges|
  {
    hide Insert;
    var k := |ranges| - 1;
    InsertAllGrows(rs, ranges[..k]);
    if |rs| < CAPACITY - 1 {
      var after := Insert(rs, ranges[0].start, ranges[0].end);
      if k == 0 {
        assert ranges[1..] == [] && ranges[..0] == [];
      } else {
        ReadsAllExact(after, ranges[1..]);
        assert ranges[..k][1..] == ranges[1..][..k - 1];
      }
    }
  }

  /** Loading a written list into an empty table, whatever its length: the table covers exactly
      the entries read and, if the parser stopped early, the address of the empty text. All
      entries are read exactly when those before the last have fewer than 1023 different starts. */
  lemma LoadedCovers(es: seq<Entry>, resolve: Resolver, x: Address)
    requires es != [] && Acceptable(ListText(es)) && forall i :: 0 <= i < |es| ==> EntryOk(es[i])
    ensures var loaded := Loaded([], ListText(es), resolve);
      var ranges := Ranges(es, resolve);
      var m := ReadCount([], ranges);
      && loaded.Table? && Sorted(loaded.ranges) && |loaded.ranges| <= 1024
      && (Covers(loaded.ranges, x) <==> Covers(ranges[..m], x) || (m < |es| && x == resolve([])))
      && (m == |es| <==> |InsertAll([], ranges[..|es| - 1])| < 1023)
  {
    hide Parse, EntryOk, Insert, ListText, Ranges, InsertAll, Filled, Sorted, Covers;
    var text := ListText(es);
    var ranges := Ranges(es, resolve);
    var m := ReadCount([], ranges);
    assert text[0..] == text;
    ReadList(text, 0, es, 0, [], resolve);
    FilledIs([], ranges, resolve([]));
    NothingCovered(x);
    InsertAllExact([], ranges[..m], x);
    assert ranges[..|ranges|] == ranges;
    var read := InsertAll([], ranges[..m]);
    InsertSorted(read, resolve([]), resolve([]));
    InsertCovers(read, resolve([]), resolve([]), x);
    ReadsAllExact([], ranges);
    ParseKeeps(text, 0, 0, COMMA, 0, [], resolve);
  }

  /** The texts that are read: 1 to 8192 of these characters. */
  lemma AcceptableExact(text: Bytes)
    ensures Acceptable(text) <==>
      0 < |text| <= 8192 && forall i :: 0 <= i < |text| ==> text[i] as char in "-." + NUMERALS + ","
  {
    hide NUMERALS;
    forall i | 0 <= i < |text| ensures Allowed(text[i]) <==> text[i] as char in "-." + NUMERALS + "," {
      InLetters(text[i] as char);
    }
  }

  /** The dotted text of an address. */
  function Dotted(a: byte, b: byte, c: byte, d: byte): Bytes {
    Digits(a) + [46] + Digits(b) + [46] + Digits(c) + [46] + Digits(d)
  }

  ghost predicate IsDotted(t: Bytes) {
    exists a: byte, b: byte, c: byte, d: byte :: t == Dotted(a, b, c, d)
  }

  ghost predicate EntryDotted(e: Entry) {
    match e
    case Single(t) => IsDotted(t)
    case Span(a, b) => IsDotted(a) && IsDotted(b)
  }

  predicate AllAllowed(t: Bytes) {
    forall i :: 0 <= i < |t| ==> Allowed(t[i])
  }

  lemma OctetText(a: byte)
    ensures |Digits(a)| <= 3 && AllDigits(Digits(a))
  {
    assert Pow10(3) == 1000;
    DigitsLength(a, 3);
  }

  /** A dotted address is a token of allowed characters that fits its buffer. */
  lemma DottedIsToken(t: Bytes)
    requires IsDotted(t)
    ensures IsToken(t) && AllAllowed(t) && t != []
  {
    hide Digits;
    var a: byte, b: byte, c: byte, d: byte :| t == Dotted(a, b, c, d);
    OctetText(a);
    OctetText(b);
    OctetText(c);
    OctetText(d);
  }

  lemma JoinAllowed(s: Bytes, t: Bytes, sep: byte)
    requires AllAllowed(s) && AllAllowed(t) && IsSeparator(sep)
    ensures AllAllowed(s + [sep] + t)
  {
  }

  lemma EntryAllowed(e: Entry)
    requires EntryDotted(e)
    ensures AllAllowed(EntryText(e)) && EntryText(e) != []
  {
    match e
    case Single(t) => DottedIsToken(t);
    case Span(a, b) => DottedIsToken(a); DottedIsToken(b); JoinAllowed(a, b, MINUS);
  }

  lemma {:induction false} ListAllowed(es: seq<Entry>)
    requires es != [] && forall i :: 0 <= i < |es| ==> EntryDotted(es[i])
    ensures AllAllowed(ListText(es)) && ListText(es) != [] && (forall i :: 0 <= i < |es| ==> EntryOk(es[i]))
    decreases |es|
  {
    hide IsDotted, IsToken, AllAllowed;
    match es[0] {
      case Single(t) => DottedIsToken(t);
      case Span(a, b) => DottedIsToken(a); DottedIsToken(b);
    }
    EntryAllowed(es[0]);
    if |es| > 1 {
      ListAllowed(es[1..]);
      JoinAllowed(EntryText(es[0]), ListText(es[1..]), COMMA);
      assert forall i :: 1 <= i < |es| ==> es[i] == es[1..][i - 1];
    }
  }

  /** Every list of dotted addresses and ranges of at most 8192 bytes is read: it is neither
      refused nor does it overrun a buffer. */
  lemma DottedListLoads(es: seq<Entry>, resolve: Resolver)
    requires es != [] && forall i :: 0 <= i < |es| ==> EntryDotted(es[i])
    requires |ListText(es)| <= 8192
    ensures Loaded([], ListText(es), resolve).Table?
  {
    hide EntryOk, EntryDotted, Insert, Parse, ListText;
    ListAllowed(es);
    LoadedCovers(es, resolve, 0);
  }

  /** The first token of a text overruns its buffer exactly when it has 16 bytes or more. */
  lemma OverrunExact(t: Bytes, rest: Bytes, resolve: Resolver)
    requires IsWord(t) && Acceptable(t + rest) && (rest == [] || IsSeparator(rest[0]))
    ensures |t| >= TOKEN_BUFFER ==> Loaded([], t + rest, resolve) == Overrun
    ensures rest == [] ==> (Loaded([], t, resolve) == Overrun <==> |t| >= TOKEN_BUFFER)
  {
    hide Acceptable, IsSeparator, Insert;
    var text := t + rest;
    forall j | 0 <= j < |t| ensures !IsSeparator(text[j]) {
      assert text[j] == t[j];
    }
    SkipToken(text, 0, |t|, 0, COMMA, 0, [], resolve);
    if rest == [] { assert text == t; } else { assert text[|t|] == rest[0]; }
  }

  lemma NothingCovered(x: Address)
    ensures Sorted([]) && !Covers([], x)
  {
  }

  lemma {:induction false} DistinctGrow(rs: seq<Range>, ranges: seq<Range>)
    requires Sorted(rs)
    requires forall i, j :: 0 <= i < j < |ranges| ==> ranges[i].start != ranges[j].start
    requires forall i, j :: 0 <= i < |rs| && 0 <= j < |ranges| ==> rs[i].start != ranges[j].start
    ensures |InsertAll(rs, ranges)| == |rs| + |ranges|
    decreases |ranges|
  {
    if ranges != [] {
      var r := ranges[0];
      var after := Insert(rs, r.start, r.end);
      InsertSorted(rs, r.start, r.end);
      forall i | 0 <= i < |after| ensures after[i].start == r.start || exists k :: 0 <= k < |rs| && rs[k].start == after[i].start {
        var p := Position(rs, r.start);
        assert i < p ==> after[i] == rs[i];
        assert i > p ==> after[i] == rs[i - 1];
      }
      DistinctGrow(after, ranges[1..]);
    }
  }

  /** A list of 1024 or more different addresses: the last one is not allowed, unless it is what
      the empty text stands for. */
  lemma LongListLosesLast(es: seq<Entry>, resolve: Resolver)
    requires |es| >= CAPACITY && Acceptable(ListText(es))
    requires forall i :: 0 <= i < |es| ==> EntryOk(es[i]) && es[i].Single?
    requires forall i, j :: 0 <= i < j < |es| ==> resolve(es[i].token) != resolve(es[j].token)
    requires resolve(es[|es| - 1].token) != resolve([])
    ensures var loaded := Loaded([], ListText(es), resolve);
      loaded.Table? && !Covers(loaded.ranges, resolve(es[|es| - 1].token))
  {
    hide Parse, EntryOk, Insert, ListText, InsertAll, Sorted, Acceptable, Ranges, ReadCount, Loaded;
    var ranges := Ranges(es, resolve);
    var x := resolve(es[|es| - 1].token);
    var m := ReadCount([], ranges);
    SinglesAre(es, resolve);
    LoadedCovers(es, resolve, x);
    NothingCovered(x);
    DistinctGrow([], ranges[..|es| - 1]);
    assert m < |es|;
    forall i | 0 <= i < |ranges[..m]| ensures !In(ranges[..m][i], x) {
      assert ranges[..m][i] == ranges[i];
    }
  }

  lemma {:induction false} SinglesAre(es: seq<Entry>, resolve: Resolver)
    requires forall i :: 0 <= i < |es| ==> es[i].Single?
    ensures forall i :: 0 <= i < |es| ==>
      Ranges(es, resolve)[i] == Range(resolve(es[i].token), resolve(es[i].token))
  {
    if es != [] {
      SinglesAre(es[1..], resolve);
    }
  }
}

/** ip_allow_t: an array of 1024 ranges and its size. */
module IpAccess {
  import opened Bytes
  import opened IpTable
  import opened IpSearch
  import opened IpParse

  /** How loading a list ended; a token that overran its buffer is taken as a crash. */
  datatype Status = Done | NotRead | Crashed

  class IpAllow {
    const ranges: array<Range>
    var size: nat

    constructor ()
      ensures Valid() && Table() == [] && fresh(ranges)
    {
      ranges := new Range[CAPACITY];
      size := 0;
    }

    ghost predicate Valid()
      reads this, ranges
    {
      ranges.Length == CAPACITY && size <= CAPACITY && Sorted(ranges[..size])
    }

    ghost function Table(): seq<Range>
      requires Valid()
      reads this, ranges
    {
      ranges[..size]
    }

    /** add_uniq_sort. */
    method AddUniqSort(start: Address, end: Address)
      requires Valid() && size < CAPACITY
      modifies this, ranges
      ensures Valid() && Table() == Insert(old(Table()), start, end) && size <= old(size) + 1
    {
      hide Sorted, Position;
      ghost var before := ranges[..size];
      InsertSorted(before, start, end);
      var pos := FindPlace(start);
      if pos < size && ranges[pos].start == start {
        if end > ranges[pos].end {
          ranges[pos] := Range(start, end);
        }
        assert ranges[..size] == Insert(before, start, end);
        return;
      }
      assert before[..pos] == ranges[..pos] && before[pos..] == ranges[pos..size];
      InsertAt(pos, Range(start, end));
    }

    method InsertAt(pos: nat, r: Range)
      requires ranges.Length == CAPACITY && pos <= size < CAPACITY
      modifies this, ranges
      ensures size == old(size) + 1 && ranges[..size] == old(ranges[..pos]) + [r] + old(ranges[pos..size])
    {
      ShiftUp(pos);
      ranges[pos] := r;
      size := size + 1;
      assert ranges[..size] == ranges[..pos] + [ranges[pos]] + ranges[pos + 1..size];
    }

    /** The scan for a known start or the first larger one. */
    method FindPlace(start: Address) returns (pos: nat)
      requires Valid()
      ensures pos == Position(Table(), start)
    {
      hide Sorted;
      pos := 0;
      while pos < size
        invariant pos <= size && forall i :: 0 <= i < pos ==> ranges[i].start < start
      {
        if start <= ranges[pos].start {
          break;
        }
        pos := pos + 1;
      }
    }

    /** Makes room at pos. */
    method ShiftUp(pos: nat)
      requires ranges.Length == CAPACITY && pos <= size < CAPACITY
      modifies ranges
      ensures ranges[..pos] == old(ranges[..pos]) && ranges[pos + 1..size + 1] == old(ranges[pos..size])
    {
      var i := size;
      while i > pos
        invariant pos <= i <= size
        invariant forall j :: 0 <= j < i ==> ranges[j] == old(ranges[j])
        invariant forall j :: i <= j < size ==> ranges[j + 1] == old(ranges[j])
      {
        ranges[i] := ranges[i - 1];
        i := i - 1;
      }
    }

    /** get_ip_allow_map, for a table with room. */
    method Load(text: Bytes, resolve: Resolver) returns (status: Status)
      requires Valid() && size < CAPACITY
      modifies this, ranges
      ensures Valid()
      ensures Loaded(old(Table()), text, resolve) ==
        match status case Done => Outcome.Table(Table()) case NotRead => Refused case Crashed => Overrun
      ensures status.NotRead? ==> Table() == old(Table())
    {
      hide Sorted, Insert, Parse;
      if |text| == 0 || |text| > 8192 { return NotRead; }
      var bad := FirstDisallowed(text);
      if bad < |text| { return NotRead; }
      var i: nat, pos: nat := 0, 0;
      var flag := COMMA;
      var prev: Address := 0;
      while i < |text| && size < CAPACITY - 1
        invariant pos <= i <= |text| && Valid() && size < CAPACITY
        invariant Parse(text, 0, 0, COMMA, 0, old(Table()), resolve) == Parse(text, i, pos, flag, prev, Table(), resolve)
        decreases |text| - i
      {
        ParseOne(text, i, pos, flag, prev, Table(), resolve);
        if IsSeparator(text[i]) {
          if i - pos >= TOKEN_BUFFER { return Crashed; }
          var cur := resolve(text[pos..i]);
          if flag == COMMA && text[i] == COMMA {
            AddUniqSort(cur, cur);
          } else if flag == MINUS {
            AddUniqSort(prev, cur);
          }
          pos, flag, prev := i + 1, text[i], cur;
        }
        i := i + 1;
      }
      ParseLast(text, i, pos, flag, prev, Table(), resolve);
      if i - pos >= TOKEN_BUFFER { return Crashed; }
      var cur := resolve(text[pos..i]);
      if flag == COMMA {
        AddUniqSort(cur, cur);
      } else if flag == MINUS {
        AddUniqSort(prev, cur);
      }
      return Done;
    }

    /** can_access. */
    method CanAccess(ip: Address) returns (r: bool)
      requires Valid()
      ensures r == IpSearch.CanAccess(Table(), ip)
      ensures r ==> Covers(Table(), ip)
      ensures Searchable(Table()) ==> (r <==> Covers(Table(), ip))
    {
      hide Sorted, Covers, Searchable;
      ghost var table := ranges[..size];
      if IpSearch.CanAccess(table, ip) {
        SearchSound(table, ip, 0, |table| - 1);
      }
      if Searchable(table) {
        AgreesAt(table, ip);
      }
      var low: nat, high: int := 0, size - 1;
      while low <= high
        invariant high < size
        invariant Search(table, ip, low, high) == Search(table, ip, 0, size - 1)
        decreases high - low
      {
        var mid := (low + high) / 2;
        if ranges[mid].start <= ip && ranges[mid].end >= ip {
          return true;
        } else if ranges[mid].start > ip {
          high := mid - 1;
        } else {
          low := mid + 1;
        }
      }
      return false;
    }
  }

  /** The check of the characters. */
  method FirstDisallowed(text: Bytes) returns (k: nat)
    ensures k <= |text| && (k == |text| <==> forall i :: 0 <= i < |text| ==> Allowed(text[i]))
  {
    k := 0;
    while k < |text|
      invariant k <= |text| && forall i :: 0 <= i < k ==> Allowed(text[i])
    {
      if !Allowed(text[k]) {
        return;
      }
      k := k + 1;
    }
  }

  lemma ParseOne(text: Bytes, i: nat, pos: nat, flag: byte, prev: Address, rs: seq<Range>, resolve: Resolver)
    requires pos <= i < |text| && |rs| < CAPACITY - 1
    ensures var cur := resolve(text[pos..i]);
      Parse(text, i, pos, flag, prev, rs, resolve) ==
      if !IsSeparator(text[i]) then Parse(text, i + 1, pos, flag, prev, rs, resolve)
      else if i - pos >= TOKEN_BUFFER then None
      else Parse(text, i + 1, i + 1, text[i], cur, AtSeparator(rs, flag, prev, cur, text[i]), resolve)
  {
  }

  lemma ParseLast(text: Bytes, i: nat, pos: nat, flag: byte, prev: Address, rs: seq<Range>, resolve: Resolver)
    requires pos <= i <= |text| && (i == |text| || |rs| >= CAPACITY - 1)
    ensures Parse(text, i, pos, flag, prev, rs, resolve) ==
      if i - pos >= TOKEN_BUFFER then None else Some(AtEnd(rs, flag, prev, resolve(text[pos..i])))
  {
  }
}
