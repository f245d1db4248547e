/** The table of allowed addresses, hustdb/db/server/network/hustdb_network_utils.cpp, as a
    sequence of ranges. */
module IpTable {
  const ADDRESSES: int := 0x1_0000_0000

  type Address = x: int | 0 <= x < 0x1_0000_0000

  /** A range with end < start contains nothing. */
  datatype Range = Range(start: Address, end: Address)

  predicate In(r: Range, x: Address) {
    r.start <= x <= r.end
  }

  predicate Covers(rs: seq<Range>, x: Address) {
    exists i :: 0 <= i < |rs| && In(rs[i], x)
  }

  predicate Sorted(rs: seq<Range>) {
    forall i, j :: 0 <= i < j < |rs| ==> rs[i].start < rs[j].start
  }

  /** The first range that does not start before the given address. */
  function Position(rs: seq<Range>, start: Address): (p: nat)
    ensures p <= |rs| && (forall i :: 0 <= i < p ==> rs[i].start < start)
    ensures p < |rs| ==> rs[p].start >= start
  {
    if rs == [] || rs[0].start >= start then 0 else 1 + Position(rs[1..], start)
  }

  /** add_uniq_sort: a range with a known start only extends it. */
  function Insert(rs: seq<Range>, start: Address, end: Address): seq<Range> {
    var p := Position(rs, start);
    if p < |rs| && rs[p].start == start then rs[p := Range(start, if end > rs[p].end then end else rs[p].end)]
    else rs[..p] + [Range(start, end)] + rs[p..]
  }

  lemma InsertSorted(rs: seq<Range>, start: Address, end: Address)
    requires Sorted(rs)
    ensures Sorted(Insert(rs, start, end)) && |Insert(rs, start, end)| <= |rs| + 1
  {
    var p := Position(rs, start);
    if p < |rs| {
      assert forall j :: p < j < |rs| ==> rs[p].start < rs[j].start;
    }
  }

  /** The table covers exactly what it covered before and the new range. */
  lemma InsertCovers(rs: seq<Range>, start: Address, end: Address, x: Address)
    ensures Covers(Insert(rs, start, end), x) <==> Covers(rs, x) || start <= x <= end
  {
    var p := Position(rs, start);
    var t := Insert(rs, start, end);
    if p < |rs| && rs[p].start == start {
      assert In(t[p], x) <==> In(rs[p], x) || start <= x <= end;
      assert forall i :: 0 <= i < |rs| && i != p ==> t[i] == rs[i];
      if Covers(rs, x) {
        var i :| 0 <= i < |rs| && In(rs[i], x);
        assert In(t[i], x);
      }
      if Covers(t, x) {
        var i :| 0 <= i < |t| && In(t[i], x);
        assert i != p ==> In(rs[i], x);
      }
    } else {
      assert t[p] == Range(start, end);
      if Covers(rs, x) {
        var i :| 0 <= i < |rs| && In(rs[i], x);
        assert t[if i < p then i else i + 1] == rs[i];
      }
      if Covers(t, x) {
        var i :| 0 <= i < |t| && In(t[i], x);
        assert i < p ==> rs[i] == t[i];
        assert i > p ==> rs[i - 1] == t[i];
      }
    }
  }

  function InsertAll(rs: seq<Range>, ranges: seq<Range>): seq<Range>
    decreases |ranges|
  {
    if ranges == [] then rs else InsertAll(Insert(rs, ranges[0].start, ranges[0].end), ranges[1..])
  }

  /** After any sequence of insertions the table is strictly sorted by start and covers exactly
      the union of the ranges. */
  lemma {:induction false} InsertAllExact(rs: seq<Range>, ranges: seq<Range>, x: Address)
    requires Sorted(rs)
    ensures Sorted(InsertAll(rs, ranges)) && |InsertAll(rs, ranges)| <= |rs| + |ranges|
    ensures Covers(InsertAll(rs, ranges), x) <==> Covers(rs, x) || Covers(ranges, x)
    decreases |ranges|
  {
    hide Sorted, Insert;
    if ranges != [] {
      var r := ranges[0];
      InsertSorted(rs, r.start, r.end);
      InsertCovers(rs, r.start, r.end, x);
      InsertAllExact(Insert(rs, r.start, r.end), ranges[1..], x);
      CoversTail(ranges, x);
    }
  }

  lemma CoversTail(ranges: seq<Range>, x: Address)
    requires ranges != []
    ensures Covers(ranges, x) <==> In(ranges[0], x) || Covers(ranges[1..], x)
  {
  }
}

/** The binary search of can_access. */
module IpSearch {
  import opened IpTable

  function Search(rs: seq<Range>, x: Address, low: nat, high: int): bool
    requires high < |rs|
    decreases high - low
  {
    if low > high then false
    else
      var mid := (low + high) / 2;
      if In(rs[mid], x) then true
      else if rs[mid].start > x then Search(rs, x, low, mid - 1)
      else Search(rs, x, mid + 1, high)
  }

  predicate CanAccess(rs: seq<Range>, x: Address) {
    Search(rs, x, 0, |rs| - 1)
  }

  /** Only covered addresses are accepted, whatever the table. */
  lemma {:induction false} SearchSound(rs: seq<Range>, x: Address, low: nat, high: int)
    requires high < |rs| && Search(rs, x, low, high)
    ensures Covers(rs, x)
    decreases high - low
  {
    var mid := (low + high) / 2;
    if !In(rs[mid], x) {
      if rs[mid].start > x { SearchSound(rs, x, low, mid - 1); } else { SearchSound(rs, x, mid + 1, high); }
    }
  }

  function Max(a: int, b: int): int {
    if a >= b then a else b
  }

  /** The number of ranges that start at or before an address. */
  function Gap(rs: seq<Range>, x: Address): (g: nat)
    ensures g <= |rs| && forall i :: 0 <= i < g ==> rs[i].start <= x
    ensures g < |rs| ==> rs[g].start > x
  {
    if rs == [] || rs[0].start > x then 0 else 1 + Gap(rs[1..], x)
  }

  /** The largest end among the ranges the search looks at that start at or before the address,
      for an address behind the first g starts. */
  function PathMax(rs: seq<Range>, g: nat, low: nat, high: int): int
    requires high < |rs|
    decreases high - low
  {
    if low > high then -1
    else
      var mid := (low + high) / 2;
      if mid >= g then PathMax(rs, g, low, mid - 1) else Max(rs[mid].end, PathMax(rs, g, mid + 1, high))
  }

  /** The largest end among the first g ranges. */
  function PrefixMax(rs: seq<Range>, g: nat): int
    requires g <= |rs|
  {
    if g == 0 then -1 else Max(PrefixMax(rs, g - 1), rs[g - 1].end)
  }

  lemma {:induction false} SearchIsPath(rs: seq<Range>, x: Address, low: nat, high: int)
    requires Sorted(rs) && high < |rs|
    ensures Search(rs, x, low, high) <==> x <= PathMax(rs, Gap(rs, x), low, high)
    decreases high - low
  {
    if low <= high {
      var mid := (low + high) / 2;
      var g := Gap(rs, x);
      assert mid >= g <==> rs[mid].start > x;
      if mid >= g { SearchIsPath(rs, x, low, mid - 1); } else { SearchIsPath(rs, x, mid + 1, high); }
    }
  }

  lemma {:induction false} PrefixMaxIs(rs: seq<Range>, g: nat, x: int)
    requires g <= |rs| && x >= 0
    ensures x <= PrefixMax(rs, g) <==> exists i :: 0 <= i < g && x <= rs[i].end
  {
    if g > 0 {
      PrefixMaxIs(rs, g - 1, x);
      if i :| 0 <= i < g && x <= rs[i].end {
        assert i == g - 1 || exists j :: 0 <= j < g - 1 && x <= rs[j].end;
      }
    }
  }

  lemma CoversIsPrefix(rs: seq<Range>, x: Address)
    requires Sorted(rs)
    ensures Covers(rs, x) <==> x <= PrefixMax(rs, Gap(rs, x))
  {
    var g := Gap(rs, x);
    PrefixMaxIs(rs, g, x);
    if Covers(rs, x) {
      var i :| 0 <= i < |rs| && In(rs[i], x);
      assert i < g && x <= rs[i].end;
    }
    if i :| 0 <= i < g && x <= rs[i].end {
      assert In(rs[i], x);
    }
  }

  /** Where the addresses behind the first g starts end. */
  function StartOf(rs: seq<Range>, g: nat): int
    requires g <= |rs|
  {
    if g < |rs| then rs[g].start else ADDRESSES
  }

  /** No address between start g - 1 and start g lies beyond the ends the search looks at and
      within those of all earlier ranges. */
  predicate GapOk(rs: seq<Range>, g: nat)
    requires 1 <= g <= |rs|
  {
    var first := Max(rs[g - 1].start, PathMax(rs, g, 0, |rs| - 1) + 1);
    first > PrefixMax(rs, g) || first >= StartOf(rs, g)
  }

  predicate Searchable(rs: seq<Range>) {
    forall g: nat :: 1 <= g <= |rs| ==> GapOk(rs, g)
  }

  lemma {:induction false} PathBounds(rs: seq<Range>, g: nat, low: nat, high: int)
    requires high < |rs|
    ensures -1 <= PathMax(rs, g, low, high) < ADDRESSES
    decreases high - low
  {
    if low <= high {
      var mid := (low + high) / 2;
      if mid >= g { PathBounds(rs, g, low, mid - 1); } else { PathBounds(rs, g, mid + 1, high); }
    }
  }

  lemma {:induction false} MaxBounds(rs: seq<Range>, g: nat, low: nat, high: int)
    requires high < |rs| && g <= |rs|
    ensures -1 <= PathMax(rs, g, low, high) < ADDRESSES && -1 <= PrefixMax(rs, g) < ADDRESSES
    decreases g
  {
    if g > 0 { MaxBounds(rs, g - 1, low, high); }
    PathBounds(rs, g, low, high);
  }

  lemma GapUnique(rs: seq<Range>, x: Address, g: nat)
    requires Sorted(rs) && 1 <= g <= |rs| && rs[g - 1].start <= x < StartOf(rs, g)
    ensures Gap(rs, x) == g
  {
  }

  /** The search agrees with membership for every address exactly when the table is
      searchable. */
  lemma SearchExact(rs: seq<Range>)
    requires Sorted(rs)
    ensures (forall x: Address :: CanAccess(rs, x) <==> Covers(rs, x)) <==> Searchable(rs)
  {
    hide Sorted, Covers, Search, PathMax, PrefixMax;
    forall x: Address ensures CanAccess(rs, x) <==> x <= PathMax(rs, Gap(rs, x), 0, |rs| - 1) {
      SearchIsPath(rs, x, 0, |rs| - 1);
    }
    forall x: Address ensures Covers(rs, x) <==> x <= PrefixMax(rs, Gap(rs, x)) {
      CoversIsPrefix(rs, x);
    }
    if Searchable(rs) {
      forall x: Address ensures CanAccess(rs, x) <==> Covers(rs, x) {
        AgreesAt(rs, x);
      }
    } else {
      var g: nat :| 1 <= g <= |rs| && !GapOk(rs, g);
      MaxBounds(rs, g, 0, |rs| - 1);
      var x: Address := Max(rs[g - 1].start, PathMax(rs, g, 0, |rs| - 1) + 1);
      GapUnique(rs, x, g);
      assert Covers(rs, x) && !CanAccess(rs, x);
    }
  }

  lemma AgreesAt(rs: seq<Range>, x: Address)
    requires Sorted(rs) && Searchable(rs)
    ensures CanAccess(rs, x) <==> Covers(rs, x)
  {
    hide Sorted, Covers, Search, PathMax, PrefixMax;
    var g := Gap(rs, x);
    SearchIsPath(rs, x, 0, |rs| - 1);
    CoversIsPrefix(rs, x);
    if CanAccess(rs, x) {
      SearchSound(rs, x, 0, |rs| - 1);
    }
    NoGap(rs);
    if g > 0 {
      assert GapOk(rs, g);
      assert rs[g - 1].start <= x < StartOf(rs, g);
    }
  }

  lemma NoGap(rs: seq<Range>)
    ensures PrefixMax(rs, 0) == -1
  {
  }

  // ---------------------------------------------------------------- disjoint tables

  predicate Disjoint(rs: seq<Range>) {
    forall i, j :: 0 <= i < j < |rs| ==> rs[i].end < rs[j].start
  }

  /** The search always looks at the last range that starts at or before the address. */
  lemma {:induction false} LastIsVisited(rs: seq<Range>, g: nat, low: nat, high: int)
    requires 1 <= g && low <= g - 1 <= high < |rs|
    ensures PathMax(rs, g, low, high) >= rs[g - 1].end
    decreases high - low
  {
    var mid := (low + high) / 2;
    if mid >= g { LastIsVisited(rs, g, low, mid - 1); }
    else if mid < g - 1 { LastIsVisited(rs, g, mid + 1, high); }
  }

  lemma {:induction false} DisjointPrefix(rs: seq<Range>, g: nat, bound: int)
    requires Disjoint(rs) && g < |rs| && bound == rs[g].start
    ensures PrefixMax(rs, g) < bound
  {
    PrefixMaxIs(rs, g, bound);
  }

  /** On disjoint ranges the search agrees with membership for every address. */
  lemma DisjointIsSearchable(rs: seq<Range>)
    requires Sorted(rs) && Disjoint(rs)
    ensures Searchable(rs)
    ensures forall x: Address :: CanAccess(rs, x) <==> Covers(rs, x)
  {
    hide Sorted, Covers, CanAccess, PathMax;
    forall g: nat | 1 <= g <= |rs| ensures GapOk(rs, g) {
      LastIsVisited(rs, g, 0, |rs| - 1);
      DisjointPrefix(rs, g - 1, rs[g - 1].start);
    }
    SearchExact(rs);
  }

  /** 1-100, 2-3, 5-6: address 50 is covered and refused. */
  lemma OverlapExample()
    ensures var rs := [Range(1, 100), Range(2, 3), Range(5, 6)];
      Sorted(rs) && Covers(rs, 50) && !CanAccess(rs, 50)
  {
    var rs := [Range(1, 100), Range(2, 3), Range(5, 6)];
    assert In(rs[0], 50);
    assert !Search(rs, 50, 3, 2);
    assert !Search(rs, 50, 2, 2);
  }
}
