/** Ring arithmetic of the queue tags (hustdb/db/server/module/hustdb.cpp). A ring holds the
    tags after sp up to and including ep, modulo CYCLE. */
module QueueRing {

  const MAX_ITEMS: nat := 5_000_000
  const CYCLE: nat := 11_000_000

  datatype Ring = Ring(sp: nat, ep: nat)

  const EMPTY_RING: Ring := Ring(0, 0)

  predicate InRange(r: Ring) {
    r.sp < CYCLE && r.ep < CYCLE
  }

  /** clac_real_item, in 32-bit unsigned arithmetic. */
  function RealItem(start: nat, end: nat): nat {
    if start <= end then end - start
    else if start > MAX_ITEMS then (CYCLE - start + end) % 0x1_0000_0000
    else 0
  }

  /** The true distance around the ring. */
  function Size(r: Ring): (n: nat)
    requires InRange(r)
    ensures n < CYCLE
  {
    if r.sp <= r.ep then r.ep - r.sp else CYCLE - r.sp + r.ep
  }

  lemma SizeIsModular(r: Ring)
    requires InRange(r)
    ensures Size(r) == (r.ep - r.sp) % 11_000_000
  {
  }

  /** The count computed by the server is the distance exactly when the ring is not wrapped
      or its start lies above the item limit. */
  lemma RealItemExact(r: Ring)
    requires InRange(r)
    ensures RealItem(r.sp, r.ep) == Size(r) <==> r.sp <= r.ep || r.sp > 5_000_000
    ensures Size(r) <= 5_000_000 ==> RealItem(r.sp, r.ep) == Size(r)
  {
  }

  /** The tag k places behind the first ready one. */
  function TagAt(r: Ring, k: nat): (t: nat)
    requires InRange(r) && k < CYCLE
    ensures t < CYCLE
  {
    if r.sp + 1 + k < CYCLE then r.sp + 1 + k else r.sp + 1 + k - CYCLE
  }

  function Next(tag: nat): nat {
    (tag + 1) % CYCLE
  }

  /** The tags of the ready items, oldest first. */
  function Tags(r: Ring): (ts: seq<nat>)
    requires InRange(r)
    ensures |ts| == Size(r)
  {
    seq(Size(r), k requires 0 <= k < Size(r) => TagAt(r, k))
  }

  /** Advancing ep appends one new tag, as long as the ring is not about to close. */
  lemma PushTag(r: Ring)
    requires InRange(r) && Size(r) + 1 < CYCLE
    ensures var s := r.(ep := Next(r.ep));
      && InRange(s) && Size(s) == Size(r) + 1
      && Tags(s) == Tags(r) + [Next(r.ep)]
      && Next(r.ep) !in Tags(r)
  {
  }

  /** Advancing sp removes the oldest tag. */
  lemma PopTag(r: Ring)
    requires InRange(r) && Size(r) > 0
    ensures var s := r.(sp := Next(r.sp));
      && InRange(s) && Size(s) == Size(r) - 1
      && Tags(r)[0] == Next(r.sp)
      && Tags(s) == Tags(r)[1..]
      && Next(r.sp) !in Tags(s)
  {
  }
}
