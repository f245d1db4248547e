/** A slot array with names and the in-memory map from names to slots: the scheme shared by
    the queue index and the table index. Slots below `base` carry no name. */
module SlotIndex {
  import opened Bytes

  /** The name of each slot in use. */
  type Names = seq<Option<Bytes>>

  /** Map and array describe each other. */
  ghost predicate IndexOk(names: Names, base: nat, index: map<Bytes, nat>) {
    && (forall n :: n in index ==> base <= index[n] < |names| && names[index[n]] == Some(n))
    && (forall i :: base <= i < |names| && names[i].Some? ==>
          names[i].value in index && index[names[i].value] == i)
  }

  /** The loop of the restart: a slot in use adds its name unless the name is there. */
  function Rebuild(names: Names, base: nat, upTo: nat): map<Bytes, nat>
    requires upTo <= |names|
    decreases upTo
  {
    if upTo <= base then map[]
    else
      var m := Rebuild(names, base, upTo - 1);
      if names[upTo - 1].Some? && names[upTo - 1].value !in m then m[names[upTo - 1].value := upTo - 1] else m
  }

  /** The first slot at or after i that carries the name, or |names|. */
  function FindName(names: Names, name: Bytes, i: nat): (k: nat)
    requires i <= |names|
    ensures i <= k <= |names|
    ensures k < |names| ==> names[k] == Some(name)
    ensures forall j :: i <= j < k ==> names[j] != Some(name)
    decreases |names| - i
  {
    if i == |names| || names[i] == Some(name) then i else FindName(names, name, i + 1)
  }

  lemma FindNameIs(names: Names, name: Bytes, i: nat, k: nat)
    requires i <= k <= |names| && (k < |names| ==> names[k] == Some(name))
    requires forall j :: i <= j < k ==> names[j] != Some(name)
    ensures FindName(names, name, i) == k
  {
  }

  /** The index of the first free slot at or after i, or |names|. */
  function FirstFree(names: Names, i: nat): (k: nat)
    requires i <= |names|
    ensures i <= k <= |names|
    ensures k < |names| ==> names[k].None?
    ensures forall j :: i <= j < k ==> names[j].Some?
    decreases |names| - i
  {
    if i == |names| || names[i].None? then i else FirstFree(names, i + 1)
  }

  lemma FirstFreeIs(names: Names, i: nat, k: nat)
    requires i <= k <= |names|
    requires k < |names| ==> names[k].None?
    requires forall j :: i <= j < k ==> names[j].Some?
    ensures FirstFree(names, i) == k
  {
  }

  lemma {:induction false} RebuildPart(names: Names, base: nat, index: map<Bytes, nat>, upTo: nat)
    requires upTo <= |names| && IndexOk(names, base, index)
    ensures forall n :: n in Rebuild(names, base, upTo) <==> n in index && index[n] < upTo
    ensures forall n :: n in Rebuild(names, base, upTo) ==> Rebuild(names, base, upTo)[n] == index[n]
    decreases upTo
  {
    if upTo > base {
      RebuildPart(names, base, index, upTo - 1);
    }
  }

  /** Rebuilding the map from the array gives back the map. */
  lemma RebuildRestores(names: Names, base: nat, index: map<Bytes, nat>)
    requires IndexOk(names, base, index)
    ensures Rebuild(names, base, |names|) == index
  {
    RebuildPart(names, base, index, |names|);
  }

  /** Slots in use have pairwise distinct names. */
  lemma NamesDistinct(names: Names, base: nat, index: map<Bytes, nat>, i: nat, j: nat)
    requires IndexOk(names, base, index)
    requires base <= i < |names| && base <= j < |names| && names[i].Some? && names[i] == names[j]
    ensures i == j
  {
  }

  lemma ClaimSlot(names: Names, base: nat, index: map<Bytes, nat>, i: nat, n: Bytes)
    requires IndexOk(names, base, index) && base <= i < |names| && names[i].None? && n !in index
    ensures IndexOk(names[i := Some(n)], base, index[n := i])
  {
  }

  lemma FreeSlot(names: Names, base: nat, index: map<Bytes, nat>, n: Bytes)
    requires IndexOk(names, base, index) && n in index
    ensures IndexOk(names[index[n] := None], base, index - {n})
  {
  }

  /** The number of slots in use below `upTo`. */
  function Used(names: Names, base: nat, upTo: nat): nat
    requires upTo <= |names|
    decreases upTo
  {
    if upTo <= base then 0
    else Used(names, base, upTo - 1) + if names[upTo - 1].Some? then 1 else 0
  }

  lemma {:induction false} UsedAll(names: Names, base: nat, upTo: nat)
    requires base <= upTo <= |names|
    ensures Used(names, base, upTo) <= upTo - base
    ensures Used(names, base, upTo) == upTo - base <==> forall j :: base <= j < upTo ==> names[j].Some?
    decreases upTo
  {
    if base < upTo {
      UsedAll(names, base, upTo - 1);
    }
  }

  lemma {:induction false} RebuildCount(names: Names, base: nat, index: map<Bytes, nat>, upTo: nat)
    requires upTo <= |names| && IndexOk(names, base, index)
    ensures |Rebuild(names, base, upTo)| == Used(names, base, upTo)
    decreases upTo
  {
    if upTo > base {
      RebuildCount(names, base, index, upTo - 1);
      RebuildPart(names, base, index, upTo - 1);
    }
  }

  /** The array is full exactly when the map has as many names as there are slots. */
  lemma FullIff(names: Names, base: nat, index: map<Bytes, nat>)
    requires base <= |names| && IndexOk(names, base, index)
    ensures |index| <= |names| - base
    ensures FirstFree(names, base) == |names| <==> |index| == |names| - base
  {
    RebuildRestores(names, base, index);
    RebuildCount(names, base, index, |names|);
    UsedAll(names, base, |names|);
    var f := FirstFree(names, base);
    if f == |names| {
      assert forall j :: base <= j < |names| ==> names[j].Some?;
    }
  }
}
