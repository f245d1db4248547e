/** The mapped status page of a log: three little-endian 32-bit words (position, count,
    number of marks) and one byte per record, counted from the end of the page. */
module SyncStatusPage {
  import opened Bytes
  import opened SyncFile

  const PAGE_SIZE: nat := 10_000_000
  const HEADER: nat := 12
  const CLEAR: byte := 48
  const SET: byte := 49

  /** Byte k of the little-endian form of v. */
  function LittleEndian(v: nat, k: nat): byte
    requires k < 4
  {
    if k == 0 then v % 256
    else if k == 1 then v / 256 % 256
    else if k == 2 then v / 65536 % 256
    else v / 16777216 % 256
  }

  function Word(p: Bytes, at: nat): nat
    requires at + 4 <= |p|
  {
    p[at] as int + 256 * p[at + 1] as int + 65536 * p[at + 2] as int + 16777216 * p[at + 3] as int
  }

  function StoreWord(p: Bytes, at: nat, v: nat): (q: Bytes)
    requires at + 4 <= |p|
    ensures |q| == |p|
  {
    p[at := LittleEndian(v, 0)][at + 1 := LittleEndian(v, 1)][at + 2 := LittleEndian(v, 2)][at + 3 := LittleEndian(v, 3)]
  }

  function StoreMark(p: Bytes, i: nat): (q: Bytes)
    requires |p| == PAGE_SIZE && i < PAGE_SIZE
    ensures |q| == |p|
  {
    p[PAGE_SIZE - 1 - i := SET]
  }

  /** The bits std::bitset reads from a string: its last character is bit 0. */
  predicate Bit(text: Bytes, k: nat) {
    k < |text| && text[|text| - 1 - k] == SET
  }

  function Bits(text: Bytes): set<nat> {
    set k: nat | k < |text| && Bit(text, k)
  }

  predicate Binary(text: Bytes) {
    forall i :: 0 <= i < |text| ==> text[i] == CLEAR || text[i] == SET
  }

  /** The marks a new process finds on the page. */
  function MarksOf(p: Bytes): set<nat>
    requires |p| == PAGE_SIZE
  {
    Bits(p[HEADER..])
  }

  lemma BytesApart(v: nat)
    ensures v / 65536 == v / 256 / 256 && v / 16777216 == v / 256 / 256 / 256
  {
  }

  lemma LowWord(v: nat, low: nat, high: nat)
    requires v == low + U32 * high && low < U32
    ensures v % U32 == low
  {
  }

  /** A number and the number without its last byte. */
  lemma LastByte(v: nat)
    ensures v == v % 256 + 256 * (v / 256) && 0 <= v % 256 < 256
  {
  }

  lemma WordBytes(v: nat)
    ensures LittleEndian(v, 0) + 256 * LittleEndian(v, 1) + 65536 * LittleEndian(v, 2) + 16777216 * LittleEndian(v, 3) == v % U32
  {
    var v1 := v / 256;
    var v2 := v1 / 256;
    var v3 := v2 / 256;
    BytesApart(v);
    var b0: int, b1: int := LittleEndian(v, 0), LittleEndian(v, 1);
    var b2: int, b3: int := LittleEndian(v, 2), LittleEndian(v, 3);
    assert b0 == v % 256 && b1 == v1 % 256 && b2 == v2 % 256 && b3 == v3 % 256;
    LastByte(v);
    LastByte(v1);
    LastByte(v2);
    LastByte(v3);
    SumOfBytes(v, b0, v1, b1, v2, b2, v3, b3, v3 / 256);
    LowWord(v, b0 + 256 * b1 + 65536 * b2 + 16777216 * b3, v3 / 256);
  }

  lemma SumOfBytes(v: nat, b0: byte, v1: nat, b1: byte, v2: nat, b2: byte, v3: nat, b3: byte, v4: nat)
    requires v == b0 + 256 * v1 && v1 == b1 + 256 * v2 && v2 == b2 + 256 * v3 && v3 == b3 + 256 * v4
    ensures v == b0 + 256 * b1 + 65536 * b2 + 16777216 * b3 + U32 * v4
  {
  }

  /** Storing a word is read back modulo 2^32 and touches neither the other words nor a mark. */
  lemma StoreWordReadsBack(p: Bytes, at: nat, v: nat)
    requires |p| == PAGE_SIZE && (at == 0 || at == 4 || at == 8)
    ensures var q := StoreWord(p, at, v);
      && Word(q, at) == v % 0x1_0000_0000 && q[at] == v % 256
      && (forall other :: (other == 0 || other == 4 || other == 8) && other != at ==> Word(q, other) == Word(p, other))
      && q[HEADER..] == p[HEADER..]
  {
    WordBytes(v);
  }

  /** A mark is found again on the page and leaves the header alone exactly when its
      position is below the capacity, or the header byte it hits already has its value. */
  lemma StoreMarkReadsBack(p: Bytes, i: nat)
    requires |p| == PAGE_SIZE && i < PAGE_SIZE
    ensures StoreMark(p, i) == p[9_999_999 - i := '1' as int]
    ensures StoreMark(p, i)[..HEADER] == p[..HEADER] <==> i < MARK_CAPACITY || p[PAGE_SIZE - 1 - i] == SET
    ensures MarksOf(StoreMark(p, i)) == if i < MARK_CAPACITY then MarksOf(p) + {i} else MarksOf(p)
    ensures Binary(p[HEADER..]) ==> Binary(StoreMark(p, i)[HEADER..])
  {
  }
}
