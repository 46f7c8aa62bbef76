// The slotted leaf page as a value: a slot array that grows up from the header,
// tuples that grow down from the end of the page, and slots that a delete only
// marks (database/src/include/page/leaf_page.h).
module LeafLayout {
  import opened Bytes
  import opened Tuples

  const LEAF_HEADER: nat := 31
  const USABLE: nat := 4065       // PAGE_SIZE - LEAF_HEADER
  const MAX_ENTRY: nat := 813     // MAX_LEAF_PAGE_DATA
  const MIN_ENTRY: nat := 128     // MIN_LEAF_PAGE_DATA
  const UNDERFLOW: nat := 1626    // LEAF_UNDERFLOW_THRESHOLD

  datatype Slot = Slot(deleted: bool, offset: nat, length: nat)

  function Tup(data: seq<Byte>, s: Slot): Tuple {
    if s.offset + s.length <= |data| then data[s.offset..s.offset + s.length] else []
  }

  function LiveIn(slots: seq<Slot>, data: seq<Byte>): seq<Tuple> {
    if slots == [] then []
    else (if slots[0].deleted then [] else [Tup(data, slots[0])]) + LiveIn(slots[1..], data)
  }

  function LiveBytes(slots: seq<Slot>): nat {
    if slots == [] then 0
    else (if slots[0].deleted then 0 else slots[0].length) + LiveBytes(slots[1..])
  }

  function DeadBytes(slots: seq<Slot>): nat {
    if slots == [] then 0
    else (if slots[0].deleted then slots[0].length else 0) + DeadBytes(slots[1..])
  }

  function Tombstones(slots: seq<Slot>): nat {
    if slots == [] then 0
    else (if slots[0].deleted then 1 else 0) + Tombstones(slots[1..])
  }

  ghost predicate InBounds(slots: seq<Slot>, freeEnd: int) {
    forall i | 0 <= i < |slots| ::
      && MIN_TUPLE <= slots[i].length <= MAX_TUPLE
      && (!slots[i].deleted ==> freeEnd < slots[i].offset && slots[i].offset + slots[i].length <= PAGE_SIZE)
  }

  predicate Apart(s: Slot, t: Slot) {
    s.offset + s.length <= t.offset || t.offset + t.length <= s.offset
  }

  ghost predicate Disjoint(slots: seq<Slot>) {
    forall i, j | 0 <= i < j < |slots| && !slots[i].deleted && !slots[j].deleted :: Apart(slots[i], slots[j])
  }

  // Only live slots are sorted; a tombstone may still point at any stale bytes.
  ghost predicate Ordered(slots: seq<Slot>, data: seq<Byte>) {
    forall i, j | 0 <= i < j < |slots| && !slots[i].deleted && !slots[j].deleted ::
      TKey(Tup(data, slots[i])) < TKey(Tup(data, slots[j]))
  }

  datatype Leaf = Leaf(pid: PageID, slots: seq<Slot>, freeEnd: int, garbage: nat,
                       left: PageID, right: PageID, data: seq<Byte>)
  {
    function Live(): seq<Tuple> {
      LiveIn(slots, data)
    }

    function Available(): int {
      freeEnd - (LEAF_HEADER + SLOT_SIZE * |slots|) + 1
    }

    function Free(): int {
      Available() + garbage
    }

    function Used(): int {
      USABLE - Free()
    }

    ghost predicate Sized() {
      |data| == PAGE_SIZE && LEAF_HEADER + SLOT_SIZE * |slots| <= freeEnd + 1 <= PAGE_SIZE
    }

    // Every byte between the free space and the end of the page belongs to one
    // live tuple or is counted as garbage.
    ghost predicate Accounted() {
      LiveBytes(slots) + garbage == PAGE_SIZE - 1 - freeEnd && DeadBytes(slots) <= garbage
    }

    ghost predicate Valid() {
      && Sized()
      && InBounds(slots, freeEnd)
      && Disjoint(slots)
      && Ordered(slots, data)
      && Accounted()
    }
  }

  lemma {:induction false} LiveConcat(a: seq<Slot>, b: seq<Slot>, data: seq<Byte>)
    ensures LiveIn(a + b, data) == LiveIn(a, data) + LiveIn(b, data)
  {
    hide TKey, Tup;
    if a == [] {
      assert a + b == b;
    } else {
      LiveConcat(a[1..], b, data);
      assert (a + b)[1..] == a[1..] + b && (a + b)[0] == a[0];
    }
  }

  lemma {:induction false} BytesConcat(a: seq<Slot>, b: seq<Slot>)
    ensures LiveBytes(a + b) == LiveBytes(a) + LiveBytes(b)
    ensures DeadBytes(a + b) == DeadBytes(a) + DeadBytes(b)
    ensures Tombstones(a + b) == Tombstones(a) + Tombstones(b)
  {
    if a == [] {
      assert a + b == b;
    } else {
      BytesConcat(a[1..], b);
      assert (a + b)[1..] == a[1..] + b && (a + b)[0] == a[0];
    }
  }

  lemma {:induction false} LiveFrame(slots: seq<Slot>, data: seq<Byte>, data': seq<Byte>)
    requires forall i | 0 <= i < |slots| && !slots[i].deleted :: Tup(data, slots[i]) == Tup(data', slots[i])
    ensures LiveIn(slots, data) == LiveIn(slots, data')
  {
    hide TKey, Tup;
    if slots != [] {
      forall i | 0 <= i < |slots[1..]| && !slots[1..][i].deleted
        ensures Tup(data, slots[1..][i]) == Tup(data', slots[1..][i])
      {
        assert slots[1..][i] == slots[i + 1];
      }
      LiveFrame(slots[1..], data, data');
    }
  }

  // Every live tuple comes from a live slot.
  lemma {:induction false} LiveSlot(slots: seq<Slot>, data: seq<Byte>, k: nat) returns (i: nat)
    requires k < |LiveIn(slots, data)|
    ensures i < |slots| && !slots[i].deleted && LiveIn(slots, data)[k] == Tup(data, slots[i])
  {
    hide TKey, Tup;
    if !slots[0].deleted && k == 0 {
      i := 0;
    } else {
      var j := LiveSlot(slots[1..], data, if slots[0].deleted then k else k - 1);
      i := j + 1;
    }
  }

  // Every live slot contributes its tuple.
  lemma {:induction false} SlotLive(slots: seq<Slot>, data: seq<Byte>, i: nat) returns (k: nat)
    requires i < |slots| && !slots[i].deleted
    ensures k < |LiveIn(slots, data)| && LiveIn(slots, data)[k] == Tup(data, slots[i])
  {
    hide TKey, Tup;
    if i == 0 {
      k := 0;
    } else {
      var m := SlotLive(slots[1..], data, i - 1);
      k := if slots[0].deleted then m else m + 1;
    }
  }

  lemma {:induction false} LiveSorted(slots: seq<Slot>, data: seq<Byte>)
    requires Ordered(slots, data)
    ensures Sorted(LiveIn(slots, data))
  {
    hide TKey, Tup;
    if slots != [] {
      var rest := LiveIn(slots[1..], data);
      assert Ordered(slots[1..], data);
      LiveSorted(slots[1..], data);
      if !slots[0].deleted {
        forall k | 0 <= k < |rest| ensures TKey(Tup(data, slots[0])) < TKey(rest[k]) {
          var i := LiveSlot(slots[1..], data, k);
          assert slots[1..][i] == slots[i + 1];
        }
        assert LiveIn(slots, data) == [Tup(data, slots[0])] + rest;
      }
    }
  }

  // The space a page uses is the cost of its live tuples plus its tombstones.
  lemma {:induction false} CostOfLive(slots: seq<Slot>, freeEnd: int, data: seq<Byte>)
    requires |data| == PAGE_SIZE && InBounds(slots, freeEnd)
    ensures Cost(LiveIn(slots, data)) + SLOT_SIZE * Tombstones(slots) == LiveBytes(slots) + SLOT_SIZE * |slots|
    ensures MIN_TUPLE * Tombstones(slots) <= DeadBytes(slots)
    ensures MIN_TUPLE * |LiveIn(slots, data)| <= LiveBytes(slots)
    ensures |LiveIn(slots, data)| + Tombstones(slots) == |slots|
  {
    hide TKey;
    if slots != [] {
      assert InBounds(slots[1..], freeEnd);
      CostOfLive(slots[1..], freeEnd, data);
      CostConcat(if slots[0].deleted then [] else [Tup(data, slots[0])], LiveIn(slots[1..], data));
    }
  }

  lemma UsedMeaning(v: Leaf)
    requires v.Valid()
    ensures v.Used() == Cost(v.Live()) + SLOT_SIZE * Tombstones(v.slots)
    ensures 26 * Tombstones(v.slots) <= USABLE && 26 * |v.Live()| <= USABLE
    ensures 0 <= v.Used() <= USABLE
  {
    hide TKey, Tup, LiveIn, Cost, LiveBytes, DeadBytes, Tombstones, Disjoint, Ordered;
    CostOfLive(v.slots, v.freeEnd, v.data);
  }

  lemma UsedLive(v: Leaf, w: Leaf)
    requires v.Valid() && w.Valid() && w.Live() == v.Live() && w.Available() >= v.Free()
    ensures w.Used() <= v.Used() && w.Free() >= v.Free()
  {
  }

  lemma {:induction false} LiveSizes(slots: seq<Slot>, freeEnd: int, data: seq<Byte>)
    requires |data| == PAGE_SIZE && InBounds(slots, freeEnd)
    ensures forall k | 0 <= k < |LiveIn(slots, data)| :: MIN_TUPLE <= |LiveIn(slots, data)[k]| <= MAX_TUPLE
  {
    hide TKey;
    forall k | 0 <= k < |LiveIn(slots, data)|
      ensures MIN_TUPLE <= |LiveIn(slots, data)[k]| <= MAX_TUPLE
    {
      var i := LiveSlot(slots, data, k);
    }
  }
}
