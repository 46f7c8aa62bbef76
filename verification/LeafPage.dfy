// The leaf page operations of database/src/impl/page/leaf_page.cpp, in place on
// one page buffer.
module LeafPages {
  import opened Bytes
  import opened Memory
  import opened Tuples
  import opened LeafLayout
  import opened LeafEdits

  // The first chunk of a payload of the given size, slot and header included, on
  // a page with the given free space.
  function EntrySize(size: nat, free: nat): nat {
    var wanted := if SLOT_SIZE + TUPLE_HEADER_SIZE + size <= MAX_ENTRY
                  then SLOT_SIZE + TUPLE_HEADER_SIZE + size else MAX_ENTRY;
    if wanted <= free then wanted else free
  }

  // The first chunk is the longest that the payload, the limit of 813 bytes for an
  // entry and the free space allow; 18 bytes go to the slot and the header.
  predicate FirstChunk(size: nat, free: int, n: nat) {
    && n <= size && n + 18 <= 813 && n + 18 <= free
    && (n == size || n + 18 == 813 || n + 18 == free)
  }

  // The page p has become q by taking the tuple x of a payload of the given size.
  ghost predicate TookChunk(p: Leaf, q: Leaf, key: Key, x: Tuple, size: nat) {
    && |x| >= TUPLE_HEADER_SIZE && FirstChunk(size, p.Free(), |x| - TUPLE_HEADER_SIZE)
    && UsedGrows(p, q, key, |x|)
  }

  // The least free space with which a page accepts a payload of the given size.
  function MinEntry(size: nat): nat {
    if SLOT_SIZE + TUPLE_HEADER_SIZE + size <= MIN_ENTRY
    then SLOT_SIZE + TUPLE_HEADER_SIZE + size else MIN_ENTRY
  }

  datatype SearchResult = SearchResult(found: bool, offset: nat, end: nat, header: TupleHeader)

  class LeafPage {
    var pid: PageID
    var slots: seq<Slot>
    var freeEnd: int
    var garbage: nat
    var left: PageID
    var right: PageID
    const data: array<Byte>

    function Value(): Leaf
      reads this, data
    {
      Leaf(pid, slots, freeEnd, garbage, left, right, data[..])
    }

    constructor Load(v: Leaf)
      requires |v.data| == PAGE_SIZE
      ensures Value() == v && fresh(data)
    {
      pid, slots, freeEnd, garbage := v.pid, v.slots, v.freeEnd, v.garbage;
      left, right := v.left, v.right;
      data := new Byte[PAGE_SIZE](i requires 0 <= i < PAGE_SIZE => v.data[i]);
    }

    // A zeroed page just taken from the pool.
    constructor Blank()
      ensures data.Length == PAGE_SIZE && fresh(data)
    {
      pid, slots, freeEnd, garbage, left, right := 0, [], 0, 0, 0, 0;
      data := new Byte[PAGE_SIZE](i => 0);
    }

    // The first live slot with key > x, skipping tombstones forward.
    method UpperBound(x: Key) returns (ans: nat)
      requires Ordered(slots, data[..])
      ensures ans <= |slots| && (ans < |slots| ==> !slots[ans].deleted)
      ensures SlotKeysBelow(slots[..ans], data[..], x + 1)
      ensures SlotKeysAbove(slots[ans..], data[..], x)
    {
      hide Tup, TKey;
      var l, r := 0, |slots| - 1;
      ans := |slots|;
      while l <= r
        invariant 0 <= l <= |slots| && -1 <= r < |slots|
        invariant r < ans <= |slots| && (ans < |slots| ==> !slots[ans].deleted)
        invariant forall i | r < i < ans :: slots[i].deleted
        invariant forall i | 0 <= i < l && !slots[i].deleted :: TKey(Tup(data[..], slots[i])) <= x
        invariant forall i | r < i < |slots| && !slots[i].deleted :: x < TKey(Tup(data[..], slots[i]))
        decreases r - l
      {
        var middle := l + (r - l) / 2;
        var mid := middle;
        while mid < |slots| && slots[mid].deleted
          invariant middle <= mid <= |slots|
          invariant forall i | middle <= i < mid :: slots[i].deleted
        {
          mid := mid + 1;
        }
        if mid == |slots| {
          r := middle - 1;
        } else if TKey(Tup(data[..], slots[mid])) <= x {
          l := mid + 1;
        } else {
          ans, r := mid, middle - 1;
        }
      }
    }

    // The first live slot with key >= x.
    method LowerBound(x: Key) returns (ans: nat)
      requires Ordered(slots, data[..])
      ensures ans <= |slots| && (ans < |slots| ==> !slots[ans].deleted)
      ensures SlotKeysBelow(slots[..ans], data[..], x)
      ensures SlotKeysAbove(slots[ans..], data[..], x - 1)
    {
      hide Tup, TKey;
      var l, r := 0, |slots| - 1;
      ans := |slots|;
      while l <= r
        invariant 0 <= l <= |slots| && -1 <= r < |slots|
        invariant r < ans <= |slots| && (ans < |slots| ==> !slots[ans].deleted)
        invariant forall i | r < i < ans :: slots[i].deleted
        invariant forall i | 0 <= i < l && !slots[i].deleted :: TKey(Tup(data[..], slots[i])) < x
        invariant forall i | r < i < |slots| && !slots[i].deleted :: x <= TKey(Tup(data[..], slots[i]))
        decreases r - l
      {
        var middle := l + (r - l) / 2;
        var mid := middle;
        while mid < |slots| && slots[mid].deleted
          invariant middle <= mid <= |slots|
          invariant forall i | middle <= i < mid :: slots[i].deleted
        {
          mid := mid + 1;
        }
        if mid == |slots| {
          r := middle - 1;
        } else if TKey(Tup(data[..], slots[mid])) < x {
          l := mid + 1;
        } else {
          ans, r := mid, middle - 1;
        }
      }
    }

    // Rebuilds this page from the live slots of src over a copy of a page.
    method MakePage(src: seq<Slot>, buffer: seq<Byte>, pid: PageID, left: PageID, right: PageID)
      requires data.Length == PAGE_SIZE && Rebuildable(src, buffer)
      modifies this, data
      ensures Compact(Value()) && Value().Live() == LiveIn(src, buffer)
      ensures this.pid == pid && this.left == left && this.right == right
    {
      hide Splice, Tup, TKey, LiveIn, Cost, LeafLayout.Leaf.Valid, LeafLayout.Leaf.Live, Rebuildable, Compact;
      this.pid, this.left, this.right := pid, left, right;
      slots, freeEnd, garbage := [], PAGE_SIZE - 1, 0;
      EmptyCompact(pid, left, right, data[..]);
      LiveNone(buffer);
      assert src[..0] == [];
      var i := 0;
      while i < |src|
        invariant i <= |src|
        invariant Compact(Value()) && Value().Live() == LiveIn(src[..i], buffer)
        invariant this.pid == pid && this.left == left && this.right == right
      {
        LiveStep(src, buffer, i);
        if !src[i].deleted {
          RebuildStep(Value(), src, buffer, i);
          Append(Tup(buffer, src[i]));
        }
        i := i + 1;
      }
      assert src[..i] == src;
    }

    method Append(t: Tuple)
      requires data.Length == PAGE_SIZE && |t| <= freeEnd + 1 <= PAGE_SIZE
      modifies this, data
      ensures Value() == Place(old(Value()), old(slots), [], t)
    {
      hide Splice;
      var offset := freeEnd - |t| + 1;
      CopyInto(data, offset, t);
      slots := slots + [Slot(false, offset, |t|)];
      freeEnd := offset - 1;
      assert slots == old(slots) + [Slot(false, offset, |t|)] + [];
    }

    method DefragmentPage()
      requires Value().Valid()
      modifies this, data
      ensures Compact(Value()) && Value().Live() == old(Value()).Live()
      ensures pid == old(pid) && left == old(left) && right == old(right)
      ensures Value().Available() >= old(Value()).Free()
    {
      hide Tup, TKey, LiveIn, Cost;
      ghost var v := Value();
      ValidRebuildable(v);
      UsedMeaning(v);
      MakePage(slots, data[..], pid, left, right);
      CompactUsed(Value());
    }

    // One entry, written below the free space and entered in the slot array.
    method PutEntry(length: nat, header: seq<Byte>, chunk: seq<Byte>, key: Key) returns (addr: nat)
      requires Value().Valid()
      requires |header| == TUPLE_HEADER_SIZE && |header + chunk| == length && MIN_TUPLE <= length <= MAX_TUPLE
      requires length + SLOT_SIZE <= Value().Available()
      requires TKey(header + chunk) == key && !HasKey(Value().Live(), key)
      modifies this, data
      ensures Value().Valid() && Value().Live() == InsertSorted(old(Value()).Live(), header + chunk)
      ensures Value().Used() ==
              old(Value()).Used() + length + (if TombstoneBefore(old(Value()), key) then 0 else SLOT_SIZE)
      ensures StoredAt(Value(), addr, header + chunk)
      ensures pid == old(pid) && left == old(left) && right == old(right)
    {
      hide Splice, Tup, TKey, LiveIn, InsertSorted, InBounds, Disjoint, LiveBytes, DeadBytes, StoredAt,
        SlotKeysAbove, SlotKeysBelow, Encode, Decode, TombstoneBefore, Position;
      ghost var v := Value();
      var it := UpperBound(key);
      UpperPosition(v, key, it);
      TombstoneAt(v, key, it);
      addr := freeEnd - length + 1;
      var entry := Slot(false, addr, length);
      if it > 0 && slots[it - 1].deleted {
        assert slots == slots[..it - 1] + [slots[it - 1]] + slots[it..];
        assert slots[..it - 1] + [slots[it - 1]] == slots[..it];
        PlaceAt(v, slots[..it - 1], [slots[it - 1]], slots[it..], header + chunk);
        slots := slots[it - 1 := entry];
        assert slots == v.slots[..it - 1] + [entry] + v.slots[it..];
      } else {
        assert slots == slots[..it] + [] + slots[it..];
        assert slots[..it] + [] == slots[..it];
        PlaceAt(v, slots[..it], [], slots[it..], header + chunk);
        slots := slots[..it] + [entry] + slots[it..];
      }
      freeEnd := addr - 1;
      CopyInto(data, addr, header + chunk);
    }

    // Writes the first chunk of a payload; a tuple moved from another page keeps
    // the header it had there.
    method WriteChunkLeaf(buffer: seq<Byte>, key: Key, moved: Option<seq<Byte>>) returns (written: nat, addr: nat)
      requires Value().Valid()
      requires 8 <= |buffer| && Decode(buffer[..8]) == key && SLOT_SIZE + TUPLE_HEADER_SIZE + |buffer| < SIZE_LIMIT
      requires moved.Some? ==> |moved.value| == TUPLE_HEADER_SIZE
      requires MinEntry(|buffer|) <= Value().Free() && !HasKey(Value().Live(), key)
      modifies this, data
      ensures 8 <= written <= |buffer| && FirstChunk(|buffer|, old(Value()).Free(), written)
      ensures var header := if moved.Some? then moved.value else EncodeHeader(TupleHeader(false, 0, |buffer|));
              && Value().Live() == InsertSorted(old(Value()).Live(), header + buffer[..written])
              && StoredAt(Value(), addr, header + buffer[..written])
      ensures Value().Valid()
      ensures UsedGrows(old(Value()), Value(), key, written + TUPLE_HEADER_SIZE)
      ensures Value().Used() <= old(Value()).Used() + written + TUPLE_HEADER_SIZE + SLOT_SIZE
      ensures pid == old(pid) && left == old(left) && right == old(right)
    {
      hide Tup, TKey, LiveIn, Cost, InsertSorted, LeafLayout.Leaf.Valid, LeafLayout.Leaf.Live, LiveBytes, DeadBytes,
        StoredAt, Encode, Decode, HasKey, Tombstones, TombstoneBefore;
      var available := freeEnd - (LEAF_HEADER + SLOT_SIZE * |slots|) + 1;
      var total := available + garbage;
      var size := EntrySize(|buffer|, total);
      UsedMeaning(Value());
      if size > available {
        DefragmentPage();
        UsedLive(old(Value()), Value());
        CompactUsed(Value());
        NoTombstone(Value(), key);
      }
      written := size - SLOT_SIZE - TUPLE_HEADER_SIZE;
      var header := if moved.Some? then moved.value else EncodeHeader(TupleHeader(false, 0, |buffer|));
      ChunkKey(header, buffer[..written]);
      assert buffer[..written][..8] == buffer[..8];
      addr := PutEntry(size - SLOT_SIZE, header, buffer[..written], key);
    }

    // Links the tuple stored at addr to its first overflow page.
    method SetOverflow(addr: nat, page: PageID, ghost t: Tuple)
      requires Value().Valid() && StoredAt(Value(), addr, t) && |t| >= MIN_TUPLE
      modifies data
      ensures Value().Valid() && Swapped(old(Value()).Live(), Value().Live(), t, Relink(t, page))
      ensures Value().Used() == old(Value()).Used()
    {
      hide Tup, TKey, LinkBytes, Splice, LiveIn, StoredAt, Relink, LeafLayout.Leaf.Valid, LeafLayout.Leaf.Live;
      LinkValid(Value(), addr, t, page);
      CopyInto(data, addr, LinkBytes(true, page));
    }

    // Lazy deletion: the slot is only marked.
    method DeleteTuple(key: Key) returns (found: bool)
      requires Value().Valid()
      modifies this
      ensures found == HasKey(old(Value()).Live(), key)
      ensures Value().Valid() && Value().Live() == Without(old(Value()).Live(), key)
      ensures pid == old(pid) && left == old(left) && right == old(right)
      ensures Value().Used() == old(Value()).Used() - SizeWith(old(Value()).Live(), key)
      ensures !found ==> Value() == old(Value())
    {
      hide Tup, TKey, LiveIn, LiveBytes, DeadBytes, InBounds, Disjoint, SlotKeysBelow, SlotKeysAbove, Without,
        HasKey, SizeWith;
      ghost var v := Value();
      var e := LowerBound(key);
      if e == |slots| || TKey(Tup(data[..], slots[e])) != key {
        BoundAbsent(v, e, key);
        return false;
      }
      MarkValid(v, e);
      MarkWithout(v, e, key);
      MarkSlot(e);
      return true;
    }

    // Leaves the tuple of a slot to the next rebuild.
    method MarkSlot(i: nat)
      requires i < |slots|
      modifies this`slots, this`garbage
      ensures Value() == Mark(old(Value()), i)
    {
      garbage := garbage + slots[i].length;
      slots := slots[i := slots[i].(deleted := true)];
    }

    method Search(key: Key) returns (r: SearchResult)
      requires Value().Valid()
      ensures r.found == HasKey(Value().Live(), key)
      ensures r.found ==>
                && r.offset + MIN_TUPLE <= r.end <= PAGE_SIZE
                && var t := Value().data[r.offset..r.end];
                t in Value().Live() && TKey(t) == key && DecodeHeader(t) == r.header
    {
      hide TKey, LiveIn, LiveBytes, DeadBytes, Disjoint, SlotKeysBelow, SlotKeysAbove, DecodeHeader;
      r := SearchResult(false, 0, 0, TupleHeader(false, 0, 0));
      var e := LowerBound(key);
      if e == |slots| || TKey(Tup(data[..], slots[e])) != key {
        BoundAbsent(Value(), e, key);
        return;
      }
      ghost var i := SlotLive(slots, data[..], e);
      assert TKey(Value().Live()[i]) == key;
      var t := Tup(data[..], slots[e]);
      r := SearchResult(true, slots[e].offset, slots[e].offset + slots[e].length, DecodeHeader(t));
    }

    // The key of the first live slot, or 0.
    method GetPageFirstKey() returns (key: Key)
      ensures key == if Value().Live() == [] then 0 else TKey(Value().Live()[0])
    {
      hide Tup, TKey, LiveIn;
      LiveNone(data[..]);
      assert slots[..0] == [];
      for i := 0 to |slots|
        invariant LiveIn(slots[..i], data[..]) == []
      {
        LiveStep(slots, data[..], i);
        if !slots[i].deleted {
          return TKey(Tup(data[..], slots[i]));
        }
      }
      assert slots[..|slots|] == slots;
      return 0;
    }
  }

  // The page of a new tree.
  method MakeEmpty(pid: PageID) returns (leaf: Leaf)
    ensures Compact(leaf) && leaf.Live() == [] && leaf.pid == pid && leaf.left == 0 && leaf.right == 0
  {
    hide Compact, LeafLayout.Leaf.Live;
    var page := new LeafPage.Blank();
    NothingToBuild(page.data[..]);
    page.MakePage([], page.data[..], pid, 0, 0);
    leaf := page.Value();
  }

  lemma NothingToBuild(data: seq<Byte>)
    requires |data| == PAGE_SIZE
    ensures Rebuildable([], data) && LiveIn([], data) == []
  {
  }
}
