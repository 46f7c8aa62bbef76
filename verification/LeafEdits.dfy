// What the elementary edits of a slotted page keep: placing a tuple below the
// free space, marking a slot deleted, and rebuilding a page compactly.
module LeafEdits {
  import opened Bytes
  import opened Memory
  import opened Tuples
  import opened LeafLayout

  lemma SpliceTup(data: seq<Byte>, t: Tuple, s: Slot, o: Slot)
    requires s.offset + |t| <= |data| && s.length == |t|
    ensures Tup(Splice(data, s.offset, t), s) == t
    ensures o.offset + o.length <= |data| && Apart(s, o) ==> Tup(Splice(data, s.offset, t), o) == Tup(data, o)
  {
    var d := Splice(data, s.offset, t);
    assert d[s.offset..s.offset + |t|] == t;
    if o.offset + o.length <= |data| && Apart(s, o) {
      assert d[o.offset..o.offset + o.length] == data[o.offset..o.offset + o.length];
    }
  }

  // The slot that receives a tuple of the given length, just below the free space.
  function NewSlot(v: Leaf, length: nat): Slot
    requires length <= v.freeEnd + 1
  {
    Slot(false, v.freeEnd - length + 1, length)
  }

  function Place(v: Leaf, a: seq<Slot>, b: seq<Slot>, t: Tuple): Leaf
    requires |t| <= v.freeEnd + 1 <= |v.data|
  {
    var s := NewSlot(v, |t|);
    v.(slots := a + [s] + b, freeEnd := s.offset - 1, data := Splice(v.data, s.offset, t))
  }

  // The slots of a page split around the position where a new entry goes; the
  // entry may take over one tombstone in between.
  ghost predicate Around(v: Leaf, a: seq<Slot>, m: seq<Slot>, b: seq<Slot>, t: Tuple) {
    && v.slots == a + m + b
    && |m| <= 1 && (|m| == 1 ==> m[0].deleted)
    && MIN_TUPLE <= |t| <= MAX_TUPLE
    && |t| + SLOT_SIZE * (1 - |m|) <= v.Available()
  }

  ghost predicate SlotKeysBelow(slots: seq<Slot>, data: seq<Byte>, k: int) {
    forall i | 0 <= i < |slots| && !slots[i].deleted :: TKey(Tup(data, slots[i])) < k
  }

  ghost predicate SlotKeysAbove(slots: seq<Slot>, data: seq<Byte>, k: int) {
    forall i | 0 <= i < |slots| && !slots[i].deleted :: k < TKey(Tup(data, slots[i]))
  }

  lemma PlaceKeepsTups(v: Leaf, slots: seq<Slot>, t: Tuple)
    requires v.Sized() && InBounds(slots, v.freeEnd) && |t| <= v.freeEnd + 1
    ensures var s := NewSlot(v, |t|);
            forall i | 0 <= i < |slots| && !slots[i].deleted ::
              Apart(s, slots[i]) && Tup(Splice(v.data, s.offset, t), slots[i]) == Tup(v.data, slots[i])
  {
    hide Splice, Tup;
    var s := NewSlot(v, |t|);
    forall i | 0 <= i < |slots| && !slots[i].deleted
      ensures Apart(s, slots[i]) && Tup(Splice(v.data, s.offset, t), slots[i]) == Tup(v.data, slots[i])
    {
      SpliceTup(v.data, t, s, slots[i]);
    }
  }

  lemma SubBounds(a: seq<Slot>, m: seq<Slot>, b: seq<Slot>, freeEnd: int)
    requires InBounds(a + m + b, freeEnd)
    ensures InBounds(a, freeEnd) && InBounds(b, freeEnd)
  {
    var w := a + m + b;
    assert forall i | 0 <= i < |a| :: a[i] == w[i];
    assert forall i | 0 <= i < |b| :: b[i] == w[|a| + |m| + i];
  }

  lemma PlaceInBounds(v: Leaf, a: seq<Slot>, m: seq<Slot>, b: seq<Slot>, t: Tuple)
    requires v.Sized() && InBounds(v.slots, v.freeEnd) && Around(v, a, m, b, t)
    ensures var p := Place(v, a, b, t); p.Sized() && InBounds(p.slots, p.freeEnd)
  {
    hide Splice;
    SubBounds(a, m, b, v.freeEnd);
  }

  lemma PlaceDisjoint(v: Leaf, a: seq<Slot>, m: seq<Slot>, b: seq<Slot>, t: Tuple)
    requires v.Sized() && InBounds(v.slots, v.freeEnd) && Disjoint(v.slots) && Around(v, a, m, b, t)
    ensures Disjoint(Place(v, a, b, t).slots)
  {
    hide Splice, Tup;
    SubBounds(a, m, b, v.freeEnd);
    PlaceKeepsTups(v, a, t);
    PlaceKeepsTups(v, b, t);
    var s := NewSlot(v, |t|);
    var w := a + [s] + b;
    var d := |m| - 1;
    forall i, j | 0 <= i < j < |w| && !w[i].deleted && !w[j].deleted ensures Apart(w[i], w[j]) {
      var i' := if i < |a| then i else i + d;
      var j' := if j < |a| then j else j + d;
      if i != |a| && j != |a| {
        assert v.slots[i'] == w[i] && v.slots[j'] == w[j];
      } else if i == |a| {
        assert w[j] == b[j - |a| - 1];
      } else {
        assert w[i] == a[i];
      }
    }
  }

  lemma PlaceOrdered(v: Leaf, a: seq<Slot>, m: seq<Slot>, b: seq<Slot>, t: Tuple)
    requires v.Sized() && InBounds(v.slots, v.freeEnd) && Ordered(v.slots, v.data) && Around(v, a, m, b, t)
    requires SlotKeysBelow(a, v.data, TKey(t)) && SlotKeysAbove(b, v.data, TKey(t))
    ensures var p := Place(v, a, b, t); Ordered(p.slots, p.data)
  {
    hide Splice, Tup, TKey;
    SubBounds(a, m, b, v.freeEnd);
    PlaceKeepsTups(v, a, t);
    PlaceKeepsTups(v, b, t);
    var p := Place(v, a, b, t);
    var s := NewSlot(v, |t|);
    SpliceTup(v.data, t, s, s);
    var d := |m| - 1;
    forall i, j | 0 <= i < j < |p.slots| && !p.slots[i].deleted && !p.slots[j].deleted
      ensures TKey(Tup(p.data, p.slots[i])) < TKey(Tup(p.data, p.slots[j]))
    {
      if i != |a| && j != |a| {
        var i' := if i < |a| then i else i + d;
        var j' := if j < |a| then j else j + d;
        assert v.slots[i'] == p.slots[i] && v.slots[j'] == p.slots[j];
        assert p.slots[i] == if i < |a| then a[i] else b[i - |a| - 1];
        assert p.slots[j] == if j < |a| then a[j] else b[j - |a| - 1];
      } else if i == |a| {
        assert p.slots[j] == b[j - |a| - 1];
      } else {
        assert p.slots[i] == a[i];
      }
    }
  }

  lemma PlaceAccounted(v: Leaf, a: seq<Slot>, m: seq<Slot>, b: seq<Slot>, t: Tuple)
    requires v.Sized() && v.Accounted() && Around(v, a, m, b, t)
    ensures Place(v, a, b, t).Accounted()
  {
    hide Splice;
    BytesConcat(a + m, b);
    BytesConcat(a, m);
    var s := NewSlot(v, |t|);
    BytesConcat(a + [s], b);
    BytesConcat(a, [s]);
  }

  lemma LiveThree(a: seq<Slot>, m: seq<Slot>, b: seq<Slot>, data: seq<Byte>)
    requires |m| <= 1
    ensures LiveIn(a + m + b, data) == LiveIn(a, data) + LiveIn(m, data) + LiveIn(b, data)
    ensures |m| == 1 ==> LiveIn(m, data) == if m[0].deleted then [] else [Tup(data, m[0])]
  {
    hide Tup, TKey;
    LiveConcat(a + m, b, data);
    LiveConcat(a, m, data);
    if |m| == 1 {
      assert m[1..] == [];
      assert LiveIn(m[1..], data) == [];
    }
  }

  lemma PlaceTuples(v: Leaf, a: seq<Slot>, m: seq<Slot>, b: seq<Slot>, t: Tuple)
    requires v.Sized() && InBounds(v.slots, v.freeEnd) && Around(v, a, m, b, t)
    ensures v.Live() == LiveIn(a, v.data) + LiveIn(b, v.data)
    ensures Place(v, a, b, t).Live() == LiveIn(a, v.data) + [t] + LiveIn(b, v.data)
  {
    hide Splice, Tup, TKey, LiveIn, InBounds;
    PlaceFrames(v, a, m, b, t);
    var p := Place(v, a, b, t);
    LiveThree(a, m, b, v.data);
    LiveThree(a, [NewSlot(v, |t|)], b, p.data);
    if |m| == 0 {
      assert LiveIn(m, v.data) == [] by { assert m == []; LiveNone(v.data); }
    }
  }

  // The tuples on either side stay where they are, and the new slot holds the new one.
  lemma PlaceFrames(v: Leaf, a: seq<Slot>, m: seq<Slot>, b: seq<Slot>, t: Tuple)
    requires v.Sized() && InBounds(v.slots, v.freeEnd) && Around(v, a, m, b, t)
    ensures var d := Place(v, a, b, t).data;
            LiveIn(a, d) == LiveIn(a, v.data) && LiveIn(b, d) == LiveIn(b, v.data) && Tup(d, NewSlot(v, |t|)) == t
  {
    hide Splice, Tup, TKey, LiveIn;
    SubBounds(a, m, b, v.freeEnd);
    var d := Place(v, a, b, t).data;
    SpliceTup(v.data, t, NewSlot(v, |t|), NewSlot(v, |t|));
    PlaceKeepsTups(v, a, t);
    PlaceKeepsTups(v, b, t);
    LiveFrame(a, v.data, d);
    LiveFrame(b, v.data, d);
  }

  lemma LiveNone(data: seq<Byte>)
    ensures LiveIn([], data) == []
  {
  }

  lemma PlaceLive(v: Leaf, a: seq<Slot>, m: seq<Slot>, b: seq<Slot>, t: Tuple)
    requires v.Sized() && InBounds(v.slots, v.freeEnd) && Around(v, a, m, b, t)
    requires SlotKeysBelow(a, v.data, TKey(t)) && SlotKeysAbove(b, v.data, TKey(t))
    ensures Place(v, a, b, t).Live() == InsertSorted(v.Live(), t)
  {
    hide Splice, Tup, TKey, InsertSorted, LiveIn, InBounds, SlotKeysBelow, SlotKeysAbove;
    PlaceTuples(v, a, m, b, t);
    LiveBelow(a, v.data, TKey(t));
    LiveAbove(b, v.data, TKey(t));
    InsertBetween(LiveIn(a, v.data), t, LiveIn(b, v.data));
  }

  lemma LiveBelow(slots: seq<Slot>, data: seq<Byte>, k: int)
    requires SlotKeysBelow(slots, data, k)
    ensures forall i | 0 <= i < |LiveIn(slots, data)| :: TKey(LiveIn(slots, data)[i]) < k
  {
    hide Tup, TKey;
    forall i | 0 <= i < |LiveIn(slots, data)| ensures TKey(LiveIn(slots, data)[i]) < k {
      var j := LiveSlot(slots, data, i);
    }
  }

  lemma LiveAbove(slots: seq<Slot>, data: seq<Byte>, k: int)
    requires SlotKeysAbove(slots, data, k)
    ensures forall i | 0 <= i < |LiveIn(slots, data)| :: k < TKey(LiveIn(slots, data)[i])
  {
    hide Tup, TKey;
    forall i | 0 <= i < |LiveIn(slots, data)| ensures k < TKey(LiveIn(slots, data)[i]) {
      var j := LiveSlot(slots, data, i);
    }
  }

  // Writing one entry keeps the page well formed and adds exactly that tuple, in
  // key order; every other live tuple keeps its bytes.
  lemma PlaceValid(v: Leaf, a: seq<Slot>, m: seq<Slot>, b: seq<Slot>, t: Tuple)
    requires v.Valid() && Around(v, a, m, b, t)
    requires SlotKeysBelow(a, v.data, TKey(t)) && SlotKeysAbove(b, v.data, TKey(t))
    ensures var p := Place(v, a, b, t);
            && p.Valid() && p.Live() == InsertSorted(v.Live(), t)
            && p.Used() == v.Used() + |t| + (if m == [] then SLOT_SIZE else 0)
  {
    hide Splice, Tup, TKey, InsertSorted, InBounds, Disjoint, Ordered, LiveIn, LiveBytes, DeadBytes,
      SlotKeysAbove, SlotKeysBelow;
    PlaceInBounds(v, a, m, b, t);
    PlaceDisjoint(v, a, m, b, t);
    PlaceOrdered(v, a, m, b, t);
    PlaceAccounted(v, a, m, b, t);
    PlaceLive(v, a, m, b, t);
  }

  // Marking a live slot deleted.
  function Mark(v: Leaf, i: nat): Leaf
    requires i < |v.slots|
  {
    v.(slots := v.slots[i := v.slots[i].(deleted := true)], garbage := v.garbage + v.slots[i].length)
  }

  lemma MarkSplit(v: Leaf, i: nat)
    requires i < |v.slots|
    ensures v.slots == v.slots[..i] + [v.slots[i]] + v.slots[i + 1..]
    ensures Mark(v, i).slots == v.slots[..i] + [v.slots[i].(deleted := true)] + v.slots[i + 1..]
  {
  }

  lemma MarkAccounted(v: Leaf, i: nat)
    requires v.Accounted() && i < |v.slots| && !v.slots[i].deleted
    ensures Mark(v, i).Accounted()
  {
    var a, b := v.slots[..i], v.slots[i + 1..];
    var x, y := [v.slots[i]], [v.slots[i].(deleted := true)];
    MarkSplit(v, i);
    BytesConcat(a + x, b);
    BytesConcat(a, x);
    BytesConcat(a + y, b);
    BytesConcat(a, y);
  }

  lemma MarkLive(v: Leaf, i: nat)
    requires i < |v.slots| && !v.slots[i].deleted
    ensures v.Live() == LiveIn(v.slots[..i], v.data) + [Tup(v.data, v.slots[i])] + LiveIn(v.slots[i + 1..], v.data)
    ensures Mark(v, i).Live() == LiveIn(v.slots[..i], v.data) + LiveIn(v.slots[i + 1..], v.data)
  {
    hide Tup, TKey, LiveIn;
    var a, b := v.slots[..i], v.slots[i + 1..];
    var x, y := [v.slots[i]], [v.slots[i].(deleted := true)];
    MarkSplit(v, i);
    LiveThree(a, x, b, v.data);
    LiveThree(a, y, b, v.data);
  }

  lemma MarkValid(v: Leaf, i: nat)
    requires v.Valid() && i < |v.slots| && !v.slots[i].deleted
    ensures Mark(v, i).Valid() && Mark(v, i).Used() == v.Used() - v.slots[i].length
  {
    hide Tup, TKey, LiveIn, LiveBytes, DeadBytes;
    MarkAccounted(v, i);
  }

  lemma MarkWithout(v: Leaf, i: nat, k: Key)
    requires v.Valid() && i < |v.slots| && !v.slots[i].deleted && TKey(Tup(v.data, v.slots[i])) == k
    ensures Mark(v, i).Live() == Without(v.Live(), k) && HasKey(v.Live(), k)
    ensures SizeWith(v.Live(), k) == v.slots[i].length
  {
    hide Tup, TKey, InBounds, Disjoint, LiveBytes, DeadBytes, LiveIn;
    MarkLive(v, i);
    var a, b := v.slots[..i], v.slots[i + 1..];
    var la, lb := LiveIn(a, v.data), LiveIn(b, v.data);
    var x := Tup(v.data, v.slots[i]);
    assert SlotKeysBelow(a, v.data, k);
    assert SlotKeysAbove(b, v.data, k) by {
      assert forall j | 0 <= j < |b| :: b[j] == v.slots[i + 1 + j];
    }
    LiveBelow(a, v.data, k);
    LiveAbove(b, v.data, k);
    WithoutBetween(la, x, lb);
    SizeAt(la, x, lb, k);
    SlotLength(v, i);
  }

  lemma MarkUsed(v: Leaf, i: nat)
    requires v.Valid() && i < |v.slots| && !v.slots[i].deleted
    ensures Mark(v, i).Used() == v.Used() - |Tup(v.data, v.slots[i])|
  {
    hide Tup;
    SlotLength(v, i);
  }

  lemma SlotLength(v: Leaf, i: nat)
    requires v.Valid() && i < |v.slots| && !v.slots[i].deleted
    ensures |Tup(v.data, v.slots[i])| == v.slots[i].length
  {
    hide TKey;
  }

  function EmptyLeaf(pid: PageID, left: PageID, right: PageID, data: seq<Byte>): Leaf {
    Leaf(pid, [], PAGE_SIZE - 1, 0, left, right, data)
  }

  // Rebuilding a page appends one live tuple after another.
  lemma AppendValid(p: Leaf, t: Tuple)
    requires p.Valid() && MIN_TUPLE <= |t| <= MAX_TUPLE && |t| + SLOT_SIZE <= p.Available()
    requires forall i | 0 <= i < |p.Live()| :: TKey(p.Live()[i]) < TKey(t)
    ensures var q := Place(p, p.slots, [], t); q.Valid() && q.Live() == p.Live() + [t]
  {
    hide Splice, Tup, TKey, LiveIn, InBounds, Disjoint, Ordered, LiveBytes, DeadBytes;
    SlotsBelow(p, TKey(t));
    assert p.slots == p.slots + [] + [];
    assert SlotKeysAbove([], p.data, TKey(t));
    PlaceValid(p, p.slots, [], [], t);
    PlaceTuples(p, p.slots, [], [], t);
    LiveNone(p.data);
  }

  lemma SlotsBelow(p: Leaf, k: int)
    requires forall i | 0 <= i < |p.Live()| :: TKey(p.Live()[i]) < k
    ensures SlotKeysBelow(p.slots, p.data, k)
  {
    hide Tup, TKey, LiveIn;
    forall i | 0 <= i < |p.slots| && !p.slots[i].deleted ensures TKey(Tup(p.data, p.slots[i])) < k {
      var j := SlotLive(p.slots, p.data, i);
      assert TKey(p.Live()[j]) < k;
    }
  }

  lemma LiveStep(slots: seq<Slot>, data: seq<Byte>, i: nat)
    requires i < |slots|
    ensures LiveIn(slots[..i + 1], data) ==
            LiveIn(slots[..i], data) + (if slots[i].deleted then [] else [Tup(data, slots[i])])
    ensures LiveIn(slots[..i + 1], data) <= LiveIn(slots, data)
  {
    hide Tup, TKey, LiveIn;
    assert slots[..i + 1] == slots[..i] + [slots[i]] + [];
    LiveThree(slots[..i], [slots[i]], [], data);
    LiveNone(data);
    assert slots == slots[..i + 1] + slots[i + 1..];
    LiveConcat(slots[..i + 1], slots[i + 1..], data);
  }

  // A run of slots over a buffer that a page can be rebuilt from.
  ghost predicate Rebuildable(src: seq<Slot>, buffer: seq<Byte>) {
    && |buffer| == PAGE_SIZE
    && InBounds(src, -1)
    && Sorted(LiveIn(src, buffer))
    && Cost(LiveIn(src, buffer)) <= USABLE
  }

  // A page holding no tombstones and no garbage.
  ghost predicate Compact(p: Leaf) {
    p.Valid() && p.garbage == 0 && |p.slots| == |p.Live()|
  }

  lemma CompactUsed(p: Leaf)
    requires Compact(p)
    ensures p.Used() == Cost(p.Live())
  {
    hide Tup, TKey, LiveIn, Cost, Disjoint, Ordered;
    CostOfLive(p.slots, p.freeEnd, p.data);
  }

  lemma EmptyCompact(pid: PageID, left: PageID, right: PageID, data: seq<Byte>)
    requires |data| == PAGE_SIZE
    ensures Compact(EmptyLeaf(pid, left, right, data)) && EmptyLeaf(pid, left, right, data).Live() == []
  {
  }

  lemma PrefixCost(s: seq<Tuple>, i: nat)
    requires i < |s|
    ensures Cost(s[..i]) + |s[i]| + SLOT_SIZE <= Cost(s)
  {
    assert s == s[..i] + s[i..];
    CostConcat(s[..i], s[i..]);
  }

  lemma RebuildStep(p: Leaf, src: seq<Slot>, buffer: seq<Byte>, i: nat)
    requires Rebuildable(src, buffer) && i < |src| && !src[i].deleted
    requires Compact(p) && p.Live() == LiveIn(src[..i], buffer)
    ensures |Tup(buffer, src[i])| == src[i].length
    ensures src[i].length + SLOT_SIZE <= p.Available() && p.freeEnd < PAGE_SIZE
    ensures var q := Place(p, p.slots, [], Tup(buffer, src[i]));
            Compact(q) && q.Live() == LiveIn(src[..i + 1], buffer)
  {
    var t := Tup(buffer, src[i]);
    assert |t| == src[i].length;
    hide Splice, Tup, TKey, LiveIn, Cost, Disjoint, Ordered, LiveBytes, DeadBytes;
    LiveStep(src, buffer, i);
    var all := LiveIn(src, buffer);
    var n := |p.Live()|;
    assert LiveIn(src[..i + 1], buffer) == p.Live() + [t];
    assert all[..n] == p.Live() && all[n] == t;
    PrefixCost(all, n);
    CompactUsed(p);
    AppendValid(p, t);
  }

  // Every sorted run of tuples that costs no more than a page is the content of one.
  lemma {:induction false} PageHolding(s: seq<Tuple>, pid: PageID, left: PageID, right: PageID) returns (p: Leaf)
    requires Sorted(s) && Cost(s) <= USABLE && forall i | 0 <= i < |s| :: MIN_TUPLE <= |s[i]| <= MAX_TUPLE
    ensures Compact(p) && p.Live() == s && p.pid == pid && p.left == left && p.right == right
    decreases |s|
  {
    hide Splice, Tup, TKey, LiveIn, Cost, LeafLayout.Leaf.Valid, LiveBytes, DeadBytes;
    if s == [] {
      var zero := seq(PAGE_SIZE, i => 0 as Byte);
      EmptyCompact(pid, left, right, zero);
      p := EmptyLeaf(pid, left, right, zero);
    } else {
      var n := |s| - 1;
      assert s == s[..n] + [s[n]];
      PrefixCost(s, n);
      var q := PageHolding(s[..n], pid, left, right);
      p := Appended(q, s[n]);
    }
  }

  lemma Appended(q: Leaf, t: Tuple) returns (p: Leaf)
    requires Compact(q) && MIN_TUPLE <= |t| <= MAX_TUPLE && Cost(q.Live()) + |t| + SLOT_SIZE <= USABLE
    requires forall i | 0 <= i < |q.Live()| :: TKey(q.Live()[i]) < TKey(t)
    ensures Compact(p) && p.Live() == q.Live() + [t] && p.pid == q.pid && p.left == q.left && p.right == q.right
  {
    hide Splice, Tup, TKey, LiveIn, Cost, Disjoint, Ordered, LiveBytes, DeadBytes, InBounds;
    CompactUsed(q);
    AppendValid(q, t);
    p := Place(q, q.slots, [], t);
  }

  lemma ValidRebuildable(v: Leaf)
    requires v.Valid()
    ensures Rebuildable(v.slots, v.data)
  {
    hide Tup, TKey, LiveIn, Cost, LiveBytes, DeadBytes;
    UsedMeaning(v);
    LiveSorted(v.slots, v.data);
  }

  // A live tuple t sits at the given page offset.
  ghost predicate StoredAt(v: Leaf, addr: nat, t: Tuple) {
    Slot(false, addr, |t|) in v.slots && Tup(v.data, Slot(false, addr, |t|)) == t
  }

  // What an upper bound says about a key that no live tuple has.
  lemma AbsentBelow(v: Leaf, it: nat, k: Key)
    requires it <= |v.slots| && !HasKey(v.Live(), k) && SlotKeysBelow(v.slots[..it], v.data, k + 1)
    ensures SlotKeysBelow(v.slots[..it], v.data, k)
  {
    hide Tup, TKey, LiveIn;
    forall i | 0 <= i < it && !v.slots[i].deleted ensures TKey(Tup(v.data, v.slots[..it][i])) < k {
      assert v.slots[..it][i] == v.slots[i];
      var j := SlotLive(v.slots, v.data, i);
      assert TKey(v.Live()[j]) != k;
    }
  }

  // The keys below e are smaller and those from e on greater; e is the place of the
  // first live slot among the latter, or the end.
  ghost predicate Position(v: Leaf, key: Key, e: nat) {
    && e <= |v.slots| && (e < |v.slots| ==> !v.slots[e].deleted)
    && SlotKeysBelow(v.slots[..e], v.data, key) && SlotKeysAbove(v.slots[e..], v.data, key)
  }

  // A tombstone stands right before the place of the key.
  ghost predicate TombstoneBefore(v: Leaf, key: Key) {
    exists e: nat :: Position(v, key, e) && 0 < e <= |v.slots| && v.slots[e - 1].deleted
  }

  lemma SideOf(v: Leaf, key: Key, e: nat, i: nat)
    requires Position(v, key, e) && i < |v.slots| && !v.slots[i].deleted
    ensures i < e <==> TKey(Tup(v.data, v.slots[i])) < key
  {
    hide Tup, TKey;
    if i < e {
      assert v.slots[..e][i] == v.slots[i];
    } else {
      assert v.slots[e..][i - e] == v.slots[i];
    }
  }

  lemma OnePosition(v: Leaf, key: Key, d: nat, e: nat)
    requires Position(v, key, d) && Position(v, key, e)
    ensures d == e
  {
    hide Tup, TKey, SlotKeysBelow, SlotKeysAbove;
    if d < |v.slots| {
      SideOf(v, key, d, d);
      SideOf(v, key, e, d);
    }
    if e < |v.slots| {
      SideOf(v, key, d, e);
      SideOf(v, key, e, e);
    }
  }

  lemma TombstoneAt(v: Leaf, key: Key, e: nat)
    requires Position(v, key, e)
    ensures TombstoneBefore(v, key) <==> 0 < e <= |v.slots| && v.slots[e - 1].deleted
  {
    hide Position;
    if d: nat :| Position(v, key, d) && 0 < d <= |v.slots| && v.slots[d - 1].deleted {
      OnePosition(v, key, d, e);
    }
  }

  lemma NoTombstone(v: Leaf, key: Key)
    requires Compact(v)
    ensures !TombstoneBefore(v, key)
  {
    hide Position;
    LiveSlots(v.slots, v.data);
  }

  lemma {:induction false} LiveSlots(slots: seq<Slot>, data: seq<Byte>)
    ensures |LiveIn(slots, data)| <= |slots|
    ensures |LiveIn(slots, data)| == |slots| ==> forall i | 0 <= i < |slots| :: !slots[i].deleted
  {
    hide Tup;
    if slots != [] {
      LiveSlots(slots[1..], data);
      assert forall i | 0 < i < |slots| :: slots[i] == slots[1..][i - 1];
    }
  }

  // The place the upper bound of an absent key gives.
  lemma UpperPosition(v: Leaf, key: Key, e: nat)
    requires v.Valid() && !HasKey(v.Live(), key) && e <= |v.slots| && (e < |v.slots| ==> !v.slots[e].deleted)
    requires SlotKeysBelow(v.slots[..e], v.data, key + 1) && SlotKeysAbove(v.slots[e..], v.data, key)
    ensures Position(v, key, e)
  {
    hide Tup, TKey, LeafLayout.Leaf.Live, LeafLayout.Leaf.Valid;
    AbsentBelow(v, e, key);
  }

  // What a page uses after an entry of n bytes was written under the key: a slot for
  // it is new unless a tombstone gives way, and a page without room for the entry in
  // one piece has been rebuilt first, so that it has no tombstones.
  ghost predicate UsedGrows(v: Leaf, w: Leaf, key: Key, n: nat) {
    w.Used() == if n + SLOT_SIZE > v.Available() then Cost(v.Live()) + n + SLOT_SIZE
    else v.Used() + n + (if TombstoneBefore(v, key) then 0 else SLOT_SIZE)
  }

  // Placing a tuple at its upper bound, over the tombstone before it if there is one.
  lemma PlaceAt(v: Leaf, a: seq<Slot>, m: seq<Slot>, b: seq<Slot>, t: Tuple)
    requires v.Valid() && Around(v, a, m, b, t) && !HasKey(v.Live(), TKey(t))
    requires SlotKeysBelow(a + m, v.data, TKey(t) + 1) && SlotKeysAbove(b, v.data, TKey(t))
    ensures var p := Place(v, a, b, t);
            && p.Valid() && p.Live() == InsertSorted(v.Live(), t)
            && p.Used() == v.Used() + |t| + (if m == [] then SLOT_SIZE else 0)
            && StoredAt(p, NewSlot(v, |t|).offset, t)
  {
    hide Splice, Tup, TKey, LiveIn, InBounds, Disjoint, Ordered, LiveBytes, DeadBytes, InsertSorted;
    assert v.slots[..|a + m|] == a + m;
    AbsentBelow(v, |a + m|, TKey(t));
    assert SlotKeysBelow(a, v.data, TKey(t)) by {
      assert forall i | 0 <= i < |a| :: a[i] == (a + m)[i];
    }
    PlaceValid(v, a, m, b, t);
    var s := NewSlot(v, |t|);
    SpliceTup(v.data, t, s, s);
    assert (a + [s] + b)[|a|] == s;
  }

  lemma {:induction false} LiveSwap(slots: seq<Slot>, data: seq<Byte>, data': seq<Byte>, t: Tuple, t': Tuple)
    requires forall i | 0 <= i < |slots| && !slots[i].deleted ::
               Tup(data', slots[i]) == if Tup(data, slots[i]) == t then t' else Tup(data, slots[i])
    ensures Swapped(LiveIn(slots, data), LiveIn(slots, data'), t, t')
  {
    hide Tup, TKey;
    if slots != [] {
      forall i | 0 <= i < |slots[1..]| && !slots[1..][i].deleted
        ensures Tup(data', slots[1..][i]) == if Tup(data, slots[1..][i]) == t then t' else Tup(data, slots[1..][i])
      {
        assert slots[1..][i] == slots[i + 1];
      }
      LiveSwap(slots[1..], data, data', t, t');
    }
  }

  // Rewriting the link bytes of a stored tuple touches no other live tuple.
  lemma LinkTups(v: Leaf, addr: nat, t: Tuple, page: PageID)
    requires v.Valid() && StoredAt(v, addr, t) && |t| >= MIN_TUPLE
    ensures addr + 9 <= |v.data|
    ensures var d := Splice(v.data, addr, LinkBytes(true, page));
            forall i | 0 <= i < |v.slots| && !v.slots[i].deleted ::
              Tup(d, v.slots[i]) == if Tup(v.data, v.slots[i]) == t then Relink(t, page) else Tup(v.data, v.slots[i])
  {
    hide TKey, LiveBytes, DeadBytes, LinkBytes, Tup, Splice;
    var s := Slot(false, addr, |t|);
    var j :| 0 <= j < |v.slots| && v.slots[j] == s;
    forall i | 0 <= i < |v.slots| && !v.slots[i].deleted
      ensures var d := Splice(v.data, addr, LinkBytes(true, page));
              Tup(d, v.slots[i]) == if Tup(v.data, v.slots[i]) == t then Relink(t, page) else Tup(v.data, v.slots[i])
    {
      if i == j {
        LinkTup(v.data, s, page);
      } else {
        assert Apart(v.slots[i], s) && TKey(Tup(v.data, v.slots[i])) != TKey(t);
        SpliceTup(v.data, LinkBytes(true, page), Slot(false, addr, 9), v.slots[i]);
      }
    }
  }

  lemma LinkTup(data: seq<Byte>, s: Slot, page: PageID)
    requires s.length >= MIN_TUPLE && s.offset + s.length <= |data|
    ensures Tup(Splice(data, s.offset, LinkBytes(true, page)), s) == Relink(Tup(data, s), page)
  {
    var d := Splice(data, s.offset, LinkBytes(true, page));
    assert d[s.offset..s.offset + s.length] == LinkBytes(true, page) + data[s.offset + 9..s.offset + s.length];
    assert Tup(data, s)[9..] == data[s.offset + 9..s.offset + s.length];
  }

  lemma LinkValid(v: Leaf, addr: nat, t: Tuple, page: PageID)
    requires v.Valid() && StoredAt(v, addr, t) && |t| >= MIN_TUPLE
    ensures addr + 9 <= |v.data|
    ensures var w := v.(data := Splice(v.data, addr, LinkBytes(true, page)));
            w.Valid() && Swapped(v.Live(), w.Live(), t, Relink(t, page))
  {
    hide Tup, TKey, LiveBytes, DeadBytes, LinkBytes, Splice, LiveIn, StoredAt, Relink;
    LinkTups(v, addr, t, page);
    RelinkHeader(t, page);
    LiveSwap(v.slots, v.data, Splice(v.data, addr, LinkBytes(true, page)), t, Relink(t, page));
  }

  // A lower bound that does not carry the key shows the key is absent.
  lemma BoundAbsent(v: Leaf, e: nat, k: Key)
    requires v.Valid() && e <= |v.slots|
    requires SlotKeysBelow(v.slots[..e], v.data, k) && SlotKeysAbove(v.slots[e..], v.data, k - 1)
    requires e < |v.slots| ==> !v.slots[e].deleted && TKey(Tup(v.data, v.slots[e])) != k
    ensures !HasKey(v.Live(), k) && Without(v.Live(), k) == v.Live() && SizeWith(v.Live(), k) == 0
  {
    hide Tup, TKey, LiveIn, LiveBytes, DeadBytes, InBounds, Disjoint;
    forall i | 0 <= i < |v.Live()| ensures TKey(v.Live()[i]) != k {
      var j := LiveSlot(v.slots, v.data, i);
      if j < e {
        assert v.slots[..e][j] == v.slots[j];
      } else {
        assert v.slots[e..][j - e] == v.slots[j] && v.slots[e..][0] == v.slots[e];
      }
    }
    WithoutAbsent(v.Live(), k);
    SizeAbsent(v.Live(), k);
  }
}
