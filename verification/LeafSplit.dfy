// Splitting a full leaf page in two by size (database/src/impl/page/leaf_page.cpp).
module LeafSplits {
  import opened Bytes
  import opened Tuples
  import opened LeafLayout
  import opened LeafEdits
  import opened LeafPages

  const SPLIT_THRESHOLD: nat := 2032  // USABLE / 2

  // A page that refuses some entry.
  ghost predicate Tight(v: Leaf) {
    v.Valid() && v.Free() < MIN_ENTRY
  }

  ghost predicate SplitBySize(v: Leaf, at: nat) {
    at <= |v.slots| && SPLIT_THRESHOLD < LiveBytes(v.slots[..at]) <= SPLIT_THRESHOLD + MAX_TUPLE
  }

  // The bytes of a run of tuples without their slots.
  function Size(live: seq<Tuple>): int {
    Cost(live) - SLOT_SIZE * |live|
  }

  // Where a run of live tuples divides: as soon as the left part exceeds half a page,
  // or by count if nothing would be left over for the right part.
  ghost predicate SplitsAt(live: seq<Tuple>, c: nat) {
    && c < |live|
    && (if Size(live[..|live| - 1]) > 2032
        then c > 0 && Size(live[..c]) > 2032 >= Size(live[..c - 1])
        else c == |live| / 2)
  }

  // The live tuples before the slot are the first ones to exceed half a page.
  ghost predicate Crossed(v: Leaf, at: nat) {
    && at <= |v.slots|
    && var l := LiveIn(v.slots[..at], v.data);
    l != [] && Size(l) > SPLIT_THRESHOLD >= Size(l[..|l| - 1])
  }

  lemma SizeOfLive(v: Leaf, at: nat)
    requires v.Valid() && at <= |v.slots|
    ensures Size(LiveIn(v.slots[..at], v.data)) == LiveBytes(v.slots[..at])
  {
    hide Tup, TKey, LiveIn, Cost, LiveBytes, DeadBytes, Disjoint, Ordered;
    PartBounds(v, at);
  }

  lemma SizeMonotone(live: seq<Tuple>, i: nat, j: nat)
    requires i <= j <= |live|
    ensures Size(live[..i]) <= Size(live[..j])
  {
    hide Cost;
    assert live[..j] == live[..i] + live[i..j];
    CostConcat(live[..i], live[i..j]);
    CostSlots(live[i..j]);
  }

  lemma {:induction false} CostSlots(s: seq<Tuple>)
    ensures Cost(s) >= SLOT_SIZE * |s|
  {
    if s != [] {
      CostSlots(s[1..]);
    }
  }

  lemma CrossedHere(v: Leaf, i: nat)
    requires v.Valid() && i < |v.slots| && !v.slots[i].deleted
    requires LiveBytes(v.slots[..i]) <= SPLIT_THRESHOLD < LiveBytes(v.slots[..i + 1])
    ensures Crossed(v, i + 1)
  {
    hide Tup, TKey, LiveIn, Cost, LiveBytes, Disjoint, Ordered, Size;
    SizeOfLive(v, i);
    SizeOfLive(v, i + 1);
    LiveStep(v.slots, v.data, i);
    var l := LiveIn(v.slots[..i + 1], v.data);
    assert l[..|l| - 1] == LiveIn(v.slots[..i], v.data);
  }

  lemma CrossedPast(v: Leaf, at: nat)
    requires at < |v.slots| && v.slots[at].deleted && Crossed(v, at)
    ensures Crossed(v, at + 1)
  {
    hide Tup, TKey, LiveIn, Size;
    LiveStep(v.slots, v.data, at);
    assert LiveIn(v.slots[..at], v.data) + [] == LiveIn(v.slots[..at], v.data);
  }

  // The split by size and the split by count are each the one the rule asks for.
  lemma SizeRule(v: Leaf, at: nat)
    requires v.Valid() && 0 < at < |v.slots| && !v.slots[at].deleted && Crossed(v, at)
    ensures SplitsAt(v.Live(), |LiveIn(v.slots[..at], v.data)|)
  {
    hide Tup, TKey, LiveIn, Cost, LiveBytes, DeadBytes, Disjoint, Ordered, Size;
    PartBounds(v, at);
    FirstOfRun(v.slots, v.data, at);
    var live, l := v.Live(), LiveIn(v.slots[..at], v.data);
    SizeMonotone(live, |l|, |live| - 1);
    assert live[..|l|] == l && live[..|l| - 1] == l[..|l| - 1];
  }

  lemma CountRule(v: Leaf, at: nat)
    requires v.Valid() && (at == |v.slots| || at == 0) && v.Live() != []
    requires at > 0 ==> Crossed(v, at)
    requires at == 0 ==> LiveBytes(v.slots) <= SPLIT_THRESHOLD
    ensures SplitsAt(v.Live(), |v.Live()| / 2)
  {
    hide Tup, TKey, LiveIn, Cost, LiveBytes, DeadBytes, Disjoint, Ordered, Size;
    assert v.slots[..|v.slots|] == v.slots;
    if at == 0 {
      SizeOfLive(v, |v.slots|);
      SizeMonotone(v.Live(), |v.Live()| - 1, |v.Live()|);
      assert v.Live()[..|v.Live()|] == v.Live();
    }
  }

  // ----- how many tuples a split leaves on each side -----

  // All but the last three tuples exceed half a page.
  ghost predicate ThreeRemain(live: seq<Tuple>) {
    |live| >= 3 && Size(live[..|live| - 3]) > 2032
  }

  // A leaf that refused an entry leaves three tuples or more on the left; it leaves
  // as many on the right exactly if all but its last three exceed half a page.
  lemma ThreeEach(v: Leaf, c: nat)
    requires Tight(v) && SplitsAt(v.Live(), c)
    ensures c >= 3
    ensures |v.Live()| - c >= 3 <==> ThreeRemain(v.Live())
  {
    hide Tup, TKey, LiveIn, Cost, LiveBytes, DeadBytes, Disjoint, Ordered, LeafLayout.Leaf.Valid, Size,
      LeafLayout.Leaf.Live, LeafLayout.Leaf.Free;
    var live := v.Live();
    TightSizes(v);
    if c < 3 {
      SizeSmall(live, c);
    }
    if |live| - c >= 3 {
      SizeMonotone(live, c, |live| - 3);
    } else if |live| >= 3 {
      SizeMonotone(live, |live| - 3, c - 1);
    }
  }

  lemma TightSizes(v: Leaf)
    requires Tight(v)
    ensures v.Live() != [] && Size(v.Live()[..|v.Live()| - 1]) > SPLIT_THRESHOLD
    ensures forall i | 0 <= i < |v.Live()| :: MIN_TUPLE <= |v.Live()[i]| <= MAX_TUPLE
  {
    hide Tup, TKey, LiveIn, Cost, LiveBytes, DeadBytes, Disjoint, Ordered;
    TightBytes(v);
    UsedMeaning(v);
    LiveSizes(v.slots, v.freeEnd, v.data);
    var live := v.Live();
    var n := |live| - 1;
    assert live == live[..n] + [live[n]];
    CostConcat(live[..n], [live[n]]);
    CostOne(live[n]);
  }

  // Two tuples never exceed half a page.
  lemma SizeSmall(live: seq<Tuple>, c: nat)
    requires c <= |live| && c <= 2 && forall i | 0 <= i < |live| :: |live[i]| <= MAX_TUPLE
    ensures Size(live[..c]) <= SPLIT_THRESHOLD
  {
    hide Cost;
    if c == 0 {
      CostConcat([], []);
      assert live[..0] == [] && [] + [] == live[..0];
    } else if c == 1 {
      assert live[..1] == [live[0]];
      CostOne(live[0]);
    } else {
      assert live[..2] == [live[0]] + [live[1]];
      CostConcat([live[0]], [live[1]]);
      CostOne(live[0]);
      CostOne(live[1]);
    }
  }

  lemma TightBytes(v: Leaf)
    requires Tight(v)
    ensures LiveBytes(v.slots) > SPLIT_THRESHOLD && Cost(v.Live()) >= 3908 && v.Live() != []
  {
    hide Tup, TKey, LiveIn, LiveBytes, DeadBytes, Disjoint, Ordered;
    CostOfLive(v.slots, v.freeEnd, v.data);
  }

  lemma PartBounds(v: Leaf, at: nat)
    requires v.Valid() && at <= |v.slots|
    ensures InBounds(v.slots[..at], v.freeEnd) && InBounds(v.slots[at..], v.freeEnd)
    ensures Cost(LiveIn(v.slots[..at], v.data)) ==
            LiveBytes(v.slots[..at]) + SLOT_SIZE * |LiveIn(v.slots[..at], v.data)|
    ensures MIN_TUPLE * |LiveIn(v.slots[..at], v.data)| <= LiveBytes(v.slots[..at])
    ensures v.Live() == LiveIn(v.slots[..at], v.data) + LiveIn(v.slots[at..], v.data)
    ensures Cost(v.Live()) == Cost(LiveIn(v.slots[..at], v.data)) + Cost(LiveIn(v.slots[at..], v.data)) <= USABLE
  {
    hide Tup, TKey, LiveIn, Cost, LiveBytes, DeadBytes, Disjoint, Ordered;
    assert v.slots == v.slots[..at] + v.slots[at..];
    CostOfLive(v.slots[..at], v.freeEnd, v.data);
    LiveConcat(v.slots[..at], v.slots[at..], v.data);
    CostConcat(LiveIn(v.slots[..at], v.data), LiveIn(v.slots[at..], v.data));
    UsedMeaning(v);
  }

  // A split by size leaves tuples on both sides and room for the pending entry.
  lemma SplitRoom(v: Leaf, at: nat)
    requires Tight(v) && SplitBySize(v, at)
    ensures LiveIn(v.slots[..at], v.data) != [] && LiveIn(v.slots[at..], v.data) != []
    ensures Cost(LiveIn(v.slots[..at], v.data)) <= USABLE - MIN_ENTRY
    ensures Cost(LiveIn(v.slots[at..], v.data)) <= USABLE - MIN_ENTRY
  {
    hide Tup, TKey, LiveIn, LiveBytes, DeadBytes, InBounds;
    PartBounds(v, at);
    TightBytes(v);
  }

  lemma BytesStep(slots: seq<Slot>, i: nat)
    requires i < |slots|
    ensures LiveBytes(slots[..i + 1]) == LiveBytes(slots[..i]) + if slots[i].deleted then 0 else slots[i].length
  {
    assert slots[..i + 1] == slots[..i] + [slots[i]];
    BytesConcat(slots[..i], [slots[i]]);
  }

  // The first position, past a run of tombstones, at which the live tuples before
  // it exceed half a page.
  method ThresholdSplit(page: LeafPage) returns (at: nat, live: nat)
    requires page.Value().Valid()
    ensures at <= |page.slots| && (0 < at < |page.slots| ==> !page.slots[at].deleted)
    ensures at > 0 ==> SplitBySize(page.Value(), at) && Crossed(page.Value(), at)
    ensures at == 0 ==> LiveBytes(page.slots) <= SPLIT_THRESHOLD
    ensures at == 0 || at == |page.slots| ==> live == |page.Value().Live()|
    ensures live == 0 <==> page.Value().Live() == []
  {
    hide Tup, TKey, LiveIn, LiveBytes, DeadBytes, Disjoint, Ordered, Crossed;
    var consumed := 0;
    at, live := 0, 0;
    LiveNone(page.data[..]);
    assert page.slots[..0] == [] && page.slots[..|page.slots|] == page.slots;
    NoBytes();
    for i := 0 to |page.slots|
      invariant consumed == LiveBytes(page.slots[..i]) <= SPLIT_THRESHOLD
      invariant live == |LiveIn(page.slots[..i], page.data[..])|
    {
      LiveStep(page.slots, page.data[..], i);
      BytesStep(page.slots, i);
      if !page.slots[i].deleted {
        consumed := consumed + page.slots[i].length;
        live := live + 1;
        if consumed > SPLIT_THRESHOLD {
          at := i + 1;
          CrossedHere(page.Value(), i);
          while at != |page.slots| && page.slots[at].deleted
            invariant i < at <= |page.slots|
            invariant LiveBytes(page.slots[..at]) == consumed
            invariant live == |LiveIn(page.slots[..at], page.data[..])| && Crossed(page.Value(), at)
          {
            CrossedPast(page.Value(), at);
            LiveStep(page.slots, page.data[..], at);
            BytesStep(page.slots, at);
            at := at + 1;
          }
          assert page.slots == page.slots[..at] + page.slots[at..];
          LiveConcat(page.slots[..at], page.slots[at..], page.data[..]);
          return;
        }
      }
    }
  }

  lemma NoBytes()
    ensures LiveBytes([]) == 0
  {
  }

  // The position of the live tuple just past the middle.
  method MiddleSplit(page: LeafPage, live: nat) returns (at: nat)
    requires 0 < live == |page.Value().Live()|
    ensures at < |page.slots| && !page.slots[at].deleted
    ensures |LiveIn(page.slots[..at], page.data[..])| == live / 2
  {
    hide Tup, TKey, LiveIn;
    at := 0;
    var count := 0;
    LiveNone(page.data[..]);
    assert page.slots[..0] == [] && page.slots[..|page.slots|] == page.slots;
    for i := 0 to |page.slots|
      invariant at == i
      invariant count == |LiveIn(page.slots[..i], page.data[..])| <= live / 2
    {
      LiveStep(page.slots, page.data[..], i);
      if page.slots[at].deleted {
        at := at + 1;
        continue;
      }
      count := count + 1;
      if count > live / 2 {
        return;
      }
      at := at + 1;
    }
  }

  // Moves the upper part of the live tuples to a new page to the right; both
  // pages come out compact. A page without live tuples is left alone.
  method HandleSplit(page: LeafPage, newPage: LeafPage, newPid: PageID) returns (boundary: Key)
    requires page != newPage && page.data != newPage.data
    requires page.Value().Valid() && newPage.data.Length == PAGE_SIZE
    modifies page, page.data, newPage, newPage.data
    ensures old(page.Value()).Live() == [] ==> page.Value() == old(page.Value()) && boundary == 0
    ensures old(page.Value()).Live() != [] ==>
              && Compact(page.Value()) && Compact(newPage.Value())
              && old(page.Value()).Live() == page.Value().Live() + newPage.Value().Live()
              && newPage.Value().Live() != [] && boundary == TKey(newPage.Value().Live()[0])
              && page.pid == old(page.pid) && page.left == old(page.left) && page.right == newPid
              && newPage.pid == newPid && newPage.left == page.pid && newPage.right == old(page.right)
    ensures old(page.Value()).Live() != [] ==> SplitsAt(old(page.Value()).Live(), |page.Value().Live()|)
    ensures Tight(old(page.Value())) ==>
              && |page.Value().Live()| >= 3
              && (|newPage.Value().Live()| >= 3 <==> ThreeRemain(old(page.Value()).Live()))
    ensures Tight(old(page.Value())) ==>
              && page.Value().Live() != [] && newPage.Value().Live() != []
              && page.Value().Free() >= MIN_ENTRY && newPage.Value().Free() >= MIN_ENTRY
  {
    hide Tup, TKey, LiveIn, Cost, LiveBytes, DeadBytes, LeafLayout.Leaf.Valid, Compact, Rebuildable, SplitBySize,
      Crossed, SplitsAt, ThreeRemain, Tight;
    ghost var v := page.Value();
    var buffer, slots, right := page.data[..], page.slots, page.right;
    var at, live := ThresholdSplit(page);
    if live == 0 {
      SplitParts(v, at);
      return 0;
    }
    if at == |slots| || at == 0 {
      NotTight(v, at);
      CountRule(v, at);
      at := MiddleSplit(page, live);
    } else {
      SizeRule(v, at);
    }
    SplitParts(v, at);
    if Tight(v) {
      ThreeEach(v, |LiveIn(v.slots[..at], v.data)|);
    }
    page.MakePage(slots[..at], buffer, page.pid, page.left, newPid);
    newPage.MakePage(slots[at..], buffer, newPid, page.pid, right);
    FirstOfRun(slots, buffer, at);
    CompactUsed(page.Value());
    CompactUsed(newPage.Value());
    boundary := TKey(Tup(buffer, slots[at]));
  }

  lemma FirstOfRun(slots: seq<Slot>, data: seq<Byte>, at: nat)
    requires at < |slots| && !slots[at].deleted
    ensures LiveIn(slots[at..], data) != [] && LiveIn(slots[at..], data)[0] == Tup(data, slots[at])
  {
    assert slots[at..][0] == slots[at];
  }

  // The count-based fallback is never needed on a page that refused an entry.
  lemma NotTight(v: Leaf, at: nat)
    requires v.Valid() && (at == |v.slots| || at == 0)
    requires at > 0 ==> SplitBySize(v, at)
    requires at == 0 ==> LiveBytes(v.slots) <= SPLIT_THRESHOLD
    ensures !Tight(v)
  {
    hide Tup, TKey, LiveIn, Cost, LiveBytes, DeadBytes, LeafLayout.Leaf.Valid;
    LiveNone(v.data);
    assert v.slots[|v.slots|..] == [];
    if Tight(v) {
      TightBytes(v);
      if at > 0 {
        SplitRoom(v, at);
      }
    }
  }

  lemma SplitParts(v: Leaf, at: nat)
    requires v.Valid() && at <= |v.slots|
    ensures v.Live() == LiveIn(v.slots[..at], v.data) + LiveIn(v.slots[at..], v.data)
    ensures Rebuildable(v.slots[..at], v.data) && Rebuildable(v.slots[at..], v.data)
    ensures |v.data| == PAGE_SIZE && (Tight(v) ==> v.Live() != [])
    ensures Tight(v) && SplitBySize(v, at) ==>
              && LiveIn(v.slots[..at], v.data) != [] && LiveIn(v.slots[at..], v.data) != []
              && Cost(LiveIn(v.slots[..at], v.data)) <= USABLE - MIN_ENTRY
              && Cost(LiveIn(v.slots[at..], v.data)) <= USABLE - MIN_ENTRY
  {
    hide Tup, TKey, LiveIn, LiveBytes, DeadBytes, Cost;
    PartBounds(v, at);
    LiveSorted(v.slots, v.data);
    var l, r := LiveIn(v.slots[..at], v.data), LiveIn(v.slots[at..], v.data);
    assert Sorted(l) && Sorted(r) by {
      assert forall i | 0 <= i < |l| :: l[i] == v.Live()[i];
      assert forall i | 0 <= i < |r| :: r[i] == v.Live()[|l| + i];
    }
    if Tight(v) {
      TightBytes(v);
      if SplitBySize(v, at) {
        SplitRoom(v, at);
      }
    }
  }
}
