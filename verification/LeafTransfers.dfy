// The operations of database/src/impl/page/leaf_page.cpp that move tuples
// between two leaf pages: borrowing and merging.
module LeafTransfers {
  import opened Bytes
  import opened Tuples
  import opened LeafLayout
  import opened LeafEdits
  import opened LeafPages

  // Giving away the last (first) k live tuples yields the needed bytes and leaves
  // the lender above the threshold of 1626.
  ghost predicate LendsLast(live: seq<Tuple>, used: int, needed: nat, k: nat) {
    k <= |live| && Cost(live[|live| - k..]) >= needed && used - Cost(live[|live| - k..]) > 1626
  }

  ghost predicate LendsFirst(live: seq<Tuple>, used: int, needed: nat, k: nat) {
    k <= |live| && Cost(live[..k]) >= needed && used - Cost(live[..k]) > 1626
  }

  ghost predicate CanLendLast(v: Leaf, needed: nat) {
    exists k: nat :: LendsLast(v.Live(), v.Used(), needed, k)
  }

  ghost predicate CanLendFirst(v: Leaf, needed: nat) {
    exists k: nat :: LendsFirst(v.Live(), v.Used(), needed, k)
  }

  // Once the bytes suffice but the lender is drained, or every live tuple counted
  // is too little, no amount works.
  lemma NoLast(live: seq<Tuple>, used: int, needed: nat, n: nat)
    requires n <= |live| && (n == |live| || used - Cost(live[|live| - n - 1..]) <= UNDERFLOW)
    requires Cost(live[|live| - n..]) < needed
    ensures forall k: nat :: !LendsLast(live, used, needed, k)
  {
    forall k: nat ensures !LendsLast(live, used, needed, k) {
      if k <= n {
        CostMonotone(live, |live| - n, |live| - k);
      } else if k <= |live| {
        CostMonotone(live, |live| - k, |live| - n - 1);
      }
    }
  }

  lemma NoFirst(live: seq<Tuple>, used: int, needed: nat, n: nat)
    requires n <= |live| && (n == |live| || used - Cost(live[..n + 1]) <= UNDERFLOW)
    requires Cost(live[..n]) < needed
    ensures forall k: nat :: !LendsFirst(live, used, needed, k)
  {
    forall k: nat ensures !LendsFirst(live, used, needed, k) {
      if k <= n {
        CostMonotone(live, k, n);
      } else if k <= |live| {
        CostMonotone(live, n + 1, k);
      }
    }
  }

  // One slot further left in a backward scan.
  lemma ScanLeft(v: Leaf, i: nat)
    requires v.Valid() && i < |v.slots|
    ensures var t := Tup(v.data, v.slots[i]);
            && LiveIn(v.slots[i..], v.data) ==
               (if v.slots[i].deleted then [] else [t]) + LiveIn(v.slots[i + 1..], v.data)
            && (!v.slots[i].deleted ==>
                  && |t| == v.slots[i].length
                  && Cost(LiveIn(v.slots[i..], v.data)) == |t| + SLOT_SIZE + Cost(LiveIn(v.slots[i + 1..], v.data)))
    ensures v.Live() == LiveIn(v.slots[..i], v.data) + LiveIn(v.slots[i..], v.data)
    ensures Cost(LiveIn(v.slots[i..], v.data)) <= Cost(v.Live()) <= v.Used() <= USABLE
  {
    hide TKey, LiveBytes, DeadBytes, Tombstones;
    assert v.slots[i..] == [v.slots[i]] + v.slots[i + 1..];
    assert v.slots == v.slots[..i] + v.slots[i..];
    LiveConcat(v.slots[..i], v.slots[i..], v.data);
    CostConcat(LiveIn(v.slots[..i], v.data), LiveIn(v.slots[i..], v.data));
    UsedMeaning(v);
  }

  lemma ScanRight(v: Leaf, i: nat)
    requires v.Valid() && i < |v.slots|
    ensures var t := Tup(v.data, v.slots[i]);
            && LiveIn(v.slots[..i + 1], v.data) ==
               LiveIn(v.slots[..i], v.data) + (if v.slots[i].deleted then [] else [t])
            && (!v.slots[i].deleted ==>
                  && |t| == v.slots[i].length
                  && Cost(LiveIn(v.slots[..i + 1], v.data)) == Cost(LiveIn(v.slots[..i], v.data)) + |t| + SLOT_SIZE)
    ensures LiveIn(v.slots[..i + 1], v.data) <= v.Live()
    ensures Cost(LiveIn(v.slots[..i + 1], v.data)) <= Cost(v.Live()) <= v.Used() <= USABLE
  {
    LiveStep(v.slots, v.data, i);
    var t := Tup(v.data, v.slots[i]);
    assert !v.slots[i].deleted ==> |t| == v.slots[i].length;
    hide TKey, LiveIn, LiveBytes, DeadBytes, Tombstones, Tup, Disjoint, Ordered;
    CostConcat(LiveIn(v.slots[..i], v.data), [t]);
    CostMonotone(v.Live(), |LiveIn(v.slots[..i + 1], v.data)|, |v.Live()|);
    assert v.Live()[..|LiveIn(v.slots[..i + 1], v.data)|] == LiveIn(v.slots[..i + 1], v.data);
    UsedMeaning(v);
  }

  method CanLendFromRight(page: LeafPage, needed: nat) returns (q: BorrowQuery)
    requires page.Value().Valid()
    ensures q.canBorrow <==> needed > 0 && CanLendLast(page.Value(), needed)
    ensures q.canBorrow ==> LendsLast(page.Value().Live(), page.Value().Used(), needed, q.amount)
    ensures q.canBorrow ==> 0 < q.amount && Cost(page.Value().Live()[|page.Value().Live()| - q.amount + 1..]) < needed
  {
    hide Tup, TKey, LiveIn, Cost, LiveBytes, DeadBytes, InBounds, Disjoint, Ordered;
    ghost var v := page.Value();
    ghost var live := v.Live();
    var used := USABLE - (page.freeEnd - (LEAF_HEADER + SLOT_SIZE * |page.slots|) + 1) - page.garbage;
    UsedMeaning(v);
    var curr, space, count := |page.slots|, 0, 0;
    assert v.slots[curr..] == [];
    LiveNone(v.data);
    CostNone();
    while space < needed && curr > 0
      invariant curr <= |page.slots|
      invariant count <= |live| && LiveIn(v.slots[curr..], v.data) == live[|live| - count..]
      invariant space == Cost(live[|live| - count..]) && (needed > 0 ==> space < needed)
      invariant used == v.Used() - space
      invariant curr == 0 ==> count == |live|
    {
      curr := curr - 1;
      ScanLeft(v, curr);
      if curr == 0 {
        assert v.slots[..0] == [] && v.slots[0..] == v.slots;
      }
      if !page.slots[curr].deleted {
        var size := page.slots[curr].length;
        used := used - (size + SLOT_SIZE);
        assert 0 <= used;
        if used <= UNDERFLOW {
          NoLast(live, v.Used(), needed, count);
          return BorrowQuery(false, 0);
        }
        space := space + size + SLOT_SIZE;
        count := count + 1;
        if space >= needed {
          assert LendsLast(live, v.Used(), needed, count);
          return BorrowQuery(true, count);
        }
      }
    }
    if needed > 0 {
      NoLast(live, v.Used(), needed, |live|);
    }
    return BorrowQuery(false, 0);
  }

  lemma CostNone()
    ensures Cost([]) == 0
  {
  }

  method CanLendFromLeft(page: LeafPage, needed: nat) returns (q: BorrowQuery)
    requires page.Value().Valid()
    ensures q.canBorrow <==> needed > 0 && CanLendFirst(page.Value(), needed)
    ensures q.canBorrow ==> LendsFirst(page.Value().Live(), page.Value().Used(), needed, q.amount)
    ensures q.canBorrow ==> 0 < q.amount && Cost(page.Value().Live()[..q.amount - 1]) < needed
  {
    hide Tup, TKey, LiveIn, Cost, LiveBytes, DeadBytes, InBounds, Disjoint, Ordered;
    ghost var v := page.Value();
    ghost var live := v.Live();
    var used := USABLE - (page.freeEnd - (LEAF_HEADER + SLOT_SIZE * |page.slots|) + 1) - page.garbage;
    UsedMeaning(v);
    var curr, space, count := 0, 0, 0;
    assert v.slots[..0] == [];
    LiveNone(v.data);
    CostNone();
    while space < needed && curr < |page.slots|
      invariant curr <= |page.slots|
      invariant count <= |live| && LiveIn(v.slots[..curr], v.data) == live[..count]
      invariant space == Cost(live[..count]) && (needed > 0 ==> space < needed)
      invariant used == v.Used() - space
      invariant curr == |page.slots| ==> count == |live|
    {
      ScanRight(v, curr);
      if curr == |page.slots| - 1 {
        assert v.slots[..curr + 1] == v.slots;
      }
      if !page.slots[curr].deleted {
        var size := page.slots[curr].length;
        used := used - (size + SLOT_SIZE);
        assert 0 <= used;
        assert LiveIn(v.slots[..curr + 1], v.data) == live[..count + 1];
        if used <= UNDERFLOW {
          NoFirst(live, v.Used(), needed, count);
          return BorrowQuery(false, 0);
        }
        space := space + size + SLOT_SIZE;
        count := count + 1;
        if space >= needed {
          assert LendsFirst(live, v.Used(), needed, count);
          return BorrowQuery(true, count);
        }
      }
      curr := curr + 1;
    }
    if needed > 0 {
      NoFirst(live, v.Used(), needed, |live|);
    }
    return BorrowQuery(false, 0);
  }

  // A sibling that refuses to lend what an underflown page needs fits into one
  // page together with it; the bound is met with equality.
  lemma RefusalFits(v: Leaf, used: nat, needed: nat)
    requires v.Valid() && used <= UNDERFLOW && needed == UNDERFLOW + 1 - used
    requires !CanLendLast(v, needed) || !CanLendFirst(v, needed)
    ensures used + v.Used() <= USABLE
  {
    hide Tup, TKey, LiveIn, Cost, LiveBytes, DeadBytes, InBounds, Disjoint, Ordered, Tombstones;
    UsedMeaning(v);
    LiveSizes(v.slots, v.freeEnd, v.data) by { assert InBounds(v.slots, v.freeEnd); }
    var live := v.Live();
    if Cost(live) >= needed {
      var k := FirstEnough(live, needed);
      assert used + v.Used() <= USABLE || LendsFirst(live, v.Used(), needed, k);
      var m := LastEnough(live, needed);
      assert used + v.Used() <= USABLE || LendsLast(live, v.Used(), needed, m);
    }
  }

  lemma FirstEnough(live: seq<Tuple>, needed: nat) returns (k: nat)
    requires forall i | 0 <= i < |live| :: |live[i]| <= MAX_TUPLE
    requires Cost(live) >= needed > 0
    ensures k <= |live| && needed <= Cost(live[..k]) < needed + MAX_ENTRY
  {
    hide Cost;
    k := 0;
    CostNone();
    assert live[..|live|] == live;
    while Cost(live[..k]) < needed
      invariant k <= |live| && Cost(live[..k]) < needed + MAX_ENTRY
      decreases |live| - k
    {
      assert live[..k + 1] == live[..k] + [live[k]];
      CostConcat(live[..k], [live[k]]);
      CostOne(live[k]);
      k := k + 1;
    }
  }

  lemma LastEnough(live: seq<Tuple>, needed: nat) returns (k: nat)
    requires forall i | 0 <= i < |live| :: |live[i]| <= MAX_TUPLE
    requires Cost(live) >= needed > 0
    ensures k <= |live| && needed <= Cost(live[|live| - k..]) < needed + MAX_ENTRY
  {
    hide Cost;
    k := 0;
    CostNone();
    assert live[|live|..] == [] && live[0..] == live;
    while Cost(live[|live| - k..]) < needed
      invariant k <= |live| && Cost(live[|live| - k..]) < needed + MAX_ENTRY
      decreases |live| - k
    {
      var j := |live| - k - 1;
      assert live[j..] == [live[j]] + live[j + 1..];
      CostConcat([live[j]], live[j + 1..]);
      CostOne(live[j]);
      k := k + 1;
    }
  }

  lemma LiveTupleSizes(v: Leaf)
    requires v.Valid()
    ensures forall k | 0 <= k < |v.Live()| :: MIN_TUPLE <= |v.Live()[k]| <= MAX_TUPLE
  {
    hide Tup, TKey, LiveIn, Disjoint, Ordered;
    LiveSizes(v.slots, v.freeEnd, v.data);
  }

  ghost predicate Before(a: seq<Tuple>, b: seq<Tuple>) {
    forall i, j | 0 <= i < |a| && 0 <= j < |b| :: TKey(a[i]) < TKey(b[j])
  }

  // Copies one tuple into a page that has room for all of it, header included.
  method MoveTuple(page: LeafPage, t: Tuple)
    requires page.Value().Valid() && MIN_TUPLE <= |t| <= MAX_TUPLE
    requires |t| + SLOT_SIZE <= page.Value().Free() && !HasKey(page.Value().Live(), TKey(t))
    modifies page, page.data
    ensures page.Value().Valid() && page.Value().Live() == InsertSorted(old(page.Value()).Live(), t)
    ensures page.Value().Used() <= old(page.Value()).Used() + |t| + SLOT_SIZE
    ensures page.pid == old(page.pid) && page.left == old(page.left) && page.right == old(page.right)
  {
    hide Tup, LiveIn, InsertSorted, LeafLayout.Leaf.Valid, LeafLayout.Leaf.Live, LeafEdits.StoredAt, Decode, HasKey;
    assert t[13..][..8] == t[13..21];
    var written, addr := page.WriteChunkLeaf(t[13..], TKey(t), Some(t[..13]));
    assert t[13..][..written] == t[13..];
    assert t[..13] + t[13..] == t;
  }

  lemma PrependSorted(t: Tuple, b: seq<Tuple>)
    requires Before([t], b)
    ensures InsertSorted(b, t) == [t] + b && !HasKey(b, TKey(t))
  {
    hide TKey, InsertSorted;
    assert TKey([t][0]) == TKey(t);
    InsertBetween([], t, b);
    assert [] + b == b && [] + [t] + b == [t] + b;
  }

  lemma AppendSorted(a: seq<Tuple>, t: Tuple)
    requires Before(a, [t])
    ensures InsertSorted(a, t) == a + [t] && !HasKey(a, TKey(t))
  {
    hide TKey, InsertSorted;
    assert TKey([t][0]) == TKey(t);
    InsertBetween(a, t, []);
    assert a + [] == a && a + [t] + [] == a + [t];
  }

  // Marking the last live slot takes the last live tuple off the page.
  lemma TakeLast(v: Leaf, i: nat)
    requires v.Valid() && i < |v.slots| && !v.slots[i].deleted && LiveIn(v.slots[i + 1..], v.data) == []
    ensures v.Live() != [] && v.Live()[|v.Live()| - 1] == Tup(v.data, v.slots[i])
    ensures Mark(v, i).Valid() && Mark(v, i).Live() == v.Live()[..|v.Live()| - 1]
    ensures LiveIn(Mark(v, i).slots[i..], v.data) == []
    ensures MIN_TUPLE <= |Tup(v.data, v.slots[i])| <= MAX_TUPLE
  {
    assert MIN_TUPLE <= |Tup(v.data, v.slots[i])| <= MAX_TUPLE;
    hide Tup, TKey, LiveIn, LiveBytes, DeadBytes, InBounds, Disjoint, Ordered;
    MarkValid(v, i);
    MarkLive(v, i);
    SkipLast(Mark(v, i).slots, v.data, i);
    assert Mark(v, i).slots[i + 1..] == v.slots[i + 1..];
  }

  lemma SkipLast(slots: seq<Slot>, data: seq<Byte>, i: nat)
    requires i < |slots| && slots[i].deleted
    ensures LiveIn(slots[i..], data) == LiveIn(slots[i + 1..], data)
    ensures LiveIn(slots[..i + 1], data) == LiveIn(slots[..i], data)
  {
    assert slots[i..] == [slots[i]] + slots[i + 1..];
    LiveStep(slots, data, i);
  }

  lemma TakeFirst(v: Leaf, i: nat)
    requires v.Valid() && i < |v.slots| && !v.slots[i].deleted && LiveIn(v.slots[..i], v.data) == []
    ensures v.Live() != [] && v.Live()[0] == Tup(v.data, v.slots[i])
    ensures Mark(v, i).Valid() && Mark(v, i).Live() == v.Live()[1..]
    ensures LiveIn(Mark(v, i).slots[..i + 1], v.data) == []
    ensures MIN_TUPLE <= |Tup(v.data, v.slots[i])| <= MAX_TUPLE
  {
    assert MIN_TUPLE <= |Tup(v.data, v.slots[i])| <= MAX_TUPLE;
    hide Tup, TKey, LiveIn, LiveBytes, DeadBytes, InBounds, Disjoint, Ordered;
    MarkValid(v, i);
    MarkLive(v, i);
    SkipLast(Mark(v, i).slots, v.data, i);
    assert Mark(v, i).slots[..i] == v.slots[..i];
  }

  // The last live tuple of the lender, at slot i, goes to the front of the borrower.
  method GiveLast(borrower: LeafPage, lender: LeafPage, i: nat, ghost own: seq<Tuple>)
    requires borrower != lender && borrower.data != lender.data
    requires borrower.Value().Valid() && lender.Value().Valid() && borrower.Value().Live() == own
    requires i < |lender.slots| && !lender.slots[i].deleted && LiveIn(lender.slots[i + 1..], lender.data[..]) == []
    requires var live := lender.Value().Live();
             live != [] ==>
               var t := live[|live| - 1];
               Before([t], own) && borrower.Value().Used() + |t| + SLOT_SIZE <= USABLE
    modifies borrower, borrower.data, lender`slots, lender`garbage
    ensures borrower.Value().Valid() && lender.Value().Valid() && |lender.slots| == old(|lender.slots|)
    ensures var live := old(lender.Value()).Live();
            && live != []
            && var t := live[|live| - 1];
            && lender.Value().Live() == live[..|live| - 1] && borrower.Value().Live() == [t] + own
            && lender.Value().Used() == old(lender.Value()).Used() - |t|
            && borrower.Value().Used() <= old(borrower.Value()).Used() + |t| + SLOT_SIZE
    ensures LiveIn(lender.slots[i..], lender.data[..]) == []
    ensures borrower.pid == old(borrower.pid) && borrower.left == old(borrower.left)
    ensures borrower.right == old(borrower.right)
  {
    hide Tup, TKey, LiveIn, Cost, InsertSorted, LeafLayout.Leaf.Valid, HasKey, Before;
    var t := Tup(lender.data[..], lender.slots[i]);
    TakeLast(lender.Value(), i);
    MarkUsed(lender.Value(), i);
    PrependSorted(t, own);
    MoveTuple(borrower, t);
    lender.MarkSlot(i);
  }

  // Moves the last k live tuples of the left sibling to the front of the borrower.
  method HandleLeftBorrow(borrower: LeafPage, lender: LeafPage, amount: nat) returns (boundary: Key)
    requires borrower != lender && borrower.data != lender.data
    requires borrower.Value().Valid() && lender.Value().Valid()
    requires 0 < amount <= |lender.Value().Live()| && Before(lender.Value().Live(), borrower.Value().Live())
    requires borrower.Value().Used() + Cost(lender.Value().Live()[|lender.Value().Live()| - amount..]) <= USABLE
    modifies borrower, borrower.data, lender, lender.data
    ensures borrower.Value().Valid() && lender.Value().Valid()
    ensures var all := old(lender.Value()).Live();
            var n := |all| - amount;
            && lender.Value().Live() == all[..n]
            && borrower.Value().Live() == all[n..] + old(borrower.Value()).Live()
            && boundary == TKey(all[n])
    ensures lender.Value().Used() == old(lender.Value()).Used() + SLOT_SIZE * amount
                                     - Cost(old(lender.Value()).Live()[|old(lender.Value()).Live()| - amount..])
    ensures borrower.pid == old(borrower.pid) && borrower.left == old(borrower.left)
    ensures borrower.right == old(borrower.right)
    ensures lender.pid == old(lender.pid) && lender.left == old(lender.left) && lender.right == old(lender.right)
  {
    hide Tup, TKey, LiveIn, Cost, InsertSorted, LeafLayout.Leaf.Valid, HasKey, Before;
    ghost var all, own := lender.Value().Live(), borrower.Value().Live();
    ghost var n := |all|;
    ghost var start, full := borrower.Value().Used(), lender.Value().Used();
    var curr, left := |lender.slots|, amount;
    LiveNone(lender.data[..]);
    CostNone();
    ValidSorted(lender.Value());
    assert lender.slots[curr..] == [];
    while left > 0
      invariant left <= amount && curr <= |lender.slots|
      invariant borrower.Value().Valid() && lender.Value().Valid()
      invariant lender.Value().Live() == all[..n - (amount - left)]
      invariant borrower.Value().Live() == all[n - (amount - left)..] + own
      invariant LiveIn(lender.slots[curr..], lender.data[..]) == []
      invariant lender.Value().Used() == full + SLOT_SIZE * (amount - left) - Cost(all[n - (amount - left)..])
      invariant borrower.Value().Used() <= start + Cost(all[n - (amount - left)..])
      invariant borrower.pid == old(borrower.pid) && borrower.left == old(borrower.left)
      invariant borrower.right == old(borrower.right)
      invariant lender.pid == old(lender.pid) && lender.left == old(lender.left) && lender.right == old(lender.right)
      decreases curr
    {
      assert lender.slots[0..] == lender.slots;
      curr := curr - 1;
      if lender.slots[curr].deleted {
        SkipLast(lender.slots, lender.data[..], curr);
      } else {
        ghost var i := n - (amount - left) - 1;
        LeftStep(all, own, i, n - amount);
        GiveLast(borrower, lender, curr, all[i + 1..] + own);
        left := left - 1;
      }
    }
    boundary := borrower.GetPageFirstKey();
  }

  lemma ValidSorted(v: Leaf)
    requires v.Valid()
    ensures Sorted(v.Live())
  {
    LiveSorted(v.slots, v.data);
  }

  lemma LeftStep(all: seq<Tuple>, own: seq<Tuple>, i: nat, low: nat)
    requires Sorted(all) && Before(all, own) && low <= i < |all|
    ensures Before([all[i]], all[i + 1..] + own)
    ensures Cost(all[i..]) == |all[i]| + SLOT_SIZE + Cost(all[i + 1..])
    ensures Cost(all[i..]) <= Cost(all[low..])
    ensures [all[i]] + (all[i + 1..] + own) == all[i..] + own
  {
    hide TKey;
    CostMonotone(all, low, i);
    assert all[i..][1..] == all[i + 1..];
  }

  lemma RightStep(all: seq<Tuple>, own: seq<Tuple>, i: nat, high: nat)
    requires Sorted(all) && Before(own, all) && i < high <= |all|
    ensures Before(own + all[..i], [all[i]])
    ensures Cost(all[..i + 1]) == Cost(all[..i]) + |all[i]| + SLOT_SIZE
    ensures Cost(all[..i + 1]) <= Cost(all[..high])
    ensures (own + all[..i]) + [all[i]] == own + all[..i + 1]
  {
    hide TKey, Cost;
    CostMonotone(all, i + 1, high);
    assert all[..i + 1] == all[..i] + [all[i]];
    CostConcat(all[..i], [all[i]]);
    CostOne(all[i]);
  }

  // The first live tuple of the lender, at slot i, goes to the end of the borrower.
  method GiveFirst(borrower: LeafPage, lender: LeafPage, i: nat, ghost own: seq<Tuple>)
    requires borrower != lender && borrower.data != lender.data
    requires borrower.Value().Valid() && lender.Value().Valid() && borrower.Value().Live() == own
    requires i < |lender.slots| && !lender.slots[i].deleted && LiveIn(lender.slots[..i], lender.data[..]) == []
    requires var live := lender.Value().Live();
             live != [] ==>
               var t := live[0];
               Before(own, [t]) && borrower.Value().Used() + |t| + SLOT_SIZE <= USABLE
    modifies borrower, borrower.data, lender`slots, lender`garbage
    ensures borrower.Value().Valid() && lender.Value().Valid() && |lender.slots| == old(|lender.slots|)
    ensures var live := old(lender.Value()).Live();
            && live != []
            && var t := live[0];
            && lender.Value().Live() == live[1..] && borrower.Value().Live() == own + [t]
            && lender.Value().Used() == old(lender.Value()).Used() - |t|
            && borrower.Value().Used() <= old(borrower.Value()).Used() + |t| + SLOT_SIZE
    ensures LiveIn(lender.slots[..i + 1], lender.data[..]) == []
    ensures borrower.pid == old(borrower.pid) && borrower.left == old(borrower.left)
    ensures borrower.right == old(borrower.right)
  {
    hide Tup, TKey, LiveIn, Cost, InsertSorted, LeafLayout.Leaf.Valid, HasKey, Before;
    var t := Tup(lender.data[..], lender.slots[i]);
    TakeFirst(lender.Value(), i);
    MarkUsed(lender.Value(), i);
    AppendSorted(own, t);
    MoveTuple(borrower, t);
    lender.MarkSlot(i);
  }

  // Moves the first k live tuples of the right sibling to the end of the borrower.
  method HandleRightBorrow(borrower: LeafPage, lender: LeafPage, amount: nat) returns (boundary: Key)
    requires borrower != lender && borrower.data != lender.data
    requires borrower.Value().Valid() && lender.Value().Valid()
    requires 0 < amount <= |lender.Value().Live()| && Before(borrower.Value().Live(), lender.Value().Live())
    requires borrower.Value().Used() + Cost(lender.Value().Live()[..amount]) <= USABLE
    modifies borrower, borrower.data, lender, lender.data
    ensures borrower.Value().Valid() && lender.Value().Valid()
    ensures var all := old(lender.Value()).Live();
            && lender.Value().Live() == all[amount..]
            && borrower.Value().Live() == old(borrower.Value()).Live() + all[..amount]
            && boundary == if amount == |all| then 0 else TKey(all[amount])
    ensures lender.Value().Used() == old(lender.Value()).Used() + SLOT_SIZE * amount
                                     - Cost(old(lender.Value()).Live()[..amount])
    ensures borrower.pid == old(borrower.pid) && borrower.left == old(borrower.left)
    ensures borrower.right == old(borrower.right)
    ensures lender.pid == old(lender.pid) && lender.left == old(lender.left) && lender.right == old(lender.right)
  {
    hide Tup, TKey, LiveIn, Cost, InsertSorted, LeafLayout.Leaf.Valid, HasKey, Before;
    ghost var all, own := lender.Value().Live(), borrower.Value().Live();
    ghost var start, full := borrower.Value().Used(), lender.Value().Used();
    var curr, left := 0, amount;
    LiveNone(lender.data[..]);
    CostNone();
    ValidSorted(lender.Value());
    assert lender.slots[..0] == [];
    while left > 0
      invariant left <= amount && curr <= |lender.slots|
      invariant borrower.Value().Valid() && lender.Value().Valid()
      invariant lender.Value().Live() == all[amount - left..]
      invariant borrower.Value().Live() == own + all[..amount - left]
      invariant LiveIn(lender.slots[..curr], lender.data[..]) == []
      invariant lender.Value().Used() == full + SLOT_SIZE * (amount - left) - Cost(all[..amount - left])
      invariant borrower.Value().Used() <= start + Cost(all[..amount - left])
      invariant borrower.pid == old(borrower.pid) && borrower.left == old(borrower.left)
      invariant borrower.right == old(borrower.right)
      invariant lender.pid == old(lender.pid) && lender.left == old(lender.left) && lender.right == old(lender.right)
      decreases |lender.slots| - curr
    {
      assert lender.slots[..|lender.slots|] == lender.slots;
      if lender.slots[curr].deleted {
        SkipLast(lender.slots, lender.data[..], curr);
      } else {
        ghost var i := amount - left;
        RightStep(all, own, i, amount);
        GiveFirst(borrower, lender, curr, own + all[..i]);
        left := left - 1;
      }
      curr := curr + 1;
    }
    boundary := lender.GetPageFirstKey();
  }

  // Appends every live tuple of the right page to the left one. The fatal error
  // is raised as soon as a tuple does not fit.
  method MergePages(to: LeafPage, from: LeafPage) returns (fatal: bool)
    requires to != from && to.data != from.data
    requires to.Value().Valid() && from.Value().Valid() && Before(to.Value().Live(), from.Value().Live())
    modifies to, to.data
    ensures to.Value().Used() <= old(to.Value()).Used() + Cost(from.Value().Live())
    ensures old(to.Value()).Used() + Cost(from.Value().Live()) <= USABLE ==> !fatal
    ensures !fatal ==> to.Value().Valid() && to.Value().Live() == old(to.Value()).Live() + from.Value().Live()
    ensures to.pid == old(to.pid) && to.left == old(to.left) && to.right == from.right
  {
    hide Tup, TKey, LiveIn, Cost, InsertSorted, LeafLayout.Leaf.Valid, HasKey, Before;
    ghost var own, all := to.Value().Live(), from.Value().Live();
    ghost var start := to.Value().Used();
    RightPointer(to.Value(), from.right);
    to.right := from.right;
    LiveNone(from.data[..]);
    CostNone();
    ValidSorted(from.Value());
    assert from.slots[..0] == [];
    var i := 0;
    while i < |from.slots|
      invariant i <= |from.slots|
      invariant to.Value().Valid()
      invariant LiveIn(from.slots[..i], from.data[..]) <= all
      invariant to.Value().Live() == own + LiveIn(from.slots[..i], from.data[..])
      invariant to.Value().Used() <= start + Cost(LiveIn(from.slots[..i], from.data[..])) <= start + Cost(all)
      invariant to.pid == old(to.pid) && to.left == old(to.left) && to.right == from.right
    {
      ScanRight(from.Value(), i);
      if !from.slots[i].deleted {
        var t := Tup(from.data[..], from.slots[i]);
        var free := to.garbage + (to.freeEnd - (LEAF_HEADER + SLOT_SIZE * |to.slots|) + 1);
        if free < from.slots[i].length + SLOT_SIZE {
          return true;
        }
        MergeStep(all, own, LiveIn(from.slots[..i], from.data[..]), t);
        SlotSize(from.Value(), i);
        MoveTuple(to, t);
      } else {
        assert LiveIn(from.slots[..i], from.data[..]) + [] == LiveIn(from.slots[..i], from.data[..]);
      }
      i := i + 1;
    }
    assert from.slots[..i] == from.slots;
    return false;
  }

  lemma RightPointer(v: Leaf, right: PageID)
    requires v.Valid()
    ensures v.(right := right).Valid() && v.(right := right).Live() == v.Live()
  {
  }

  lemma SlotSize(v: Leaf, i: nat)
    requires v.Valid() && i < |v.slots| && !v.slots[i].deleted
    ensures MIN_TUPLE <= |Tup(v.data, v.slots[i])| == v.slots[i].length <= MAX_TUPLE
  {
    hide TKey;
  }

  lemma MergeStep(all: seq<Tuple>, own: seq<Tuple>, done: seq<Tuple>, t: Tuple)
    requires Sorted(all) && Before(own, all) && done + [t] <= all
    ensures InsertSorted(own + done, t) == own + (done + [t]) && !HasKey(own + done, TKey(t))
  {
    hide TKey, InsertSorted, HasKey;
    assert t == all[|done|];
    assert forall i | 0 <= i < |done| :: done[i] == all[i];
    AppendSorted(own + done, t);
    assert (own + done) + [t] == own + (done + [t]);
  }
}
