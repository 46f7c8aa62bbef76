// A page on the path of a deletion turns to the neighbours of an underflown child:
// borrow from the left, borrow from the right, merge (database/src/impl/b-tree/b-tree.cpp).
module Rebalance {
  import opened Bytes
  import opened LeafLayout
  import LeafTransfers
  import opened InternalPages
  import opened Pages
  import opened BufferPools
  import opened Trees
  import opened PageOps
  import opened DeleteOps

  // Children j and j + 1 of the page n are the leaves p and q.
  ghost predicate LeafPair(s: PageMap, n: Node, j: nat, p: Leaf, q: Leaf) {
    && Parent(n) && j + 1 < |n.children| && n.children[j] == p.pid && n.children[j + 1] == q.pid
    && n.pid in s && p.pid in s && q.pid in s && s[p.pid] == LeafPg(p) && s[q.pid] == LeafPg(q)
    && p.pid != q.pid && n.pid != p.pid && n.pid != q.pid
    && p.Valid() && q.Valid() && LeafTransfers.Before(p.Live(), q.Live())
  }

  // The two leaves and their parent after a trade.
  ghost predicate LeavesTraded(s: PageMap, s': PageMap, n: Node, j: nat, p: Leaf, q: Leaf, p': Leaf, q': Leaf, b: Key) {
    && j < |n.keys| && Traded(p, q, p', q', b)
    && s' == s[p.pid := LeafPg(p')][q.pid := LeafPg(q')][n.pid := InternalPg(n.(keys := n.keys[j := b]))]
  }

  // Writes back a child, its neighbour and their parent.
  method StoreThree(pool: BufferPool, a: PageID, x: Page, b: PageID, y: Page, c: PageID, z: Page)
    requires pool.Valid() && pool.Touched == {} && a != b && b != c && a != c
    requires a in pool.View && b in pool.View && c in pool.View && a in pool.Pins && b in pool.Pins && c in pool.Pins
    modifies pool, pool.metas, pool.frames
    ensures pool.Valid() && pool.Touched == {} && pool.nextPid == old(pool.nextPid)
    ensures pool.View == old(pool.View)[a := x][b := y][c := z] == old(pool.View)[b := y][a := x][c := z]
    ensures pool.Pins == old(pool.Pins) - multiset{a} - multiset{b} - multiset{c}
  {
    hide BufferPool.Valid;
    WritesCommute(pool.View, a, x, b, y, c, z);
    WriteBack(pool, a, x);
    StoreTwoMore(pool, b, y, c, z);
  }

  method StoreTwoMore(pool: BufferPool, b: PageID, y: Page, c: PageID, z: Page)
    requires pool.Valid() && pool.Touched == {} && b != c
    requires b in pool.View && c in pool.View && b in pool.Pins && c in pool.Pins
    modifies pool, pool.metas, pool.frames
    ensures pool.Valid() && pool.Touched == {} && pool.nextPid == old(pool.nextPid)
    ensures pool.View == old(pool.View)[b := y][c := z]
    ensures pool.Pins == old(pool.Pins) - multiset{b} - multiset{c}
  {
    hide BufferPool.Valid;
    WriteBack(pool, b, y);
    WriteBack(pool, c, z);
  }

  lemma WritesCommute(s: PageMap, a: PageID, x: Page, b: PageID, y: Page, c: PageID, z: Page)
    requires a != b
    ensures s[a := x][b := y][c := z] == s[b := y][a := x][c := z]
  {
    assert s[a := x][b := y] == s[b := y][a := x];
  }

  method BorrowFromLeft(pool: BufferPool, n: Node, ghost j: nat, left: PageID, child: PageID, needed: nat,
                        ghost p: Leaf, ghost q: Leaf)
    returns (done: bool, ghost p': Leaf, ghost q': Leaf, ghost b: Key)
    requires pool.Valid() && pool.Touched == {} && n.pid in pool.Pins && |pool.Pins| + 2 <= pool.Budget()
    requires LeafPair(pool.View, n, j, p, q) && left == p.pid && child == q.pid && Short(q, needed)
    modifies pool, pool.metas, pool.frames
    ensures pool.Valid() && pool.Touched == {} && pool.nextPid == old(pool.nextPid)
    ensures done <==> LeafTransfers.CanLendLast(p, needed)
    ensures !done ==> pool.View == old(pool.View) && pool.Pins == old(pool.Pins)
    ensures done ==> pool.Pins == old(pool.Pins) - multiset{n.pid}
    ensures done ==> LeavesTraded(old(pool.View), pool.View, n, j, p, q, p', q', b) && LentLast(p, q, p', b, q', needed)
  {
    hide BufferPool.Valid, LeafLayout.Leaf.Valid, LeafTransfers.Before, Short, Parent, GrantedLast,
      LeafTransfers.CanLendLast, LeavesTraded, LentLast;
    p', q', b := p, q, 0;
    ShortNeeds(q, needed);
    var lender := Fetch(pool, left);
    var query := AskLast(lender.leaf, needed);
    done := query.canBorrow;
    if done {
      p', q', b := TakeFromLeft(pool, n, j, lender.leaf, child, query.amount, needed, q);
    } else {
      Release(pool, left, false);
    }
  }

  method TakeFromLeft(pool: BufferPool, n: Node, ghost j: nat, p: Leaf, child: PageID, amount: nat, ghost needed: nat,
                      ghost q: Leaf)
    returns (ghost p': Leaf, ghost q': Leaf, ghost b: Key)
    requires pool.Valid() && pool.Touched == {} && n.pid in pool.Pins && p.pid in pool.Pins
    requires |pool.Pins| < pool.Budget()
    requires LeafPair(pool.View, n, j, p, q) && child == q.pid && Short(q, needed) && GrantedLast(p, needed, amount)
    modifies pool, pool.metas, pool.frames
    ensures pool.Valid() && pool.Touched == {} && pool.nextPid == old(pool.nextPid)
    ensures pool.Pins == old(pool.Pins) - multiset{p.pid} - multiset{n.pid}
    ensures LeavesTraded(old(pool.View), pool.View, n, j, p, q, p', q', b) && LentLast(p, q, p', b, q', needed)
  {
    hide BufferPool.Valid, LeafLayout.Leaf.Valid, LeafLayout.Leaf.Live, LeafTransfers.Before, Short, Traded,
      GrantedLast, Increasing, Distinct, LentLast;
    var borrower := Fetch(pool, child);
    var boundary, l', c' := BorrowLast(borrower.leaf, p, amount, needed);
    var n' := MoveBoundary(n, j, p.pid, boundary);
    p', q', b := l', c', boundary;
    StoreThree(pool, child, LeafPg(c'), p.pid, LeafPg(l'), n.pid, InternalPg(n'));
  }

  lemma ShortNeeds(p: Leaf, needed: nat)
    requires Short(p, needed)
    ensures needed > 0
  {
  }

  method BorrowFromRight(pool: BufferPool, n: Node, ghost j: nat, child: PageID, right: PageID, needed: nat,
                         ghost p: Leaf, ghost q: Leaf)
    returns (done: bool, ghost p': Leaf, ghost q': Leaf, ghost b: Key)
    requires pool.Valid() && pool.Touched == {} && n.pid in pool.Pins && |pool.Pins| + 2 <= pool.Budget()
    requires LeafPair(pool.View, n, j, p, q) && child == p.pid && right == q.pid && Short(p, needed)
    modifies pool, pool.metas, pool.frames
    ensures pool.Valid() && pool.Touched == {} && pool.nextPid == old(pool.nextPid)
    ensures done <==> LeafTransfers.CanLendFirst(q, needed)
    ensures !done ==> pool.View == old(pool.View) && pool.Pins == old(pool.Pins)
    ensures done ==> pool.Pins == old(pool.Pins) - multiset{n.pid}
    ensures done ==> LeavesTraded(old(pool.View), pool.View, n, j, p, q, p', q', b)
    ensures done ==> LentFirst(p, q, p', b, q', needed)
  {
    hide BufferPool.Valid, LeafLayout.Leaf.Valid, LeafTransfers.Before, Short, Parent, GrantedFirst,
      LeafTransfers.CanLendFirst, LeavesTraded, LentFirst;
    p', q', b := p, q, 0;
    ShortNeeds(p, needed);
    var lender := Fetch(pool, right);
    var query := AskFirst(lender.leaf, needed);
    done := query.canBorrow;
    if done {
      p', q', b := TakeFromRight(pool, n, j, child, lender.leaf, query.amount, needed, p);
    } else {
      Release(pool, right, false);
    }
  }

  method TakeFromRight(pool: BufferPool, n: Node, ghost j: nat, child: PageID, q: Leaf, amount: nat, ghost needed: nat,
                       ghost p: Leaf)
    returns (ghost p': Leaf, ghost q': Leaf, ghost b: Key)
    requires pool.Valid() && pool.Touched == {} && n.pid in pool.Pins && q.pid in pool.Pins
    requires |pool.Pins| < pool.Budget()
    requires LeafPair(pool.View, n, j, p, q) && child == p.pid && Short(p, needed) && GrantedFirst(q, needed, amount)
    modifies pool, pool.metas, pool.frames
    ensures pool.Valid() && pool.Touched == {} && pool.nextPid == old(pool.nextPid)
    ensures pool.Pins == old(pool.Pins) - multiset{q.pid} - multiset{n.pid}
    ensures LeavesTraded(old(pool.View), pool.View, n, j, p, q, p', q', b) && LentFirst(p, q, p', b, q', needed)
  {
    hide BufferPool.Valid, LeafLayout.Leaf.Valid, LeafLayout.Leaf.Live, LeafTransfers.Before, Short, Traded,
      GrantedFirst, Increasing, Distinct, LentFirst;
    var borrower := Fetch(pool, child);
    var boundary, c', l' := BorrowFirst(borrower.leaf, q, amount, needed);
    var n' := MoveBoundary(n, j, child, boundary);
    p', q', b := c', l', boundary;
    StoreThree(pool, child, LeafPg(c'), q.pid, LeafPg(l'), n.pid, InternalPg(n'));
  }

  // ----- merging leaves -----

  // The leaf after the pair, if there is one.
  ghost predicate NextLeaf(s: PageMap, right: PageID, p: PageID, q: PageID) {
    right != 0 ==> right in s && s[right].LeafPg? && right != p && right != q
  }

  // The left leaf has taken over the right one; only left pointers change elsewhere.
  ghost predicate LeavesMerged(s: PageMap, s': PageMap, p: Leaf, q: Leaf, m: Leaf) {
    && m.Valid() && m.Live() == p.Live() + q.Live() && m.pid == p.pid && m.right == q.right
    && p.pid in s' && s'[p.pid] == LeafPg(m) && Frame(s, s', {p.pid})
  }

  // The leaf right of a merged page points back to it.
  method RelinkNext(pool: BufferPool, right: PageID, to: PageID, ghost from: PageID)
    requires pool.Valid() && pool.Touched == {to} && NextLeaf(pool.View, right, to, from) && |pool.Pins| < pool.Budget()
    modifies pool, pool.metas, pool.frames
    ensures pool.Valid() && pool.Touched == {to} && pool.nextPid == old(pool.nextPid) && pool.Pins == old(pool.Pins)
    ensures Frame(old(pool.View), pool.View, {}) && pool.View.Keys == old(pool.View).Keys
    ensures pool.View == if right == 0 then old(pool.View)
                         else old(pool.View)[right := LeafPg(old(pool.View)[right].leaf.(left := to))]
    ensures forall x | x in pool.View && (x == to || x == from || !pool.View[x].LeafPg?) ::
              pool.View[x] == old(pool.View)[x]
  {
    hide BufferPool.Valid;
    if right != 0 {
      var neighbour := Fetch(pool, right);
      WriteBack(pool, right, LeafPg(neighbour.leaf.(left := to)));
    }
  }

  // Merges the right leaf into the left one; both stay pinned.
  method MergePair(pool: BufferPool, to: PageID, from: PageID, ghost p: Leaf, ghost q: Leaf) returns (ghost m: Leaf)
    requires pool.Valid() && pool.Touched == {} && |pool.Pins| + 3 <= pool.Budget() && to == p.pid && from == q.pid
             && to != from
    requires to in pool.View && from in pool.View && pool.View[to] == LeafPg(p) && pool.View[from] == LeafPg(q)
    requires p.Valid() && q.Valid() && LeafTransfers.Before(p.Live(), q.Live()) && p.Used() + q.Used() <= USABLE
    requires NextLeaf(pool.View, q.right, to, from)
    modifies pool, pool.metas, pool.frames
    ensures pool.Valid() && pool.Touched == {to} && pool.nextPid == old(pool.nextPid)
    ensures pool.Pins == old(pool.Pins) + multiset{to} + multiset{from}
    ensures LeavesMerged(old(pool.View), pool.View, p, q, m)
    ensures to in pool.View && pool.View[to] == LeafPg(m) && pool.View.Keys == old(pool.View).Keys
    ensures m.right != 0 ==>
              && m.right in pool.View && m.right in old(pool.View) && old(pool.View)[m.right].LeafPg?
              && pool.View[m.right] == LeafPg(old(pool.View)[m.right].leaf.(left := to))
  {
    hide BufferPool.Valid, LeafLayout.Leaf.Valid, LeafLayout.Leaf.Live, LeafLayout.Leaf.Used, LeafTransfers.Before;
    var toPage := Fetch(pool, to);
    var fromPage := Fetch(pool, from);
    var merged := MergeLeaves(toPage.leaf, fromPage.leaf);
    m := merged;
    pool.Write(to, LeafPg(merged));
    RelinkNext(pool, merged.right, to, from);
  }

  // The surviving leaf goes back dirty, the absorbed one clean, their parent dirty.
  method FinishMerge(pool: BufferPool, n': Node, to: PageID, from: PageID)
    requires pool.Valid() && pool.Touched == {to} && to in pool.Pins && from in pool.Pins && n'.pid in pool.Pins
    requires n'.pid in pool.View && to != from && n'.pid != to && n'.pid != from
    modifies pool, pool.metas, pool.frames
    ensures pool.Valid() && pool.Touched == {} && pool.nextPid == old(pool.nextPid)
    ensures pool.Pins == old(pool.Pins) - multiset{n'.pid} - multiset{to} - multiset{from}
    ensures pool.View == old(pool.View)[n'.pid := InternalPg(n')]
  {
    hide BufferPool.Valid;
    ReleaseMerged(pool, to, from);
    WriteBack(pool, n'.pid, InternalPg(n'));
  }

  // ----- internal pages -----

  ghost predicate NodePair(s: PageMap, n: Node, j: nat, p: Node, q: Node) {
    && Parent(n) && j + 1 < |n.children| && n.children[j] == p.pid && n.children[j + 1] == q.pid
    && n.pid in s && p.pid in s && q.pid in s && s[p.pid] == InternalPg(p) && s[q.pid] == InternalPg(q)
    && p.pid != q.pid && n.pid != p.pid && n.pid != q.pid && Sound(p) && Sound(q)
  }

  ghost predicate NodesTraded(s: PageMap, s': PageMap, n: Node, j: nat, p: Node, q: Node, p': Node, q': Node, b: Key) {
    && j < |n.keys| && Rotated(p, n.keys[j], q, p', b, q')
    && s' == s[p.pid := InternalPg(p')][q.pid := InternalPg(q')][n.pid := InternalPg(n.(keys := n.keys[j := b]))]
  }

  method RotateFromLeft(pool: BufferPool, n: Node, ghost j: nat, left: PageID, child: PageID, needed: nat,
                        ghost p: Node, ghost q: Node)
    returns (done: bool, ghost p': Node, ghost q': Node, ghost b: Key)
    requires pool.Valid() && pool.Touched == {} && n.pid in pool.Pins && |pool.Pins| + 2 <= pool.Budget()
    requires NodePair(pool.View, n, j, p, q) && left == p.pid && child == q.pid
    requires needed == 3 && |q.keys| + 1 == MIN_KEYS <= |p.keys|
    modifies pool, pool.metas, pool.frames
    ensures pool.Valid() && pool.Touched == {} && pool.nextPid == old(pool.nextPid)
    ensures done <==> |p.keys| > MIN_KEYS
    ensures !done ==> pool.View == old(pool.View) && pool.Pins == old(pool.Pins)
    ensures done ==> pool.Pins == old(pool.Pins) - multiset{n.pid}
    ensures done ==> NodesTraded(old(pool.View), pool.View, n, j, p, q, p', q', b)
    ensures done ==> j < |n.keys| && TurnedLast(p, n.keys[j], q, p', b, q')
  {
    hide BufferPool.Valid, NodesTraded, Parent, TurnedLast;
    p', q', b := p, q, 0;
    var lender := Fetch(pool, left);
    var query := AskNode(lender.node, needed);
    done := query.canBorrow;
    if done {
      p', q', b := GiveFromLeft(pool, n, j, lender.node, child, query.amount, q);
    } else {
      Release(pool, left, false);
    }
  }

  method GiveFromLeft(pool: BufferPool, n: Node, ghost j: nat, p: Node, child: PageID, amount: nat, ghost q: Node)
    returns (ghost p': Node, ghost q': Node, ghost b: Key)
    requires pool.Valid() && pool.Touched == {} && n.pid in pool.Pins && p.pid in pool.Pins
    requires |pool.Pins| < pool.Budget()
    requires NodePair(pool.View, n, j, p, q) && child == q.pid && |q.keys| + 1 == MIN_KEYS < |p.keys| && amount == 1
    modifies pool, pool.metas, pool.frames
    ensures pool.Valid() && pool.Touched == {} && pool.nextPid == old(pool.nextPid)
    ensures pool.Pins == old(pool.Pins) - multiset{p.pid} - multiset{n.pid}
    ensures NodesTraded(old(pool.View), pool.View, n, j, p, q, p', q', b)
    ensures j < |n.keys| && TurnedLast(p, n.keys[j], q, p', b, q')
  {
    hide BufferPool.Valid, Rotated, Increasing, Distinct, TurnedLast;
    var borrower := Fetch(pool, child);
    var n', l', c';
    n', l', c', b := RotateLast(n, j, borrower.node, p, amount);
    p', q' := l', c';
    StoreThree(pool, p.pid, InternalPg(l'), child, InternalPg(c'), n.pid, InternalPg(n'));
  }

  method RotateFromRight(pool: BufferPool, n: Node, ghost j: nat, child: PageID, right: PageID, needed: nat,
                         ghost p: Node, ghost q: Node)
    returns (done: bool, ghost p': Node, ghost q': Node, ghost b: Key)
    requires pool.Valid() && pool.Touched == {} && n.pid in pool.Pins && |pool.Pins| + 2 <= pool.Budget()
    requires NodePair(pool.View, n, j, p, q) && child == p.pid && right == q.pid
    requires needed == 3 && |p.keys| + 1 == MIN_KEYS <= |q.keys|
    modifies pool, pool.metas, pool.frames
    ensures pool.Valid() && pool.Touched == {} && pool.nextPid == old(pool.nextPid)
    ensures done <==> |q.keys| > MIN_KEYS
    ensures !done ==> pool.View == old(pool.View) && pool.Pins == old(pool.Pins)
    ensures done ==> pool.Pins == old(pool.Pins) - multiset{n.pid}
    ensures done ==> NodesTraded(old(pool.View), pool.View, n, j, p, q, p', q', b)
    ensures done ==> j < |n.keys| && TurnedFirst(p, n.keys[j], q, p', b, q')
  {
    hide BufferPool.Valid, NodesTraded, Parent, TurnedFirst;
    p', q', b := p, q, 0;
    var lender := Fetch(pool, right);
    var query := AskNode(lender.node, needed);
    done := query.canBorrow;
    if done {
      p', q', b := GiveFromRight(pool, n, j, child, lender.node, query.amount, p);
    } else {
      Release(pool, right, false);
    }
  }

  method GiveFromRight(pool: BufferPool, n: Node, ghost j: nat, child: PageID, q: Node, amount: nat, ghost p: Node)
    returns (ghost p': Node, ghost q': Node, ghost b: Key)
    requires pool.Valid() && pool.Touched == {} && n.pid in pool.Pins && q.pid in pool.Pins
    requires |pool.Pins| < pool.Budget()
    requires NodePair(pool.View, n, j, p, q) && child == p.pid && |p.keys| + 1 == MIN_KEYS < |q.keys| && amount == 1
    modifies pool, pool.metas, pool.frames
    ensures pool.Valid() && pool.Touched == {} && pool.nextPid == old(pool.nextPid)
    ensures pool.Pins == old(pool.Pins) - multiset{q.pid} - multiset{n.pid}
    ensures NodesTraded(old(pool.View), pool.View, n, j, p, q, p', q', b)
    ensures j < |n.keys| && TurnedFirst(p, n.keys[j], q, p', b, q')
  {
    hide BufferPool.Valid, Rotated, Increasing, Distinct, TurnedFirst;
    var borrower := Fetch(pool, child);
    var n', c', l';
    n', c', l', b := RotateFirst(n, j, borrower.node, q, amount);
    p', q' := c', l';
    StoreThree(pool, q.pid, InternalPg(l'), child, InternalPg(c'), n.pid, InternalPg(n'));
  }

  // The left page takes over the separator and the right page.
  method MergeNodePair(pool: BufferPool, n: Node, ghost j: nat, to: PageID, from: PageID, ghost p: Node, ghost q: Node)
    returns (n': Node, ghost m: Node)
    requires pool.Valid() && pool.Touched == {} && n.pid in pool.Pins && |pool.Pins| + 2 <= pool.Budget()
    requires NodePair(pool.View, n, j, p, q) && to == p.pid && from == q.pid && |p.keys| + |q.keys| + 1 <= NUM_KEY_SLOTS
    modifies pool, pool.metas, pool.frames
    ensures pool.Valid() && pool.Touched == {} && pool.nextPid == old(pool.nextPid)
    ensures pool.Pins == old(pool.Pins) - multiset{n.pid}
    ensures j < |n.keys| && m == Node(p.pid, p.keys + [n.keys[j]] + q.keys, p.children + q.children)
    ensures n' == Node(n.pid, RemoveAt(n.keys, j), RemoveAt(n.children, j + 1))
    ensures pool.View == old(pool.View)[p.pid := InternalPg(m)][n.pid := InternalPg(n')]
  {
    hide BufferPool.Valid, Increasing, Distinct, RemoveAt;
    var toPage := Fetch(pool, to);
    var fromPage := Fetch(pool, from);
    var partition;
    partition, n' := TakeSeparator(n, j, to);
    var merged := MergeNodes(partition, toPage.node, fromPage.node);
    m := merged;
    WriteBack(pool, to, InternalPg(merged));
    Release(pool, from, false);
    WriteBack(pool, n.pid, InternalPg(n'));
  }
}
