// One page of a deletion's path, from the child's report to its own.
module DeleteSteps {
  import opened Bytes
  import opened Tuples
  import opened LeafLayout
  import LeafTransfers
  import opened InternalPages
  import opened Pages
  import opened BufferPools
  import opened Trees
  import opened TreeEdits
  import opened TreeStore
  import opened TreeDelete
  import opened Contents
  import opened PageOps
  import opened FindPage
  import opened DeleteOps
  import opened DeleteShape
  import opened DeleteSpec
  import opened Rebalance

  // ----- the leaf after a subtree -----

  ghost predicate Ends(s: PageMap, t: Tree, e: PageID) {
    e != 0 ==> e in s && s[e].LeafPg? && e !in Pids(t)
  }

  lemma {:induction false} FirstLeaf(s: PageMap, t: Tree, site: Site)
    requires Good(t, site) && Carries(s, t)
    ensures First(t) in Pids(t) && First(t) in s && s[First(t)].LeafPg?
    decreases t
  {
    match t
    case Lf(p) =>
    case Nd(n, kids) =>
      hide Shape, Own, Linked, Forest, OwnAll, LinkedAll, Fence, FirstOr, PidsAll, Carries;
        Unfold(n, kids, site);
        ChildOf(n, kids, 0, site);
        KidOf(s, n, kids, 0);
        FirstLeaf(s, kids[0], KidSite(n, kids, 0, site));
  }

  // The leaf after child i is the first one of child i + 1, or the leaf after the page.
  lemma EndsBelow(s: PageMap, n: Node, kids: seq<Tree>, i: nat, site: Site)
    requires Good(Nd(n, kids), site) && Carries(s, Nd(n, kids)) && i < |kids| && Ends(s, Nd(n, kids), site.e)
    ensures Ends(s, kids[i], FirstOr(kids[i + 1..], site.e))
  {
    hide Shape, Own, Linked, Forest, OwnAll, LinkedAll, Fence, PidsAll, Carries, First;
    ChildOf(n, kids, i, site);
    if i + 1 < |kids| {
      ChildOf(n, kids, i + 1, site);
      Unfold(n, kids, site);
      KidOf(s, n, kids, i + 1);
      FirstLeaf(s, kids[i + 1], KidSite(n, kids, i + 1, site));
      OwnApart(kids, i, i + 1);
    }
  }

  // The leaf after a pair of neighbours.
  lemma EndsPair(s: PageMap, n: Node, kids: seq<Tree>, i: nat, c: Tree, site: Site, j: nat)
    requires Below(s, n, kids, i, c, site) && Beside(kids, i, j) && Ends(s, Nd(n, kids), site.e)
    ensures Ends(s, Left(kids, i, c, j), FirstOr(kids[j + 2..], site.e))
    ensures Ends(s, Right(kids, i, c, j), FirstOr(kids[j + 2..], site.e))
  {
    hide Shape, Own, Linked, Forest, OwnAll, LinkedAll, Fence, PidsAll, Pids, Carries, First;
    ChildOf(n, kids, j, site);
    ChildOf(n, kids, j + 1, site);
    if j + 2 < |kids| {
      var k := j + 2;
      ChildOf(n, kids, k, site);
      Unfold(n, kids, site);
      assert kids[i + 1..][k - i - 1] == kids[k];
      FirstLeaf(s, kids[k], KidSite(n, kids, k, site));
      OwnApart(kids, j, k);
      OwnApart(kids, j + 1, k);
    }
  }

  // ----- what the two neighbours are -----

  // All children of a page are leaves, or none is.
  lemma KidKinds(s: PageMap, n: Node, kids: seq<Tree>, i: nat, c: Tree, site: Site, j: nat)
    requires Below(s, n, kids, i, c, site) && j < |kids|
    ensures kids[j].Lf? <==> c.Lf?
  {
    hide Own, Linked, Forest, OwnAll, LinkedAll, Fence, PidsAll, Pids, Carries, First, FirstOr, LeafLayout.Leaf.Valid;
    ChildOf(n, kids, j, site);
  }

  lemma LeafOf(s: PageMap, t: Tree, site: Site) returns (p: Leaf)
    requires Good(t, site) && Carries(s, t) && t.Lf?
    ensures t == Lf(p.(left := 0)) && p.pid in s && s[p.pid] == LeafPg(p) && p.Valid() && p.right == site.e
    ensures Pids(t) == {p.pid}
    ensures KeysIn(p.Live(), site.lo, site.hi) && site.h == 1
  {
    hide LeafLayout.Leaf.Valid, LeafLayout.Leaf.Live;
    p := s[t.leaf.pid].leaf;
    LeftPointer(p);
  }

  lemma LeafSite(s: PageMap, n: Node, kids: seq<Tree>, i: nat, c: Tree, site: Site, j: nat)
    returns (p: Leaf, q: Leaf)
    requires Below(s, n, kids, i, c, site) && Beside(kids, i, j) && c.Lf? && Ends(s, Nd(n, kids), site.e)
    ensures LeafPair(s, n, j, p, q) && NextLeaf(s, q.right, p.pid, q.pid)
    ensures Left(kids, i, c, j) == Lf(p.(left := 0)) && Right(kids, i, c, j) == Lf(q.(left := 0))
  {
    hide OwnAll, LinkedAll, PidsAll, Forest, Fence, FirstOr, Below, LeafLayout.Leaf.Valid, Shape, Own, Linked,
      Pids, First, Carries, Parent, Good;
    PairGood(s, n, kids, i, c, site, j);
    KidKinds(s, n, kids, i, c, site, j);
    KidKinds(s, n, kids, i, c, site, j + 1);
    EndsPair(s, n, kids, i, c, site, j);
    BelowParent(s, n, kids, i, c, site);
    var f := Fence(n.keys, site.lo, site.hi);
    var l, r := Left(kids, i, c, j), Right(kids, i, c, j);
    p := LeafOf(s, l, Site(f[j], n.keys[j], site.h - 1, j != i, First(r)));
    q := LeafOf(s, r, Site(n.keys[j], f[j + 2], site.h - 1, j + 1 != i, FirstOr(kids[j + 2..], site.e)));
    RangesBefore(p.Live(), q.Live(), f[j], n.keys[j], f[j + 2]);
  }

  lemma BelowParent(s: PageMap, n: Node, kids: seq<Tree>, i: nat, c: Tree, site: Site)
    requires Below(s, n, kids, i, c, site)
    ensures Parent(n) && n.pid in s && s[n.pid] == InternalPg(n) && |kids| == |n.keys| + 1 == |n.children|
  {
    hide Good, Parent;
    ParentOf(n, kids, site);
  }

  lemma RangesBefore(a: seq<Tuple>, b: seq<Tuple>, lo: int, mid: int, hi: int)
    requires KeysIn(a, lo, mid) && KeysIn(b, mid, hi)
    ensures LeafTransfers.Before(a, b)
  {
    hide TKey;
  }

  lemma NodeOf(s: PageMap, t: Tree, site: Site)
    requires Good(t, site) && Carries(s, t) && t.Nd?
    ensures t.node.pid in s && s[t.node.pid] == InternalPg(t.node) && Sound(t.node) && t.node.pid in Pids(t)
    ensures site.full ==> |t.node.keys| >= MIN_KEYS
  {
    hide Own, Linked, Forest, OwnAll, LinkedAll, Fence, FirstOr, PidsAll;
  }

  lemma NodeSite(s: PageMap, n: Node, kids: seq<Tree>, i: nat, c: Tree, site: Site, j: nat)
    requires Below(s, n, kids, i, c, site) && Beside(kids, i, j) && c.Nd?
    ensures Left(kids, i, c, j).Nd? && Right(kids, i, c, j).Nd?
    ensures NodePair(s, n, j, Left(kids, i, c, j).node, Right(kids, i, c, j).node)
    ensures i == j ==> |kids[j + 1].node.keys| >= MIN_KEYS
    ensures i == j + 1 ==> |kids[j].node.keys| >= MIN_KEYS
  {
    hide OwnAll, LinkedAll, PidsAll, Forest, Fence, FirstOr, Below, Shape, Own, Linked, Pids, First, Carries,
      Parent, Good, Sound;
    PairGood(s, n, kids, i, c, site, j);
    KidKinds(s, n, kids, i, c, site, j);
    KidKinds(s, n, kids, i, c, site, j + 1);
    BelowParent(s, n, kids, i, c, site);
    var f := Fence(n.keys, site.lo, site.hi);
    var l, r := Left(kids, i, c, j), Right(kids, i, c, j);
    NodeOf(s, l, Site(f[j], n.keys[j], site.h - 1, j != i, First(r)));
    NodeOf(s, r, Site(n.keys[j], f[j + 2], site.h - 1, j + 1 != i, FirstOr(kids[j + 2..], site.e)));
    PidNode(l);
    PidNode(r);
  }

  lemma PidNode(t: Tree)
    requires t.Nd?
    ensures Pid(t) == t.node.pid
  {
  }

  // ----- an underflown leaf -----

  // Between the recursive call and the page's own work.
  ghost predicate Midway(s: PageMap, s1: PageMap, n: Node, kids: seq<Tree>, i: nat, c: Tree, key: Key,
                         below: DeleteStatus, site: Site) {
    Descended(s, s1, n, kids, i, c, key, below, site) && Ends(s1, Nd(n, kids), site.e)
  }

  // The underflown leaf child i of the page is c; its neighbours are leaves.
  ghost predicate LeafTurn(s: PageMap, s1: PageMap, n: Node, kids: seq<Tree>, i: nat, c: Tree, key: Key,
                           below: DeleteStatus, site: Site) {
    && Midway(s, s1, n, kids, i, c, key, below, site)
    && below.kind == LeafKind && below.underflown
  }

  lemma LeafTurnParts(s: PageMap, s1: PageMap, n: Node, kids: seq<Tree>, i: nat, c: Tree, key: Key,
                      below: DeleteStatus, site: Site)
    requires LeafTurn(s, s1, n, kids, i, c, key, below, site)
    ensures Descended(s, s1, n, kids, i, c, key, below, site) && below.kind == LeafKind && below.underflown
  {
    hide Descended;
  }

  lemma LeafTurnSite(s: PageMap, s1: PageMap, n: Node, kids: seq<Tree>, i: nat, c: Tree, key: Key, below: DeleteStatus,
                     site: Site, j: nat) returns (p: Leaf, q: Leaf)
    requires LeafTurn(s, s1, n, kids, i, c, key, below, site) && Beside(kids, i, j)
    ensures LeafPair(s1, n, j, p, q) && NextLeaf(s1, q.right, p.pid, q.pid)
    ensures Below(s1, n, kids, i, c, site)
    ensures Left(kids, i, c, j) == Lf(p.(left := 0)) && Right(kids, i, c, j) == Lf(q.(left := 0))
    ensures below.currentSize == (if i == j then p.Used() else q.Used()) <= UNDERFLOW
    ensures i < |kids| && kids[i].Lf? && Asked(kids[i], key) == UNDERFLOW + 1 - below.currentSize
    ensures Underflows(kids[i], key) && (i == j + 1 ==> kids[j] == Lf(p.(left := 0)))
    ensures i == j ==> kids[j + 1] == Lf(q.(left := 0))
    ensures i == j + 1 ==>
              (LeftLends(kids, i, key) <==> LeafTransfers.CanLendLast(p, UNDERFLOW + 1 - below.currentSize))
    ensures i == j ==> (RightLends(kids, i, key) <==> LeafTransfers.CanLendFirst(q, UNDERFLOW + 1 - below.currentSize))
  {
    hide Descended, Below, LeafPair, NextLeaf, Ends, Underflows, Orphaned, SizeWith, LeafTransfers.LendsLast,
      LeafTransfers.LendsFirst, LeafLayout.Leaf.Live;
    DescendedBelow(s, s1, n, kids, i, c, key, below, site);
    p, q := LeafSite(s1, n, kids, i, c, site, j);
    KidKinds(s1, n, kids, i, c, site, i);
    LeftPointer(p);
    LeftPointer(q);
  }

  // A borrow settles the page: it is not short itself.
  lemma BorrowConcludes(s: PageMap, s1: PageMap, s2: PageMap, n: Node, kids: seq<Tree>, i: nat, c: Tree, key: Key,
                        below: DeleteStatus, site: Site, t': Tree)
    requires Descended(s, s1, n, kids, i, c, key, below, site)
    requires Settled(s1, s2, n, kids, i, c, t', site) && t'.Nd? && |t'.node.keys| == |n.keys|
    requires |kids| > 1 && i == UpperIndex(n.keys, key) < |kids|
    requires LeftLends(kids, i, key) || RightLends(kids, i, key)
    requires Mended(n, kids, i, c, key, t')
    ensures Deleted(s, s2, Nd(n, kids), t', key, DeleteStatus(false, InternalKind, 0, below.success), site)
  {
    hide Descended, Settled, Underflows, Orphaned, LeftLends, RightLends, UpperIndex, Deleted, Mended;
    UnderflowRule(n, kids, key);
    Concludes(s, s1, s2, n, kids, i, c, key, below, site, t', DeleteStatus(false, InternalKind, 0, below.success));
  }

  lemma TradeConcludes(s: PageMap, s1: PageMap, s2: PageMap, n: Node, kids: seq<Tree>, i: nat, c: Tree, key: Key,
                       below: DeleteStatus, site: Site, j: nat, p: Leaf, q: Leaf, p': Leaf, q': Leaf, b: Key)
    returns (t': Tree)
    requires LeafTurn(s, s1, n, kids, i, c, key, below, site) && Beside(kids, i, j)
    requires LeafPair(s1, n, j, p, q) && Below(s1, n, kids, i, c, site)
    requires Left(kids, i, c, j) == Lf(p.(left := 0)) && Right(kids, i, c, j) == Lf(q.(left := 0))
    requires LeavesTraded(s1, s2, n, j, p, q, p', q', b)
    requires LeafLent(kids, i, c, key, j, p, q, p', b, q')
    ensures Deleted(s, s2, Nd(n, kids), t', key, DeleteStatus(false, InternalKind, 0, below.success), site)
    ensures t'.Nd? && |t'.node.keys| == |n.keys|
  {
    hide Descended, Settled, Below, LeftLends, RightLends, UpperIndex, Deleted, Left, Right, LeafTransfers.Before,
      LeafLayout.Leaf.Valid, Parent, LeafLent, Mended, Traded;
    LentSide(kids, i, c, key, j, p, q, p', b, q');
    BelowParent(s1, n, kids, i, c, site);
    MendedTrade(n, kids, i, c, key, j, p, q, p', b, q');
    DescendedBelow(s, s1, n, kids, i, c, key, below, site);
    TradedStore(s1, s2, n, j, p, q, p', q', b);
    LeafTraded(s1, s2, n, kids, i, c, site, j, p, q, p', q', b);
    t' := Nd(n.(keys := n.keys[j := b]), kids[..j] + [Lf(p'.(left := 0)), Lf(q'.(left := 0))] + kids[j + 2..]);
    BorrowConcludes(s, s1, s2, n, kids, i, c, key, below, site, t');
  }

  // The neighbour that was due to lend has lent what the underflown leaf asked for.
  ghost predicate LeafLent(kids: seq<Tree>, i: nat, c: Tree, key: Key, j: nat, p: Leaf, q: Leaf, p': Leaf, b: Key,
                           q': Leaf) {
    && Beside(kids, i, j) && Underflows(kids[i], key)
    && (if i == j + 1 then
          && LeftLends(kids, i, key) && kids[j] == Lf(p.(left := 0)) && c == Lf(q.(left := 0))
          && LentLast(p, q, p', b, q', Asked(kids[i], key))
        else
          && !LeftLends(kids, i, key) && RightLends(kids, i, key)
          && c == Lf(p.(left := 0)) && kids[j + 1] == Lf(q.(left := 0))
          && LentFirst(p, q, p', b, q', Asked(kids[i], key)))
  }

  lemma LentSide(kids: seq<Tree>, i: nat, c: Tree, key: Key, j: nat, p: Leaf, q: Leaf, p': Leaf, b: Key, q': Leaf)
    requires LeafLent(kids, i, c, key, j, p, q, p', b, q')
    ensures LeftLends(kids, i, key) || RightLends(kids, i, key)
  {
    hide LeftLends, RightLends, Underflows, LentLast, LentFirst;
  }

  lemma MendedTrade(n: Node, kids: seq<Tree>, i: nat, c: Tree, key: Key, j: nat, p: Leaf, q: Leaf, p': Leaf, b: Key,
                    q': Leaf)
    requires LeafLent(kids, i, c, key, j, p, q, p', b, q') && |kids| == |n.keys| + 1
    ensures j + 1 < |kids|
    ensures Mended(n, kids, i, c, key, Nd(n.(keys := n.keys[j := b]),
                                          kids[..j] + [Lf(p'.(left := 0)), Lf(q'.(left := 0))] + kids[j + 2..]))
  {
    hide LeftLends, RightLends, Underflows, LentLast, LentFirst, Mended;
    LentNoLeft(p, q, p', b, q', Asked(kids[i], key));
    if i == j + 1 {
      MendedLeft(n, kids, i, c, key, Lf(p'.(left := 0)), b, Lf(q'.(left := 0)));
    } else {
      MendedRight(n, kids, i, c, key, Lf(p'.(left := 0)), b, Lf(q'.(left := 0)));
    }
  }

  lemma LentNoLeft(p: Leaf, q: Leaf, p': Leaf, b: Key, q': Leaf, needed: nat)
    ensures LentLast(p, q, p', b, q', needed) ==>
              LentLast(p.(left := 0), q.(left := 0), p'.(left := 0), b, q'.(left := 0), needed)
    ensures LentFirst(p, q, p', b, q', needed) ==>
              LentFirst(p.(left := 0), q.(left := 0), p'.(left := 0), b, q'.(left := 0), needed)
  {
    LeftPointer(p);
    LeftPointer(q);
    LeftPointer(p');
    LeftPointer(q');
    hide LeafLayout.Leaf.Live, LeafLayout.Leaf.Used, Cost, TKey;
    if k :| GrantedLast(p, needed, k) && MovedLast(p, q, p', b, q', k) {
      assert GrantedLast(p.(left := 0), needed, k);
      assert MovedLast(p.(left := 0), q.(left := 0), p'.(left := 0), b, q'.(left := 0), k);
    }
    if k :| GrantedFirst(q, needed, k) && MovedFirst(p, q, p', b, q', k) {
      assert GrantedFirst(q.(left := 0), needed, k);
      assert MovedFirst(p.(left := 0), q.(left := 0), p'.(left := 0), b, q'.(left := 0), k);
    }
  }

  lemma TradedStore(s: PageMap, s': PageMap, n: Node, j: nat, p: Leaf, q: Leaf, p': Leaf, q': Leaf, b: Key)
    requires LeafPair(s, n, j, p, q) && LeavesTraded(s, s', n, j, p, q, p', q', b)
    ensures Frame(s, s', {p.pid, q.pid, n.pid})
    ensures p.pid in s' && NoLeft(s'[p.pid]) == NoLeft(LeafPg(p')) && q.pid in s'
    ensures NoLeft(s'[q.pid]) == NoLeft(LeafPg(q'))
    ensures n.pid in s' && s'[n.pid] == InternalPg(n.(keys := n.keys[j := b])) && Traded(p, q, p', q', b)
  {
    hide Parent, LeafTransfers.Before, LeafLayout.Leaf.Valid, Traded;
  }

  // The left neighbour lends what the leaf is short of, if it can.
  method TryLeafLeft(pool: BufferPool, n: Node, left: PageID, child: PageID, below: DeleteStatus, ghost s: PageMap,
                     ghost kids: seq<Tree>, ghost i: nat, ghost c: Tree, ghost key: Key, ghost site: Site)
    returns (done: bool, ghost t': Tree)
    requires pool.Valid() && pool.Touched == {} && n.pid in pool.Pins && |pool.Pins| + 2 <= pool.Budget()
    requires LeafTurn(s, pool.View, n, kids, i, c, key, below, site)
    requires 0 < i < |kids| == |n.children| && left == n.children[i - 1] && child == n.children[i]
    modifies pool, pool.metas, pool.frames
    ensures pool.Valid() && pool.Touched == {} && pool.nextPid == old(pool.nextPid)
    ensures done <==> LeftLends(kids, i, key)
    ensures !done ==> pool.View == old(pool.View) && pool.Pins == old(pool.Pins)
    ensures done ==> pool.Pins == old(pool.Pins) - multiset{n.pid}
    ensures done ==>
              Deleted(s, pool.View, Nd(n, kids), t', key, DeleteStatus(false, InternalKind, 0, below.success), site)
    ensures done ==> t'.Nd? && |t'.node.keys| == |n.keys|
  {
    hide BufferPool.Valid, LeafTurn, LeftLends, RightLends, Deleted, Below, LeavesTraded,
      LeafTransfers.CanLendLast, NextLeaf, LentLast, Asked, Underflows;
    ghost var s1 := pool.View;
    ghost var j := i - 1;
    ghost var p, q := LeafTurnSite(s, s1, n, kids, i, c, key, below, site, j);
    LeafSitePids(s1, n, j, p, q);
    var needed := UNDERFLOW + 1 - below.currentSize;
    ghost var p', q', b;
    done, p', q', b := BorrowFromLeft(pool, n, j, left, child, needed, p, q);
    t' := c;
    if done {
      t' := TradeConcludes(s, s1, pool.View, n, kids, i, c, key, below, site, j, p, q, p', q', b);
    }
  }

  lemma LeafSitePids(s: PageMap, n: Node, j: nat, p: Leaf, q: Leaf)
    requires LeafPair(s, n, j, p, q)
    ensures j + 1 < |n.children| && n.children[j] == p.pid && n.children[j + 1] == q.pid && n.pid in s && p.pid in s
            && q.pid in s
  {
  }

  method TryLeafRight(pool: BufferPool, n: Node, child: PageID, right: PageID, below: DeleteStatus, ghost s: PageMap,
                      ghost kids: seq<Tree>, ghost i: nat, ghost c: Tree, ghost key: Key, ghost site: Site)
    returns (done: bool, ghost t': Tree)
    requires pool.Valid() && pool.Touched == {} && n.pid in pool.Pins && |pool.Pins| + 2 <= pool.Budget()
    requires LeafTurn(s, pool.View, n, kids, i, c, key, below, site)
    requires i + 1 < |kids| == |n.children| && child == n.children[i] && right == n.children[i + 1]
    requires !LeftLends(kids, i, key)
    modifies pool, pool.metas, pool.frames
    ensures pool.Valid() && pool.Touched == {} && pool.nextPid == old(pool.nextPid)
    ensures done <==> RightLends(kids, i, key)
    ensures !done ==> pool.View == old(pool.View) && pool.Pins == old(pool.Pins)
    ensures done ==> pool.Pins == old(pool.Pins) - multiset{n.pid}
    ensures done ==>
              Deleted(s, pool.View, Nd(n, kids), t', key, DeleteStatus(false, InternalKind, 0, below.success), site)
    ensures done ==> t'.Nd? && |t'.node.keys| == |n.keys|
  {
    hide BufferPool.Valid, LeafTurn, LeftLends, RightLends, Deleted, Below, LeavesTraded,
      LeafTransfers.CanLendFirst, NextLeaf, LentFirst, Asked, Underflows;
    ghost var s1 := pool.View;
    ghost var p, q := LeafTurnSite(s, s1, n, kids, i, c, key, below, site, i);
    LeafSitePids(s1, n, i, p, q);
    var needed := UNDERFLOW + 1 - below.currentSize;
    ghost var p', q', b;
    done, p', q', b := BorrowFromRight(pool, n, i, child, right, needed, p, q);
    t' := c;
    if done {
      t' := TradeConcludes(s, s1, pool.View, n, kids, i, c, key, below, site, i, p, q, p', q', b);
    }
  }

  // ----- merging the underflown leaf with a neighbour that refused -----

  // Neighbour j or j + 1, the one that is not child i, was asked and refused.
  ghost predicate Refused(kids: seq<Tree>, i: nat, key: Key, j: nat) {
    Beside(kids, i, j) && (if i == j then !RightLends(kids, i, key) else !LeftLends(kids, i, key))
  }

  lemma RefusedFits(s: PageMap, s1: PageMap, n: Node, kids: seq<Tree>, i: nat, c: Tree, key: Key, below: DeleteStatus,
                    site: Site, j: nat) returns (p: Leaf, q: Leaf)
    requires LeafTurn(s, s1, n, kids, i, c, key, below, site) && Refused(kids, i, key, j)
    ensures LeafPair(s1, n, j, p, q) && NextLeaf(s1, q.right, p.pid, q.pid)
    ensures Below(s1, n, kids, i, c, site)
    ensures Left(kids, i, c, j) == Lf(p.(left := 0)) && Right(kids, i, c, j) == Lf(q.(left := 0))
    ensures p.Used() + q.Used() <= USABLE
  {
    hide LeafTurn, LeftLends, RightLends, Left, Right, Below, NextLeaf, LeafTransfers.CanLendLast,
      LeafTransfers.CanLendFirst,
      LeafLayout.Leaf.Valid, LeafLayout.Leaf.Used, Parent, LeafTransfers.Before;
    p, q := LeafTurnSite(s, s1, n, kids, i, c, key, below, site, j);
    UsedMeaning(p);
    UsedMeaning(q);
    if i == j {
      LeafTransfers.RefusalFits(q, p.Used(), UNDERFLOW + 1 - p.Used());
    } else {
      LeafTransfers.RefusalFits(p, q.Used(), UNDERFLOW + 1 - q.Used());
    }
  }

  // The two pages' parent, once it is written, settles.
  ghost predicate MergeSettles(s1: PageMap, s2: PageMap, n: Node, kids: seq<Tree>, i: nat, c: Tree, site: Site, j: nat,
                               n': Node, w: Tree) {
    && Beside(kids, i, j) && |kids| == |n.keys| + 1 == |n.children|
    && n' == Node(n.pid, RemoveAt(n.keys, j), RemoveAt(n.children, j + 1))
    && Joined(Left(kids, i, c, j), n.keys[j], Right(kids, i, c, j), w)
    && Settled(s1, s2, n, kids, i, c, Nd(n', kids[..j] + [w] + kids[j + 2..]),
               site.(full := site.full && |n.keys| > MIN_KEYS))
  }

  lemma LeavesSettle(s1: PageMap, s2: PageMap, n: Node, kids: seq<Tree>, i: nat, c: Tree, site: Site, j: nat, p: Leaf,
                     q: Leaf, m: Leaf, n': Node)
    requires Below(s1, n, kids, i, c, site) && Beside(kids, i, j) && LeafPair(s1, n, j, p, q)
    requires Left(kids, i, c, j) == Lf(p.(left := 0)) && Right(kids, i, c, j) == Lf(q.(left := 0))
    requires LeavesMerged(s1, s2, p, q, m)
    requires j < |n.keys| && n' == Node(n.pid, RemoveAt(n.keys, j), RemoveAt(n.children, j + 1))
    ensures MergeSettles(s1, s2[n.pid := InternalPg(n')], n, kids, i, c, site, j, n', Lf(m.(left := 0)))
  {
    hide Below, Settled, Left, Right, LeafTransfers.Before, LeafLayout.Leaf.Valid, LeafLayout.Leaf.Live,
      Increasing, Distinct, RemoveAt;
    BelowParent(s1, n, kids, i, c, site);
    LeftPointer(p);
    LeftPointer(q);
    LeftPointer(m);
    LeafMerged(s1, s2[n.pid := InternalPg(n')], n, kids, i, c, site, j, p, q, m, n');
  }

  // Merges two leaves below the page; the parent's new content is computed but not
  // written yet, and both leaves stay pinned.
  method MergeLeafStep(pool: BufferPool, n: Node, to: PageID, from: PageID, below: DeleteStatus, ghost s: PageMap,
                       ghost kids: seq<Tree>, ghost i: nat, ghost c: Tree, ghost key: Key, ghost site: Site,
                       ghost j: nat)
    returns (n': Node, ghost w: Tree)
    requires pool.Valid() && pool.Touched == {} && n.pid in pool.Pins && |pool.Pins| + 3 <= pool.Budget()
    requires LeafTurn(s, pool.View, n, kids, i, c, key, below, site) && Refused(kids, i, key, j)
    requires |kids| == |n.children| && to == n.children[j] && from == n.children[j + 1]
    modifies pool, pool.metas, pool.frames
    ensures pool.Valid() && pool.Touched == {to} && pool.nextPid == old(pool.nextPid)
    ensures pool.Pins == old(pool.Pins) + multiset{to} + multiset{from}
    ensures to != from && n.pid != to && n.pid != from && n.pid in pool.View && n'.pid == n.pid
    ensures to in pool.View && pool.View[to].LeafPg?
    ensures MergeSettles(old(pool.View), pool.View[n.pid := InternalPg(n')], n, kids, i, c, site, j, n', w)
  {
    hide BufferPool.Valid, LeafTurn, LeftLends, RightLends, Left, Right, Below, NextLeaf, LeafTransfers.Before,
      Increasing, Distinct,
      LeafLayout.Leaf.Valid, LeafLayout.Leaf.Used, LeavesMerged, MergeSettles, RemoveAt;
    ghost var s1 := pool.View;
    ghost var p, q := RefusedFits(s, s1, n, kids, i, c, key, below, site, j);
    ghost var m := MergePair(pool, to, from, p, q);
    n' := DropChild(n, j, to, from);
    w := Lf(m.(left := 0));
    LeavesSettle(s1, pool.View, n, kids, i, c, site, j, p, q, m, n');
  }

  // The report after a merge: short by a key if it had no more than MIN_KEYS.
  lemma MergeConcludes(s: PageMap, s1: PageMap, s2: PageMap, n: Node, kids: seq<Tree>, i: nat, c: Tree, key: Key,
                       below: DeleteStatus, site: Site, j: nat, n': Node, w: Tree, st: DeleteStatus)
    returns (t': Tree)
    requires Descended(s, s1, n, kids, i, c, key, below, site) && below.underflown
    requires MergeSettles(s1, s2, n, kids, i, c, site, j, n', w) && j == (if i > 0 then i - 1 else 0)
    requires !LeftLends(kids, i, key) && !RightLends(kids, i, key)
    requires var used := PAIR_SIZE * |n'.keys| + 8;
             st == DeleteStatus(used <= INTERNAL_UNDERFLOW, InternalKind, used, below.success)
    requires site.full ==> |n.keys| >= MIN_KEYS
    ensures Deleted(s, s2, Nd(n, kids), t', key, st, site)
    ensures t'.Nd? && t'.node.keys == n'.keys
  {
    hide Descended, Settled, Underflows, Orphaned, LeftLends, RightLends, UpperIndex, Deleted, Below, Mended, Joined,
      Left, Right;
    DescendedBelow(s, s1, n, kids, i, c, key, below, site);
    UnderflowRule(n, kids, key);
    t' := Nd(n', kids[..j] + [w] + kids[j + 2..]);
    MendedJoin(n, kids, i, c, key, j, w);
    Concludes(s, s1, s2, n, kids, i, c, key, below, site, t', st);
  }

  method SettleMerge(pool: BufferPool, n': Node, to: PageID, from: PageID, below: DeleteStatus, ghost s: PageMap,
                     ghost s1: PageMap, ghost n: Node, ghost kids: seq<Tree>, ghost i: nat, ghost c: Tree,
                     ghost key: Key, ghost site: Site, ghost j: nat, ghost w: Tree)
    returns (st: DeleteStatus, ghost t': Tree)
    requires pool.Valid() && pool.Touched == {to} && to in pool.Pins && from in pool.Pins && n'.pid in pool.Pins
    requires n'.pid in pool.View && to != from && n'.pid != to && n'.pid != from
    requires Descended(s, s1, n, kids, i, c, key, below, site) && below.underflown && i < |kids|
    requires MergeSettles(s1, pool.View[n'.pid := InternalPg(n')], n, kids, i, c, site, j, n', w)
    requires j == (if i > 0 then i - 1 else 0)
    requires !LeftLends(kids, i, key) && !RightLends(kids, i, key) && (site.full ==> |n.keys| >= MIN_KEYS)
    modifies pool, pool.metas, pool.frames
    ensures pool.Valid() && pool.Touched == {} && pool.nextPid == old(pool.nextPid)
    ensures pool.Pins == old(pool.Pins) - multiset{n'.pid} - multiset{to} - multiset{from}
    ensures st.kind == InternalKind && Deleted(s, pool.View, Nd(n, kids), t', key, st, site)
    ensures t'.Nd? && t'.node.keys == n'.keys
  {
    hide BufferPool.Valid, Descended, Deleted, LeftLends, RightLends, MergeSettles;
    ghost var s2 := pool.View[n'.pid := InternalPg(n')];
    FinishMerge(pool, n', to, from);
    var used := PAIR_SIZE * |n'.keys| + 8;
    st := DeleteStatus(used <= INTERNAL_UNDERFLOW, InternalKind, used, below.success);
    t' := MergeConcludes(s, s1, s2, n, kids, i, c, key, below, site, j, n', w, st);
  }

  lemma MergeCollapses(s: PageMap, s1: PageMap, s2: PageMap, s3: PageMap, n: Node, kids: seq<Tree>, i: nat, c: Tree,
                       key: Key, below: DeleteStatus, site: Site, j: nat, n': Node, w: Tree, st: DeleteStatus)
    requires Descended(s, s1, n, kids, i, c, key, below, site) && n'.keys == []
    requires MergeSettles(s1, s2, n, kids, i, c, site, j, n', w) && st.success == below.success
    requires below.kind == LeafKind && below.underflown && i < |kids|
    requires !LeftLends(kids, i, key) && !RightLends(kids, i, key)
    requires META_PID in s && s[META_PID].MetaPage?
    requires s3 == s2[META_PID := MetaPage(s[META_PID].magic, Pid(w))] - {n.pid}
    ensures Collapsed(s, s3, Nd(n, kids), w, key, st, site) && n'.children == [Pid(w)]
  {
    hide Descended, Settled, Underflows, Orphaned, Collapsed, LeftLends, RightLends, Joined, Left, Right;
    assert kids[..j] + [w] + kids[j + 2..] == [w] && !(site.full && |n.keys| > MIN_KEYS);
    DescendedBelow(s, s1, n, kids, i, c, key, below, site);
    ConcludesAtRoot(s, s1, s2, s3, n, kids, i, c, key, below, site, n', w, st);
  }

  // ----- an underflown internal page -----

  // The underflown child i of the page is the internal page c; so are its neighbours.
  ghost predicate NodeTurn(s: PageMap, s1: PageMap, n: Node, kids: seq<Tree>, i: nat, c: Tree, key: Key,
                           below: DeleteStatus, site: Site) {
    && Descended(s, s1, n, kids, i, c, key, below, site)
    && below.kind == InternalKind && below.underflown && |kids| > 1
  }

  lemma NodeTurnSite(s: PageMap, s1: PageMap, n: Node, kids: seq<Tree>, i: nat, c: Tree, key: Key, below: DeleteStatus,
                     site: Site, j: nat) returns (p: Node, q: Node)
    requires NodeTurn(s, s1, n, kids, i, c, key, below, site) && Beside(kids, i, j)
    ensures NodePair(s1, n, j, p, q) && Below(s1, n, kids, i, c, site)
    ensures Left(kids, i, c, j).Nd? && Left(kids, i, c, j).node == p && Right(kids, i, c, j).Nd?
    ensures Right(kids, i, c, j).node == q
    ensures INTERNAL_UNDERFLOW + 1 - below.currentSize == 3
    ensures i == j ==> |p.keys| + 1 == MIN_KEYS <= |q.keys| && (RightLends(kids, i, key) <==> |q.keys| > MIN_KEYS)
    ensures i == j + 1 ==> |q.keys| + 1 == MIN_KEYS <= |p.keys| && (LeftLends(kids, i, key) <==> |p.keys| > MIN_KEYS)
  {
    hide Descended, Below, NodePair, Underflows, Orphaned;
    DescendedBelow(s, s1, n, kids, i, c, key, below, site);
    NodeSite(s1, n, kids, i, c, site, j);
    p, q := Left(kids, i, c, j).node, Right(kids, i, c, j).node;
  }

  lemma RotateConcludes(s: PageMap, s1: PageMap, s2: PageMap, n: Node, kids: seq<Tree>, i: nat, c: Tree, key: Key,
                        below: DeleteStatus, site: Site, j: nat, p: Node, q: Node, p': Node, q': Node, b: Key)
    returns (t': Tree)
    requires NodeTurn(s, s1, n, kids, i, c, key, below, site) && Beside(kids, i, j)
    requires NodePair(s1, n, j, p, q) && Below(s1, n, kids, i, c, site)
    requires Left(kids, i, c, j).Nd? && Left(kids, i, c, j).node == p && Right(kids, i, c, j).Nd?
    requires Right(kids, i, c, j).node == q
    requires NodesTraded(s1, s2, n, j, p, q, p', q', b) && |p.keys| > 0 && |q.keys| > 0 && j < |n.keys|
    requires if i == j + 1 then LeftLends(kids, i, key) && TurnedLast(p, n.keys[j], q, p', b, q')
             else !LeftLends(kids, i, key) && RightLends(kids, i, key) && TurnedFirst(p, n.keys[j], q, p', b, q')
    ensures Deleted(s, s2, Nd(n, kids), t', key, DeleteStatus(false, InternalKind, 0, below.success), site)
  {
    hide Descended, Settled, Below, LeftLends, RightLends, UpperIndex, Deleted, Left, Right, Parent, TurnedLast,
      TurnedFirst, Mended, Underflows, Rotated;
    DescendedBelow(s, s1, n, kids, i, c, key, below, site);
    BelowParent(s1, n, kids, i, c, site);
    RotatedStore(s1, s2, n, j, p, q, p', q', b);
    var kl, kr := Left(kids, i, c, j).kids, Right(kids, i, c, j).kids;
    t' := NodeRotated(s1, s2, n, kids, i, c, site, j, p, kl, q, kr, p', q', b);
    MendedTurn(n, kids, i, c, key, j, p, kl, q, kr, p', q', b);
    BorrowConcludes(s, s1, s2, n, kids, i, c, key, below, site, t');
  }

  lemma MendedTurn(n: Node, kids: seq<Tree>, i: nat, c: Tree, key: Key, j: nat, p: Node, kl: seq<Tree>, q: Node,
                   kr: seq<Tree>, p': Node, q': Node, b: Key)
    requires Beside(kids, i, j) && |kids| == |n.keys| + 1 && Underflows(kids[i], key)
    requires Left(kids, i, c, j) == Nd(p, kl) && Right(kids, i, c, j) == Nd(q, kr)
    requires |kl| == |p.children| && |kr| == |q.children| && |p'.children| <= |kl + kr|
    requires if i == j + 1 then LeftLends(kids, i, key) && TurnedLast(p, n.keys[j], q, p', b, q')
             else !LeftLends(kids, i, key) && RightLends(kids, i, key) && TurnedFirst(p, n.keys[j], q, p', b, q')
    ensures var k := |p'.children|;
            Mended(n, kids, i, c, key,
                   Nd(n.(keys := n.keys[j := b]),
                      kids[..j] + [Nd(p', (kl + kr)[..k]), Nd(q', (kl + kr)[k..])] + kids[j + 2..]))
  {
    hide LeftLends, RightLends, Underflows, Mended;
    var k := |p'.children|;
    var l, r := Nd(p', (kl + kr)[..k]), Nd(q', (kl + kr)[k..]);
    if i == j + 1 {
      assert l.kids == kl[..k] && r.kids == [kl[k]] + kr;
      MendedLeft(n, kids, i, c, key, l, b, r);
    } else {
      assert l.kids == kl + [kr[0]] && r.kids == kr[1..];
      MendedRight(n, kids, i, c, key, l, b, r);
    }
  }

  lemma RotatedStore(s: PageMap, s': PageMap, n: Node, j: nat, p: Node, q: Node, p': Node, q': Node, b: Key)
    requires NodePair(s, n, j, p, q) && NodesTraded(s, s', n, j, p, q, p', q', b)
    ensures Frame(s, s', {p.pid, q.pid, n.pid})
    ensures p.pid in s' && s'[p.pid] == InternalPg(p') && q.pid in s' && s'[q.pid] == InternalPg(q')
    ensures n.pid in s' && s'[n.pid] == InternalPg(n.(keys := n.keys[j := b])) && Rotated(p, n.keys[j], q, p', b, q')
  {
    hide Parent, Rotated;
  }

  lemma NodeSitePids(s: PageMap, n: Node, j: nat, p: Node, q: Node)
    requires NodePair(s, n, j, p, q)
    ensures j < |n.keys| && j + 1 < |n.children| && n.children[j] == p.pid && n.children[j + 1] == q.pid
  {
    hide Increasing, Distinct;
  }

  method TryNodeLeft(pool: BufferPool, n: Node, left: PageID, child: PageID, below: DeleteStatus, ghost s: PageMap,
                     ghost kids: seq<Tree>, ghost i: nat, ghost c: Tree, ghost key: Key, ghost site: Site)
    returns (done: bool, ghost t': Tree)
    requires pool.Valid() && pool.Touched == {} && n.pid in pool.Pins && |pool.Pins| + 2 <= pool.Budget()
    requires NodeTurn(s, pool.View, n, kids, i, c, key, below, site)
    requires 0 < i < |kids| == |n.children| && left == n.children[i - 1] && child == n.children[i]
    modifies pool, pool.metas, pool.frames
    ensures pool.Valid() && pool.Touched == {} && pool.nextPid == old(pool.nextPid)
    ensures done <==> LeftLends(kids, i, key)
    ensures !done ==> pool.View == old(pool.View) && pool.Pins == old(pool.Pins)
    ensures done ==> pool.Pins == old(pool.Pins) - multiset{n.pid}
    ensures done ==>
              Deleted(s, pool.View, Nd(n, kids), t', key, DeleteStatus(false, InternalKind, 0, below.success), site)
  {
    hide BufferPool.Valid, NodeTurn, LeftLends, RightLends, Left, Right, Deleted, Below, NodesTraded, NodePair,
      TurnedLast, TurnedFirst;
    ghost var s1 := pool.View;
    ghost var j := i - 1;
    ghost var p, q := NodeTurnSite(s, s1, n, kids, i, c, key, below, site, j);
    NodeSitePids(s1, n, j, p, q);
    var needed := INTERNAL_UNDERFLOW + 1 - below.currentSize;
    ghost var p', q', b;
    done, p', q', b := RotateFromLeft(pool, n, j, left, child, needed, p, q);
    t' := c;
    if done {
      t' := RotateConcludes(s, s1, pool.View, n, kids, i, c, key, below, site, j, p, q, p', q', b);
    }
  }

  method TryNodeRight(pool: BufferPool, n: Node, child: PageID, right: PageID, below: DeleteStatus, ghost s: PageMap,
                      ghost kids: seq<Tree>, ghost i: nat, ghost c: Tree, ghost key: Key, ghost site: Site)
    returns (done: bool, ghost t': Tree)
    requires pool.Valid() && pool.Touched == {} && n.pid in pool.Pins && |pool.Pins| + 2 <= pool.Budget()
    requires NodeTurn(s, pool.View, n, kids, i, c, key, below, site)
    requires i + 1 < |kids| == |n.children| && child == n.children[i] && right == n.children[i + 1]
    requires !LeftLends(kids, i, key)
    modifies pool, pool.metas, pool.frames
    ensures pool.Valid() && pool.Touched == {} && pool.nextPid == old(pool.nextPid)
    ensures done <==> RightLends(kids, i, key)
    ensures !done ==> pool.View == old(pool.View) && pool.Pins == old(pool.Pins)
    ensures done ==> pool.Pins == old(pool.Pins) - multiset{n.pid}
    ensures done ==>
              Deleted(s, pool.View, Nd(n, kids), t', key, DeleteStatus(false, InternalKind, 0, below.success), site)
  {
    hide BufferPool.Valid, NodeTurn, LeftLends, RightLends, Left, Right, Deleted, Below, NodesTraded, NodePair,
      TurnedLast, TurnedFirst;
    ghost var s1 := pool.View;
    ghost var p, q := NodeTurnSite(s, s1, n, kids, i, c, key, below, site, i);
    NodeSitePids(s1, n, i, p, q);
    var needed := INTERNAL_UNDERFLOW + 1 - below.currentSize;
    ghost var p', q', b;
    done, p', q', b := RotateFromRight(pool, n, i, child, right, needed, p, q);
    t' := c;
    if done {
      t' := RotateConcludes(s, s1, pool.View, n, kids, i, c, key, below, site, i, p, q, p', q', b);
    }
  }

  // Merges two internal pages below the page: 127 and 126 keys and the separator
  // make exactly the 254 a page holds.
  method MergeNodeStep(pool: BufferPool, n: Node, to: PageID, from: PageID, below: DeleteStatus, ghost s: PageMap,
                       ghost kids: seq<Tree>, ghost i: nat, ghost c: Tree, ghost key: Key, ghost site: Site,
                       ghost j: nat)
    returns (st: DeleteStatus, ghost t': Tree)
    requires pool.Valid() && pool.Touched == {} && n.pid in pool.Pins && |pool.Pins| + 2 <= pool.Budget()
    requires NodeTurn(s, pool.View, n, kids, i, c, key, below, site)
    requires Beside(kids, i, j) && !LeftLends(kids, i, key) && !RightLends(kids, i, key)
    requires (site.full ==> |n.keys| >= MIN_KEYS) && j == (if i > 0 then i - 1 else 0)
    requires |kids| == |n.children| && to == n.children[j] && from == n.children[j + 1]
    modifies pool, pool.metas, pool.frames
    ensures pool.Valid() && pool.Touched == {} && pool.nextPid == old(pool.nextPid)
    ensures pool.Pins == old(pool.Pins) - multiset{n.pid} && st.kind == InternalKind
    ensures Deleted(s, pool.View, Nd(n, kids), t', key, st, site)
  {
    hide BufferPool.Valid, NodeTurn, LeftLends, RightLends, Left, Right, Below, NodePair, Deleted, RemoveAt;
    ghost var s1 := pool.View;
    ghost var p, q := NodeTurnSite(s, s1, n, kids, i, c, key, below, site, j);
    NodeSitePids(s1, n, j, p, q);
    ghost var m;
    var n';
    n', m := MergeNodePair(pool, n, j, to, from, p, q);
    var used := PAIR_SIZE * |n'.keys| + 8;
    st := DeleteStatus(used <= INTERNAL_UNDERFLOW, InternalKind, used, below.success);
    t' := NodesConclude(s, s1, pool.View, n, kids, i, c, key, below, site, j, p, q, m, n', st);
  }

  lemma NodesConclude(s: PageMap, s1: PageMap, s2: PageMap, n: Node, kids: seq<Tree>, i: nat, c: Tree, key: Key,
                      below: DeleteStatus, site: Site, j: nat, p: Node, q: Node, m: Node, n': Node, st: DeleteStatus)
    returns (t': Tree)
    requires NodeTurn(s, s1, n, kids, i, c, key, below, site) && Beside(kids, i, j)
    requires NodePair(s1, n, j, p, q) && Below(s1, n, kids, i, c, site)
    requires Left(kids, i, c, j).Nd? && Left(kids, i, c, j).node == p && Right(kids, i, c, j).Nd?
    requires Right(kids, i, c, j).node == q
    requires !LeftLends(kids, i, key) && !RightLends(kids, i, key) && |p.keys| > 0 && |q.keys| > 0
    requires j == (if i > 0 then i - 1 else 0)
    requires |p.keys| + |q.keys| + 1 == NUM_KEY_SLOTS && j < |n.keys| && j + 1 < |n.children|
    requires m == Node(p.pid, p.keys + [n.keys[j]] + q.keys, p.children + q.children)
    requires n' == Node(n.pid, RemoveAt(n.keys, j), RemoveAt(n.children, j + 1))
    requires s2 == s1[p.pid := InternalPg(m)][n.pid := InternalPg(n')]
    requires var used := PAIR_SIZE * |n'.keys| + 8;
             st == DeleteStatus(used <= INTERNAL_UNDERFLOW, InternalKind, used, below.success)
    requires site.full ==> |n.keys| >= MIN_KEYS
    ensures Deleted(s, s2, Nd(n, kids), t', key, st, site)
  {
    hide Descended, Settled, Below, LeftLends, RightLends, Underflows, Orphaned, UpperIndex, Deleted, Left, Right,
      Parent, Mended;
    DescendedBelow(s, s1, n, kids, i, c, key, below, site);
    UnderflowRule(n, kids, key);
    BelowParent(s1, n, kids, i, c, site);
    MendedJoin(n, kids, i, c, key, j, Nd(m, Left(kids, i, c, j).kids + Right(kids, i, c, j).kids));
    t' := NodeMerged(s1, s2, n, kids, i, c, site, j, p, Left(kids, i, c, j).kids, q, Right(kids, i, c, j).kids, m, n');
    Concludes(s, s1, s2, n, kids, i, c, key, below, site, t', st);
  }

  // ----- the page as a whole -----

  // The child needs no attention, or is an only child that nobody can help; in the
  // second case the program reports failure whether or not it found the key.
  lemma LeaveConcludes(s: PageMap, s1: PageMap, n: Node, kids: seq<Tree>, i: nat, c: Tree, key: Key,
                       below: DeleteStatus, site: Site, st: DeleteStatus)
    returns (t': Tree)
    requires Descended(s, s1, n, kids, i, c, key, below, site)
    requires i < |kids| && (below.underflown ==> |kids| == 1)
    requires st == DeleteStatus(false, InternalKind, 0, !below.underflown && below.success)
    ensures Deleted(s, s1, Nd(n, kids), t', key, st, site)
    ensures t'.Nd? && t'.node.keys == n.keys
  {
    hide Descended, Below, Settled, Underflows, Orphaned, LeftLends, RightLends, UpperIndex, Deleted, Good, Fence,
      FirstOr, Mended;
    DescendedBelow(s, s1, n, kids, i, c, key, below, site);
    UnderflowRule(n, kids, key);
    t' := Nd(n, kids[..i] + [c] + kids[i + 1..]);
    ChildSettles(s1, n, kids, i, c, site);
    LeftAlone(n, kids, i, c, key);
    Concludes(s, s1, s1, n, kids, i, c, key, below, site, t', st);
  }

  // Facts about the page that its own code relies on.
  ghost predicate OnPath(n: Node, kids: seq<Tree>, i: nat, child: PageID, full: bool) {
    Parent(n) && i < |kids| == |n.children| && n.children[i] == child && (full ==> |n.keys| >= MIN_KEYS)
  }

  lemma PathFacts(s: PageMap, s1: PageMap, n: Node, kids: seq<Tree>, i: nat, c: Tree, key: Key, below: DeleteStatus,
                  site: Site)
    requires Descended(s, s1, n, kids, i, c, key, below, site)
    ensures OnPath(n, kids, i, Pid(kids[i]), site.full)
  {
    hide OwnAll, LinkedAll, PidsAll, Forest, Fence, FirstOr, Own, Linked, Pids, First, Carries, Flat, Frame,
      Without, HasKey,
      Underflows, Orphaned, Reports, Shape, UpperIndex, Parent, Deleted;
    ParentOf(n, kids, site);
    Unfold(n, kids, site);
  }

  // An internal page returns to its parent after work on an internal child.
  method AfterNode(pool: BufferPool, n: Node, child: PageID, below: DeleteStatus, ghost s: PageMap,
                   ghost kids: seq<Tree>, ghost i: nat, ghost c: Tree, ghost key: Key, ghost site: Site)
    returns (st: DeleteStatus, ghost t': Tree)
    requires pool.Valid() && pool.Touched == {} && n.pid in pool.Pins && |pool.Pins| + 2 <= pool.Budget()
    requires Descended(s, pool.View, n, kids, i, c, key, below, site) && below.kind == InternalKind
    requires i < |kids| && child == Pid(kids[i])
    modifies pool, pool.metas, pool.frames
    ensures pool.Valid() && pool.Touched == {} && pool.nextPid == old(pool.nextPid)
    ensures pool.Pins == old(pool.Pins) - multiset{n.pid} && st.kind == InternalKind
    ensures Deleted(s, pool.View, Nd(n, kids), t', key, st, site)
  {
    hide BufferPool.Valid, Descended, Deleted, LeftLends, RightLends, Parent, Pid;
    PathFacts(s, pool.View, n, kids, i, c, key, below, site);
    if below.underflown {
      st, t' := RepairNode(pool, n, child, below, s, kids, i, c, key, site);
    } else {
      st := DeleteStatus(false, InternalKind, 0, below.success);
      t' := LeaveConcludes(s, pool.View, n, kids, i, c, key, below, site, st);
      Release(pool, n.pid, true);
    }
  }

  method RepairNode(pool: BufferPool, n: Node, child: PageID, below: DeleteStatus, ghost s: PageMap,
                    ghost kids: seq<Tree>, ghost i: nat, ghost c: Tree, ghost key: Key, ghost site: Site)
    returns (st: DeleteStatus, ghost t': Tree)
    requires pool.Valid() && pool.Touched == {} && n.pid in pool.Pins && |pool.Pins| + 2 <= pool.Budget()
    requires Descended(s, pool.View, n, kids, i, c, key, below, site)
    requires below.kind == InternalKind && below.underflown && OnPath(n, kids, i, child, site.full)
    modifies pool, pool.metas, pool.frames
    ensures pool.Valid() && pool.Touched == {} && pool.nextPid == old(pool.nextPid)
    ensures pool.Pins == old(pool.Pins) - multiset{n.pid} && st.kind == InternalKind
    ensures Deleted(s, pool.View, Nd(n, kids), t', key, st, site)
  {
    hide BufferPool.Valid, Descended, Deleted, LeftLends, RightLends, Parent;
    NoNeighbours(kids, i, key);
    t' := c;
    var done := false;
    st := DeleteStatus(false, InternalKind, 0, below.success);
    var left := LeftOf(n, i, child);
    if left.Found? {
      done, t' := TryNodeLeft(pool, n, left.pid, child, below, s, kids, i, c, key, site);
      if done {
        return;
      }
    }
    var right := RightOf(n, i, child);
    if right.Found? {
      done, t' := TryNodeRight(pool, n, child, right.pid, below, s, kids, i, c, key, site);
      if done {
        return;
      }
    }
    if left.Found? {
      st, t' := MergeNodeStep(pool, n, left.pid, child, below, s, kids, i, c, key, site, i - 1);
      return;
    }
    if right.Found? {
      st, t' := MergeNodeStep(pool, n, child, right.pid, below, s, kids, i, c, key, site, i);
      return;
    }
    st := DeleteStatus(false, InternalKind, 0, false);
    t' := LeaveConcludes(s, pool.View, n, kids, i, c, key, below, site, st);
    Release(pool, n.pid, false);
  }

  lemma NoNeighbours(kids: seq<Tree>, i: nat, key: Key)
    requires i < |kids|
    ensures i == 0 ==> !LeftLends(kids, i, key)
    ensures i + 1 == |kids| ==> !RightLends(kids, i, key)
  {
  }

  // ----- the root page loses its last separator -----

  lemma LastChild(s1: PageMap, s2: PageMap, n: Node, kids: seq<Tree>, i: nat, c: Tree, site: Site, j: nat, n': Node,
                  w: Tree)
    requires MergeSettles(s1, s2, n, kids, i, c, site, j, n', w) && n'.keys == []
    ensures n'.children == [Pid(w)]
  {
    hide Good, Carries, Pids, First, Flat, FlatBelow, Frame;
    assert kids[..j] + [w] + kids[j + 2..] == [w] && !(site.full && |n.keys| > MIN_KEYS);
    OnlyChild(n', w, site.lo, site.hi, site.h, site.e);
  }

  // The meta page is not part of the tree and stays as it was.
  lemma MetaKept(s: PageMap, s1: PageMap, s2: PageMap, n: Node, kids: seq<Tree>, i: nat, c: Tree, key: Key,
                 below: DeleteStatus, site: Site, j: nat, n': Node, w: Tree)
    requires Descended(s, s1, n, kids, i, c, key, below, site)
    requires MergeSettles(s1, s2, n, kids, i, c, site, j, n', w)
    requires META_PID in s && s[META_PID].MetaPage?
    ensures META_PID in s2 && s2[META_PID] == s[META_PID] && META_PID != n.pid
  {
    hide Good, Carries, Pids, First, Flat, FlatBelow, Descended, Underflows, Orphaned, Without, HasKey;
    SettledDeletes(s, s1, s2, n, kids, i, c, key, below, site, Nd(n', kids[..j] + [w] + kids[j + 2..]),
                   site.full && |n.keys| > MIN_KEYS);
    CarriedOf(s, s1, n, kids, i, c, key, below, site);
    CarriedPids(s, Nd(n, kids));
    PidIn(n, kids);
  }

  lemma PidIn(n: Node, kids: seq<Tree>)
    ensures n.pid in Pids(Nd(n, kids))
  {
  }

  lemma CarriedOf(s: PageMap, s1: PageMap, n: Node, kids: seq<Tree>, i: nat, c: Tree, key: Key, below: DeleteStatus,
                  site: Site)
    requires Descended(s, s1, n, kids, i, c, key, below, site)
    ensures Carries(s, Nd(n, kids))
  {
    hide Good, Carries, Deleted, UpperIndex;
  }

  // ----- the leaf that holds the key -----

  method DeleteInLeaf(pool: BufferPool, p: Leaf, key: Key, ghost site: Site)
    returns (st: DeleteStatus, ghost t': Tree)
    requires site.h == 1
    requires At(pool, Lf(p.(left := 0)), site, key) && p.pid in pool.Pins
    requires p.Valid() && p.pid in pool.View && pool.View[p.pid] == LeafPg(p)
    modifies pool, pool.metas, pool.frames
    ensures pool.Valid() && pool.Touched == {} && pool.nextPid == old(pool.nextPid)
    ensures pool.Pins == old(pool.Pins) - multiset{p.pid} && st.kind == LeafKind
    ensures Deleted(old(pool.View), pool.View, Lf(p.(left := 0)), t', key, st, site)
  {
    hide BufferPool.Valid, LeafLayout.Leaf.Valid, LeafLayout.Leaf.Live, LeafLayout.Leaf.Used, Deleted, Good,
      SizeWith, Without, HasKey;
    ghost var s := pool.View;
    var dirty, p', used := RemoveTuple(p, key);
    st := DeleteStatus(used <= UNDERFLOW, LeafKind, used, dirty);
    t' := Lf(p'.(left := 0));
    if dirty {
      pool.Write(p.pid, LeafPg(p'));
    }
    Release(pool, p.pid, dirty);
    LeafDeleted(s, pool.View, p, p', key, st, site);
  }

  // ----- going down and coming back -----

  lemma EndsFrame(s: PageMap, s1: PageMap, t: Tree, pids: set<PageID>, e: PageID)
    requires Ends(s, t, e) && Frame(s, s1, pids) && pids <= Pids(t)
    ensures Ends(s1, t, e)
  {
    hide Pids;
  }

  // The recursive call has returned to the page n.
  lemma Returned(s: PageMap, s1: PageMap, n: Node, kids: seq<Tree>, i: nat, c: Tree, key: Key, below: DeleteStatus,
                 site: Site)
    requires Good(Nd(n, kids), site) && Carries(s, Nd(n, kids)) && site.lo <= key < site.hi
    requires Ends(s, Nd(n, kids), site.e)
    requires i == UpperIndex(n.keys, key) < |kids| && site.h > 1 && |Fence(n.keys, site.lo, site.hi)| == |kids| + 1
    requires Deleted(s, s1, kids[i], c, key, below, KidSite(n, kids, i, site))
    ensures Midway(s, s1, n, kids, i, c, key, below, site)
  {
    hide UpperIndex, Fence, FirstOr, Good, Carries, Pids, First, Pid, Flat, Frame, Ends, Reports, Underflows,
      Orphaned, Without, HasKey;
    RouteIndex(n, kids, site, key);
    ChildOf(n, kids, i, site);
    EndsFrame(s, s1, Nd(n, kids), Pids(kids[i]), site.e);
  }

  // The root page, if it is above this page, is not below it.
  lemma RootAbove(root: PageID, n: Node, kids: seq<Tree>, i: nat, site: Site)
    requires Good(Nd(n, kids), site) && i < |kids| && (root == n.pid || root !in Pids(Nd(n, kids)))
    ensures root !in Pids(kids[i]) && root != Pid(kids[i])
  {
    hide Good, Pids, Pid;
    ChildOf(n, kids, i, site);
    PidInside(kids[i]);
  }

  lemma PidInside(t: Tree)
    ensures Pid(t) in Pids(t)
  {
  }
}
