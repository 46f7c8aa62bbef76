// The descent of an insertion (database/src/impl/b-tree/b-tree.cpp, FindPageToWrite).
module FindPage {
  import opened Bytes
  import opened LeafLayout
  import opened LeafPages
  import opened InternalPages
  import opened Pages
  import opened PoolState
  import opened BufferPools
  import opened Trees
  import opened TreeEdits
  import opened TreeStore
  import opened TreeInsert
  import opened LeafSplits
  import opened InsertSpec
  import opened PageOps

  // The outcome of the descent below a page, as its parent sees it.
  ghost predicate Placed(s: PageMap, s': PageMap, t: Tree, report: SplitReport, l: Tree, r: Tree, site: Site, key: Key,
                         w: PageID, size: nat) {
    match report
    case NoSplit => Kept(s, s', t, l, site, key, w, size)
    case Split(newPid, boundary) => Pid(r) == newPid && Parted(s, s', t, l, boundary, r, site, key, w, size)
  }

  // The same on the trees alone.
  ghost predicate Outcome(t: Tree, report: SplitReport, l: Tree, r: Tree, key: Key, size: nat) {
    match report
    case NoSplit => Remains(t, l, key, size)
    case Split(_, boundary) => Cleft(t, l, boundary, r, key, size)
  }

  // What the tree layer knows about a page on the way down.
  ghost predicate At(pool: BufferPool, t: Tree, site: Site, key: Key)
    reads pool, pool.metas, pool.frames
  {
    && pool.Valid() && pool.Touched == {}
    && Carries(pool.View, t) && Good(t, site) && site.lo <= key < site.hi
  }

  // The separator and the page of a split child are entered in its parent n.
  method EnterSplit(pool: BufferPool, n: Node, boundary: Key, child: PageID, ghost s: PageMap, ghost kids: seq<Tree>,
                    ghost i: nat, ghost cl: Tree, ghost cr: Tree, ghost site: Site, ghost key: Key, ghost w: PageID,
                    ghost size: nat)
    returns (report: SplitReport, ghost l: Tree, ghost r: Tree)
    requires pool.Valid() && n.pid in pool.Pins && |pool.Pins| < pool.Budget() && pool.nextPid < MAX_PAGES
    requires ChildParted(s, pool.View, n, kids, i, cl, boundary, cr, site, key, w, size) && i < |kids|
    requires child == Pid(cr) && |n.keys| <= NUM_KEY_SLOTS
    requires i == UpperIndex(n.keys, key) && Cleft(kids[i], cl, boundary, cr, key, size)
    modifies pool, pool.metas, pool.frames
    ensures pool.Valid() && pool.nextPid == old(pool.nextPid) + (if |n.keys| == NUM_KEY_SLOTS then 1 else 0)
    ensures Outcome(Nd(n, kids), report, l, r, key, size)
    ensures pool.Touched <= old(pool.Touched) && pool.Pins == old(pool.Pins) - multiset{n.pid}
    ensures Placed(s, pool.View, Nd(n, kids), report, l, r, site, key, w, size)
    ensures Frame(s, pool.View, Pids(Nd(n, kids)))
  {
    hide BufferPool.Valid, UpperIndex, InsertAt, ChildParted, Parted, Kept, Frame, Pids, Pid, Fence, Remains, Cleft;
    ghost var s1 := pool.View;
    SplitSite(s, s1, n, kids, i, cl, boundary, cr, site, key, w, size);
    ghost var all := kids[..i] + [cl, cr] + kids[i + 1..];
    if |n.keys| < NUM_KEY_SLOTS {
      ghost var n' := AddEntry(pool, n, boundary, child);
      NodeAdds(s, s1, n, kids, i, cl, boundary, cr, site, key, w, size, n', pool.View);
      ChildEntered(n, kids, cl, boundary, cr, key, size);
      report, l, r := NoSplit, Nd(n', all), Nd(n', all);
    } else {
      ghost var nl, nr;
      var newPid, up;
      newPid, up, nl, nr := SplitNode(pool, n, boundary, child);
      NodeParts(s, s1, n, kids, i, cl, boundary, cr, site, key, w, size, nl, up, nr, pool.View);
      PidOf(nr, all[|nl.children|..]);
      PageCleft(n, kids, cl, boundary, cr, key, size, nl, up, nr);
      report, l, r := Split(newPid, up), Nd(nl, all[..|nl.children|]), Nd(nr, all[|nl.children|..]);
    }
  }

  lemma SplitSite(s: PageMap, s': PageMap, n: Node, kids: seq<Tree>, i: nat, l: Tree, b: Key, r: Tree, site: Site,
                  key: Key, w: PageID, size: nat)
    requires ChildParted(s, s', n, kids, i, l, b, r, site, key, w, size)
    ensures UpperIndex(n.keys, b) == i <= |n.keys| && n.pid in s' && s'[n.pid] == InternalPg(n)
            && |n.children| == |n.keys| + 1
    ensures i < |kids| && |kids[..i] + [l, r] + kids[i + 1..]| == |n.keys| + 2
  {
    hide Frame, Carries, Good, HostsAll, Hosts, FlatAll, Pids, UpperIndex, CarriesAll;
    PartedChildren(s, s', n, kids, i, l, b, r, site, key, w, size);
    FenceRising(n, kids, site);
    BoundaryIndex(n.keys, i, b, site.lo, site.hi);
  }

  // Descends to the leaf that takes the key, splitting it if it is full and its
  // ancestors as needed. The leaf with room for the entry stays pinned.
  method FindPageToWrite(pool: BufferPool, pid: PageID, key: Key, size: nat, ghost t: Tree, ghost site: Site)
    returns (report: SplitReport, w: PageID, ghost l: Tree, ghost r: Tree)
    requires At(pool, t, site, key) && pid == Pid(t)
    requires |pool.Pins| + site.h + 1 <= pool.Budget() && pool.nextPid + site.h <= MAX_PAGES
    modifies pool, pool.metas, pool.frames
    ensures pool.Valid() && old(pool.nextPid) <= pool.nextPid <= old(pool.nextPid) + site.h
    ensures pool.Touched <= {w} && pool.Pins == old(pool.Pins) + multiset{w}
    ensures Placed(old(pool.View), pool.View, t, report, l, r, site, key, w, size)
    ensures Frame(old(pool.View), pool.View, Pids(t))
    ensures Outcome(t, report, l, r, key, size) && pool.nextPid == old(pool.nextPid) + Taken(t, key, size)
    ensures report.Split? <==> Divides(t, key, size)
    ensures Fits(t, key, size) ==> report.NoSplit? && l == t && pool.View == old(pool.View)
    ensures !Fits(t, key, size) ==> Taken(t, key, size) >= 1
    decreases site.h, 1
  {
    hide BufferPool.Valid, Placed, Pids, Good, Frame, LeafLayout.Leaf.Valid, Outcome, Divides, Fits, Taken;
    PageKind(pool.View, t, site);
    var page := Fetch(pool, pid);
    match page {
      case LeafPg(p) =>
        report, w, l, r := AtLeaf(pool, p, key, size, site);
      case InternalPg(n) =>
        report, w, l, r := AtNode(pool, n, key, size, t.kids, site);
    }
    OutcomeFacts(t, report, l, r, key, size);
  }

  lemma OutcomeFacts(t: Tree, report: SplitReport, l: Tree, r: Tree, key: Key, size: nat)
    requires Outcome(t, report, l, r, key, size)
    ensures report.Split? <==> Divides(t, key, size)
    ensures Fits(t, key, size) ==> report.NoSplit? && l == t && Taken(t, key, size) == 0
    ensures !Fits(t, key, size) ==> Taken(t, key, size) >= 1
  {
    hide Remains, Cleft, Divides, Fits, Taken;
    match report
    case NoSplit =>
      RemainsWhole(t, l, key, size);
      if Fits(t, key, size) {
        FitsUnchanged(t, l, key, size);
      } else {
        RoomlessTakes(t, l, key, size);
      }
    case Split(_, b) =>
      CleftDivides(t, l, b, r, key, size);
      CleftTakes(t, l, b, r, key, size);
  }

  method AtNode(pool: BufferPool, n: Node, key: Key, size: nat, ghost kids: seq<Tree>, ghost site: Site)
    returns (report: SplitReport, w: PageID, ghost l: Tree, ghost r: Tree)
    requires At(pool, Nd(n, kids), site, key) && n.pid in pool.Pins
    requires |pool.Pins| + site.h <= pool.Budget() && pool.nextPid + site.h <= MAX_PAGES
    modifies pool, pool.metas, pool.frames
    ensures pool.Valid() && old(pool.nextPid) <= pool.nextPid <= old(pool.nextPid) + site.h
    ensures pool.Touched <= {w} && pool.Pins == old(pool.Pins) - multiset{n.pid} + multiset{w}
    ensures Placed(old(pool.View), pool.View, Nd(n, kids), report, l, r, site, key, w, size)
    ensures Frame(old(pool.View), pool.View, Pids(Nd(n, kids)))
    ensures Outcome(Nd(n, kids), report, l, r, key, size)
    ensures pool.nextPid == old(pool.nextPid) + Taken(Nd(n, kids), key, size)
    ensures Fits(Nd(n, kids), key, size) ==> pool.View == old(pool.View)
    decreases site.h, 0
  {
    hide BufferPool.Valid, UpperIndex, Pids, Fence, Good, Frame, Kept, Parted, Outcome;
    ghost var s := pool.View;
    RouteIndex(n, kids, site, key);
    var child := ChildFor(n, key);
    ghost var i := UpperIndex(n.keys, key);
    ghost var f := Fence(n.keys, site.lo, site.hi);
    ChildOf(n, kids, i, site);
    KidOf(s, n, kids, i);
    var below;
    ghost var cl, cr;
    below, w, cl, cr := FindPageToWrite(pool, child, key, size, kids[i], KidSite(n, kids, i, site));
    HostBelow(s, pool.View, kids[i], below, cl, cr, KidSite(n, kids, i, site), key, w, size, n.pid);
    report, l, r := Ascend(pool, n, below, s, kids, i, cl, cr, site, key, w, size);
  }

  // The page that takes the entry is not an ancestor.
  lemma HostBelow(s: PageMap, s': PageMap, t: Tree, report: SplitReport, l: Tree, r: Tree, site: Site, key: Key,
                  w: PageID, size: nat, p: PageID)
    requires Placed(s, s', t, report, l, r, site, key, w, size) && p in s && p !in Pids(t)
    ensures w != p
  {
    hide Shape, Own, Linked, Pids, Carries, Flat, Hosts, First;
    match report
    case NoSplit => HostBounds(l, site.lo, site.hi, site.h, site.full, key, w, size);
    case Split(_, b) =>
      if Hosts(l, site.lo, b, key, w, size) {
        HostBounds(l, site.lo, b, site.h, true, key, w, size);
      } else {
        HostBounds(r, b, site.hi, site.h, true, key, w, size);
      }
  }

  lemma KidOf(s: PageMap, n: Node, kids: seq<Tree>, i: nat)
    requires Carries(s, Nd(n, kids)) && i < |kids|
    ensures Carries(s, kids[i]) && n.pid in s && s[n.pid] == InternalPg(n)
  {
  }

  // Which kind of page the root of a subtree is.
  lemma PageKind(s: PageMap, t: Tree, site: Site)
    requires Carries(s, t) && Good(t, site)
    ensures Pid(t) in s && site.h >= 1
    ensures match s[Pid(t)] {
              case LeafPg(p) => t == Lf(p.(left := 0)) && p.pid == Pid(t) && site.h == 1 && p.Valid()
              case InternalPg(n) => t.Nd? && t.node == n && n.pid == Pid(t) && site.h > 1
              case _ => false
            }
  {
    hide OwnAll, LinkedAll, PidsAll, Forest, LeafLayout.Leaf.Valid;
    match t
    case Lf(q) => LeftPointer(s[q.pid].leaf);
    case Nd(n, kids) =>
  }

  // The leaf itself: it has room, or it splits.
  method AtLeaf(pool: BufferPool, p: Leaf, key: Key, size: nat, ghost site: Site)
    returns (report: SplitReport, w: PageID, ghost l: Tree, ghost r: Tree)
    requires site.h == 1
    requires At(pool, Lf(p.(left := 0)), site, key) && p.pid in pool.Pins
    requires p.Valid() && pool.View[p.pid] == LeafPg(p)
    requires |pool.Pins| < pool.Budget() && pool.nextPid < MAX_PAGES
    modifies pool, pool.metas, pool.frames
    ensures pool.Valid() && old(pool.nextPid) <= pool.nextPid <= old(pool.nextPid) + 1
    ensures pool.Touched <= {w} && pool.Pins == old(pool.Pins) - multiset{p.pid} + multiset{w}
    ensures Placed(old(pool.View), pool.View, Lf(p.(left := 0)), report, l, r, site, key, w, size)
    ensures Frame(old(pool.View), pool.View, Pids(Lf(p.(left := 0))))
    ensures Outcome(Lf(p.(left := 0)), report, l, r, key, size)
    ensures pool.nextPid == old(pool.nextPid) + Taken(Lf(p.(left := 0)), key, size)
    ensures Fits(Lf(p.(left := 0)), key, size) ==> pool.View == old(pool.View)
  {
    hide BufferPool.Valid, LeafLayout.Leaf.Valid, LeafLayout.Leaf.Live, Kept, Parted, Good, SplitsAt, HasRoom;
    ghost var s := pool.View;
    LeftPointer(p);
    var total := p.Free();
    RoomRule(total, size);
    if MinEntry(size) <= total {
      w, report := p.pid, NoSplit;
      l, r := Lf(p.(left := 0)), Lf(p.(left := 0));
      LeafKept(s, p, site, key, size);
    } else {
      ghost var gl, gr;
      report, w, gl, gr := SplitLeaf(pool, p, key);
      l, r := Lf(gl.(left := 0)), Lf(gr.(left := 0));
      LeftPointer(gl);
      LeftPointer(gr);
      LeafParts(s, pool.View, p, gl, report.boundary, gr, site, key, w, size);
    }
  }

  // Back from child i: nothing to do, or its split is entered here.
  method Ascend(pool: BufferPool, n: Node, below: SplitReport, ghost s: PageMap, ghost kids: seq<Tree>, ghost i: nat,
                ghost cl: Tree, ghost cr: Tree, ghost site: Site, ghost key: Key, ghost w: PageID, ghost size: nat)
    returns (report: SplitReport, ghost l: Tree, ghost r: Tree)
    requires pool.Valid() && n.pid in pool.Pins && |pool.Pins| < pool.Budget() && pool.nextPid < MAX_PAGES
    requires Good(Nd(n, kids), site) && Carries(s, Nd(n, kids)) && i < |kids|
    requires site.h > 1 && |Fence(n.keys, site.lo, site.hi)| == |kids| + 1 == |n.keys| + 2 == |n.children| + 1
             && |n.keys| <= NUM_KEY_SLOTS
    requires Placed(s, pool.View, kids[i], below, cl, cr, KidSite(n, kids, i, site), key, w, size)
    requires Frame(s, pool.View, Pids(kids[i])) && n.pid !in pool.Touched
    requires i == UpperIndex(n.keys, key) && Outcome(kids[i], below, cl, cr, key, size)
    modifies pool, pool.metas, pool.frames
    ensures pool.Valid()
    ensures pool.nextPid == old(pool.nextPid) + (if below.Split? && |n.keys| == NUM_KEY_SLOTS then 1 else 0)
    ensures Outcome(Nd(n, kids), report, l, r, key, size) && (below.NoSplit? ==> pool.View == old(pool.View))
    ensures pool.Touched <= old(pool.Touched) && pool.Pins == old(pool.Pins) - multiset{n.pid}
    ensures Placed(s, pool.View, Nd(n, kids), report, l, r, site, key, w, size)
    ensures Frame(s, pool.View, Pids(Nd(n, kids)))
  {
    hide BufferPool.Valid, UpperIndex, Parted, Kept, Frame, Pids, Pid, Fence, Good, Carries, Remains, Cleft;
    match below
    case Split(newPid, boundary) =>
      report, l, r := EnterSplit(pool, n, boundary, newPid, s, kids, i, cl, cr, site, key, w, size);
    case NoSplit =>
      NodeKept(s, pool.View, n, kids, i, cl, site, key, w, size);
      ChildRemains(n, kids, cl, key, size);
      report := NoSplit;
      l, r := Nd(n, kids[..i] + [cl] + kids[i + 1..]), cr;
      Release(pool, n.pid, false);
  }
}
