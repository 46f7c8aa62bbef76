// Page-level steps of the B+ tree: a page is fetched, edited and given back
// (database/src/impl/b-tree/b-tree.cpp).
module PageOps {
  import opened Bytes
  import opened Tuples
  import opened LeafLayout
  import opened LeafPages
  import opened LeafSplits
  import opened InternalPages
  import opened Pages
  import opened PoolState
  import opened BufferPools
  import opened Trees
  import opened TreeEdits

  // Pins a page and reads it.
  method Fetch(pool: BufferPool, pid: PageID) returns (page: Page)
    requires pool.Valid() && pid in pool.View && |pool.Pins| < pool.Budget()
    modifies pool, pool.metas, pool.frames
    ensures pool.Valid() && pool.View == old(pool.View) && pool.Touched == old(pool.Touched)
    ensures pool.nextPid == old(pool.nextPid) && pool.Pins == old(pool.Pins) + multiset{pid}
    ensures page == pool.View[pid]
  {
    hide BufferPool.Valid;
    var r := pool.RequestPage(pid);
    page := pool.Read(pid);
  }

  // Gives back a pin; a page that was written to must go back dirty.
  method Release(pool: BufferPool, pid: PageID, dirty: bool)
    requires pool.Valid() && pid in pool.Pins && (dirty || pid !in pool.Touched)
    modifies pool, pool.metas
    ensures pool.Valid() && pool.View == old(pool.View) && pool.nextPid == old(pool.nextPid)
    ensures pool.Pins == old(pool.Pins) - multiset{pid} && pool.Touched == old(pool.Touched) - {pid}
  {
    hide BufferPool.Valid;
    var r := pool.ReleasePage(pid, dirty);
  }

  // Gives back the only pin of a page clean although it was written to.
  method Abandon(pool: BufferPool, pid: PageID)
    requires pool.Valid() && pool.Pins[pid] == 1 && pid in pool.Touched
    modifies pool, pool.metas
    ensures pool.Valid() && pool.View == old(pool.View) - {pid} && pool.nextPid == old(pool.nextPid)
    ensures pool.Pins == old(pool.Pins) - multiset{pid} && pool.Touched == old(pool.Touched) - {pid}
  {
    hide BufferPool.Valid;
    var r := pool.ReleasePage(pid, false);
  }

  // Gives back the two pages of a merge, of which one was written to.
  method ReleaseMerged(pool: BufferPool, to: PageID, from: PageID)
    requires pool.Valid() && to in pool.Pins && from in pool.Pins && to != from && from !in pool.Touched
    modifies pool, pool.metas
    ensures pool.Valid() && pool.View == old(pool.View) && pool.nextPid == old(pool.nextPid)
    ensures pool.Pins == old(pool.Pins) - multiset{to} - multiset{from} && pool.Touched == old(pool.Touched) - {to}
  {
    hide BufferPool.Valid;
    Release(pool, to, true);
    Release(pool, from, false);
  }

  // Edits a pinned page and gives it back dirty.
  method WriteBack(pool: BufferPool, pid: PageID, page: Page)
    requires pool.Valid() && pid in pool.Pins && pid in pool.View
    modifies pool, pool.metas, pool.frames
    ensures pool.Valid() && pool.View == old(pool.View)[pid := page] && pool.nextPid == old(pool.nextPid)
    ensures pool.Pins == old(pool.Pins) - multiset{pid} && pool.Touched == old(pool.Touched) - {pid}
  {
    hide BufferPool.Valid;
    pool.Write(pid, page);
    Release(pool, pid, true);
  }

  datatype SplitReport = NoSplit | Split(newPid: PageID, boundary: Key)

  // The child that a search for the key descends to.
  lemma RouteIndex(n: Node, kids: seq<Tree>, site: Site, key: Key)
    requires Good(Nd(n, kids), site) && site.lo <= key < site.hi
    ensures var i := UpperIndex(n.keys, key);
            && i < |kids| && |kids| == |n.keys| + 1 == |n.children| && |Fence(n.keys, site.lo, site.hi)| == |kids| + 1
            && Fence(n.keys, site.lo, site.hi)[i] <= key < Fence(n.keys, site.lo, site.hi)[i + 1]
            && n.children[i] == Pid(kids[i]) && |n.keys| <= NUM_KEY_SLOTS && site.h > 1
  {
    hide OwnAll, LinkedAll, PidsAll, Forest, Pid;
  }

  // ----- Insert -----

  // Splits the full leaf p and keeps the page for the key pinned.
  method SplitLeaf(pool: BufferPool, p: Leaf, key: Key)
    returns (report: SplitReport, w: PageID, ghost l: Leaf, ghost r: Leaf)
    requires pool.Valid() && p.pid in pool.View && pool.View[p.pid] == LeafPg(p) && p.pid in pool.Pins
    requires Tight(p) && pool.Touched == {}
    requires |pool.Pins| < pool.Budget() && pool.nextPid < MAX_PAGES
    modifies pool, pool.metas, pool.frames
    ensures pool.Valid() && pool.nextPid == old(pool.nextPid) + 1 && pool.Touched <= {w}
    ensures report.Split? && report.newPid == r.pid && r.pid !in old(pool.View)
    ensures w == if key >= report.boundary then r.pid else l.pid
    ensures pool.Pins == old(pool.Pins) - multiset{p.pid} + multiset{w}
    ensures pool.View == old(pool.View)[l.pid := LeafPg(l)][r.pid := LeafPg(r)]
    ensures l.Valid() && r.Valid() && l.Live() + r.Live() == p.Live() && l.Live() != [] && r.Live() != []
    ensures report.boundary == TKey(r.Live()[0]) && l.pid == p.pid && l.right == r.pid && r.right == p.right
    ensures SplitsAt(p.Live(), |l.Live()|) && l.left == p.left && r.left == p.pid
    ensures l.Free() >= MIN_ENTRY && r.Free() >= MIN_ENTRY
  {
    hide BufferPool.Valid, TKey, LeafLayout.Leaf.Live, LeafLayout.Leaf.Free, LeafLayout.Leaf.Valid, Tight, SplitsAt;
    var newPid := pool.AllocateNewPage();
    var boundary, left, right := DivideLeaf(p, newPid);
    l, r := left, right;
    report := Split(newPid, boundary);
    FreshPage(pool.View, old(pool.View), newPid, p.pid, LeafPg(left), LeafPg(right));
    if key >= boundary {
      w := newPid;
      StoreTwo(pool, newPid, LeafPg(right), p.pid, LeafPg(left));
    } else {
      w := p.pid;
      StoreTwo(pool, p.pid, LeafPg(left), newPid, LeafPg(right));
    }
  }

  // Writing an old page and one that was just added, in either order.
  lemma FreshPage(s': PageMap, s: PageMap, q: PageID, p: PageID, x: Page, y: Page)
    requires p != q && s' == s[q := BlankPage]
    ensures s'[p := x][q := y] == s[p := x][q := y] == s'[q := y][p := x]
  {
  }

  // Edits two pinned pages and gives one of them back.
  method StoreTwo(pool: BufferPool, kept: PageID, keptPage: Page, other: PageID, otherPage: Page)
    requires pool.Valid() && kept in pool.Pins && other in pool.Pins && kept != other
    requires kept in pool.View && other in pool.View && pool.Touched == {}
    modifies pool, pool.metas, pool.frames
    ensures pool.Valid() && pool.nextPid == old(pool.nextPid)
    ensures pool.View == old(pool.View)[kept := keptPage][other := otherPage]
    ensures pool.View == old(pool.View)[other := otherPage][kept := keptPage]
    ensures pool.Pins == old(pool.Pins) - multiset{other} && pool.Touched == {kept}
  {
    hide BufferPool.Valid;
    pool.Write(kept, keptPage);
    WriteBack(pool, other, otherPage);
  }

  method DivideLeaf(p: Leaf, newPid: PageID) returns (boundary: Key, l: Leaf, r: Leaf)
    requires Tight(p)
    ensures l.Valid() && r.Valid() && l.Live() + r.Live() == p.Live() && l.Live() != [] && r.Live() != []
    ensures boundary == TKey(r.Live()[0])
    ensures l.pid == p.pid && r.pid == newPid && l.right == newPid && r.right == p.right
    ensures l.Free() >= MIN_ENTRY && r.Free() >= MIN_ENTRY
    ensures SplitsAt(p.Live(), |l.Live()|) && l.left == p.left && r.left == p.pid
  {
    hide TKey, LeafLayout.Leaf.Live, LeafLayout.Leaf.Free, LeafLayout.Leaf.Valid, SplitsAt;
    TightSize(p);
    var page := new LeafPage.Load(p);
    var newPage := new LeafPage.Blank();
    boundary := HandleSplit(page, newPage, newPid);
    l, r := page.Value(), newPage.Value();
  }

  lemma TightSize(p: Leaf)
    requires Tight(p)
    ensures |p.data| == PAGE_SIZE && p.Valid() && p.Live() != []
  {
    hide LeafLayout.Leaf.Live, LeafLayout.Leaf.Free;
    TightBytes(p);
  }

  method InsertEntry(n: Node, boundary: Key, child: PageID) returns (n': Node)
    requires |n.children| == |n.keys| + 1 && |n.keys| < NUM_KEY_SLOTS
    ensures var i := UpperIndex(n.keys, boundary);
            n' == Node(n.pid, InsertAt(n.keys, i, boundary), InsertAt(n.children, i + 1, child))
  {
    hide UpperIndex, InsertAt;
    var page := new InternalPage.Load(n);
    page.InsertKeyValue(boundary, child);
    n' := page.Value();
  }

  method DivideNode(n: Node, boundary: Key, child: PageID, newPid: PageID) returns (up: Key, nl: Node, nr: Node)
    requires |n.children| == |n.keys| + 1 && |n.keys| == NUM_KEY_SLOTS
    ensures var i := UpperIndex(n.keys, boundary);
            nl.keys + [up] + nr.keys == InsertAt(n.keys, i, boundary)
            && nl.children + nr.children == InsertAt(n.children, i + 1, child)
    ensures |nl.children| == |nl.keys| + 1 && |nr.children| == |nr.keys| + 1
    ensures |nl.keys| == MIN_KEYS && |nr.keys| == MIN_KEYS && nl.pid == n.pid && nr.pid == newPid
  {
    hide UpperIndex, InsertAt;
    var page := new InternalPage.Load(n);
    var newPage := new InternalPage.Blank();
    up := page.HandleSplit(newPage, boundary, child, newPid);
    nl, nr := page.Value(), newPage.Value();
  }

  method ChildFor(n: Node, key: Key) returns (child: PageID)
    requires |n.children| == |n.keys| + 1 <= NUM_KEY_SLOTS + 1
    ensures child == n.children[UpperIndex(n.keys, key)]
  {
    var page := new InternalPage.Load(n);
    child := page.GetChildPageID(key);
  }

  // A page with a free slot takes the separator of a split child.
  method AddEntry(pool: BufferPool, n: Node, boundary: Key, child: PageID) returns (ghost n': Node)
    requires pool.Valid() && n.pid in pool.View && n.pid in pool.Pins
    requires |n.children| == |n.keys| + 1 && |n.keys| < NUM_KEY_SLOTS
    modifies pool, pool.metas, pool.frames
    ensures pool.Valid() && pool.nextPid == old(pool.nextPid)
    ensures pool.Touched == old(pool.Touched) - {n.pid} && pool.Pins == old(pool.Pins) - multiset{n.pid}
    ensures var i := UpperIndex(n.keys, boundary);
            n' == Node(n.pid, InsertAt(n.keys, i, boundary), InsertAt(n.children, i + 1, child))
    ensures pool.View == old(pool.View)[n.pid := InternalPg(n')]
  {
    hide BufferPool.Valid, UpperIndex, InsertAt;
    var changed := InsertEntry(n, boundary, child);
    n' := changed;
    WriteBack(pool, n.pid, InternalPg(changed));
  }

  // A full page splits; its middle separator goes up.
  method SplitNode(pool: BufferPool, n: Node, boundary: Key, child: PageID)
    returns (newPid: PageID, up: Key, ghost nl: Node, ghost nr: Node)
    requires pool.Valid() && n.pid in pool.View && n.pid in pool.Pins
    requires |n.children| == |n.keys| + 1 && |n.keys| == NUM_KEY_SLOTS
    requires |pool.Pins| < pool.Budget() && pool.nextPid < MAX_PAGES
    modifies pool, pool.metas, pool.frames
    ensures pool.Valid() && pool.nextPid == old(pool.nextPid) + 1
    ensures pool.Touched <= old(pool.Touched) && pool.Pins == old(pool.Pins) - multiset{n.pid}
    ensures newPid == nr.pid && newPid !in old(pool.View) && nl.pid == n.pid
    ensures var i := UpperIndex(n.keys, boundary);
            && nl.keys + [up] + nr.keys == InsertAt(n.keys, i, boundary)
            && nl.children + nr.children == InsertAt(n.children, i + 1, child)
    ensures |nl.children| == |nl.keys| + 1 && |nr.children| == |nr.keys| + 1
    ensures |nl.keys| == MIN_KEYS && |nr.keys| == MIN_KEYS
    ensures pool.View == old(pool.View)[nl.pid := InternalPg(nl)][nr.pid := InternalPg(nr)]
  {
    hide BufferPool.Valid, UpperIndex, InsertAt;
    newPid := pool.AllocateNewPage();
    var left, right;
    up, left, right := DivideNode(n, boundary, child, newPid);
    nl, nr := left, right;
    FreshPage(pool.View, old(pool.View), newPid, n.pid, InternalPg(left), InternalPg(right));
    WriteBack(pool, n.pid, InternalPg(left));
    WriteBack(pool, newPid, InternalPg(right));
  }
}
