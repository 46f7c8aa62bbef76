// The B+ tree: a map from keys to payloads kept in pages of the buffer pool
// (database/src/impl/b-tree/b-tree.cpp).
module BTrees {
  import opened Bytes
  import opened Tuples
  import opened LeafLayout
  import opened LeafEdits
  import opened LeafPages
  import opened InternalPages
  import opened Pages
  import opened PoolState
  import opened BufferPools
  import opened Trees
  import opened TreeEdits
  import opened TreeStore
  import opened TreeInsert
  import opened InsertSpec
  import opened Contents
  import opened PageOps
  import opened FindPage
  import opened Heights
  import opened LeafChain
  import opened StoreEntry
  import opened DeleteOps
  import opened DeleteShape
  import opened DeleteSpec
  import opened DeleteSteps
  import opened Streams

  const DATABASE_MAGIC_NUMBER: nat := 0x67AD7CB3

  // The tree of the given height hangs off the root that the meta page names.
  ghost predicate Stands(s: PageMap, root: PageID, t: Tree, h: nat) {
    && Good(t, Top(h)) && Carries(s, t) && Pid(t) == root && Branched(t, h)
    && META_PID in s && s[META_PID] == MetaPage(DATABASE_MAGIC_NUMBER, root)
  }

  lemma LeafHeight(t: Tree, site: Site)
    requires Good(t, site)
    ensures t.Lf? <==> site.h == 1
  {
    hide Own, Linked, Forest;
  }

  // A new root over the two halves of the old one.
  lemma RootGrows(s: PageMap, s': PageMap, n: Node, l: Tree, b: Key, r: Tree, h: nat, key: Key, w: PageID, size: nat)
    requires 0 < b < KEY_LIMIT && Good(l, Site(0, b, h, true, First(r))) && Good(r, Site(b, KEY_LIMIT, h, true, 0))
    requires Pids(l) !! Pids(r) && Carries(s, l) && Carries(s, r) && h >= 1
    requires Hosts(l, 0, b, key, w, size) || Hosts(r, b, KEY_LIMIT, key, w, size)
    requires n == Node(n.pid, [b], [Pid(l), Pid(r)]) && n.pid !in s && META_PID in s && s[META_PID].MetaPage?
    requires s' == s[n.pid := InternalPg(n)][META_PID := MetaPage(s[META_PID].magic, n.pid)]
    ensures var t := Nd(n, [l, r]);
            && Good(t, Top(h + 1)) && Carries(s', t) && Pid(t) == n.pid
            && Flat(t) == Flat(l) + Flat(r) && Hosts(t, 0, KEY_LIMIT, key, w, size) && Branched(t, h + 1) && !Lone(t)
  {
    hide Shape, Forest, Own, OwnAll, Linked, LinkedAll, Pids, PidsAll, Flat, FlatAll, First, Hosts, HostsAll;
    var kids := [l, r];
    RootFence(b);
    GoodTwo(l, r, 0, b, KEY_LIMIT, h, true, 0);
    CarriedPids(s, l);
    CarriedPids(s, r);
    hide Carries;
    Pair(l, r, 0);
    Fold(n, kids, Top(h + 1));
    FlatOf(n, kids);
    TwoHosts(l, r, 0, b, KEY_LIMIT, key, w, size);
    HostsOf(n, kids, 0, KEY_LIMIT, key, w, size);
    CarriesFrame(s, s', l);
    CarriesFrame(s, s', r);
    CarriesNode(s', n, kids);
    PidOf(n, kids);
  }

  lemma RootFence(b: Key)
    ensures Fence([b], 0, KEY_LIMIT) == [0, b as int, KEY_LIMIT]
  {
  }

  // The tree after a descent: its root may have split, the key's leaf has room.
  ghost predicate Ready(s: PageMap, root: PageID, t: Tree, h: nat, flat: seq<Tuple>, key: Key, w: PageID, size: nat) {
    Stands(s, root, t, h) && Flat(t) == flat && Hosts(t, 0, KEY_LIMIT, key, w, size)
  }

  lemma ReadyLeaf(s: PageMap, root: PageID, t: Tree, h: nat, flat: seq<Tuple>, m: map<Key, seq<Byte>>, w: PageID,
                  buffer: seq<Byte>, key: Key)
    requires Ready(s, root, t, h, flat, key, w, |buffer|) && Represents(s, flat, m) && key !in m
    requires 8 <= |buffer| && Decode(buffer[..8]) == key && SLOT_SIZE + TUPLE_HEADER_SIZE + |buffer| < SIZE_LIMIT
    ensures w in s && s[w].LeafPg? && s[w].leaf.pid == w && CanWrite(s[w].leaf, buffer, key)
  {
    hide Shape, Own, Linked, Carries, Flat, Hosts, Represents, TKey, Decode, LeafLayout.Leaf.Valid,
      LeafLayout.Leaf.Free;
    RepresentsHas(s, flat, m, key);
    HostLeaf(s, t, 0, KEY_LIMIT, h, false, key, w, |buffer|);
  }

  // Storing the payload turns the represented map into the map with the new entry.
  lemma Inserted(s: PageMap, s': PageMap, root: PageID, t: Tree, h: nat, flat: seq<Tuple>, m: map<Key, seq<Byte>>,
                 w: PageID, buffer: seq<Byte>, key: Key, q: Leaf, x: Tuple) returns (t': Tree)
    requires Ready(s, root, t, h, flat, key, w, |buffer|) && Represents(s, flat, m) && key !in m
    requires w in s && s[w].LeafPg? && s[w].leaf.pid == w
    requires Others(s, s', w) && LeafHolds(s', w, s[w].leaf, q, x) && TKey(x) == key && Stored(s', x, buffer)
    ensures Stands(s', root, t', h) && Represents(s', Flat(t'), m[key := buffer])
    ensures Flat(t') == InsertSorted(flat, x) && (Lone(t') ==> Lone(t))
    ensures TookChunk(s[w].leaf, q, key, x, |buffer|) ==> Entered(t, t', key, x, |buffer|)
  {
    hide Shape, Own, Linked, Carries, Flat, Hosts, Represents, TKey, Stored, InsertSorted, LeafLayout.Leaf.Valid,
      LeafLayout.Leaf.Live,
      First, Pids, Replaced, TookChunk;
    RepresentsHas(s, flat, m, key);
    LeftPointer(q);
    LeftPointer(s[w].leaf);
    var q0 := q.(left := 0);
    if TookChunk(s[w].leaf, q, key, x, |buffer|) {
      TookNoLeft(s[w].leaf, q, key, x, |buffer|);
    }
    t' := HostPut(s, s', t, Top(h), w, |buffer|, q0, x);
    LeafHeight(t, Top(h));
    LeafHeight(t', Top(h));
    ShapeKeys(t', 0, KEY_LIMIT, h, false);
    RepresentsInsert(s, s', flat, m, x, buffer);
  }

  lemma TookNoLeft(p: Leaf, q: Leaf, key: Key, x: Tuple, size: nat)
    requires TookChunk(p, q, key, x, size)
    ensures TookChunk(p.(left := 0), q.(left := 0), key, x, size)
  {
    hide TKey, Tup;
    LeftPointer(p);
    LeftPointer(q);
    SamePlaces(p, key);
  }

  lemma SamePlaces(p: Leaf, key: Key)
    ensures TombstoneBefore(p.(left := 0), key) <==> TombstoneBefore(p, key)
  {
    hide TKey, Tup, SlotKeysBelow, SlotKeysAbove;
    var q := p.(left := 0);
    assert forall e: nat :: Position(q, key, e) <==> Position(p, key, e);
  }

  lemma KeptReady(s: PageMap, s': PageMap, root: PageID, t: Tree, l: Tree, h: nat, key: Key, w: PageID, size: nat)
    requires Stands(s, root, t, h) && Frame(s, s', Pids(t))
    requires Kept(s, s', t, l, Top(h), key, w, size)
    ensures Ready(s', root, l, h, Flat(t), key, w, size) && (Lone(l) ==> Lone(t))
  {
    hide Shape, Own, Linked, Carries, Flat, Hosts, First, Pids;
    CarriedPids(s, t);
    LeafHeight(t, Top(h));
    LeafHeight(l, Top(h));
  }

  lemma PartedMeta(s: PageMap, s': PageMap, root: PageID, t: Tree, h: nat)
    requires Stands(s, root, t, h) && Frame(s, s', Pids(t))
    ensures META_PID in s' && s'[META_PID] == MetaPage(DATABASE_MAGIC_NUMBER, root) && h >= 1
    ensures KeepsOverflow(s, s')
  {
    hide Own, Linked, Carries, Flat, First, Pids, Forest;
    CarriedPids(s, t);
    FrameOverflow(s, s', t);
  }

  // Which trees have leaves directly below their root.
  lemma LeavesUnder(t: Tree, h: nat, key: Key)
    requires Good(t, Top(h))
    ensures t.Nd? && |t.kids| == 2 ==> var i := UpperIndex(t.node.keys, key); i < 2 && (t.kids[i].Lf? <==> h == 2)
    ensures Melting(t, key) ==> h == 2
  {
    hide Own, Linked, Fence, UpperIndex, Underflows, LeftLends, RightLends, Shape, Good;
    match t
    case Lf(_) =>
    case Nd(n, kids) =>
      Unfold(n, kids, Top(h));
      var i := UpperIndex(n.keys, key);
      if |kids| == 2 {
        ChildOf(n, kids, i, Top(h));
        LeafHeight(kids[i], KidSite(n, kids, i, Top(h)));
      }
  }

  // The root page has at most two children.
  ghost predicate NearLone(t: Tree) {
    t.Nd? && |t.node.keys| <= 1
  }

  // The tree without the key stands where the tree stood.
  lemma DeletedStands(s: PageMap, s': PageMap, root: PageID, t: Tree, t': Tree, h: nat, m: map<Key, seq<Byte>>,
                      key: Key, st: DeleteStatus)
    requires Stands(s, root, t, h) && Represents(s, Flat(t), m)
    requires Deleted(s, s', t, t', key, st, Top(h))
    requires Branched(t', h)
    ensures Stands(s', root, t', h) && Represents(s', Flat(t'), m - {key})
    ensures Flat(t') == Without(Flat(t), key) && (Lone(t') ==> NearLone(t))
    ensures Shrinks(t, t', key) && !Melting(t, key)
    ensures st.success <==> key in m && !Orphaned(t, key)
  {
    hide Shape, Own, Linked, Carries, Flat, First, Pids, Represents, Without, HasKey, KeepsOverflow, Underflows,
      Orphaned, Reports, Shrinks, Melting;
    CarriedPids(s, t);
    FrameOverflow(s, s', t);
    LeafHeight(t, Top(h));
    LeafHeight(t', Top(h));
    LeavesUnder(t, h, key);
    if Melting(t, key) {
      ShrunkBare(t, t', key);
    }
    ShapeKeys(t', 0, KEY_LIMIT, h, false);
    RepresentsDelete(s, s', Flat(t), m, key);
    RepresentsHas(s, Flat(t), m, key);
  }

  lemma CollapsedStands(s: PageMap, s': PageMap, root: PageID, t: Tree, t': Tree, h: nat, m: map<Key, seq<Byte>>,
                        key: Key, st: DeleteStatus)
    requires Stands(s, root, t, h) && Represents(s, Flat(t), m) && Collapsed(s, s', t, t', key, st, Top(h))
    ensures h == 2 && Stands(s', Pid(t'), t', h - 1) && Represents(s', Flat(t'), m - {key})
    ensures Flat(t') == Without(Flat(t), key) && !Lone(t')
    ensures Melts(t, t', key) && Melting(t, key)
    ensures st.success <==> key in m && !Orphaned(t, key)
  {
    hide Shape, Own, Linked, Carries, Flat, First, Pids, Represents, Without, HasKey, Underflows, Orphaned, Reports,
      Shrinks, Joined, LeftLends, RightLends;
    CarriedPids(s, t);
    assert KeepsOverflow(s, s');
    LeafHeight(t', Top(h - 1));
    LeavesUnder(t, h, key);
    ShapeKeys(t', 0, KEY_LIMIT, h - 1, false);
    RepresentsDelete(s, s', Flat(t), m, key);
    RepresentsHas(s, Flat(t), m, key);
  }

  // The height of a tree is bounded by what a file can hold, so a fixed number of
  // frames is enough for every operation.
  lemma BoundedHeight(pool: BufferPool, h: nat)
    requires pool.Valid() && Least(h) <= pool.nextPid
    ensures h <= MAX_HEIGHT
  {
    hide Serves, Least;
    ServesPage(pool.State(), pool.View, pool.Pins, pool.Touched, 0);
    HeightBound(h, pool.nextPid);
  }

  lemma LeastMonotone(h: nat)
    ensures h > 1 ==> Least(h - 1) <= Least(h)
  {
    if h > 2 {
      PowMonotone(h - 3, h - 2);
    }
  }

  lemma GrowthFits(pool: BufferPool, s: PageMap, t: Tree, l: Tree, b: Key, r: Tree, h: nat, key: Key, w: PageID,
                   size: nat)
    requires pool.Valid() && Parted(s, pool.View, t, l, b, r, Top(h), key, w, size)
    ensures Least(h + 1) <= pool.nextPid
  {
    hide Serves, Least, Shape, Linked, Own, First, Pids, Carries, Flat, Hosts;
    ViewPages(pool.State(), pool.View, pool.Pins, pool.Touched);
    GrowsWithin(pool.View, l, b, r, 0, KEY_LIMIT, h, pool.nextPid);
  }

  lemma StandsAt(s: PageMap, root: PageID, t: Tree, h: nat)
    requires Stands(s, root, t, h)
    ensures Good(t, Top(h)) && Carries(s, t) && Pid(t) == root
  {
    hide Good, Carries, Pid;
  }

  lemma RootSite(s: PageMap, root: PageID, t: Tree, h: nat)
    requires Stands(s, root, t, h)
    ensures root == Pid(t) && META_PID in s && s[META_PID].MetaPage? && Ends(s, t, 0)
  {
    hide Good, Carries, Pid, Pids;
  }

  // A search result that leads to the tuple x of a leaf page.
  ghost predicate Leads(s: PageMap, leafPid: PageID, r: SearchResult, x: Tuple) {
    && leafPid in s && r.found && r.offset + MIN_TUPLE <= r.end <= |RawBytes(s[leafPid])|
    && RawBytes(s[leafPid])[r.offset..r.end] == x && |x| >= MIN_TUPLE && r.header == DecodeHeader(x)
  }

  method SearchLeaf(p: Leaf, key: Key, ghost s: PageMap) returns (r: SearchResult, ghost x: Tuple)
    requires p.Valid() && p.pid in s && s[p.pid] == LeafPg(p)
    ensures r.found <==> HasKey(p.Live(), key)
    ensures r.found ==> x in p.Live() && TKey(x) == key && Leads(s, p.pid, r, x)
  {
    hide LeafLayout.Leaf.Live, LeafLayout.Leaf.Valid, TKey, HasKey, DecodeHeader;
    SizeOfPage(p);
    var page := new LeafPage.Load(p);
    r := page.Search(key);
    x := if r.found then p.data[r.offset..r.end] else [];
  }

  // The tuples of a subtree are among those of the whole tree.
  ghost predicate Within(t: Tree, flat: seq<Tuple>) {
    forall x | x in Flat(t) :: x in flat
  }

  lemma LeafWithin(p: Leaf, flat: seq<Tuple>)
    ensures Flat(Lf(p.(left := 0))) == p.Live()
    ensures Within(Lf(p.(left := 0)), flat) ==> forall x | x in p.Live() :: x in flat
  {
  }

  // The key is in child i or nowhere, and the tuples of child i are tuples of the page.
  lemma SearchBelow(n: Node, kids: seq<Tree>, i: nat, site: Site, key: Key)
    requires Good(Nd(n, kids), site) && i < |kids| && |Fence(n.keys, site.lo, site.hi)| == |kids| + 1
    requires Fence(n.keys, site.lo, site.hi)[i] <= key < Fence(n.keys, site.lo, site.hi)[i + 1]
    ensures HasKey(Flat(Nd(n, kids)), key) <==> HasKey(Flat(kids[i]), key)
    ensures forall flat | Within(Nd(n, kids), flat) :: Within(kids[i], flat)
  {
    hide Flat, FlatAll, HasKey, Good, Shape, Fence, Without;
    GoodShape(Nd(n, kids), site);
    NodeWithout(n, kids, i, site.lo, site.hi, site.h, site.full, key);
    ChildRange(n, kids, i, site.lo, site.hi, site.h, site.full);
  }

  // Two pins taken and given back together with a third.
  lemma GivenBack(pins: multiset<PageID>, p: PageID, q: PageID, r: PageID)
    requires p in pins && p != q && p != r
    ensures (pins + multiset{q} + multiset{r}) - multiset{p} - multiset{q} - multiset{r} == pins - multiset{p}
    ensures (pins + multiset{q} + multiset{r})[p] == pins[p]
  {
  }

  class BTree {
    const pool: BufferPool
    var rootPid: PageID

    ghost var tree: Tree
    ghost var height: nat
    ghost var Contents: map<Key, seq<Byte>>

    ghost predicate Valid()
      reads this, pool, pool.metas, pool.frames
    {
      && pool.Valid() && pool.Touched == {}
      && Stands(pool.View, rootPid, tree, height)
      && Represents(pool.View, Flat(tree), Contents)
      && Least(height) <= pool.nextPid
    }

    // A tree over pages that carry it; see Open.
    constructor (pool: BufferPool, root: PageID, ghost t: Tree, ghost h: nat, ghost m: map<Key, seq<Byte>>)
      requires pool.Valid() && pool.Touched == {} && Stands(pool.View, root, t, h) && Represents(pool.View, Flat(t), m)
      requires Least(h) <= pool.nextPid
      ensures Valid() && this.pool == pool && rootPid == root && tree == t && height == h && Contents == m
    {
      this.pool := pool;
      rootPid, tree, height, Contents := root, t, h, m;
    }

    method SetNewRoot(newRoot: PageID)
      requires pool.Valid() && META_PID in pool.View && pool.View[META_PID].MetaPage? && |pool.Pins| < pool.Budget()
      modifies this`rootPid, pool, pool.metas, pool.frames
      ensures pool.Valid() && rootPid == newRoot && pool.nextPid == old(pool.nextPid)
      ensures pool.View == old(pool.View)[META_PID := MetaPage(old(pool.View)[META_PID].magic, newRoot)]
      ensures pool.Pins == old(pool.Pins) && pool.Touched == old(pool.Touched) - {META_PID}
    {
      hide BufferPool.Valid;
      var page := Fetch(pool, META_PID);
      WriteBack(pool, META_PID, MetaPage(page.magic, newRoot));
      rootPid := newRoot;
    }

    // A new root page over the old root and its new right sibling.
    method GrowRoot(right: PageID, boundary: Key) returns (ghost n: Node)
      requires pool.Valid() && META_PID in pool.View && pool.View[META_PID].MetaPage?
      requires |pool.Pins| + 2 <= pool.Budget() && pool.nextPid < MAX_PAGES
      modifies this`rootPid, pool, pool.metas, pool.frames
      ensures pool.Valid() && pool.nextPid == old(pool.nextPid) + 1 && pool.Pins == old(pool.Pins)
      ensures pool.Touched <= old(pool.Touched)
      ensures n == Node(rootPid, [boundary], [old(rootPid), right]) && rootPid !in old(pool.View)
      ensures pool.View ==
              old(pool.View)[rootPid := InternalPg(n)][META_PID := MetaPage(old(pool.View)[META_PID].magic, rootPid)]
    {
      hide BufferPool.Valid;
      var newPid := pool.AllocateNewPage();
      var node := RootNode(newPid, boundary, rootPid, right);
      n := node;
      pool.Write(newPid, InternalPg(node));
      SetNewRoot(newPid);
      Release(pool, rootPid, true);
    }

    // Finds the leaf for the key, growing the tree if its root splits.
    method MakeRoom(key: Key, size: nat) returns (w: PageID)
      requires Valid() && |pool.Pins| + height + 2 <= pool.Budget() && pool.nextPid + height + 1 <= MAX_PAGES
      modifies this`rootPid, this`tree, this`height, pool, pool.metas, pool.frames
      ensures pool.Valid() && pool.Touched <= {w} && pool.Pins == old(pool.Pins) + multiset{w}
      ensures old(pool.nextPid) <= pool.nextPid <= old(pool.nextPid) + old(height) + 1
      ensures old(height) <= height <= old(height) + 1
      ensures Ready(pool.View, rootPid, tree, height, old(Flat(tree)), key, w, size)
      ensures KeepsOverflow(old(pool.View), pool.View) && Least(height) <= pool.nextPid
      ensures Lone(tree) ==> old(Lone(tree))
      ensures Grows(old(tree), tree, key, size)
      ensures height == old(height) + (if Divides(old(tree), key, size) then 1 else 0)
      ensures pool.nextPid == old(pool.nextPid) + Taken(old(tree), key, size) + height - old(height)
      ensures Fits(old(tree), key, size) ==> tree == old(tree) && pool.View == old(pool.View)
      ensures !Fits(old(tree), key, size) ==> pool.nextPid > old(pool.nextPid)
    {
      hide Least, BufferPool.Valid, Shape, Own, Linked, Carries, Flat, Hosts, First, Pids, Kept, KeepsOverflow,
        Represents, Remains, Cleft, Divides, Taken, Fits;
      ghost var s := pool.View;
      ghost var l, r;
      var report;
      report, w, l, r := FindPageToWrite(pool, rootPid, key, size, tree, Top(height));
      PartedMeta(s, pool.View, rootPid, tree, height);
      if report.Split? {
        ghost var s1 := pool.View;
        GrowthFits(pool, s, tree, l, report.boundary, r, height, key, w, size);
        ghost var n := GrowRoot(report.newPid, report.boundary);
        RootGrows(s1, pool.View, n, l, report.boundary, r, height, key, w, size);
        GrowOverflow(s, s1, pool.View, n);
        tree, height := Nd(n, [l, r]), height + 1;
      } else {
        KeptReady(s, pool.View, rootPid, tree, l, height, key, w, size);
        tree := l;
      }
    }

    // Inserts a payload under its key, which must be new; the first eight bytes of
    // the payload are the key.
    method Insert(buffer: seq<Byte>, key: Key) returns (ok: bool, ghost x: Tuple, ghost grown: Tree)
      requires Valid() && key !in Contents
      requires 8 <= |buffer| && Decode(buffer[..8]) == key && SLOT_SIZE + TUPLE_HEADER_SIZE + |buffer| < SIZE_LIMIT
      requires |pool.Pins| + MAX_HEIGHT + 2 <= pool.Budget()
      requires pool.nextPid + MAX_HEIGHT + 1 + Spills(|buffer|) <= MAX_PAGES
      modifies this, pool, pool.metas, pool.frames
      ensures Valid() && ok && Contents == old(Contents)[key := buffer]
      ensures TKey(x) == key && Flat(tree) == InsertSorted(old(Flat(tree)), x) && (Lone(tree) ==> old(Lone(tree)))
      ensures Grows(old(tree), grown, key, |buffer|) && Entered(grown, tree, key, x, |buffer|)
      ensures pool.Pins == old(pool.Pins)
      ensures height == old(height) + (if Divides(old(tree), key, |buffer|) then 1 else 0)
      ensures TUPLE_HEADER_SIZE <= |x| <= |buffer| + TUPLE_HEADER_SIZE
      ensures pool.nextPid == old(pool.nextPid) + Taken(old(tree), key, |buffer|) + height - old(height)
                              + Spills(|buffer| + TUPLE_HEADER_SIZE - |x|)
      ensures pool.nextPid <= old(pool.nextPid) + MAX_HEIGHT + 1 + Spills(|buffer|)
    {
      hide BufferPool.Valid, Stands, Represents, Flat, Decode, KeepsOverflow, Spills, Ready, TKey, LeafHolds,
        Stored, Others, CanWrite, Grows, Entered, TookChunk, Divides, Taken, Fits;
      BoundedHeight(pool, height);
      ghost var flat, m := Flat(tree), Contents;
      ghost var s := pool.View;
      var w := MakeRoom(key, |buffer|);
      RepresentsFrame(s, pool.View, flat, m);
      ReadyLeaf(pool.View, rootPid, tree, height, flat, m, w, buffer, key);
      ghost var s1 := pool.View;
      ghost var q;
      grown := tree;
      q, x := StorePayload(pool, w, buffer, key);
      tree := Inserted(s1, pool.View, rootPid, tree, height, flat, m, w, buffer, key, q, x);
      Contents := Contents[key := buffer];
      ok := true;
    }

    // A stream over the payload of the key, or an empty one if the key is absent.
    method Search(key: Key) returns (stream: PayloadStream)
      requires Valid() && |pool.Pins| < pool.Budget()
      modifies pool, pool.metas, pool.frames
      ensures Valid() && stream.Valid() && fresh(stream) && (stream.pool == null || stream.pool == pool)
      ensures stream.Rest == if key in Contents then Contents[key] else []
      ensures key in Contents ==> |stream.Rest| >= 8
      ensures pool.View == old(pool.View) && pool.Pins == old(pool.Pins) && pool.nextPid == old(pool.nextPid)
    {
      hide BufferPool.Valid, Stands, Represents, Flat, HasKey, Streams.PayloadStream.Valid, Good;
      ghost var flat := Flat(tree);
      RepresentsHas(pool.View, flat, Contents, key);
      assert At(pool, tree, Top(height), key) && rootPid == Pid(tree) by {
        StandsAt(pool.View, rootPid, tree, height);
      }
      stream := SearchAt(rootPid, key, tree, Top(height), flat, Contents);
    }

    // Only one page is pinned at a time on the way down.
    method SearchAt(pid: PageID, key: Key, ghost t: Tree, ghost site: Site, ghost flat: seq<Tuple>,
                    ghost m: map<Key, seq<Byte>>)
      returns (stream: PayloadStream)
      requires At(pool, t, site, key) && pid == Pid(t) && |pool.Pins| < pool.Budget()
      requires Represents(pool.View, flat, m) && Within(t, flat)
      modifies pool, pool.metas, pool.frames
      ensures pool.Valid() && pool.Touched == {} && stream.Valid() && fresh(stream)
      ensures (stream.pool == null || stream.pool == pool)
      ensures HasKey(Flat(t), key) ==> key in m && |m[key]| >= 8 && stream.Rest == m[key]
      ensures !HasKey(Flat(t), key) ==> stream.Rest == []
      ensures pool.View == old(pool.View) && pool.Pins == old(pool.Pins) && pool.nextPid == old(pool.nextPid)
      decreases site.h, 1
    {
      hide BufferPool.Valid, Good, Represents, Flat, HasKey, Streams.PayloadStream.Valid, LeafLayout.Leaf.Valid,
        LeafLayout.Leaf.Live, Within;
      PageKind(pool.View, t, site);
      var page := Fetch(pool, pid);
      match page
      case InternalPg(n) =>
        stream := SearchBranch(n, key, t.kids, site, flat, m);
      case LeafPg(p) =>
        LeafWithin(p, flat);
        stream := StreamAt(p, key, flat, m);
    }

    method SearchBranch(n: Node, key: Key, ghost kids: seq<Tree>, ghost site: Site, ghost flat: seq<Tuple>,
                        ghost m: map<Key, seq<Byte>>)
      returns (stream: PayloadStream)
      requires At(pool, Nd(n, kids), site, key) && n.pid in pool.Pins && |pool.Pins| <= pool.Budget()
      requires Represents(pool.View, flat, m) && Within(Nd(n, kids), flat)
      modifies pool, pool.metas, pool.frames
      ensures pool.Valid() && pool.Touched == {} && stream.Valid() && fresh(stream)
      ensures (stream.pool == null || stream.pool == pool)
      ensures HasKey(Flat(Nd(n, kids)), key) ==> key in m && |m[key]| >= 8 && stream.Rest == m[key]
      ensures !HasKey(Flat(Nd(n, kids)), key) ==> stream.Rest == []
      ensures pool.View == old(pool.View) && pool.Pins == old(pool.Pins) - multiset{n.pid}
      ensures pool.nextPid == old(pool.nextPid)
      decreases site.h, 0
    {
      hide BufferPool.Valid, Good, Represents, Flat, HasKey, Streams.PayloadStream.Valid, Fence, FirstOr,
        UpperIndex, Within;
      ghost var f := Fence(n.keys, site.lo, site.hi);
      RouteIndex(n, kids, site, key);
      var child := ChildFor(n, key);
      Release(pool, n.pid, false);
      ghost var i := UpperIndex(n.keys, key);
      ChildOf(n, kids, i, site);
      KidOf(pool.View, n, kids, i);
      SearchBelow(n, kids, i, site, key);
      stream := SearchAt(child, key, kids[i], KidSite(n, kids, i, site), flat, m);
    }

    method StreamAt(p: Leaf, key: Key, ghost flat: seq<Tuple>, ghost m: map<Key, seq<Byte>>)
      returns (stream: PayloadStream)
      requires pool.Valid() && pool.Touched == {} && p.pid in pool.Pins && p.pid in pool.View
      requires pool.View[p.pid] == LeafPg(p) && p.Valid()
      requires Represents(pool.View, flat, m) && forall x | x in p.Live() :: x in flat
      modifies pool, pool.metas, pool.frames
      ensures pool.Valid() && pool.Touched == {} && stream.Valid() && fresh(stream)
      ensures (stream.pool == null || stream.pool == pool)
      ensures HasKey(p.Live(), key) ==> key in m && |m[key]| >= 8 && stream.Rest == m[key]
      ensures !HasKey(p.Live(), key) ==> stream.Rest == []
      ensures pool.View == old(pool.View) && pool.Pins == old(pool.Pins) - multiset{p.pid}
      ensures pool.nextPid == old(pool.nextPid)
    {
      hide BufferPool.Valid, Represents, HasKey, LeafLayout.Leaf.Live, LeafLayout.Leaf.Valid, TKey, DecodeHeader,
        Here, ChainAt;
      ghost var x;
      var r;
      r, x := SearchLeaf(p, key, pool.View);
      Release(pool, p.pid, false);
      if !r.found {
        stream := new PayloadStream.Empty();
        return;
      }
      RepresentsAt(pool.View, flat, m, x);
      stream := new PayloadStream.OfTuple(pool, p.pid, r.offset, r.end, r.header, x, m[key]);
    }

    // The root page has no separator left: its only child becomes the root, and the
    // old root's page is given back clean although it was written to.
    method CollapseRoot(n': Node, to: PageID, from: PageID)
      requires pool.Valid() && pool.Touched == {to} && |pool.Pins| < pool.Budget()
      requires pool.Pins[n'.pid] == 1 && to in pool.Pins && from in pool.Pins
      requires n'.pid in pool.View && META_PID in pool.View && pool.View[META_PID].MetaPage? && |n'.children| > 0
      requires to != from && n'.pid != to && n'.pid != from && n'.pid != META_PID && to != META_PID
      modifies this`rootPid, pool, pool.metas, pool.frames
      ensures pool.Valid() && pool.Touched == {} && pool.nextPid == old(pool.nextPid) && rootPid == n'.children[0]
      ensures pool.Pins == old(pool.Pins) - multiset{n'.pid} - multiset{to} - multiset{from}
      ensures pool.View ==
              old(pool.View)[n'.pid := InternalPg(n')][META_PID := MetaPage(old(pool.View)[META_PID].magic, rootPid)]
              - {n'.pid}
    {
      hide BufferPool.Valid;
      pool.Write(n'.pid, InternalPg(n'));
      SetNewRoot(n'.children[0]);
      Abandon(pool, n'.pid);
      ReleaseMerged(pool, to, from);
    }

    method CollapseAfter(n': Node, to: PageID, from: PageID, below: DeleteStatus, ghost s: PageMap, ghost s1: PageMap,
                         ghost n: Node, ghost kids: seq<Tree>, ghost i: nat, ghost c: Tree, ghost key: Key,
                         ghost site: Site, ghost j: nat, ghost w: Tree)
      returns (st: DeleteStatus)
      requires pool.Valid() && pool.Touched == {to} && |pool.Pins| < pool.Budget()
      requires pool.Pins[n'.pid] == 1 && to in pool.Pins && from in pool.Pins
      requires to != from && n'.pid != to && n'.pid != from && n'.pid == n.pid && n.pid in pool.View && to in pool.View
      requires pool.View[to].LeafPg?
      requires Descended(s, s1, n, kids, i, c, key, below, site) && n'.keys == []
      requires MergeSettles(s1, pool.View[n.pid := InternalPg(n')], n, kids, i, c, site, j, n', w)
      requires below.kind == LeafKind && below.underflown && i < |kids|
      requires !LeftLends(kids, i, key) && !RightLends(kids, i, key)
      requires META_PID in s && s[META_PID].MetaPage?
      modifies this`rootPid, pool, pool.metas, pool.frames
      ensures pool.Valid() && pool.Touched == {} && pool.nextPid == old(pool.nextPid) && rootPid == Pid(w)
      ensures pool.Pins == old(pool.Pins) - multiset{n'.pid} - multiset{to} - multiset{from}
      ensures st.kind == InvalidKind && Collapsed(s, pool.View, Nd(n, kids), w, key, st, site)
    {
      hide BufferPool.Valid, Descended, Collapsed, MergeSettles, Pid, LeftLends, RightLends;
      ghost var s2 := pool.View[n.pid := InternalPg(n')];
      MetaKept(s, s1, s2, n, kids, i, c, key, below, site, j, n', w);
      LastChild(s1, s2, n, kids, i, c, site, j, n', w);
      CollapseRoot(n', to, from);
      st := DeleteStatus(false, InvalidKind, 0, below.success);
      MergeCollapses(s, s1, s2, pool.View, n, kids, i, c, key, below, site, j, n', w, st);
    }

    // Merges an underflown leaf with a neighbour that would not lend.
    method MergeLeafChild(n: Node, to: PageID, from: PageID, below: DeleteStatus, ghost s: PageMap,
                          ghost kids: seq<Tree>, ghost i: nat, ghost c: Tree, ghost key: Key, ghost site: Site,
                          ghost j: nat)
      returns (st: DeleteStatus, ghost t': Tree)
      requires pool.Valid() && pool.Touched == {} && n.pid in pool.Pins && |pool.Pins| + 3 <= pool.Budget()
      requires LeafTurn(s, pool.View, n, kids, i, c, key, below, site) && Refused(kids, i, key, j)
      requires i < |kids| && !LeftLends(kids, i, key) && !RightLends(kids, i, key)
      requires j == (if i > 0 then i - 1 else 0)
      requires (site.full ==> |n.keys| >= MIN_KEYS)
      requires |kids| == |n.children| && to == n.children[j] && from == n.children[j + 1]
      requires META_PID in s && s[META_PID].MetaPage? && (n.pid == rootPid ==> pool.Pins[n.pid] == 1)
      modifies this`rootPid, pool, pool.metas, pool.frames
      ensures pool.Valid() && pool.Touched == {} && pool.nextPid == old(pool.nextPid)
      ensures pool.Pins == old(pool.Pins) - multiset{n.pid}
      ensures st.kind != InvalidKind ==>
                && rootPid == old(rootPid)
                && Deleted(s, pool.View, Nd(n, kids), t', key, st, site)
      ensures st.kind == InvalidKind ==>
                && old(rootPid) == n.pid && rootPid == Pid(t')
                && Collapsed(s, pool.View, Nd(n, kids), t', key, st, site)
      ensures st.kind != InvalidKind && n.pid == old(rootPid) && n.keys != [] ==> t'.Nd? && t'.node.keys != []
    {
      hide BufferPool.Valid, Descended, Deleted, Collapsed, LeftLends, RightLends, MergeSettles, Refused, Ends, Pid;
      LeafTurnParts(s, pool.View, n, kids, i, c, key, below, site);
      ghost var s1, pins := pool.View, pool.Pins;
      var n';
      n', t' := MergeLeafStep(pool, n, to, from, below, s, kids, i, c, key, site, j);
      GivenBack(pins, n.pid, to, from);
      if n.pid == rootPid && |n'.keys| == 0 {
        st := CollapseAfter(n', to, from, below, s, s1, n, kids, i, c, key, site, j, t');
      } else {
        st, t' := SettleMerge(pool, n', to, from, below, s, s1, n, kids, i, c, key, site, j, t');
      }
    }

    // An internal page returns to its parent after work on a leaf child.
    method AfterLeaf(n: Node, child: PageID, below: DeleteStatus, ghost s: PageMap, ghost kids: seq<Tree>,
                     ghost i: nat, ghost c: Tree, ghost key: Key, ghost site: Site)
      returns (st: DeleteStatus, ghost t': Tree)
      requires pool.Valid() && pool.Touched == {} && n.pid in pool.Pins && |pool.Pins| + 3 <= pool.Budget()
      requires Midway(s, pool.View, n, kids, i, c, key, below, site) && below.kind == LeafKind
      requires i < |kids| && child == Pid(kids[i])
      requires META_PID in s && s[META_PID].MetaPage? && (n.pid == rootPid ==> pool.Pins[n.pid] == 1)
      modifies this`rootPid, pool, pool.metas, pool.frames
      ensures pool.Valid() && pool.Touched == {} && pool.nextPid == old(pool.nextPid)
      ensures pool.Pins == old(pool.Pins) - multiset{n.pid}
      ensures st.kind != InvalidKind ==>
                && rootPid == old(rootPid)
                && Deleted(s, pool.View, Nd(n, kids), t', key, st, site)
      ensures st.kind == InvalidKind ==>
                && old(rootPid) == n.pid && rootPid == Pid(t')
                && Collapsed(s, pool.View, Nd(n, kids), t', key, st, site)
      ensures st.kind != InvalidKind && n.pid == old(rootPid) && n.keys != [] ==> t'.Nd? && t'.node.keys != []
    {
      hide BufferPool.Valid, Descended, Deleted, Collapsed, Ends, LeftLends, RightLends, Parent, Pid;
      PathFacts(s, pool.View, n, kids, i, c, key, below, site);
      if below.underflown {
        st, t' := RepairLeaf(n, child, below, s, kids, i, c, key, site);
      } else {
        st := DeleteStatus(false, InternalKind, 0, below.success);
        t' := LeaveConcludes(s, pool.View, n, kids, i, c, key, below, site, st);
        Release(pool, n.pid, true);
      }
    }

    method RepairLeaf(n: Node, child: PageID, below: DeleteStatus, ghost s: PageMap, ghost kids: seq<Tree>,
                      ghost i: nat, ghost c: Tree, ghost key: Key, ghost site: Site)
      returns (st: DeleteStatus, ghost t': Tree)
      requires pool.Valid() && pool.Touched == {} && n.pid in pool.Pins && |pool.Pins| + 3 <= pool.Budget()
      requires LeafTurn(s, pool.View, n, kids, i, c, key, below, site) && OnPath(n, kids, i, child, site.full)
      requires META_PID in s && s[META_PID].MetaPage? && (n.pid == rootPid ==> pool.Pins[n.pid] == 1)
      modifies this`rootPid, pool, pool.metas, pool.frames
      ensures pool.Valid() && pool.Touched == {} && pool.nextPid == old(pool.nextPid)
      ensures pool.Pins == old(pool.Pins) - multiset{n.pid}
      ensures st.kind != InvalidKind ==>
                && rootPid == old(rootPid)
                && Deleted(s, pool.View, Nd(n, kids), t', key, st, site)
      ensures st.kind == InvalidKind ==>
                && old(rootPid) == n.pid && rootPid == Pid(t')
                && Collapsed(s, pool.View, Nd(n, kids), t', key, st, site)
      ensures st.kind != InvalidKind && n.pid == old(rootPid) && n.keys != [] ==> t'.Nd? && t'.node.keys != []
    {
      hide BufferPool.Valid, Descended, Deleted, Collapsed, Ends, LeftLends, RightLends, Parent, Pid;
      NoNeighbours(kids, i, key);
      t' := c;
      var done := false;
      st := DeleteStatus(false, InternalKind, 0, below.success);
      var left := LeftOf(n, i, child);
      if left.Found? {
        done, t' := TryLeafLeft(pool, n, left.pid, child, below, s, kids, i, c, key, site);
        if done {
          return;
        }
      }
      var right := RightOf(n, i, child);
      if right.Found? {
        done, t' := TryLeafRight(pool, n, child, right.pid, below, s, kids, i, c, key, site);
        if done {
          return;
        }
      }
      if left.Found? {
        st, t' := MergeLeafChild(n, left.pid, child, below, s, kids, i, c, key, site, i - 1);
        return;
      }
      if right.Found? {
        st, t' := MergeLeafChild(n, child, right.pid, below, s, kids, i, c, key, site, i);
        return;
      }
      st := DeleteStatus(false, InternalKind, 0, false);
      t' := LeaveConcludes(s, pool.View, n, kids, i, c, key, below, site, st);
      Release(pool, n.pid, false);
    }

    // Removes the key from the subtree of a page and reports to the page above.
    method DeleteAt(pid: PageID, key: Key, ghost t: Tree, ghost site: Site)
      returns (st: DeleteStatus, ghost t': Tree)
      requires At(pool, t, site, key) && pid == Pid(t) && Ends(pool.View, t, site.e)
      requires |pool.Pins| + site.h + 2 <= pool.Budget() && META_PID in pool.View && pool.View[META_PID].MetaPage?
      requires (rootPid == pid && rootPid !in pool.Pins) || rootPid !in Pids(t)
      modifies this`rootPid, pool, pool.metas, pool.frames
      ensures pool.Valid() && pool.Touched == {} && pool.nextPid == old(pool.nextPid) && pool.Pins == old(pool.Pins)
      ensures st.kind != InvalidKind ==>
                && rootPid == old(rootPid)
                && Deleted(old(pool.View), pool.View, t, t', key, st, site)
      ensures st.kind == InvalidKind ==>
                old(rootPid) == pid && rootPid == Pid(t') && Collapsed(old(pool.View), pool.View, t, t', key, st, site)
      ensures st.kind != InvalidKind && pid == old(rootPid) && Branched(t, site.h) ==> Branched(t', site.h)
      decreases site.h, 1
    {
      hide BufferPool.Valid, Deleted, Collapsed, Good, Pids, Ends, LeafLayout.Leaf.Valid;
      PageKind(pool.View, t, site);
      var page := Fetch(pool, pid);
      match page
      case LeafPg(p) =>
        st, t' := DeleteInLeaf(pool, p, key, site);
      case InternalPg(n) =>
        st, t' := DeleteInNode(n, key, t.kids, site);
    }

    method DeleteInNode(n: Node, key: Key, ghost kids: seq<Tree>, ghost site: Site)
      returns (st: DeleteStatus, ghost t': Tree)
      requires At(pool, Nd(n, kids), site, key) && Ends(pool.View, Nd(n, kids), site.e) && n.pid in pool.Pins
      requires |pool.Pins| + site.h + 1 <= pool.Budget() && META_PID in pool.View && pool.View[META_PID].MetaPage?
      requires (rootPid == n.pid && pool.Pins[n.pid] == 1) || rootPid !in Pids(Nd(n, kids))
      modifies this`rootPid, pool, pool.metas, pool.frames
      ensures pool.Valid() && pool.Touched == {} && pool.nextPid == old(pool.nextPid)
      ensures pool.Pins == old(pool.Pins) - multiset{n.pid}
      ensures st.kind != InvalidKind ==>
                && rootPid == old(rootPid)
                && Deleted(old(pool.View), pool.View, Nd(n, kids), t', key, st, site)
      ensures st.kind == InvalidKind ==>
                && old(rootPid) == n.pid && rootPid == Pid(t')
                && Collapsed(old(pool.View), pool.View, Nd(n, kids), t', key, st, site)
      ensures st.kind != InvalidKind && n.pid == old(rootPid) && Branched(Nd(n, kids), site.h) ==> Branched(t', site.h)
      decreases site.h, 0
    {
      hide BufferPool.Valid, Deleted, Collapsed, Good, Ends, UpperIndex, Fence, FirstOr, Descended, Pid, Pids;
      ghost var s := pool.View;
      RouteIndex(n, kids, site, key);
      var child := ChildFor(n, key);
      ghost var i := UpperIndex(n.keys, key);
      ghost var f := Fence(n.keys, site.lo, site.hi);
      ChildOf(n, kids, i, site);
      KidOf(s, n, kids, i);
      EndsBelow(s, n, kids, i, site);
      PidIn(n, kids);
      RootAbove(rootPid, n, kids, i, site);
      ghost var c;
      var below;
      below, c := DeleteAt(child, key, kids[i], KidSite(n, kids, i, site));
      match below.kind
      case InvalidKind =>
        assert false;
      case LeafKind =>
        Returned(s, pool.View, n, kids, i, c, key, below, site);
        st, t' := AfterLeaf(n, child, below, s, kids, i, c, key, site);
      case InternalKind =>
        Returned(s, pool.View, n, kids, i, c, key, below, site);
        ReportHeight(s, pool.View, kids[i], c, key, below, KidSite(n, kids, i, site));
        st, t' := AfterNode(pool, n, child, below, s, kids, i, c, key, site);
    }

    // Deletes the key and its payload. The report says whether the key was there,
    // unless the deletion met an underflown page without a neighbour.
    method Delete(key: Key) returns (success: bool)
      requires Valid() && rootPid !in pool.Pins && |pool.Pins| + MAX_HEIGHT + 2 <= pool.Budget()
      modifies this, pool, pool.metas, pool.frames
      ensures Valid() && Contents == old(Contents) - {key}
      ensures success <==> key in old(Contents) && !Orphaned(old(tree), key)
      ensures Flat(tree) == Without(old(Flat(tree)), key) && (Lone(tree) ==> old(NearLone(tree)))
      ensures if old(Melting(tree, key)) then Melts(old(tree), tree, key) else Shrinks(old(tree), tree, key)
      ensures height == old(height) - (if old(Melting(tree, key)) then 1 else 0)
      ensures pool.Pins == old(pool.Pins) && pool.nextPid == old(pool.nextPid)
    {
      hide BufferPool.Valid, Represents, Flat, Deleted, Collapsed, Orphaned, Good, Carries, Pid, Pids, HasKey, Melting,
        Melts, Shrinks;
      BoundedHeight(pool, height);
      LeastMonotone(height);
      ghost var s := pool.View;
      RootSite(s, rootPid, tree, height);
      var st;
      ghost var t';
      st, t' := DeleteAt(rootPid, key, tree, Top(height));
      if st.kind == InvalidKind {
        CollapsedStands(s, pool.View, old(rootPid), tree, t', height, Contents, key, st);
        height := height - 1;
      } else {
        DeletedStands(s, pool.View, rootPid, tree, t', height, Contents, key, st);
      }
      tree, Contents := t', Contents - {key};
      success := st.success;
    }
  }

  // Opens the tree that the meta page names, or starts an empty one on a fresh
  // file. For an existing tree, its shape and contents are given as ghosts.
  method Open(pool: BufferPool, ghost t: Tree, ghost h: nat, ghost m: map<Key, seq<Byte>>) returns (tree: BTree)
    requires pool.Valid() && pool.Touched == {} && META_PID in pool.View
    requires |pool.Pins| + 2 <= pool.Budget() && (!IsDatabase(pool.View[META_PID]) ==> pool.nextPid < MAX_PAGES)
    requires IsDatabase(pool.View[META_PID]) ==>
               && Stands(pool.View, pool.View[META_PID].root, t, h)
               && Represents(pool.View, Flat(t), m) && Least(h) <= pool.nextPid
    modifies pool, pool.metas, pool.frames
    ensures tree.Valid() && tree.pool == pool && pool.Pins == old(pool.Pins) && fresh(tree)
    ensures if IsDatabase(old(pool.View)[META_PID])
            then tree.Contents == m && tree.tree == t && tree.height == h && pool.View == old(pool.View)
            else tree.Contents == map[] && tree.height == 1
    ensures pool.nextPid == old(pool.nextPid) + (if IsDatabase(old(pool.View)[META_PID]) then 0 else 1)
  {
    hide BufferPool.Valid, Stands, Represents, Flat, LeafLayout.Leaf.Live, Compact;
    var page := Fetch(pool, META_PID);
    if IsDatabase(page) {
      Release(pool, META_PID, false);
      tree := new BTree(pool, page.root, t, h, m);
    } else {
      var root, leaf := MakeFirstLeaf(pool);
      WriteBack(pool, META_PID, MetaPage(DATABASE_MAGIC_NUMBER, root));
      EmptyStands(pool.View, leaf, root);
      tree := new BTree(pool, root, Lf(leaf), 1, map[]);
    }
  }

  predicate IsDatabase(page: Page) {
    page.MetaPage? && page.magic == DATABASE_MAGIC_NUMBER
  }

  // An empty leaf on a fresh page.
  method MakeFirstLeaf(pool: BufferPool) returns (pid: PageID, leaf: Leaf)
    requires pool.Valid() && pool.nextPid < MAX_PAGES && |pool.Pins| < pool.Budget() && pool.Touched == {}
    modifies pool, pool.metas, pool.frames
    ensures pool.Valid() && pid !in old(pool.View) && pool.View == old(pool.View)[pid := LeafPg(leaf)]
    ensures pool.Pins == old(pool.Pins) && pool.Touched == {} && pool.nextPid == old(pool.nextPid) + 1
    ensures Compact(leaf) && leaf.Live() == [] && leaf.pid == pid && leaf.left == 0 && leaf.right == 0
  {
    hide BufferPool.Valid, Compact, LeafLayout.Leaf.Live;
    pid := pool.AllocateNewPage();
    leaf := MakeEmpty(pid);
    WriteBack(pool, pid, LeafPg(leaf));
  }

  lemma EmptyStands(s: PageMap, leaf: Leaf, root: PageID)
    requires Compact(leaf) && leaf.Live() == [] && leaf.pid == root && leaf.left == 0 && leaf.right == 0
    requires root in s && s[root] == LeafPg(leaf) && META_PID in s
    requires s[META_PID] == MetaPage(DATABASE_MAGIC_NUMBER, root)
    ensures Stands(s, root, Lf(leaf), 1) && Represents(s, Flat(Lf(leaf)), map[])
  {
    hide LeafLayout.Leaf.Valid, LeafLayout.Leaf.Live;
  }

  method RootNode(pid: PageID, boundary: Key, left: PageID, right: PageID) returns (n: Node)
    ensures n == Node(pid, [boundary], [left, right])
  {
    var page := new InternalPage.Blank();
    page.MakePage([boundary], [left, right], 1, pid);
    n := page.Value();
  }

  lemma GrowOverflow(s: PageMap, s1: PageMap, s2: PageMap, n: Node)
    requires KeepsOverflow(s, s1) && n.pid !in s1 && META_PID in s1 && s1[META_PID].MetaPage?
    requires s2 == s1[n.pid := InternalPg(n)][META_PID := MetaPage(s1[META_PID].magic, n.pid)]
    ensures KeepsOverflow(s, s2)
  {
  }

  // The right pointers of the leaves, followed from the leftmost one to the end,
  // list exactly the keys of the map in ascending order.
  lemma LeafOrder(b: BTree, leaves: seq<Leaf>)
    requires b.Valid()
    ensures Walk(b.pool.View, First(b.tree), leaves, 0) <==> leaves == Leaves(b.tree)
    ensures Sorted(LiveAll(Leaves(b.tree)))
    ensures forall k: Key :: k in b.Contents <==> HasKey(LiveAll(Leaves(b.tree)), k)
  {
    hide Serves, Good, Carries, Represents, Flat, Walk, Leaves, LiveAll, HasKey, First, Least;
    ViewPages(b.pool.State(), b.pool.View, b.pool.Pins, b.pool.Touched);
    ChainHoldsContents(b.pool.View, b.tree, 0, KEY_LIMIT, b.height, false, b.Contents, leaves);
  }

  // A tree between calls has at most nine levels.
  lemma TreeHeight(b: BTree)
    requires b.Valid()
    ensures Good(b.tree, Top(b.height)) && b.height <= MAX_HEIGHT
  {
    hide BufferPool.Valid, Good, Carries, Represents, Flat, Least, Pids;
    BoundedHeight(b.pool, b.height);
  }

  // ----- a restart -----

  // The disk may hold pages that the view has given up, but shows every page of it.
  ghost predicate Extends(s: PageMap, s': PageMap) {
    forall p | p in s :: p in s' && s'[p] == s[p]
  }

  lemma ExtendsStands(s: PageMap, s': PageMap, root: PageID, t: Tree, h: nat, m: map<Key, seq<Byte>>)
    requires Stands(s, root, t, h) && Represents(s, Flat(t), m) && Extends(s, s')
    ensures Stands(s', root, t, h) && Represents(s', Flat(t), m) && META_PID in s' && IsDatabase(s'[META_PID])
    ensures s'[META_PID].root == root
  {
    hide Good, Carries, Represents, Flat, Pids;
    CarriesFrame(s, s', t);
    RepresentsFrame(s, s', Flat(t), m);
  }

  // Closing the pool writes it to disk; a pool opened on that disk finds the same
  // contents under the root that the meta page names.
  method Restart(before: BTree) returns (after: BTree)
    requires before.Valid()
    modifies before.pool, before.pool.metas, before.pool.frames
    ensures after.Valid() && after.Contents == before.Contents && after.pool.Pins == multiset{}
    ensures after.pool.MaxPins == MAX_HEIGHT + 2
    ensures fresh(after) && fresh(after.pool)
  {
    hide BufferPool.Valid, Stands, Represents, Flat, Least;
    before.pool.Flush();
    DiskPages(before.pool);
    var pool := new BufferPool(before.pool.disk, before.pool.nextPid, MAX_HEIGHT + 2);
    ExtendsStands(before.pool.View, pool.View, before.rootPid, before.tree, before.height, before.Contents);
    after := Open(pool, before.tree, before.height, before.Contents);
  }

  lemma DiskPages(pool: BufferPool)
    requires pool.Valid()
    ensures 0 < pool.nextPid <= MAX_PAGES && forall p | p in pool.disk :: 0 < p < pool.nextPid
  {
    hide Pool.FramesOk, Pool.QueueOk, Pool.PinsAre, Pool.ViewOk, Untouched;
  }
}
