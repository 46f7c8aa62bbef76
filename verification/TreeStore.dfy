// Trees and the pages that carry them.
module TreeStore {
  import opened Bytes
  import opened Tuples
  import opened LeafLayout
  import opened LeafPages
  import opened InternalPages
  import opened Pages
  import opened Trees
  import opened TreeEdits
  import opened InsertSpec

  lemma {:induction false} KidPids(kids: seq<Tree>, i: nat)
    requires i < |kids|
    ensures Pids(kids[i]) <= PidsAll(kids)
  {
    hide Pids;
    if i > 0 {
      KidPids(kids[1..], i - 1);
      assert kids[1..][i - 1] == kids[i];
    }
  }

  ghost predicate SamePages(store: PageMap, store': PageMap, pids: set<PageID>) {
    forall p | p in pids && p in store :: p in store' && NoLeft(store'[p]) == NoLeft(store[p])
  }

  // A tree is carried as long as its pages stay the same, left pointers aside.
  lemma {:induction false} CarriesFrame(store: PageMap, store': PageMap, t: Tree)
    requires Carries(store, t) && SamePages(store, store', Pids(t))
    ensures Carries(store', t)
    decreases t
  {
    hide PidsAll;
    match t
    case Lf(p) =>
    case Nd(n, kids) =>
      forall i | 0 <= i < |kids| ensures Carries(store', kids[i]) {
        KidPids(kids, i);
        CarriesFrame(store, store', kids[i]);
      }
  }

  lemma CarriesAllFrame(store: PageMap, store': PageMap, kids: seq<Tree>)
    requires CarriesAll(store, kids) && SamePages(store, store', PidsAll(kids))
    ensures CarriesAll(store', kids)
  {
    hide Carries, PidsAll, Pids;
    forall i | 0 <= i < |kids| ensures Carries(store', kids[i]) {
      KidPids(kids, i);
      CarriesFrame(store, store', kids[i]);
    }
  }

  lemma {:induction false} CarriedPids(store: PageMap, t: Tree)
    requires Carries(store, t)
    ensures Pids(t) <= store.Keys
    ensures forall p | p in Pids(t) :: !store[p].OverflowPg? && !store[p].MetaPage? && !store[p].BlankPage?
    decreases t
  {
    hide PidsAll;
    match t
    case Lf(p) =>
    case Nd(n, kids) => CarriedAll(store, kids);
  }

  lemma {:induction false} CarriedAll(store: PageMap, kids: seq<Tree>)
    requires CarriesAll(store, kids)
    ensures PidsAll(kids) <= store.Keys
    ensures forall p | p in PidsAll(kids) :: !store[p].OverflowPg? && !store[p].MetaPage? && !store[p].BlankPage?
    decreases kids
  {
    hide Carries, Pids;
    if kids != [] {
      CarriedPids(store, kids[0]);
      assert forall i | 0 <= i < |kids[1..]| :: kids[1..][i] == kids[i + 1];
      CarriedAll(store, kids[1..]);
    }
  }

  lemma CarriesConcat(store: PageMap, a: seq<Tree>, b: seq<Tree>)
    ensures CarriesAll(store, a + b) <==> CarriesAll(store, a) && CarriesAll(store, b)
  {
    hide Carries;
    assert forall i | 0 <= i < |a| :: (a + b)[i] == a[i];
    assert forall i | 0 <= i < |b| :: (a + b)[|a| + i] == b[i];
  }

  lemma CarriesNode(store: PageMap, n: Node, kids: seq<Tree>)
    ensures Carries(store, Nd(n, kids)) <==> n.pid in store && store[n.pid] == InternalPg(n) && CarriesAll(store, kids)
  {
    hide Carries;
    NodeUnfold(store, n, kids);
  }

  lemma NodeUnfold(store: PageMap, n: Node, kids: seq<Tree>)
    ensures Carries(store, Nd(n, kids)) <==> n.pid in store && store[n.pid] == InternalPg(n) && CarriesAll(store, kids)
  {
  }

  // The page w is the leaf of the subtree between lo and hi that takes the key,
  // and it has room for the first chunk of a payload of the given size.
  ghost predicate Hosts(t: Tree, lo: int, hi: int, key: Key, w: PageID, size: nat)
    decreases t
  {
    match t
    case Lf(p) => p.pid == w && lo <= key < hi && MinEntry(size) <= p.Free()
    case Nd(n, kids) => HostsAll(kids, Fence(n.keys, lo, hi), key, w, size)
  }

  ghost predicate HostsAll(kids: seq<Tree>, f: seq<int>, key: Key, w: PageID, size: nat)
    decreases kids
  {
    |f| > |kids| && exists i | 0 <= i < |kids| :: Hosts(kids[i], f[i], f[i + 1], key, w, size)
  }

  lemma HostsCut(a: seq<Tree>, b: seq<Tree>, f: seq<int>, key: Key, w: PageID, size: nat)
    requires |f| == |a| + |b| + 1
    ensures HostsAll(a + b, f, key, w, size) <==>
            HostsAll(a, f[..|a| + 1], key, w, size) || HostsAll(b, f[|a|..], key, w, size)
  {
    hide Hosts;
    var k := a + b;
    if HostsAll(k, f, key, w, size) {
      var i :| 0 <= i < |k| && Hosts(k[i], f[i], f[i + 1], key, w, size);
      if i < |a| {
        assert Hosts(a[i], f[..|a| + 1][i], f[..|a| + 1][i + 1], key, w, size);
      } else {
        assert Hosts(b[i - |a|], f[|a|..][i - |a|], f[|a|..][i - |a| + 1], key, w, size);
      }
    }
    if HostsAll(a, f[..|a| + 1], key, w, size) {
      var i :| 0 <= i < |a| && Hosts(a[i], f[..|a| + 1][i], f[..|a| + 1][i + 1], key, w, size);
      assert Hosts(k[i], f[i], f[i + 1], key, w, size);
    }
    if HostsAll(b, f[|a|..], key, w, size) {
      var i :| 0 <= i < |b| && Hosts(b[i], f[|a|..][i], f[|a|..][i + 1], key, w, size);
      assert Hosts(k[|a| + i], f[|a| + i], f[|a| + i + 1], key, w, size);
    }
  }

  // A host's key lies inside its bounds.
  lemma {:induction false} HostBounds(t: Tree, lo: int, hi: int, h: nat, full: bool, key: Key, w: PageID, size: nat)
    requires Shape(t, lo, hi, h, full) && Hosts(t, lo, hi, key, w, size)
    ensures lo <= key < hi && w in Pids(t)
    decreases t
  {
    hide Forest, Fence;
    match t
    case Lf(p) =>
    case Nd(n, kids) =>
      var f := Fence(n.keys, lo, hi);
      ForestUnfold(kids, f, h - 1, |kids| > 1);
      FenceEnds(n.keys, lo, hi);
      var i :| 0 <= i < |kids| && Hosts(kids[i], f[i], f[i + 1], key, w, size);
      HostBounds(kids[i], f[i], f[i + 1], h - 1, |kids| > 1, key, w, size);
      KidPids(kids, i);
  }

  lemma {:induction false} HostLeaf(store: PageMap, t: Tree, lo: int, hi: int, h: nat, full: bool, key: Key, w: PageID,
                                    size: nat)
    requires Shape(t, lo, hi, h, full) && Carries(store, t) && Hosts(t, lo, hi, key, w, size) && !HasKey(Flat(t), key)
    ensures w in store && store[w].LeafPg?
    ensures var p := store[w].leaf;
            p.pid == w && p.Valid() && MinEntry(size) <= p.Free() && !HasKey(p.Live(), key)
    decreases t
  {
    hide Forest, Fence, TKey, FlatAll;
    match t
    case Lf(p) => LeftPointer(store[w].leaf);
    case Nd(n, kids) =>
      var f := Fence(n.keys, lo, hi);
      ForestUnfold(kids, f, h - 1, |kids| > 1);
      var i :| 0 <= i < |kids| && Hosts(kids[i], f[i], f[i + 1], key, w, size);
      KidKeys(kids, i, key);
      HostLeaf(store, kids[i], f[i], f[i + 1], h - 1, |kids| > 1, key, w, size);
  }

  lemma LeftPointer(p: Leaf)
    ensures var q := p.(left := 0);
            (q.Valid() <==> p.Valid()) && q.Live() == p.Live() && q.Free() == p.Free() && q.Used() == p.Used()
  {
  }

  lemma KidKeys(kids: seq<Tree>, i: nat, key: Key)
    requires i < |kids| && !HasKey(FlatAll(kids), key)
    ensures !HasKey(Flat(kids[i]), key)
  {
    hide TKey, FlatAll, Flat;
    assert kids == kids[..i] + [kids[i]] + kids[i + 1..];
    FlatThree(kids[..i], [kids[i]], kids[i + 1..]);
    One(kids[i], 0);
    var a := FlatAll(kids[..i]);
    assert forall j | 0 <= j < |Flat(kids[i])| :: FlatAll(kids)[|a| + j] == Flat(kids[i])[j];
  }

  // Inserting or deleting in child i is inserting or deleting in the page.
  lemma NodeInsert(n: Node, kids: seq<Tree>, i: nat, lo: int, hi: int, h: nat, full: bool, x: Tuple)
    requires Shape(Nd(n, kids), lo, hi, h, full) && i < |kids| && !HasKey(Flat(Nd(n, kids)), TKey(x))
    requires |Fence(n.keys, lo, hi)| == |kids| + 1
    requires Fence(n.keys, lo, hi)[i] <= TKey(x) < Fence(n.keys, lo, hi)[i + 1]
    ensures InsertSorted(Flat(Nd(n, kids)), x) ==
            FlatAll(kids[..i]) + InsertSorted(Flat(kids[i]), x) + FlatAll(kids[i + 1..])
  {
    hide TKey, FlatAll, Flat, Forest, Fence, InsertSorted;
    ChildRange(n, kids, i, lo, hi, h, full);
    KidKeysOf(n, kids, i, TKey(x));
    var f := Fence(n.keys, lo, hi);
    InsertInto(FlatAll(kids[..i]), Flat(kids[i]), FlatAll(kids[i + 1..]), x, f[i], f[i + 1]);
  }

  lemma KidKeysOf(n: Node, kids: seq<Tree>, i: nat, key: Key)
    requires i < |kids| && !HasKey(Flat(Nd(n, kids)), key)
    ensures !HasKey(Flat(kids[i]), key)
  {
    hide TKey, FlatAll;
    KidKeys(kids, i, key);
  }

  lemma NodeWithout(n: Node, kids: seq<Tree>, i: nat, lo: int, hi: int, h: nat, full: bool, key: Key)
    requires Shape(Nd(n, kids), lo, hi, h, full) && i < |kids|
    requires |Fence(n.keys, lo, hi)| == |kids| + 1
    requires Fence(n.keys, lo, hi)[i] <= key < Fence(n.keys, lo, hi)[i + 1]
    ensures Without(Flat(Nd(n, kids)), key) == FlatAll(kids[..i]) + Without(Flat(kids[i]), key) + FlatAll(kids[i + 1..])
    ensures HasKey(Flat(Nd(n, kids)), key) <==> HasKey(Flat(kids[i]), key)
  {
    hide TKey, FlatAll, Flat, Forest, Fence, Without;
    ChildRange(n, kids, i, lo, hi, h, full);
    Outside(FlatAll(kids[..i]), lo, Fence(n.keys, lo, hi)[i], key);
    Outside(FlatAll(kids[i + 1..]), Fence(n.keys, lo, hi)[i + 1], hi, key);
    WithoutMiddle(FlatAll(kids[..i]), Flat(kids[i]), FlatAll(kids[i + 1..]), key);
  }

  lemma Outside(s: seq<Tuple>, lo: int, hi: int, key: Key)
    requires KeysIn(s, lo, hi) && !(lo <= key < hi)
    ensures !HasKey(s, key)
  {
  }

  lemma WithoutMiddle(a: seq<Tuple>, m: seq<Tuple>, b: seq<Tuple>, key: Key)
    requires !HasKey(a, key) && !HasKey(b, key)
    ensures Without(a + m + b, key) == a + Without(m, key) + b
    ensures HasKey(a + m + b, key) <==> HasKey(m, key)
  {
    hide TKey, Without;
    WithoutConcat(a + m, b, key);
    WithoutConcat(a, m, key);
    WithoutAbsent(a, key);
    WithoutAbsent(b, key);
    var w := a + m + b;
    if HasKey(m, key) {
      var i :| 0 <= i < |m| && TKey(m[i]) == key;
      assert w[|a| + i] == m[i];
    }
  }

  // The keys left and right of child i.
  lemma ChildRange(n: Node, kids: seq<Tree>, i: nat, lo: int, hi: int, h: nat, full: bool)
    requires Shape(Nd(n, kids), lo, hi, h, full) && i < |kids|
    ensures h > 1 && |Fence(n.keys, lo, hi)| == |kids| + 1
    ensures Flat(Nd(n, kids)) == FlatAll(kids[..i]) + Flat(kids[i]) + FlatAll(kids[i + 1..])
    ensures var f := Fence(n.keys, lo, hi);
            && KeysIn(FlatAll(kids[..i]), lo, f[i]) && KeysIn(FlatAll(kids[i + 1..]), f[i + 1], hi)
            && KeysIn(Flat(kids[i]), f[i], f[i + 1]) && Sorted(Flat(kids[i]))
  {
    hide TKey, FlatAll, Flat, Forest, Fence;
    var f := Fence(n.keys, lo, hi);
    ForestOf(n, kids, lo, hi, h, full);
    ForestUnfold(kids, f, h - 1, |kids| > 1);
    ForestSlice(kids, f, h - 1, |kids| > 1, 0, i);
    ForestSlice(kids, f, h - 1, |kids| > 1, i + 1, |kids|);
    assert kids[0..i] == kids[..i] && kids[i + 1..|kids|] == kids[i + 1..];
    FenceEnds(n.keys, lo, hi);
    ForestKeys(kids[..i], f[0..i + 1], h - 1, |kids| > 1);
    ForestKeys(kids[i + 1..], f[i + 1..|kids| + 1], h - 1, |kids| > 1);
    ShapeKeys(kids[i], f[i], f[i + 1], h - 1, |kids| > 1);
    assert kids == kids[..i] + [kids[i]] + kids[i + 1..];
    FlatAt(n, kids[..i], kids[i], kids[i + 1..]);
  }

  lemma ForestOf(n: Node, kids: seq<Tree>, lo: int, hi: int, h: nat, full: bool)
    requires Shape(Nd(n, kids), lo, hi, h, full)
    ensures h > 1 && Forest(kids, Fence(n.keys, lo, hi), h - 1, |kids| > 1) && Counts(n, kids, full)
  {
    hide Forest, Fence, Counts;
  }

  lemma {:induction false} InsertKeys(s: seq<Tuple>, x: Tuple, lo: int, hi: int)
    requires KeysIn(s, lo, hi) && lo <= TKey(x) < hi
    ensures KeysIn(InsertSorted(s, x), lo, hi)
  {
    hide TKey;
    if s != [] && TKey(s[0]) <= TKey(x) {
      assert forall i | 0 <= i < |s[1..]| :: s[1..][i] == s[i + 1];
      InsertKeys(s[1..], x, lo, hi);
    }
  }

  // The store with a new leaf content at w.
  ghost predicate Updated(store: PageMap, store': PageMap, pids: set<PageID>, w: PageID, q: Leaf) {
    SamePages(store, store', pids - {w}) && w in store' && NoLeft(store'[w]) == LeafPg(q)
  }

  // The child whose fences enclose a key is the one that a search turns to.
  lemma BoundaryIndex(keys: seq<Key>, i: nat, b: Key, lo: int, hi: int)
    requires i <= |keys| && Rising(Fence(keys, lo, hi)) && Fence(keys, lo, hi)[i] <= b < Fence(keys, lo, hi)[i + 1]
    ensures UpperIndex(keys, b) == i
  {
    hide Rising, UpperIndex;
    KeysRise(keys, lo, hi);
    assert i > 0 ==> keys[i - 1] == Fence(keys, lo, hi)[i];
    assert forall k | 0 <= k < i :: keys[k] <= keys[i - 1];
  }

  lemma FenceRising(n: Node, kids: seq<Tree>, site: Site)
    requires Good(Nd(n, kids), site)
    ensures Rising(Fence(n.keys, site.lo, site.hi))
  {
    hide OwnAll, LinkedAll, PidsAll, Forest, Fence, Rising;
    ForestUnfold(kids, Fence(n.keys, site.lo, site.hi), site.h - 1, |kids| > 1);
  }

  // Writing a tuple into the leaf that hosts its key inserts it into the tree.
  lemma {:induction false} HostPut(store: PageMap, store': PageMap, t: Tree, site: Site, w: PageID, size: nat, q: Leaf,
                                   x: Tuple) returns (t': Tree)
    requires Good(t, site) && Carries(store, t) && Hosts(t, site.lo, site.hi, TKey(x), w, size)
    requires !HasKey(Flat(t), TKey(x))
    requires w in store && store[w].LeafPg? && Updated(store, store', Pids(t), w, q)
    requires q.Valid() && q.pid == w && q.left == 0 && q.right == store[w].leaf.right
    requires q.Live() == InsertSorted(store[w].leaf.Live(), x)
    ensures Good(t', site) && Pid(t') == Pid(t) && First(t') == First(t) && Pids(t') <= Pids(t)
    ensures Flat(t') == InsertSorted(Flat(t), x) && Carries(store', t') && (t.Nd? ==> t'.Nd? && t'.node == t.node)
    ensures Replaced(t, t', TKey(x), store[w].leaf.(left := 0), q)
    decreases t
  {
    hide TKey, FlatAll, PidsAll, Forest, Fence, InsertSorted, OwnAll, LinkedAll;
    match t
    case Lf(p) =>
      t' := Lf(q);
      LeftPointer(store[w].leaf);
      InsertKeys(p.Live(), x, site.lo, site.hi);
    case Nd(n, kids) =>
      t' := NodePut(store, store', n, kids, site, w, size, q, x);
  }

  lemma NodePut(store: PageMap, store': PageMap, n: Node, kids: seq<Tree>, site: Site, w: PageID, size: nat, q: Leaf,
                x: Tuple) returns (t': Tree)
    requires Good(Nd(n, kids), site) && Carries(store, Nd(n, kids))
    requires Hosts(Nd(n, kids), site.lo, site.hi, TKey(x), w, size) && !HasKey(Flat(Nd(n, kids)), TKey(x))
    requires w in store && store[w].LeafPg? && Updated(store, store', Pids(Nd(n, kids)), w, q)
    requires q.Valid() && q.pid == w && q.left == 0 && q.right == store[w].leaf.right
    requires q.Live() == InsertSorted(store[w].leaf.Live(), x)
    ensures Good(t', site) && Pid(t') == n.pid && First(t') == First(Nd(n, kids))
    ensures Pids(t') <= Pids(Nd(n, kids))
    ensures Flat(t') == InsertSorted(Flat(Nd(n, kids)), x) && Carries(store', t') && t'.Nd? && t'.node == n
    ensures Replaced(Nd(n, kids), t', TKey(x), store[w].leaf.(left := 0), q)
    decreases kids
  {
    var f := Fence(n.keys, site.lo, site.hi);
    var i :| 0 <= i < |kids| && |f| > |kids| && Hosts(kids[i], f[i], f[i + 1], TKey(x), w, size);
    hide *;
    ChildOf(n, kids, i, site);
    CarriesNode(store, n, kids);
    GoodShape(Nd(n, kids), site);
    GoodShape(kids[i], KidSite(n, kids, i, site));
    HostBounds(kids[i], f[i], f[i + 1], site.h - 1, |kids| > 1, TKey(x), w, size);
    KidKeysOf(n, kids, i, TKey(x));
    KidCarried(store, kids, i);
    ShrinkUpdate(store, store', Pids(Nd(n, kids)), Pids(kids[i]), w, q);
    var c := HostPut(store, store', kids[i], KidSite(n, kids, i, site), w, size, q, x);
    KeepChild(n, kids, i, site, c, {});
    t' := Nd(n, kids[..i] + [c] + kids[i + 1..]);
    NodeInsert(n, kids, i, site.lo, site.hi, site.h, site.full, x);
    FlatAt(n, kids[..i], c, kids[i + 1..]);
    PutCarried(store, store', n, kids, i, c, w, q);
    PidOf(n, kids[..i] + [c] + kids[i + 1..]);
    FenceRising(n, kids, site);
    BoundaryIndex(n.keys, i, TKey(x), site.lo, site.hi);
    ReplacedBelow(n, kids, i, c, TKey(x), store[w].leaf.(left := 0), q);
  }

  lemma ReplacedBelow(n: Node, kids: seq<Tree>, i: nat, c: Tree, key: Key, p: Leaf, q: Leaf)
    requires i == UpperIndex(n.keys, key) < |kids| && Replaced(kids[i], c, key, p, q)
    ensures Replaced(Nd(n, kids), Nd(n, kids[..i] + [c] + kids[i + 1..]), key, p, q)
  {
    assert kids[..i] + [c] + kids[i + 1..] == kids[i := c];
  }

  lemma PidOf(n: Node, kids: seq<Tree>)
    ensures Pid(Nd(n, kids)) == n.pid
  {
  }

  lemma GoodShape(t: Tree, site: Site)
    requires Good(t, site)
    ensures Shape(t, site.lo, site.hi, site.h, site.full)
  {
    hide Shape;
  }

  lemma KidCarried(store: PageMap, kids: seq<Tree>, i: nat)
    requires CarriesAll(store, kids) && i < |kids|
    ensures Carries(store, kids[i])
  {
    hide Carries;
  }

  lemma ShrinkUpdate(store: PageMap, store': PageMap, big: set<PageID>, small: set<PageID>, w: PageID, q: Leaf)
    requires Updated(store, store', big, w, q) && small <= big
    ensures Updated(store, store', small, w, q)
  {
  }

  lemma PutCarried(store: PageMap, store': PageMap, n: Node, kids: seq<Tree>, i: nat, c: Tree, w: PageID, q: Leaf)
    requires i < |kids| && Carries(store, Nd(n, kids)) && Carries(store', c)
    requires Updated(store, store', Pids(Nd(n, kids)), w, q) && w in Pids(kids[i]) && n.pid !in PidsAll(kids)
    requires PidsAll(kids) == PidsAll(kids[..i]) + Pids(kids[i]) + PidsAll(kids[i + 1..])
    requires Pids(kids[i]) !! PidsAll(kids[..i]) && Pids(kids[i]) !! PidsAll(kids[i + 1..])
    ensures Carries(store', Nd(n, kids[..i] + [c] + kids[i + 1..]))
  {
    hide PidsAll;
    CarriesNode(store, n, kids);
    hide Carries;
    assert kids == kids[..i] + kids[i..] && kids[i..] == [kids[i]] + kids[i + 1..];
    CarriesConcat(store, kids[..i], kids[i..]);
    CarriesConcat(store, [kids[i]], kids[i + 1..]);
    CarriesAllFrame(store, store', kids[..i]);
    CarriesAllFrame(store, store', kids[i + 1..]);
    CarriesConcat(store', kids[..i], [c]);
    CarriesConcat(store', kids[..i] + [c], kids[i + 1..]);
    CarriesNode(store', n, kids[..i] + [c] + kids[i + 1..]);
  }
}
