// What a deletion reports at every page on its path, and what it leaves behind.
module DeleteSpec {
  import opened Bytes
  import opened Tuples
  import opened LeafLayout
  import LeafTransfers
  import opened InternalPages
  import opened Pages
  import opened Trees
  import opened TreeEdits
  import opened TreeStore
  import opened TreeInsert
  import opened TreeDelete
  import opened DeleteShape
  import opened Contents

  datatype PageType = LeafKind | InternalKind | InvalidKind
  datatype DeleteStatus = DeleteStatus(underflown: bool, kind: PageType, currentSize: int, success: bool)

  // The report agrees with the page it is about.
  ghost predicate Reports(t: Tree, st: DeleteStatus, full: bool) {
    match t
    case Lf(p) => st.kind == LeafKind && st.currentSize == p.Used() && (st.underflown <==> p.Used() <= UNDERFLOW)
    case Nd(n, _) =>
      && st.kind == InternalKind
      && (st.underflown ==>
            && st.currentSize == PAIR_SIZE * |n.keys| + 8 && |n.keys| < MIN_KEYS
            && (full ==> |n.keys| == MIN_KEYS - 1))
  }

  // The subtree t has become t': the same without the key.
  ghost predicate Deleted(s: PageMap, s': PageMap, t: Tree, t': Tree, key: Key, st: DeleteStatus, site: Site) {
    && Good(t', site.(full := site.full && !st.underflown)) && Carries(s', t')
    && Pid(t') == Pid(t) && First(t') == First(t) && Pids(t') <= Pids(t)
    && Flat(t') == Without(Flat(t), key) && Narrows(t, t') && Shrinks(t, t', key)
    && Frame(s, s', Pids(t))
    && Reports(t', st, site.full) && (t.Lf? ==> st.currentSize == Remaining(t.leaf, key))
    && (st.underflown <==> Underflows(t, key))
    && (st.success <==> HasKey(Flat(t), key) && !Orphaned(t, key))
  }

  // As above, but the root page had one child left, which has become the root.
  ghost predicate Collapsed(s: PageMap, s': PageMap, t: Tree, t': Tree, key: Key, st: DeleteStatus, site: Site) {
    && site.h == 2 && Good(t', site.(h := site.h - 1, full := false)) && Carries(s', t') && Melts(t, t', key)
    && Flat(t') == Without(Flat(t), key)
    && Frame(s, s', Pids(t) + {META_PID})
    && META_PID in s && s[META_PID].MetaPage? && META_PID in s' && s'[META_PID] == MetaPage(s[META_PID].magic, Pid(t'))
    && (st.success <==> HasKey(Flat(t), key) && !Orphaned(t, key))
  }

  // Reports about leaves come from the lowest level, others from above it.
  lemma ReportHeight(s: PageMap, s': PageMap, t: Tree, t': Tree, key: Key, st: DeleteStatus, site: Site)
    requires Deleted(s, s', t, t', key, st, site)
    ensures st.kind == LeafKind ==> site.h == 1
    ensures st.kind == InternalKind ==> site.h > 1
  {
    hide Own, Linked, Carries, Flat, First, Pids, Without, HasKey, Underflows, Orphaned, Frame, Forest;
  }

  // ----- a leaf -----

  lemma LeafDeleted(s: PageMap, s': PageMap, p: Leaf, p': Leaf, key: Key, st: DeleteStatus, site: Site)
    requires site.h == 1
    requires Good(Lf(p.(left := 0)), site) && p.Valid() && p.pid in s && s[p.pid] == LeafPg(p)
    requires p'.Valid() && p'.Live() == Without(p.Live(), key) && p'.pid == p.pid && p'.left == p.left
    requires p'.right == p.right
    requires p'.Used() == p.Used() - SizeWith(p.Live(), key)
    requires st == DeleteStatus(p'.Used() <= UNDERFLOW, LeafKind, p'.Used(), HasKey(p.Live(), key))
    requires s' == s[p.pid := LeafPg(p')]
    ensures Deleted(s, s', Lf(p.(left := 0)), Lf(p'.(left := 0)), key, st, site)
  {
    hide LeafLayout.Leaf.Valid, LeafLayout.Leaf.Live, LeafLayout.Leaf.Used, TKey, Without, SizeWith, HasKey;
    LeftPointer(p);
    LeftPointer(p');
    WithoutKeys(p.Live(), key, site.lo, site.hi);
  }

  lemma {:induction false} WithoutKeys(flat: seq<Tuple>, key: Key, lo: int, hi: int)
    requires KeysIn(flat, lo, hi)
    ensures KeysIn(Without(flat, key), lo, hi)
  {
    hide TKey;
    WithoutMembers(flat, key);
    var g := Without(flat, key);
    forall i | 0 <= i < |g| ensures lo <= TKey(g[i]) < hi {
      assert g[i] in flat;
    }
  }

  // ----- an internal page, once the child has been worked on -----

  // The key is in child i, and its subtree has become c.
  ghost predicate Descended(s: PageMap, s': PageMap, n: Node, kids: seq<Tree>, i: nat, c: Tree, key: Key,
                            st: DeleteStatus, site: Site) {
    && Good(Nd(n, kids), site) && Carries(s, Nd(n, kids)) && site.h > 1
    && i == UpperIndex(n.keys, key) < |kids| && |Fence(n.keys, site.lo, site.hi)| == |kids| + 1
    && Fence(n.keys, site.lo, site.hi)[i] <= key < Fence(n.keys, site.lo, site.hi)[i + 1]
    && Deleted(s, s', kids[i], c, key, st, KidSite(n, kids, i, site))
  }

  lemma DescendedBelow(s: PageMap, s': PageMap, n: Node, kids: seq<Tree>, i: nat, c: Tree, key: Key, st: DeleteStatus,
                       site: Site)
    requires Descended(s, s', n, kids, i, c, key, st, site)
    ensures Below(s', n, kids, i, c, site)
    ensures Reports(c, st, |kids| > 1) && (st.underflown <==> Underflows(kids[i], key))
    ensures kids[i].Lf? ==> st.currentSize == Remaining(kids[i].leaf, key)
    ensures i == UpperIndex(n.keys, key)
    ensures !st.underflown && |kids| > 1 ==>
              Good(c, KidSite(n, kids, i, site).(full := true))
  {
    hide OwnAll, LinkedAll, PidsAll, Forest, Fence, FirstOr, Own, Linked, Pids, First, Carries, Pid, Flat, Frame,
      Without, HasKey,
      Underflows, Orphaned, Reports, Shape, UpperIndex;
    Unfold(n, kids, site);
    ChildOf(n, kids, i, site);
    SiblingsOf(s, s', n, kids, i, site, Pids(kids[i]));
    FullOr(c, KidSite(n, kids, i, site).(full := |kids| > 1 && !st.underflown));
  }

  // A subtree held to a minimum is also well formed without it.
  lemma FullOr(t: Tree, site: Site)
    requires Good(t, site)
    ensures Good(t, site.(full := false))
  {
    hide Shape, Own, Linked;
    if site.full {
      ShapeWeaken(t, site.lo, site.hi, site.h);
    }
  }

  // What happened at the page, together with what happened below it.
  lemma SettledDeletes(s: PageMap, s1: PageMap, s2: PageMap, n: Node, kids: seq<Tree>, i: nat, c: Tree, key: Key,
                       st: DeleteStatus, site: Site, t': Tree, full': bool)
    requires Descended(s, s1, n, kids, i, c, key, st, site)
    requires Settled(s1, s2, n, kids, i, c, t', site.(full := full'))
    ensures Flat(t') == Without(Flat(Nd(n, kids)), key) && Frame(s, s2, Pids(Nd(n, kids)))
    ensures HasKey(Flat(Nd(n, kids)), key) <==> HasKey(Flat(kids[i]), key)
  {
    hide OwnAll, LinkedAll, PidsAll, Forest, Fence, FirstOr, Own, Linked, Pids, First, Carries, Pid, Flat, FlatAll,
      Frame, Without, HasKey,
      Underflows, Orphaned, Reports, Shape, UpperIndex;
    GoodShape(Nd(n, kids), site);
    NodeWithout(n, kids, i, site.lo, site.hi, site.h, site.full, key);
    ChildOf(n, kids, i, site);
    FrameJoins(s, s1, s2, Pids(kids[i]), Pids(Nd(n, kids)));
  }

  lemma FrameJoins(s: PageMap, s1: PageMap, s2: PageMap, a: set<PageID>, b: set<PageID>)
    requires Frame(s, s1, a) && Frame(s1, s2, b) && a <= b
    ensures Frame(s, s2, b)
  {
  }

  // ----- the decisions at a page -----

  lemma UnderflowRule(n: Node, kids: seq<Tree>, key: Key)
    ensures var i := UpperIndex(n.keys, key);
            Underflows(Nd(n, kids), key) <==>
            && i < |kids| && |kids| > 1 && |n.keys| <= MIN_KEYS
            && Underflows(kids[i], key) && !LeftLends(kids, i, key) && !RightLends(kids, i, key)
  {
    hide LeftLends, RightLends, UpperIndex;
  }

  lemma OrphanRule(n: Node, kids: seq<Tree>, key: Key)
    ensures var i := UpperIndex(n.keys, key);
            Orphaned(Nd(n, kids), key) <==>
            i < |kids| && (Orphaned(kids[i], key) || (|kids| == 1 && Underflows(kids[i], key)))
  {
    hide Underflows, UpperIndex;
  }

  // The page is done: its own report follows from the child's.
  lemma Concludes(s: PageMap, s1: PageMap, s2: PageMap, n: Node, kids: seq<Tree>, i: nat, c: Tree, key: Key,
                  below: DeleteStatus, site: Site, t': Tree, st: DeleteStatus)
    requires Descended(s, s1, n, kids, i, c, key, below, site)
    requires Settled(s1, s2, n, kids, i, c, t', site.(full := site.full && !st.underflown)) && Narrows(Nd(n, kids), t')
    requires Reports(t', st, site.full) && (st.underflown <==> Underflows(Nd(n, kids), key))
    requires st.success <==> below.success && !(|kids| == 1 && below.underflown)
    requires Mended(n, kids, i, c, key, t')
    ensures Deleted(s, s2, Nd(n, kids), t', key, st, site)
  {
    hide Fence, FirstOr, Pids, First, Carries, Flat, FlatBelow, Frame, Without, HasKey, Underflows, Orphaned,
      Reports, Good, UpperIndex, Shrinks, Mended;
    ShrinksBy(n, kids, i, c, key, t');
    SettledDeletes(s, s1, s2, n, kids, i, c, key, below, site, t', site.full && !st.underflown);
    OrphanRule(n, kids, key);
  }

  // The root page had one key left and has lost it: its only child is the tree.
  lemma ConcludesAtRoot(s: PageMap, s1: PageMap, s2: PageMap, s3: PageMap, n: Node, kids: seq<Tree>, i: nat, c: Tree,
                        key: Key, below: DeleteStatus, site: Site, n': Node, w: Tree, st: DeleteStatus)
    requires Descended(s, s1, n, kids, i, c, key, below, site)
    requires Settled(s1, s2, n, kids, i, c, Nd(n', [w]), site.(full := false))
    requires (st.success <==> below.success) && below.kind == LeafKind
    requires |kids| == 2 && |n.keys| == 1 && META_PID in s && s[META_PID].MetaPage?
    requires Underflows(kids[i], key) && !LeftLends(kids, i, key) && !RightLends(kids, i, key)
    requires Joined(Left(kids, i, c, 0), n.keys[0], Right(kids, i, c, 0), w)
    requires s3 == s2[META_PID := MetaPage(s[META_PID].magic, Pid(w))] - {n.pid}
    ensures Collapsed(s, s3, Nd(n, kids), w, key, st, site) && n'.children == [Pid(w)]
  {
    hide FirstOr, First, Flat, FlatBelow, FlatAll, Without, HasKey, Underflows, Orphaned, Reports, Own, Linked,
      OwnAll, LinkedAll, Shape, Forest, UpperIndex, Shrinks, LeftLends, RightLends, Joined, Left, Right;
    ReportHeight(s, s1, kids[i], c, key, below, KidSite(n, kids, i, site));
    SettledDeletes(s, s1, s2, n, kids, i, c, key, below, site, Nd(n', [w]), false);
    OrphanRule(n, kids, key);
    OnlyChild(n', w, site.lo, site.hi, site.h, site.e);
    CarriedPids(s, Nd(n, kids));
    CarriesNode(s2, n', [w]);
    One(w, 0);
    FlatOf(n', [w]);
    hide Carries, Frame, Pids, PidsAll;
    assert [w][0] == w;
    RootGone(s, s2, s3, Nd(n, kids), w, n.pid);
  }

  lemma OnlyChild(n: Node, w: Tree, lo: int, hi: int, h: nat, e: PageID)
    requires Good(Nd(n, [w]), Site(lo, hi, h, false, e))
    ensures h > 1 && Good(w, Site(lo, hi, h - 1, false, e)) && n.children == [Pid(w)] && n.pid !in Pids(w)
  {
    hide Shape, Own, Linked, Forest, Fence, Pids;
    var kids := [w];
    ChildOf(n, kids, 0, Site(lo, hi, h, false, e));
    assert kids[1..] == [];
    FenceEnds(n.keys, lo, hi);
  }

  lemma RootGone(s: PageMap, s2: PageMap, s3: PageMap, t: Tree, w: Tree, root: PageID)
    requires Carries(s, t) && root in Pids(t) && META_PID in s && s[META_PID].MetaPage?
    requires Frame(s, s2, Pids(t)) && Carries(s2, w) && Pids(w) <= Pids(t) && root !in Pids(w)
    requires s3 == s2[META_PID := MetaPage(s[META_PID].magic, Pid(w))] - {root}
    ensures Frame(s, s3, Pids(t) + {META_PID}) && Carries(s3, w) && META_PID in s3
    ensures s3[META_PID] == MetaPage(s[META_PID].magic, Pid(w))
  {
    hide Carries, Pids;
    CarriedPids(s, t);
    CarriesFrame(s2, s3, w);
  }

  // ----- when a deletion reports failure although it found the key -----

  // No page on the path to the key is the only child of its parent.
  ghost predicate Branches(t: Tree, key: Key)
    decreases t
  {
    match t
    case Lf(_) => true
    case Nd(n, kids) =>
      var i := UpperIndex(n.keys, key);
      i < |kids| ==> |kids| > 1 && Branches(kids[i], key)
  }

  lemma {:induction false} BranchesNeverOrphans(t: Tree, key: Key)
    requires Branches(t, key)
    ensures !Orphaned(t, key)
    decreases t
  {
    hide Underflows;
    match t
    case Lf(_) =>
    case Nd(n, kids) =>
      var i := UpperIndex(n.keys, key);
      if i < |kids| {
        BranchesNeverOrphans(kids[i], key);
      }
  }

  // In a well-formed tree only children below a root with a single child have no
  // neighbour, since every other internal page is half full.
  lemma {:induction false} OrphansUnderLoneRoot(t: Tree, key: Key, site: Site)
    requires Good(t, site) && Orphaned(t, key)
    ensures Lone(t)
    decreases t
  {
    hide Underflows, Own, Linked, Forest, Fence, UpperIndex, First, Flat;
    match t
    case Lf(_) =>
    case Nd(n, kids) =>
      OrphanRule(n, kids, key);
      hide Orphaned;
      var i := UpperIndex(n.keys, key);
      Unfold(n, kids, site);
      if |kids| > 1 {
        ChildOf(n, kids, i, site);
        OrphansUnderLoneRoot(kids[i], key, KidSite(n, kids, i, site).(full := true));
      }
  }
}
