// What a deletion does to a tree once a child of a page has been worked on:
// nothing, a borrow between two neighbours, or a merge of two neighbours.
module TreeDelete {
  import opened Bytes
  import opened Tuples
  import opened LeafLayout
  import opened LeafTransfers
  import opened InternalPages
  import opened Pages
  import opened Trees
  import opened TreeEdits
  import opened TreePairs
  import opened TreeStore
  import opened TreeInsert
  import opened DeleteOps

  // The subtree at child i of a page has become c; the rest is as before.
  ghost predicate Below(s: PageMap, n: Node, kids: seq<Tree>, i: nat, c: Tree, site: Site) {
    && Good(Nd(n, kids), site) && site.h > 1 && i < |kids|
    && |Fence(n.keys, site.lo, site.hi)| == |kids| + 1 == |n.keys| + 2 == |n.children| + 1
    && n.pid in s && s[n.pid] == InternalPg(n)
    && CarriesAll(s, kids[..i]) && CarriesAll(s, kids[i + 1..]) && Carries(s, c)
    && Good(c, KidSite(n, kids, i, site).(full := false))
    && Pid(c) == Pid(kids[i]) && First(c) == First(kids[i]) && Pids(c) <= Pids(kids[i])
  }

  // All tuples below the page, with c in place of child i.
  function FlatBelow(kids: seq<Tree>, i: nat, c: Tree): seq<Tuple>
    requires i < |kids|
  {
    FlatAll(kids[..i]) + Flat(c) + FlatAll(kids[i + 1..])
  }

  // The outcome at the page: t' replaces it.
  ghost predicate Settled(s: PageMap, s': PageMap, n: Node, kids: seq<Tree>, i: nat, c: Tree, t': Tree, site: Site) {
    && i < |kids|
    && Good(t', site) && Carries(s', t')
    && Pid(t') == n.pid && First(t') == First(Nd(n, kids)) && Pids(t') <= Pids(Nd(n, kids))
    && Flat(t') == FlatBelow(kids, i, c)
    && Frame(s, s', Pids(Nd(n, kids)))
  }

  // The child needs no attention, or has no neighbour to turn to.
  lemma ChildSettles(s: PageMap, n: Node, kids: seq<Tree>, i: nat, c: Tree, site: Site)
    requires Below(s, n, kids, i, c, site)
    requires |kids| > 1 ==> Good(c, KidSite(n, kids, i, site).(full := true))
    ensures Settled(s, s, n, kids, i, c, Nd(n, kids[..i] + [c] + kids[i + 1..]), site)
  {
    hide OwnAll, LinkedAll, PidsAll, FlatAll, Forest, Fence, FirstOr, Shape, Own, Linked, Pids, First, Carries, Flat;
    KeepChild(n, kids, i, site, c, {});
    CarryNode(s, n, kids[..i], [c], kids[i + 1..]);
    FlatAt(n, kids[..i], c, kids[i + 1..]);
    PidOf(n, kids[..i] + [c] + kids[i + 1..]);
  }

  // ----- the neighbours j and j + 1, one of which is child i -----

  function Left(kids: seq<Tree>, i: nat, c: Tree, j: nat): Tree
    requires j + 1 < |kids|
  {
    if j == i then c else kids[j]
  }

  function Right(kids: seq<Tree>, i: nat, c: Tree, j: nat): Tree
    requires j + 1 < |kids|
  {
    if j + 1 == i then c else kids[j + 1]
  }

  ghost predicate Beside(kids: seq<Tree>, i: nat, j: nat) {
    j + 1 < |kids| && (i == j || i == j + 1)
  }

  lemma PairFlat(kids: seq<Tree>, i: nat, c: Tree, j: nat, m: seq<Tree>)
    requires Beside(kids, i, j) && FlatAll(m) == Flat(Left(kids, i, c, j)) + Flat(Right(kids, i, c, j))
    ensures FlatAll(kids[..j] + m + kids[j + 2..]) == FlatBelow(kids, i, c)
  {
    hide FlatAll, Flat;
    FlatThree(kids[..j], m, kids[j + 2..]);
    if i == j {
      assert kids[i + 1..] == [kids[j + 1]] + kids[j + 2..];
      FlatConcat([kids[j + 1]], kids[j + 2..]);
      One(kids[j + 1], 0);
    } else {
      assert kids[..i] == kids[..j] + [kids[j]];
      FlatConcat(kids[..j], [kids[j]]);
      One(kids[j], 0);
    }
  }

  // The pages outside the pair and the parent are as they were.
  lemma PairOthers(s: PageMap, s': PageMap, n: Node, kids: seq<Tree>, i: nat, c: Tree, site: Site, j: nat)
    requires Below(s, n, kids, i, c, site) && Beside(kids, i, j)
    requires Frame(s, s', Pids(kids[j]) + Pids(kids[j + 1]) + {n.pid})
    ensures CarriesAll(s', kids[..j]) && CarriesAll(s', kids[j + 2..])
    ensures Frame(s, s', Pids(Nd(n, kids)))
  {
    hide OwnAll, LinkedAll, PidsAll, FlatAll, Forest, Fence, FirstOr, Shape, Linked, Pids, First, Carries, Flat;
    Unfold(n, kids, site);
    SplitPair(kids, j);
    Chain3(kids[..j], [kids[j], kids[j + 1]], kids[j + 2..], site.e);
    Pair(kids[j], kids[j + 1], site.e);
    assert kids[..i] == kids[..j] + kids[j..i] && kids[i + 1..] == kids[i + 1..j + 2] + kids[j + 2..];
    CarriesConcat(s, kids[..j], kids[j..i]);
    CarriesConcat(s, kids[i + 1..j + 2], kids[j + 2..]);
    CarriedAll(s, kids[..j]);
    CarriedAll(s, kids[j + 2..]);
    CarriesAllFrame(s, s', kids[..j]);
    CarriesAllFrame(s, s', kids[j + 2..]);
  }

  // Two neighbours have traded entries across the separator.
  lemma PairMoved(s: PageMap, s': PageMap, n: Node, kids: seq<Tree>, i: nat, c: Tree, site: Site, j: nat, l: Tree,
                  b: Key, r: Tree)
    requires Below(s, n, kids, i, c, site) && Beside(kids, i, j)
    requires Fence(n.keys, site.lo, site.hi)[j] < b < Fence(n.keys, site.lo, site.hi)[j + 2]
    requires Good(l, Site(Fence(n.keys, site.lo, site.hi)[j], b, site.h - 1, true, First(r)))
    requires Good(r, Site(b, Fence(n.keys, site.lo, site.hi)[j + 2], site.h - 1, true, FirstOr(kids[j + 2..], site.e)))
    requires Pid(l) == Pid(kids[j]) && Pid(r) == Pid(kids[j + 1]) && First(l) == First(kids[j]) && Pids(l) !! Pids(r)
    requires Pids(l) + Pids(r) <= Pids(kids[j]) + Pids(kids[j + 1])
    requires Flat(l) + Flat(r) == Flat(Left(kids, i, c, j)) + Flat(Right(kids, i, c, j))
    requires Frame(s, s', Pids(kids[j]) + Pids(kids[j + 1]) + {n.pid})
    requires Carries(s', l) && Carries(s', r)
    requires n.pid in s' && s'[n.pid] == InternalPg(n.(keys := n.keys[j := b]))
    ensures Settled(s, s', n, kids, i, c, Nd(n.(keys := n.keys[j := b]), kids[..j] + [l, r] + kids[j + 2..]), site)
  {
    hide OwnAll, LinkedAll, PidsAll, FlatAll, Forest, Fence, FirstOr, Shape, Own, Linked, Pids, First, Carries,
      Flat, FlatBelow;
    var n' := n.(keys := n.keys[j := b]);
    PairOthers(s, s', n, kids, i, c, site, j);
    MoveSeparator(n, kids, j, site, l, b, r);
    CarryAll(s', kids[..j], l, r, kids[j + 2..]);
    CarriesNode(s', n', kids[..j] + [l, r] + kids[j + 2..]);
    Pair(l, r, 0);
    PairFlat(kids, i, c, j, [l, r]);
    FlatOf(n', kids[..j] + [l, r] + kids[j + 2..]);
    PidOf(n', kids[..j] + [l, r] + kids[j + 2..]);
  }

  // Two neighbours have become one.
  lemma PairMerged(s: PageMap, s': PageMap, n: Node, kids: seq<Tree>, i: nat, c: Tree, site: Site, j: nat, w: Tree,
                   n': Node)
    requires Below(s, n, kids, i, c, site) && Beside(kids, i, j)
    requires Good(w,
                  Site(Fence(n.keys, site.lo, site.hi)[j], Fence(n.keys, site.lo, site.hi)[j + 2], site.h - 1, true,
                       FirstOr(kids[j + 2..], site.e)))
    requires Pid(w) == Pid(kids[j]) && First(w) == First(kids[j]) && Pids(w) <= Pids(kids[j]) + Pids(kids[j + 1])
    requires Flat(w) == Flat(Left(kids, i, c, j)) + Flat(Right(kids, i, c, j))
    requires Frame(s, s', Pids(kids[j]) + Pids(kids[j + 1]) + {n.pid}) && Carries(s', w)
    requires n' == Node(n.pid, RemoveAt(n.keys, j), RemoveAt(n.children, j + 1))
    requires n.pid in s' && s'[n.pid] == InternalPg(n')
    ensures Settled(s, s', n, kids, i, c, Nd(n', kids[..j] + [w] + kids[j + 2..]),
                    site.(full := site.full && |n.keys| > MIN_KEYS))
  {
    hide OwnAll, LinkedAll, PidsAll, FlatAll, Forest, Fence, FirstOr, Shape, Own, Linked, Pids, First, Carries,
      Flat, FlatBelow, RemoveAt;
    PairOthers(s, s', n, kids, i, c, site, j);
    DropSeparator(n, kids, j, site, w);
    CarryNode(s', n', kids[..j], [w], kids[j + 2..]);
    One(w, 0);
    PairFlat(kids, i, c, j, [w]);
    FlatOf(n', kids[..j] + [w] + kids[j + 2..]);
    PidOf(n', kids[..j] + [w] + kids[j + 2..]);
  }

  lemma ParentOf(n: Node, kids: seq<Tree>, site: Site)
    requires Good(Nd(n, kids), site)
    ensures Parent(n) && |kids| == |n.children|
  {
    hide OwnAll, LinkedAll, PidsAll, Forest, Pid, Pids, Fence;
    Unfold(n, kids, site);
    ForestUnfold(kids, Fence(n.keys, site.lo, site.hi), site.h - 1, |kids| > 1);
    KeysRise(n.keys, site.lo, site.hi);
    forall i, j | 0 <= i < j < |kids| ensures n.children[i] != n.children[j] {
      OwnApart(kids, i, j);
    }
  }

  lemma {:induction false} OwnApart(kids: seq<Tree>, i: nat, j: nat)
    requires OwnAll(kids) && i < j < |kids|
    ensures Pids(kids[i]) !! Pids(kids[j]) && Pid(kids[i]) != Pid(kids[j])
  {
    hide Own;
    assert kids[1..][j - 1] == kids[j];
    if i == 0 {
      KidPids(kids[1..], j - 1);
    } else {
      OwnApart(kids[1..], i - 1, j - 1);
    }
  }

  // What is known of the two neighbours.
  ghost predicate Adjoin(s: PageMap, n: Node, kids: seq<Tree>, j: nat, l: Tree, r: Tree, lo: int, hi: int, h: nat,
                         x: bool, y: bool, e: PageID) {
    && j + 1 < |kids| == |n.keys| + 1 == |n.children| && h > 1 && |Fence(n.keys, lo, hi)| == |kids| + 1
    && Fence(n.keys, lo, hi)[j] < Fence(n.keys, lo, hi)[j + 1] == n.keys[j] < Fence(n.keys, lo, hi)[j + 2]
    && Good(l, Site(Fence(n.keys, lo, hi)[j], n.keys[j], h - 1, x, First(r)))
    && Good(r, Site(n.keys[j], Fence(n.keys, lo, hi)[j + 2], h - 1, y, FirstOr(kids[j + 2..], e)))
    && Carries(s, l) && Carries(s, r) && Pids(l) !! Pids(r) && n.pid !in Pids(l) + Pids(r)
    && Pids(l) + Pids(r) <= Pids(kids[j]) + Pids(kids[j + 1])
    && Pid(l) == Pid(kids[j]) == n.children[j] && Pid(r) == Pid(kids[j + 1]) == n.children[j + 1]
    && First(l) == First(kids[j])
  }

  lemma PairGood(s: PageMap, n: Node, kids: seq<Tree>, i: nat, c: Tree, site: Site, j: nat)
    requires Below(s, n, kids, i, c, site) && Beside(kids, i, j)
    ensures Adjoin(s, n, kids, j, Left(kids, i, c, j), Right(kids, i, c, j), site.lo, site.hi, site.h, j != i,
                   j + 1 != i, site.e)
  {
    hide OwnAll, LinkedAll, PidsAll, Forest, Fence, FirstOr, Shape, Own, Linked, Pids, First, Carries, Pid, Flat, Frame;
    ChildOf(n, kids, j, site);
    ChildOf(n, kids, j + 1, site);
    FenceKey(n.keys, j, site.lo, site.hi);
    Unfold(n, kids, site);
    OwnApart(kids, j, j + 1);
    FirstNext(kids, j, site.e);
    assert kids[..i] != [] ==> kids[..i][i - 1] == kids[i - 1];
    assert kids[i + 1..] != [] ==> kids[i + 1..][0] == kids[i + 1];
  }

  lemma FenceKey(keys: seq<Key>, j: nat, lo: int, hi: int)
    requires j < |keys|
    ensures Fence(keys, lo, hi)[j + 1] == keys[j]
  {
  }

  lemma FirstNext(kids: seq<Tree>, j: nat, e: PageID)
    requires j + 1 < |kids|
    ensures FirstOr(kids[j + 1..], e) == First(kids[j + 1])
  {
    hide First;
  }

  // Two leaves that traded tuples.
  lemma LeafTraded(s: PageMap, s': PageMap, n: Node, kids: seq<Tree>, i: nat, c: Tree, site: Site, j: nat, p: Leaf,
                   q: Leaf, p': Leaf, q': Leaf, b: Key)
    requires Below(s, n, kids, i, c, site) && Beside(kids, i, j)
    requires Left(kids, i, c, j) == Lf(p.(left := 0)) && Right(kids, i, c, j) == Lf(q.(left := 0))
    requires Traded(p, q, p', q', b)
    requires Frame(s, s', {p.pid, q.pid, n.pid})
    requires p.pid in s' && NoLeft(s'[p.pid]) == NoLeft(LeafPg(p')) && q.pid in s'
    requires NoLeft(s'[q.pid]) == NoLeft(LeafPg(q'))
    requires n.pid in s' && s'[n.pid] == InternalPg(n.(keys := n.keys[j := b]))
    ensures Settled(s, s', n, kids, i, c,
                    Nd(n.(keys := n.keys[j := b]),
                       kids[..j] + [Lf(p'.(left := 0)), Lf(q'.(left := 0))] + kids[j + 2..]), site)
  {
    hide OwnAll, LinkedAll, PidsAll, FlatAll, Forest, Fence, FirstOr, Below, Settled, LeafLayout.Leaf.Valid,
      LeafLayout.Leaf.Live, TKey, Left, Right, Beside, Frame;
    PairGood(s, n, kids, i, c, site, j);
    LeftPointer(p);
    LeftPointer(q);
    LeftPointer(p');
    LeftPointer(q');
    var f := Fence(n.keys, site.lo, site.hi);
    var end := FirstOr(kids[j + 2..], site.e);
    GoodShape(Lf(p.(left := 0)), Site(f[j], n.keys[j], site.h - 1, j != i, q.pid));
    LeafRepartition(p.(left := 0), q.(left := 0), p'.(left := 0), q'.(left := 0), b, f[j], n.keys[j], f[j + 2], end);
    FrameGrows(s, s', {p.pid, q.pid, n.pid}, Pids(kids[j]) + Pids(kids[j + 1]) + {n.pid});
    PairMoved(s, s', n, kids, i, c, site, j, Lf(p'.(left := 0)), b, Lf(q'.(left := 0)));
  }

  lemma FrameGrows(s: PageMap, s': PageMap, a: set<PageID>, b: set<PageID>)
    requires Frame(s, s', a) && a <= b
    ensures Frame(s, s', b)
  {
  }

  // Two leaves of which the left one took over the right one.
  lemma LeafMerged(s: PageMap, s': PageMap, n: Node, kids: seq<Tree>, i: nat, c: Tree, site: Site, j: nat, p: Leaf,
                   q: Leaf, m: Leaf, n': Node)
    requires Below(s, n, kids, i, c, site) && Beside(kids, i, j)
    requires Left(kids, i, c, j) == Lf(p.(left := 0)) && Right(kids, i, c, j) == Lf(q.(left := 0))
    requires m.Valid() && m.Live() == p.Live() + q.Live() && m.pid == p.pid && m.right == q.right
    requires Frame(s, s', {p.pid, q.pid, n.pid})
    requires p.pid in s' && NoLeft(s'[p.pid]) == NoLeft(LeafPg(m))
    requires n' == Node(n.pid, RemoveAt(n.keys, j), RemoveAt(n.children, j + 1))
    requires n.pid in s' && s'[n.pid] == InternalPg(n')
    ensures Settled(s, s', n, kids, i, c, Nd(n', kids[..j] + [Lf(m.(left := 0))] + kids[j + 2..]),
                    site.(full := site.full && |n.keys| > MIN_KEYS))
  {
    hide OwnAll, LinkedAll, PidsAll, FlatAll, Forest, Fence, FirstOr, Below, Settled, LeafLayout.Leaf.Valid,
      LeafLayout.Leaf.Live, TKey, Left, Right, Beside, Frame, RemoveAt;
    PairGood(s, n, kids, i, c, site, j);
    LeftPointer(p);
    LeftPointer(q);
    LeftPointer(m);
    var f := Fence(n.keys, site.lo, site.hi);
    var end := FirstOr(kids[j + 2..], site.e);
    GoodShape(Lf(p.(left := 0)), Site(f[j], n.keys[j], site.h - 1, j != i, q.pid));
    LeafMerge(p.(left := 0), q.(left := 0), m.(left := 0), f[j], n.keys[j], f[j + 2], end);
    FrameGrows(s, s', {p.pid, q.pid, n.pid}, Pids(kids[j]) + Pids(kids[j + 1]) + {n.pid});
    PairMerged(s, s', n, kids, i, c, site, j, Lf(m.(left := 0)), n');
  }

  // ----- neighbours that are internal pages -----

  // Both neighbours' children stay carried while their pages are rewritten.
  lemma PairKids(s: PageMap, s': PageMap, p: Node, kl: seq<Tree>, q: Node, kr: seq<Tree>, top: PageID)
    requires Carries(s, Nd(p, kl)) && Carries(s, Nd(q, kr)) && Frame(s, s', {p.pid, q.pid, top})
    requires p.pid !in PidsAll(kl + kr) && q.pid !in PidsAll(kl + kr) && top !in Pids(Nd(p, kl)) + Pids(Nd(q, kr))
    ensures CarriesAll(s', kl + kr)
  {
    CarriesNode(s, p, kl);
    CarriesNode(s, q, kr);
    hide Carries, PidsAll, CarriesAll;
    PidsConcat(kl, kr);
    CarriedAll(s, kl);
    CarriedAll(s, kr);
    CarriesConcat(s, kl, kr);
    CarriesAllFrame(s, s', kl + kr);
  }

  lemma NodeRotated(s: PageMap, s': PageMap, n: Node, kids: seq<Tree>, i: nat, c: Tree, site: Site, j: nat, p: Node,
                    kl: seq<Tree>, q: Node, kr: seq<Tree>, p': Node, q': Node, b: Key) returns (t': Tree)
    requires Below(s, n, kids, i, c, site) && Beside(kids, i, j) && j < |n.keys|
    requires Left(kids, i, c, j) == Nd(p, kl) && Right(kids, i, c, j) == Nd(q, kr)
    requires Rotated(p, n.keys[j], q, p', b, q')
    requires |p.keys| > 0 && |q.keys| > 0
    requires Frame(s, s', {p.pid, q.pid, n.pid})
    requires p.pid in s' && s'[p.pid] == InternalPg(p') && q.pid in s' && s'[q.pid] == InternalPg(q')
    requires n.pid in s' && s'[n.pid] == InternalPg(n.(keys := n.keys[j := b]))
    ensures Settled(s, s', n, kids, i, c, t', site) && t'.Nd? && |t'.node.keys| == |n.keys|
    ensures var k := |p'.children|;
            && k <= |kl + kr| && j + 1 < |kids|
            && t' == Nd(n.(keys := n.keys[j := b]),
                        kids[..j] + [Nd(p', (kl + kr)[..k]), Nd(q', (kl + kr)[k..])] + kids[j + 2..])
    ensures |kl| == |p.children| && |kr| == |q.children|
  {
    hide OwnAll, LinkedAll, PidsAll, FlatAll, Forest, Fence, FirstOr, Below, Settled, Left, Right, Beside, Frame,
      Carries, Flat, Pids, First,
      Good, GoodAll, CarriesAll;
    PairGood(s, n, kids, i, c, site, j);
    var f := Fence(n.keys, site.lo, site.hi);
    var end := FirstOr(kids[j + 2..], site.e);
    var all := kl + kr;
    var k := |p'.children|;
    PairJoin(p, kl, n.keys[j], q, kr, f[j], f[j + 2], site.h - 1, j != i, j + 1 != i, end);
    PidsOf(p, kl);
    PidsOf(q, kr);
    PairKids(s, s', p, kl, q, kr, n.pid);
    PairCut(all, p', b, q', f[j], f[j + 2], site.h - 1, end);
    FlatCut(p', q', all, k);
    FlatJoin(p, kl, q, kr);
    HalvesCarry(s', all, p', q', k);
    RotatedMoved(s, s', n, kids, i, c, site, j, Nd(p', all[..k]), b, Nd(q', all[k..]), p.pid, q.pid);
    t' := Nd(n.(keys := n.keys[j := b]), kids[..j] + [Nd(p', all[..k]), Nd(q', all[k..])] + kids[j + 2..]);
  }

  lemma PidsOf(n: Node, kids: seq<Tree>)
    ensures Pids(Nd(n, kids)) == {n.pid} + PidsAll(kids)
  {
    hide PidsAll;
  }

  lemma FlatJoin(p: Node, kl: seq<Tree>, q: Node, kr: seq<Tree>)
    ensures FlatAll(kl + kr) == Flat(Nd(p, kl)) + Flat(Nd(q, kr))
  {
    hide FlatAll;
    FlatConcat(kl, kr);
  }

  lemma HalvesCarry(s: PageMap, all: seq<Tree>, p: Node, q: Node, k: nat)
    requires CarriesAll(s, all) && k <= |all|
    requires p.pid in s && s[p.pid] == InternalPg(p) && q.pid in s && s[q.pid] == InternalPg(q)
    ensures Carries(s, Nd(p, all[..k])) && Carries(s, Nd(q, all[k..]))
  {
    hide Carries, CarriesAll;
    assert all == all[..k] + all[k..];
    CarriesConcat(s, all[..k], all[k..]);
    CarriesNode(s, p, all[..k]);
    CarriesNode(s, q, all[k..]);
  }

  lemma RotatedMoved(s: PageMap, s': PageMap, n: Node, kids: seq<Tree>, i: nat, c: Tree, site: Site, j: nat, l: Tree,
                     b: Key, r: Tree, x: PageID, y: PageID)
    requires Below(s, n, kids, i, c, site) && Beside(kids, i, j)
    requires Fence(n.keys, site.lo, site.hi)[j] < b < Fence(n.keys, site.lo, site.hi)[j + 2]
    requires Good(l, Site(Fence(n.keys, site.lo, site.hi)[j], b, site.h - 1, true, First(r)))
    requires Good(r, Site(b, Fence(n.keys, site.lo, site.hi)[j + 2], site.h - 1, true, FirstOr(kids[j + 2..], site.e)))
    requires Pid(l) == Pid(kids[j]) && Pid(r) == Pid(kids[j + 1]) && First(l) == First(kids[j]) && Pids(l) !! Pids(r)
    requires Pids(l) + Pids(r) <= Pids(kids[j]) + Pids(kids[j + 1])
    requires Flat(l) + Flat(r) == Flat(Left(kids, i, c, j)) + Flat(Right(kids, i, c, j))
    requires Frame(s, s', {x, y, n.pid}) && x in Pids(l) + Pids(r) && y in Pids(l) + Pids(r)
    requires Carries(s', l) && Carries(s', r)
    requires n.pid in s' && s'[n.pid] == InternalPg(n.(keys := n.keys[j := b]))
    ensures Settled(s, s', n, kids, i, c, Nd(n.(keys := n.keys[j := b]), kids[..j] + [l, r] + kids[j + 2..]), site)
  {
    hide Fence, FirstOr, Below, Settled, Left, Right, Frame, Carries, Flat, Pids, First, Good;
    FrameGrows(s, s', {x, y, n.pid}, Pids(kids[j]) + Pids(kids[j + 1]) + {n.pid});
    PairMoved(s, s', n, kids, i, c, site, j, l, b, r);
  }

  lemma NodeMerged(s: PageMap, s': PageMap, n: Node, kids: seq<Tree>, i: nat, c: Tree, site: Site, j: nat, p: Node,
                   kl: seq<Tree>, q: Node, kr: seq<Tree>, m: Node, n': Node)
    returns (t': Tree)
    requires Below(s, n, kids, i, c, site) && Beside(kids, i, j) && j < |n.keys| && j + 1 < |n.children|
    requires Left(kids, i, c, j) == Nd(p, kl) && Right(kids, i, c, j) == Nd(q, kr)
    requires m == Node(p.pid, p.keys + [n.keys[j]] + q.keys, p.children + q.children)
    requires |p.keys| > 0 && |q.keys| > 0 && MIN_KEYS <= |m.keys| <= NUM_KEY_SLOTS
    requires Frame(s, s', {p.pid, q.pid, n.pid}) && p.pid in s' && s'[p.pid] == InternalPg(m)
    requires n' == Node(n.pid, RemoveAt(n.keys, j), RemoveAt(n.children, j + 1))
    requires n.pid in s' && s'[n.pid] == InternalPg(n')
    ensures Settled(s, s', n, kids, i, c, t', site.(full := site.full && |n.keys| > MIN_KEYS)) && t'.Nd?
    ensures t'.node == n' && j + 1 < |kids| && t' == Nd(n', kids[..j] + [Nd(m, kl + kr)] + kids[j + 2..])
  {
    hide OwnAll, LinkedAll, PidsAll, FlatAll, Forest, Fence, FirstOr, Below, Settled, Left, Right, Beside, Frame,
      Carries, Flat, Pids, First,
      Good, GoodAll, CarriesAll, RemoveAt;
    PairGood(s, n, kids, i, c, site, j);
    var f := Fence(n.keys, site.lo, site.hi);
    var end := FirstOr(kids[j + 2..], site.e);
    var all := kl + kr;
    PairJoin(p, kl, n.keys[j], q, kr, f[j], f[j + 2], site.h - 1, j != i, j + 1 != i, end);
    PidsOf(p, kl);
    PidsOf(q, kr);
    PairKids(s, s', p, kl, q, kr, n.pid);
    PairMerge(all, m, f[j], f[j + 2], site.h - 1, end);
    FlatOf(m, all);
    FlatJoin(p, kl, q, kr);
    CarriesNode(s', m, all);
    FrameGrows(s, s', {p.pid, q.pid, n.pid}, Pids(kids[j]) + Pids(kids[j + 1]) + {n.pid});
    PairMerged(s, s', n, kids, i, c, site, j, Nd(m, all), n');
    t' := Nd(n', kids[..j] + [Nd(m, all)] + kids[j + 2..]);
  }
}
