// Two neighbouring subtrees: what borrowing, merging and splitting do to them.
module TreePairs {
  import opened Bytes
  import opened Tuples
  import opened LeafLayout
  import opened InternalPages
  import opened Trees
  import opened TreeEdits

  // Tuples moved between two leaves, with the right one's least key as separator.
  lemma LeafRepartition(p: Leaf, q: Leaf, p': Leaf, q': Leaf, b: Key, lo: int, mid: int, hi: int, e: PageID)
    requires Good(Lf(p), Site(lo, mid, 1, true, q.pid)) && Good(Lf(q), Site(mid, hi, 1, true, e)) && lo < mid < hi
    requires p'.Valid() && q'.Valid() && p'.Live() + q'.Live() == p.Live() + q.Live()
    requires p'.Live() != [] && q'.Live() != [] && b == TKey(q'.Live()[0])
    requires p'.pid == p.pid && q'.pid == q.pid && p'.right == p.right && q'.right == q.right
    ensures lo < b < hi
    ensures Good(Lf(p'), Site(lo, b, 1, true, q'.pid)) && Good(Lf(q'), Site(b, hi, 1, true, e))
  {
    hide TKey, LeafLayout.Leaf.Valid, LeafLayout.Leaf.Live;
    ShapeKeys(Lf(p), lo, mid, 1, true);
    ShapeKeys(Lf(q), mid, hi, 1, true);
    JoinKeys(p.Live(), q.Live(), lo, mid, hi);
    CutKeys(p'.Live(), q'.Live(), lo, hi);
  }

  lemma CutKeys(a: seq<Tuple>, b: seq<Tuple>, lo: int, hi: int)
    requires Sorted(a + b) && KeysIn(a + b, lo, hi) && a != [] && b != []
    ensures lo < TKey(b[0]) < hi && KeysIn(a, lo, TKey(b[0])) && KeysIn(b, TKey(b[0]), hi)
  {
    hide TKey;
    var w := a + b;
    assert forall i | 0 <= i < |a| :: w[i] == a[i];
    assert forall i | 0 <= i < |b| :: w[|a| + i] == b[i];
    assert TKey(w[0]) < TKey(w[|a|]);
  }

  lemma LeafMerge(p: Leaf, q: Leaf, m: Leaf, lo: int, mid: int, hi: int, e: PageID)
    requires Good(Lf(p), Site(lo, mid, 1, true, q.pid)) && Good(Lf(q), Site(mid, hi, 1, true, e)) && lo < mid < hi
    requires m.Valid() && m.Live() == p.Live() + q.Live() && m.pid == p.pid && m.right == q.right
    ensures Good(Lf(m), Site(lo, hi, 1, true, e))
  {
    hide TKey, LeafLayout.Leaf.Valid, LeafLayout.Leaf.Live;
    ShapeKeys(Lf(p), lo, mid, 1, true);
    ShapeKeys(Lf(q), mid, hi, 1, true);
    JoinKeys(p.Live(), q.Live(), lo, mid, hi);
  }

  // The children of two neighbouring pages, under one fence.
  lemma PairJoin(nl: Node, kl: seq<Tree>, s: Key, nr: Node, kr: seq<Tree>, lo: int, hi: int, h: nat, x: bool, y: bool,
                 e: PageID)
    requires Good(Nd(nl, kl), Site(lo, s, h, x, First(Nd(nr, kr)))) && Good(Nd(nr, kr), Site(s, hi, h, y, e))
    requires Pids(Nd(nl, kl)) !! Pids(Nd(nr, kr)) && |nl.keys| > 0 && |nr.keys| > 0
    ensures h > 1 && GoodAll(kl + kr, Fence(nl.keys + [s] + nr.keys, lo, hi), h - 1, true, e)
    ensures PidsAll(kl + kr) == PidsAll(kl) + PidsAll(kr) && nl.pid !in PidsAll(kl + kr) && nr.pid !in PidsAll(kl + kr)
    ensures |kl| == |nl.keys| + 1 == |nl.children| && |kr| == |nr.keys| + 1 == |nr.children|
    ensures forall i | 0 <= i < |kl + kr| :: (nl.children + nr.children)[i] == Pid((kl + kr)[i])
    ensures First(Nd(nl, kl)) == First((kl + kr)[0])
  {
    hide OwnAll, LinkedAll, PidsAll, FlatAll, Forest, Fence, First, Pid;
    Unfold(nl, kl, Site(lo, s, h, x, First(Nd(nr, kr))));
    Unfold(nr, kr, Site(s, hi, h, y, e));
    FenceEnds(nl.keys, lo, s);
    FenceEnds(nr.keys, s, hi);
    ForestConcat(kl, kr, Fence(nl.keys, lo, s), Fence(nr.keys, s, hi), h - 1, true);
    FenceConcat(nl.keys, s, nr.keys, lo, hi);
    OwnConcat(kl, kr);
    LinkedConcat(kl, kr, e);
    PidsConcat(kl, kr);
  }

  lemma FenceConcat(a: seq<Key>, s: Key, b: seq<Key>, lo: int, hi: int)
    ensures Fence(a, lo, s) + Fence(b, s, hi)[1..] == Fence(a + [s] + b, lo, hi)
  {
  }

  lemma FenceCut(a: seq<Key>, s: Key, b: seq<Key>, lo: int, hi: int)
    ensures var f := Fence(a + [s] + b, lo, hi);
            && |f| == |a| + |b| + 3 && f[..|a| + 2] == Fence(a, lo, s) && f[|a| + 1..] == Fence(b, s, hi)
            && f[|a| + 1] == s
  {
  }

  ghost predicate Names(children: seq<PageID>, kids: seq<Tree>) {
    |kids| <= |children| && forall i | 0 <= i < |kids| :: children[i] == Pid(kids[i])
  }

  // A run of children dealt out to two pages around the separator b.
  lemma PairCut(all: seq<Tree>, nl: Node, b: Key, nr: Node, lo: int, hi: int, h: nat, e: PageID)
    requires h > 1 && GoodAll(all, Fence(nl.keys + [b] + nr.keys, lo, hi), h - 1, true, e)
    requires |nl.keys| <= NUM_KEY_SLOTS && |nr.keys| <= NUM_KEY_SLOTS && |nl.keys| > 0 && |nr.keys| > 0
    requires |nl.children| == |nl.keys| + 1 && |nr.children| == |nr.keys| + 1
    requires Names(nl.children + nr.children, all)
    requires nl.pid !in PidsAll(all) && nr.pid !in PidsAll(all) && nl.pid != nr.pid
    ensures var c := |nl.children|;
            && c < |all|
            && Good(Nd(nl, all[..c]), Site(lo, b, h, |nl.keys| >= MIN_KEYS, First(Nd(nr, all[c..]))))
            && Good(Nd(nr, all[c..]), Site(b, hi, h, |nr.keys| >= MIN_KEYS, e))
            && Pids(Nd(nl, all[..c])) + Pids(Nd(nr, all[c..])) == {nl.pid, nr.pid} + PidsAll(all)
            && Pids(Nd(nl, all[..c])) !! Pids(Nd(nr, all[c..]))
            && First(Nd(nl, all[..c])) == First(all[0])
    ensures lo < b < hi
  {
    var c := |nl.children|;
    hide *;
    GoodParts(all, Fence(nl.keys + [b] + nr.keys, lo, hi), h - 1, true, e);
    CutForest(all, nl.keys, b, nr.keys, lo, hi, h - 1);
    CutLists(all, c, e);
    CutCounts(all, nl, nr);
    CutGood(all[..c], nl, b, all[c..], nr, lo, hi, h, e, PidsAll(all));
  }

  lemma CutGood(kl: seq<Tree>, nl: Node, b: Key, kr: seq<Tree>, nr: Node, lo: int, hi: int, h: nat, e: PageID,
                pids: set<PageID>)
    requires h > 1 && Counts(nl, kl, |nl.keys| >= MIN_KEYS) && Counts(nr, kr, |nr.keys| >= MIN_KEYS)
    requires Forest(kl, Fence(nl.keys, lo, b), h - 1, |kl| > 1) && Forest(kr, Fence(nr.keys, b, hi), h - 1, |kr| > 1)
    requires kl != [] && kr != [] && OwnAll(kl) && OwnAll(kr) && LinkedAll(kl, First(kr[0])) && LinkedAll(kr, e)
    requires pids == PidsAll(kl) + PidsAll(kr) && PidsAll(kl) !! PidsAll(kr)
    requires nl.pid !in pids && nr.pid !in pids && nl.pid != nr.pid
    ensures Good(Nd(nl, kl), Site(lo, b, h, |nl.keys| >= MIN_KEYS, First(Nd(nr, kr))))
    ensures Good(Nd(nr, kr), Site(b, hi, h, |nr.keys| >= MIN_KEYS, e))
    ensures Pids(Nd(nl, kl)) + Pids(Nd(nr, kr)) == {nl.pid, nr.pid} + pids && Pids(Nd(nl, kl)) !! Pids(Nd(nr, kr))
    ensures First(Nd(nl, kl)) == First(kl[0])
  {
    hide *;
    Fold(nr, kr, Site(b, hi, h, |nr.keys| >= MIN_KEYS, e));
    Fold(nl, kl, Site(lo, b, h, |nl.keys| >= MIN_KEYS, First(Nd(nr, kr))));
    CutSets(nl.pid, PidsAll(kl), nr.pid, PidsAll(kr), pids);
  }

  lemma CutSets(p: PageID, a: set<PageID>, q: PageID, b: set<PageID>, all: set<PageID>)
    requires all == a + b && a !! b && p !in all && q !in all && p != q
    ensures ({p} + a) + ({q} + b) == {p, q} + all && ({p} + a) !! ({q} + b)
  {
  }

  lemma CutForest(all: seq<Tree>, a: seq<Key>, s: Key, b: seq<Key>, lo: int, hi: int, h: nat)
    requires Forest(all, Fence(a + [s] + b, lo, hi), h, true) && |a| > 0 && |b| > 0
    ensures var c := |a| + 1;
            && c < |all| == |a| + |b| + 2
            && Forest(all[..c], Fence(a, lo, s), h, c > 1) && Forest(all[c..], Fence(b, s, hi), h, |all| - c > 1)
    ensures lo < s < hi
  {
    hide Forest, Fence;
    var c := |a| + 1;
    var f := Fence(a + [s] + b, lo, hi);
    ForestUnfold(all, f, h, true);
    FenceCut(a, s, b, lo, hi);
    FenceEnds(a + [s] + b, lo, hi);
    ForestSlice(all, f, h, true, 0, c);
    ForestSlice(all, f, h, true, c, |all|);
    assert all[0..c] == all[..c] && all[c..|all|] == all[c..] && f[0..c + 1] == f[..c + 1] && f[c..|all| + 1] == f[c..];
  }

  lemma CutLists(all: seq<Tree>, c: nat, e: PageID)
    requires 0 < c < |all| && OwnAll(all) && LinkedAll(all, e)
    ensures OwnAll(all[..c]) && OwnAll(all[c..]) && PidsAll(all[..c]) !! PidsAll(all[c..])
    ensures LinkedAll(all[..c], First(all[c..][0])) && LinkedAll(all[c..], e)
    ensures PidsAll(all) == PidsAll(all[..c]) + PidsAll(all[c..]) && all[..c][0] == all[0]
  {
    hide OwnAll, LinkedAll, PidsAll, First;
    assert all == all[..c] + all[c..];
    OwnConcat(all[..c], all[c..]);
    LinkedConcat(all[..c], all[c..], e);
    PidsConcat(all[..c], all[c..]);
  }

  lemma CutCounts(all: seq<Tree>, nl: Node, nr: Node)
    requires |nl.keys| <= NUM_KEY_SLOTS && |nr.keys| <= NUM_KEY_SLOTS
    requires |nl.children| == |nl.keys| + 1 && |nr.children| == |nr.keys| + 1
    requires |all| == |nl.children| + |nr.children|
    requires Names(nl.children + nr.children, all)
    ensures Counts(nl, all[..|nl.children|], |nl.keys| >= MIN_KEYS)
    ensures Counts(nr, all[|nl.children|..], |nr.keys| >= MIN_KEYS)
  {
    hide Pid;
    var c := |nl.children|;
    assert forall i | 0 <= i < c :: (nl.children + nr.children)[i] == nl.children[i];
    assert forall i | 0 <= i < |nr.children| :: (nl.children + nr.children)[c + i] == nr.children[i];
  }

  lemma PairMerge(all: seq<Tree>, n: Node, lo: int, hi: int, h: nat, e: PageID)
    requires h > 1 && GoodAll(all, Fence(n.keys, lo, hi), h - 1, true, e)
    requires MIN_KEYS <= |n.keys| <= NUM_KEY_SLOTS && |all| == |n.children| == |n.keys| + 1
    requires forall i | 0 <= i < |all| :: n.children[i] == Pid(all[i])
    requires n.pid !in PidsAll(all)
    ensures Good(Nd(n, all), Site(lo, hi, h, true, e))
    ensures Pids(Nd(n, all)) == {n.pid} + PidsAll(all) && First(Nd(n, all)) == First(all[0])
  {
    hide OwnAll, LinkedAll, PidsAll, FlatAll, Forest, Fence, First, Pid;
    Fold(n, all, Site(lo, hi, h, true, e));
  }

  lemma FlatCut(nl: Node, nr: Node, all: seq<Tree>, c: nat)
    requires c <= |all|
    ensures Flat(Nd(nl, all[..c])) + Flat(Nd(nr, all[c..])) == FlatAll(all)
  {
    hide FlatAll;
    assert all == all[..c] + all[c..];
    FlatConcat(all[..c], all[c..]);
  }
}
