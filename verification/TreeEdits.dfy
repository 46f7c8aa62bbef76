// How splits, borrows and merges rearrange a tree.
module TreeEdits {
  import opened Bytes
  import opened Tuples
  import opened LeafLayout
  import opened InternalPages
  import opened Trees

  // A well-formed subtree whose last leaf points on to e.
  ghost predicate Good(t: Tree, site: Site) {
    Shape(t, site.lo, site.hi, site.h, site.full) && Own(t) && Linked(t, site.e)
  }

  ghost predicate GoodAll(kids: seq<Tree>, f: seq<int>, h: nat, full: bool, e: PageID) {
    Forest(kids, f, h, full) && OwnAll(kids) && LinkedAll(kids, e)
  }

  // m' can take the place of m: same first leaf, no pages but m's and new ones.
  ghost predicate Replaces(m: seq<Tree>, m': seq<Tree>, added: set<PageID>) {
    m != [] && m' != [] && First(m'[0]) == First(m[0]) && PidsAll(m') <= PidsAll(m) + added
  }

  lemma Chain3(a: seq<Tree>, m: seq<Tree>, b: seq<Tree>, e: PageID)
    requires m != []
    ensures OwnAll(a + m + b) <==>
            && OwnAll(a) && OwnAll(m) && OwnAll(b)
            && PidsAll(a) !! PidsAll(m) && PidsAll(a) !! PidsAll(b) && PidsAll(m) !! PidsAll(b)
    ensures LinkedAll(a + m + b, e) <==>
            LinkedAll(a, First(m[0])) && LinkedAll(m, FirstOr(b, e)) && LinkedAll(b, e)
    ensures PidsAll(a + m + b) == PidsAll(a) + PidsAll(m) + PidsAll(b)
    ensures First((a + m + b)[0]) == if a == [] then First(m[0]) else First(a[0])
  {
    hide OwnAll, LinkedAll, PidsAll, FlatAll, First;
    OwnConcat(a + m, b);
    OwnConcat(a, m);
    LinkedConcat(a + m, b, e);
    LinkedConcat(a, m, FirstOr(b, e));
    PidsConcat(a + m, b);
    PidsConcat(a, m);
  }

  lemma FlatThree(a: seq<Tree>, m: seq<Tree>, b: seq<Tree>)
    ensures FlatAll(a + m + b) == FlatAll(a) + FlatAll(m) + FlatAll(b)
  {
    hide FlatAll;
    FlatConcat(a + m, b);
    FlatConcat(a, m);
  }

  lemma Replace(a: seq<Tree>, m: seq<Tree>, b: seq<Tree>, m': seq<Tree>, e: PageID, added: set<PageID>)
    requires Replaces(m, m', added) && added !! PidsAll(a + m + b)
    requires OwnAll(a + m + b) && LinkedAll(a + m + b, e)
    requires OwnAll(m') && LinkedAll(m', FirstOr(b, e))
    ensures OwnAll(a + m' + b) && LinkedAll(a + m' + b, e)
    ensures PidsAll(a + m' + b) <= PidsAll(a + m + b) + added
    ensures First((a + m' + b)[0]) == First((a + m + b)[0])
  {
    hide OwnAll, LinkedAll, PidsAll, FlatAll, First, FirstOr;
    Chain3(a, m, b, e);
    Chain3(a, m', b, e);
  }

  // ----- one page with its children -----

  // The children a + m + b of a page become a + m' + b; g fences m'.
  lemma NodeSplice(n: Node, a: seq<Tree>, m: seq<Tree>, b: seq<Tree>, site: Site, n': Node, m': seq<Tree>, g: seq<int>,
                   full': bool, added: set<PageID>)
    requires Good(Nd(n, a + m + b), site)
    requires Replaces(m, m', added) && added !! Pids(Nd(n, a + m + b))
    requires |n.keys| + 1 == |a| + |m| + |b| && site.h > 1
    requires GoodAll(m', g, site.h - 1, |a + m + b| > 1 || |m'| > 1, FirstOr(b, site.e)) && |g| == |m'| + 1
    requires g[0] == Fence(n.keys, site.lo, site.hi)[|a|] && g[|m'|] == Fence(n.keys, site.lo, site.hi)[|a| + |m|]
    requires n'.pid == n.pid && Counts(n', a + m' + b, full')
    requires var f := Fence(n.keys, site.lo, site.hi);
             Fence(n'.keys, site.lo, site.hi) == f[..|a|] + g + f[|a| + |m| + 1..]
    ensures var t := Nd(n', a + m' + b);
            && Good(t, site.(full := full'))
            && First(t) == First(Nd(n, a + m + b)) && Pids(t) <= Pids(Nd(n, a + m + b)) + added
  {
    hide *;
    Unfold(n, a + m + b, site);
    FenceSize(n.keys, site.lo, site.hi);
    ForestReplace(a, m, b, Fence(n.keys, site.lo, site.hi), site.e, m', g, Fence(n'.keys, site.lo, site.hi), site.h - 1,
                  added);
    Fold(n', a + m' + b, site.(full := full'));
  }

  // The same for the children alone, whose number need not fit a page.
  lemma ForestReplace(a: seq<Tree>, m: seq<Tree>, b: seq<Tree>, f: seq<int>, e: PageID, m': seq<Tree>, g: seq<int>,
                      f': seq<int>, h: nat, added: set<PageID>)
    requires Forest(a + m + b, f, h, |a + m + b| > 1) && OwnAll(a + m + b) && LinkedAll(a + m + b, e)
    requires Replaces(m, m', added) && added !! PidsAll(a + m + b)
    requires |f| == |a| + |m| + |b| + 1 && |g| == |m'| + 1
    requires GoodAll(m', g, h, |a + m + b| > 1 || |m'| > 1, FirstOr(b, e))
    requires g[0] == f[|a|] && g[|m'|] == f[|a| + |m|] && f' == f[..|a|] + g + f[|a| + |m| + 1..]
    ensures Forest(a + m' + b, f', h, |a + m' + b| > 1) && OwnAll(a + m' + b) && LinkedAll(a + m' + b, e)
    ensures PidsAll(a + m' + b) <= PidsAll(a + m + b) + added
    ensures |a + m + b| > 0 && |a + m' + b| > 0 && First((a + m' + b)[0]) == First((a + m + b)[0])
  {
    hide *;
    NonEmpty(m, m', added);
    GoodParts(m', g, h, |a + m + b| > 1 || |m'| > 1, FirstOr(b, e));
    SwapForest(a, m, b, f, m', g, f', h);
    Replace(a, m, b, m', e, added);
  }

  lemma GoodParts(kids: seq<Tree>, f: seq<int>, h: nat, full: bool, e: PageID)
    requires GoodAll(kids, f, h, full, e)
    ensures Forest(kids, f, h, full) && OwnAll(kids) && LinkedAll(kids, e)
  {
  }

  lemma Unfold(n: Node, kids: seq<Tree>, site: Site)
    requires Good(Nd(n, kids), site)
    ensures site.h > 1 && Counts(n, kids, site.full) && kids != []
    ensures |kids| == |n.keys| + 1 == |n.children| <= NUM_KEY_SLOTS + 1
    ensures Forest(kids, Fence(n.keys, site.lo, site.hi), site.h - 1, |kids| > 1)
    ensures OwnAll(kids) && LinkedAll(kids, site.e) && n.pid !in PidsAll(kids)
    ensures Pids(Nd(n, kids)) == {n.pid} + PidsAll(kids)
    ensures First(Nd(n, kids)) == First(kids[0])
  {
    hide OwnAll, LinkedAll, PidsAll, FlatAll, Forest, Fence;
  }

  lemma Fold(n: Node, kids: seq<Tree>, site: Site)
    requires site.h > 1 && Counts(n, kids, site.full)
    requires Forest(kids, Fence(n.keys, site.lo, site.hi), site.h - 1, |kids| > 1)
    requires OwnAll(kids) && LinkedAll(kids, site.e) && n.pid !in PidsAll(kids)
    ensures Good(Nd(n, kids), site)
    ensures Pids(Nd(n, kids)) == {n.pid} + PidsAll(kids)
    ensures kids != [] ==> First(Nd(n, kids)) == First(kids[0])
  {
    hide OwnAll, LinkedAll, PidsAll, FlatAll, Forest, Fence, Counts;
  }

  lemma NonEmpty(m: seq<Tree>, m': seq<Tree>, added: set<PageID>)
    requires Replaces(m, m', added)
    ensures m != [] && m' != []
  {
  }

  lemma SwapForest(a: seq<Tree>, m: seq<Tree>, b: seq<Tree>, f: seq<int>, m': seq<Tree>, g: seq<int>, f': seq<int>,
                   h: nat)
    requires Forest(a + m + b, f, h, |a + m + b| > 1) && m != [] && m' != []
    requires |f| == |a| + |m| + |b| + 1 && |g| == |m'| + 1
    requires Forest(m', g, h, |a + m + b| > 1 || |m'| > 1)
    requires g[0] == f[|a|] && g[|m'|] == f[|a| + |m|] && f' == f[..|a|] + g + f[|a| + |m| + 1..]
    ensures Forest(a + m' + b, f', h, |a + m' + b| > 1)
  {
    hide Forest;
    if |a + m + b| > 1 {
      ForestSplice(a, m, b, f, m', g, f', h, true);
      if |a + m' + b| <= 1 {
        ForestWeaken(a + m' + b, f', h);
      }
    } else {
      Singleton(a, m, b, f, m', g);
    }
  }

  lemma Singleton(a: seq<Tree>, m: seq<Tree>, b: seq<Tree>, f: seq<int>, m': seq<Tree>, g: seq<int>)
    requires |a + m + b| <= 1 && m != [] && |f| == |a| + |m| + |b| + 1
    ensures |a| == 0 && |b| == 0 && a + m' + b == m' && f[..|a|] + g + f[|a| + |m| + 1..] == g
  {
    assert a == [] && b == [];
  }

  lemma FenceSize(keys: seq<Key>, lo: int, hi: int)
    ensures |Fence(keys, lo, hi)| == |keys| + 2
  {
  }

  lemma GoodOne(t: Tree, site: Site)
    requires Good(t, site) && site.lo < site.hi
    ensures GoodAll([t], [site.lo, site.hi], site.h, site.full, site.e)
    ensures FlatAll([t]) == Flat(t) && PidsAll([t]) == Pids(t)
  {
    hide Shape, Forest, Own, Linked, Flat, Pids;
    ForestOne(t, site.lo, site.hi, site.h, site.full);
    One(t, site.e);
  }

  lemma GoodTwo(l: Tree, r: Tree, lo: int, b: int, hi: int, h: nat, full: bool, e: PageID)
    requires Good(l, Site(lo, b, h, full, First(r))) && Good(r, Site(b, hi, h, full, e)) && lo < b < hi
    requires Pids(l) !! Pids(r)
    ensures GoodAll([l, r], [lo, b, hi], h, full, e)
    ensures FlatAll([l, r]) == Flat(l) + Flat(r) && PidsAll([l, r]) == Pids(l) + Pids(r)
  {
    hide Shape, Forest, Own, Linked, Flat, Pids, First;
    ForestTwo(l, r, lo, b, hi, h, full);
    Pair(l, r, e);
  }

  // Child i of a page.
  lemma ChildOf(n: Node, kids: seq<Tree>, i: nat, site: Site)
    requires Good(Nd(n, kids), site) && i < |kids|
    ensures site.h > 1 && |kids| == |n.keys| + 1 == |n.children| && n.children[i] == Pid(kids[i])
    ensures var f := Fence(n.keys, site.lo, site.hi);
            && |f| == |kids| + 1 && f[i] < f[i + 1]
            && Good(kids[i], KidSite(n, kids, i, site))
    ensures kids == kids[..i] + [kids[i]] + kids[i + 1..]
    ensures Pids(kids[i]) <= PidsAll(kids) && PidsAll(kids) <= Pids(Nd(n, kids)) && n.pid !in PidsAll(kids)
    ensures PidsAll(kids) == PidsAll(kids[..i]) + Pids(kids[i]) + PidsAll(kids[i + 1..])
    ensures Pids(kids[i]) !! PidsAll(kids[..i]) && Pids(kids[i]) !! PidsAll(kids[i + 1..])
    ensures PidsAll(kids[..i]) !! PidsAll(kids[i + 1..])
  {
    hide OwnAll, LinkedAll, PidsAll, FlatAll, Forest, Fence, FirstOr;
    var f := Fence(n.keys, site.lo, site.hi);
    ForestUnfold(kids, f, site.h - 1, |kids| > 1);
    Chain3(kids[..i], [kids[i]], kids[i + 1..], site.e);
    assert kids == kids[..i] + [kids[i]] + kids[i + 1..];
    One(kids[i], FirstOr(kids[i + 1..], site.e));
  }

  lemma One(t: Tree, e: PageID)
    ensures OwnAll([t]) <==> Own(t)
    ensures LinkedAll([t], e) <==> Linked(t, e)
    ensures PidsAll([t]) == Pids(t) && FlatAll([t]) == Flat(t)
  {
    hide Own, Linked, Pids, Flat;
    assert [t][1..] == [];
    assert Flat(t) + [] == Flat(t);
  }

  lemma Pair(l: Tree, r: Tree, e: PageID)
    ensures OwnAll([l, r]) <==> Own(l) && Own(r) && Pids(l) !! Pids(r)
    ensures LinkedAll([l, r], e) <==> Linked(l, First(r)) && Linked(r, e)
    ensures PidsAll([l, r]) == Pids(l) + Pids(r) && FlatAll([l, r]) == Flat(l) + Flat(r)
  {
    hide Own, Linked, Pids, Flat, First;
    assert [l, r][1..] == [r];
    One(r, e);
  }

  // ----- fences under edits of the separators -----

  lemma FenceKeep(keys: seq<Key>, i: nat, lo: int, hi: int)
    requires i <= |keys|
    ensures var f := Fence(keys, lo, hi); f == f[..i] + [f[i], f[i + 1]] + f[i + 2..]
  {
  }

  lemma FenceInsert(keys: seq<Key>, i: nat, b: Key, lo: int, hi: int)
    requires i <= |keys|
    ensures var f := Fence(keys, lo, hi);
            Fence(InsertAt(keys, i, b), lo, hi) == f[..i] + [f[i], b, f[i + 1]] + f[i + 2..]
  {
  }

  lemma FenceMove(keys: seq<Key>, i: nat, b: Key, lo: int, hi: int)
    requires i < |keys|
    ensures var f := Fence(keys, lo, hi);
            f[i + 1] == keys[i] && Fence(keys[i := b], lo, hi) == f[..i] + [f[i], b, f[i + 2]] + f[i + 3..]
  {
    var f, g := Fence(keys, lo, hi), Fence(keys[i := b], lo, hi);
    assert g == f[i + 1 := b];
  }

  lemma FenceDrop(keys: seq<Key>, i: nat, lo: int, hi: int)
    requires i < |keys|
    ensures var f := Fence(keys, lo, hi);
            Fence(RemoveAt(keys, i), lo, hi) == f[..i] + [f[i], f[i + 2]] + f[i + 3..]
  {
    var f := Fence(keys, lo, hi);
    assert Fence(RemoveAt(keys, i), lo, hi) == f[..i + 1] + f[i + 2..];
    assert f[..i + 1] == f[..i] + [f[i]] && f[i + 2..] == [f[i + 2]] + f[i + 3..];
  }

  // The child at i changes in place.
  lemma KeepChild(n: Node, kids: seq<Tree>, i: nat, site: Site, c: Tree, added: set<PageID>)
    requires Good(Nd(n, kids), site) && i < |kids| && added !! Pids(Nd(n, kids)) && site.h > 1
    requires |kids| == |n.keys| + 1
    requires Good(c, KidSite(n, kids, i, site))
    requires Pid(c) == Pid(kids[i]) && First(c) == First(kids[i]) && Pids(c) <= Pids(kids[i]) + added
    ensures var t := Nd(n, kids[..i] + [c] + kids[i + 1..]);
            && Good(t, site)
            && First(t) == First(Nd(n, kids)) && Pids(t) <= Pids(Nd(n, kids)) + added
  {
    hide OwnAll, LinkedAll, PidsAll, FlatAll, Forest, Fence, FirstOr, Shape, Own, Linked, Pids, First, InsertAt,
      RemoveAt;
    var f := Fence(n.keys, site.lo, site.hi);
    ChildOf(n, kids, i, site);
    GoodOne(c, KidSite(n, kids, i, site));
    One(kids[i], site.e);
    FenceKeep(n.keys, i, site.lo, site.hi);
    Unfold(n, kids, site);
    NodeSplice(n, kids[..i], [kids[i]], kids[i + 1..], site, n, [c], [f[i], f[i + 1]], site.full, added);
  }

  // The child at i has split: a separator and a page are inserted.
  lemma SplitChild(n: Node, kids: seq<Tree>, i: nat, site: Site, l: Tree, b: Key, r: Tree, added: set<PageID>)
    requires Good(Nd(n, kids), site) && i < |kids| && added !! Pids(Nd(n, kids)) && site.h > 1
    requires |kids| == |n.keys| + 1 == |n.children| <= NUM_KEY_SLOTS
    requires Fence(n.keys, site.lo, site.hi)[i] < b < Fence(n.keys, site.lo, site.hi)[i + 1]
    requires Good(l, Site(Fence(n.keys, site.lo, site.hi)[i], b, site.h - 1, true, First(r)))
    requires Good(r, Site(b, Fence(n.keys, site.lo, site.hi)[i + 1], site.h - 1, true, FirstOr(kids[i + 1..], site.e)))
    requires Pid(l) == Pid(kids[i]) && First(l) == First(kids[i]) && Pids(l) !! Pids(r)
    requires Pids(l) + Pids(r) <= Pids(kids[i]) + added
    ensures var n' := Node(n.pid, InsertAt(n.keys, i, b), InsertAt(n.children, i + 1, Pid(r)));
            var t := Nd(n', kids[..i] + [l, r] + kids[i + 1..]);
            && Good(t, site)
            && First(t) == First(Nd(n, kids)) && Pids(t) <= Pids(Nd(n, kids)) + added
  {
    hide OwnAll, LinkedAll, PidsAll, FlatAll, Forest, Fence, FirstOr, Shape, Own, Linked, Pids, First;
    var f := Fence(n.keys, site.lo, site.hi);
    ChildOf(n, kids, i, site);
    GoodTwo(l, r, f[i], b, f[i + 1], site.h - 1, true, FirstOr(kids[i + 1..], site.e));
    One(kids[i], site.e);
    FenceInsert(n.keys, i, b, site.lo, site.hi);
    Unfold(n, kids, site);
    var n' := Node(n.pid, InsertAt(n.keys, i, b), InsertAt(n.children, i + 1, Pid(r)));
    NodeSplice(n, kids[..i], [kids[i]], kids[i + 1..], site, n', [l, r], [f[i], b, f[i + 1]], site.full, added);
  }

  // The separator between two neighbours moves.
  lemma MoveSeparator(n: Node, kids: seq<Tree>, i: nat, site: Site, l: Tree, b: Key, r: Tree)
    requires Good(Nd(n, kids), site) && i + 1 < |kids| && site.h > 1
    requires |kids| == |n.keys| + 1
    requires Fence(n.keys, site.lo, site.hi)[i] < b < Fence(n.keys, site.lo, site.hi)[i + 2]
    requires Good(l, Site(Fence(n.keys, site.lo, site.hi)[i], b, site.h - 1, true, First(r)))
    requires Good(r, Site(b, Fence(n.keys, site.lo, site.hi)[i + 2], site.h - 1, true, FirstOr(kids[i + 2..], site.e)))
    requires Pid(l) == Pid(kids[i]) && Pid(r) == Pid(kids[i + 1]) && First(l) == First(kids[i]) && Pids(l) !! Pids(r)
    requires Pids(l) + Pids(r) <= Pids(kids[i]) + Pids(kids[i + 1])
    ensures var n' := n.(keys := n.keys[i := b]);
            var t := Nd(n', kids[..i] + [l, r] + kids[i + 2..]);
            && Good(t, site)
            && First(t) == First(Nd(n, kids)) && Pids(t) <= Pids(Nd(n, kids))
  {
    hide OwnAll, LinkedAll, PidsAll, FlatAll, Forest, Fence, FirstOr, Shape, Own, Linked, Pids, First;
    var f := Fence(n.keys, site.lo, site.hi);
    Unfold(n, kids, site);
    SplitPair(kids, i);
    FenceRises(n, kids, site, i);
    GoodTwo(l, r, f[i], b, f[i + 2], site.h - 1, true, FirstOr(kids[i + 2..], site.e));
    Pair(kids[i], kids[i + 1], site.e);
    FenceMove(n.keys, i, b, site.lo, site.hi);
    var n' := n.(keys := n.keys[i := b]);
    NodeSplice(n, kids[..i], [kids[i], kids[i + 1]], kids[i + 2..], site, n', [l, r], [f[i], b, f[i + 2]], site.full,
               {});
  }

  // Two neighbours become one; the page keeps at least one key less than before.
  lemma DropSeparator(n: Node, kids: seq<Tree>, i: nat, site: Site, w: Tree)
    requires Good(Nd(n, kids), site) && i + 1 < |kids| && site.h > 1
    requires |kids| == |n.keys| + 1 == |n.children|
    requires Good(w,
                  Site(Fence(n.keys, site.lo, site.hi)[i], Fence(n.keys, site.lo, site.hi)[i + 2], site.h - 1, true,
                       FirstOr(kids[i + 2..], site.e)))
    requires Pid(w) == Pid(kids[i]) && First(w) == First(kids[i]) && Pids(w) <= Pids(kids[i]) + Pids(kids[i + 1])
    ensures var n' := Node(n.pid, RemoveAt(n.keys, i), RemoveAt(n.children, i + 1));
            var t := Nd(n', kids[..i] + [w] + kids[i + 2..]);
            && Good(t, site.(full := site.full && |n.keys| > MIN_KEYS))
            && First(t) == First(Nd(n, kids)) && Pids(t) <= Pids(Nd(n, kids))
  {
    hide OwnAll, LinkedAll, PidsAll, FlatAll, Forest, Fence, FirstOr, Shape, Own, Linked, Pids, First;
    var f := Fence(n.keys, site.lo, site.hi);
    Unfold(n, kids, site);
    SplitPair(kids, i);
    FenceRises(n, kids, site, i);
    GoodOne(w, Site(f[i], f[i + 2], site.h - 1, true, FirstOr(kids[i + 2..], site.e)));
    Pair(kids[i], kids[i + 1], site.e);
    FenceDrop(n.keys, i, site.lo, site.hi);
    var n' := Node(n.pid, RemoveAt(n.keys, i), RemoveAt(n.children, i + 1));
    NodeSplice(n, kids[..i], [kids[i], kids[i + 1]], kids[i + 2..], site, n', [w], [f[i], f[i + 2]],
               site.full && |n.keys| > MIN_KEYS, {});
  }

  lemma SplitPair(kids: seq<Tree>, i: nat)
    requires i + 1 < |kids|
    ensures kids == kids[..i] + [kids[i], kids[i + 1]] + kids[i + 2..]
  {
  }

  lemma FenceRises(n: Node, kids: seq<Tree>, site: Site, i: nat)
    requires Good(Nd(n, kids), site) && i + 1 < |kids|
    ensures var f := Fence(n.keys, site.lo, site.hi); |f| == |kids| + 1 && f[i] < f[i + 1] < f[i + 2]
  {
    hide OwnAll, LinkedAll, PidsAll, Forest, Fence, Pids;
    ForestUnfold(kids, Fence(n.keys, site.lo, site.hi), site.h - 1, |kids| > 1);
  }

  // ----- keys and contents -----

  lemma FlatAt(n: Node, a: seq<Tree>, c: Tree, b: seq<Tree>)
    ensures Flat(Nd(n, a + [c] + b)) == FlatAll(a) + Flat(c) + FlatAll(b)
  {
    hide FlatAll;
    FlatThree(a, [c], b);
    One(c, 0);
  }

  lemma {:induction false} ShapeKeys(t: Tree, lo: int, hi: int, h: nat, full: bool)
    requires Shape(t, lo, hi, h, full)
    ensures KeysIn(Flat(t), lo, hi) && Sorted(Flat(t))
    decreases t
  {
    hide TKey, Forest, Fence;
    match t
    case Lf(p) => LiveSorted(p.slots, p.data);
    case Nd(n, kids) =>
      ForestKeys(kids, Fence(n.keys, lo, hi), h - 1, |kids| > 1);
      FenceEnds(n.keys, lo, hi);
  }

  lemma FenceEnds(keys: seq<Key>, lo: int, hi: int)
    ensures var f := Fence(keys, lo, hi); |f| == |keys| + 2 && f[0] == lo && f[|keys| + 1] == hi
  {
  }

  lemma {:induction false} ForestKeys(kids: seq<Tree>, f: seq<int>, h: nat, full: bool)
    requires Forest(kids, f, h, full)
    ensures |f| == |kids| + 1 && KeysIn(FlatAll(kids), f[0], f[|kids|]) && Sorted(FlatAll(kids))
    decreases kids
  {
    hide TKey, Shape, Forest, Flat;
    ForestUnfold(kids, f, h, full);
    if kids != [] {
      ShapeKeys(kids[0], f[0], f[1], h, full);
      ForestSlice(kids, f, h, full, 1, |kids|);
      assert kids[1..|kids|] == kids[1..] && f[1..|kids| + 1] == f[1..];
      ForestKeys(kids[1..], f[1..], h, full);
      JoinKeys(Flat(kids[0]), FlatAll(kids[1..]), f[0], f[1], f[|kids|]);
    }
  }

  lemma JoinKeys(a: seq<Tuple>, b: seq<Tuple>, lo: int, mid: int, hi: int)
    requires KeysIn(a, lo, mid) && Sorted(a) && KeysIn(b, mid, hi) && Sorted(b) && lo <= mid <= hi
    ensures KeysIn(a + b, lo, hi) && Sorted(a + b)
  {
    hide TKey;
  }
}
