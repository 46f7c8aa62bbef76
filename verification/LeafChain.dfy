// The chain of leaves: following right pointers through the store from the leftmost
// leaf visits every leaf of the tree once, in key order, and then ends.
module LeafChain {
  import opened Bytes
  import opened Tuples
  import opened LeafLayout
  import opened Pages
  import opened Trees
  import opened TreeEdits
  import opened Contents

  function Leaves(t: Tree): seq<Leaf>
    decreases t
  {
    match t
    case Lf(p) => [p]
    case Nd(_, kids) => LeavesAll(kids)
  }

  function LeavesAll(kids: seq<Tree>): seq<Leaf>
    decreases kids
  {
    if kids == [] then [] else Leaves(kids[0]) + LeavesAll(kids[1..])
  }

  function LiveAll(leaves: seq<Leaf>): seq<Tuple> {
    if leaves == [] then [] else leaves[0].Live() + LiveAll(leaves[1..])
  }

  // From page p, right pointers lead through exactly these leaves and on to e; page
  // number 0 stands for no page.
  ghost predicate Walk(s: PageMap, p: PageID, leaves: seq<Leaf>, e: PageID)
    decreases |leaves|
  {
    if leaves == [] then p == e else
    && p != 0 && p in s && NoLeft(s[p]) == LeafPg(leaves[0]) && leaves[0].pid == p
    && Walk(s, leaves[0].right, leaves[1..], e)
  }

  lemma {:induction false} WalkConcat(s: PageMap, p: PageID, a: seq<Leaf>, q: PageID, b: seq<Leaf>, e: PageID)
    requires Walk(s, p, a, q) && Walk(s, q, b, e)
    ensures Walk(s, p, a + b, e)
    decreases |a|
  {
    if a == [] {
      assert a + b == b;
    } else {
      WalkConcat(s, a[0].right, a[1..], q, b, e);
      assert (a + b)[0] == a[0] && (a + b)[1..] == a[1..] + b;
    }
  }

  // The store determines the walk to the end of the chain.
  lemma {:induction false} WalkUnique(s: PageMap, p: PageID, a: seq<Leaf>, b: seq<Leaf>)
    requires Walk(s, p, a, 0) && Walk(s, p, b, 0)
    ensures a == b
    decreases |a|
  {
    if a != [] {
      WalkUnique(s, a[0].right, a[1..], b[1..]);
      assert a == [a[0]] + a[1..] && b == [b[0]] + b[1..];
    }
  }

  lemma {:induction false} TreeWalk(s: PageMap, t: Tree, site: Site)
    requires Shape(t, site.lo, site.hi, site.h, site.full) && Linked(t, site.e) && Carries(s, t) && 0 !in s
    ensures Walk(s, First(t), Leaves(t), site.e)
    decreases t
  {
    hide Forest, Fence;
    match t
    case Lf(p) =>
      assert [p][1..] == [];
    case Nd(n, kids) =>
      ForestWalk(s, kids, Fence(n.keys, site.lo, site.hi), site.h - 1, |kids| > 1, site.e);
  }

  lemma {:induction false} ForestWalk(s: PageMap, kids: seq<Tree>, f: seq<int>, h: nat, full: bool, e: PageID)
    requires Forest(kids, f, h, full) && LinkedAll(kids, e) && CarriesAll(s, kids) && 0 !in s
    ensures Walk(s, FirstOr(kids, e), LeavesAll(kids), e)
    decreases kids
  {
    hide Shape, Linked, Carries, First, Leaves, Walk;
    if kids == [] {
      WalkNowhere(s, e);
    } else {
      ForestUnfold(kids, f, h, full);
      ForestSlice(kids, f, h, full, 1, |kids|);
      assert kids[1..|kids|] == kids[1..];
      assert forall i | 0 <= i < |kids[1..]| :: kids[1..][i] == kids[i + 1];
      TreeWalk(s, kids[0], Site(f[0], f[1], h, full, FirstOr(kids[1..], e)));
      ForestWalk(s, kids[1..], f[1..|kids| + 1], h, full, e);
      WalkConcat(s, First(kids[0]), Leaves(kids[0]), FirstOr(kids[1..], e), LeavesAll(kids[1..]), e);
    }
  }

  lemma WalkNowhere(s: PageMap, e: PageID)
    ensures Walk(s, e, [], e)
  {
  }

  lemma {:induction false} LiveAllConcat(a: seq<Leaf>, b: seq<Leaf>)
    ensures LiveAll(a + b) == LiveAll(a) + LiveAll(b)
  {
    hide LeafLayout.Leaf.Live, LiveAll;
    if a == [] {
      LiveOfNone();
      assert a + b == b && [] + LiveAll(b) == LiveAll(b);
    } else {
      LiveAllConcat(a[1..], b);
      assert (a + b)[0] == a[0] && (a + b)[1..] == a[1..] + b;
      LiveAllStep(a);
      LiveAllStep(a + b);
      Associate(a[0].Live(), LiveAll(a[1..]), LiveAll(b));
    }
  }

  lemma LiveAllStep(a: seq<Leaf>)
    requires a != []
    ensures LiveAll(a) == a[0].Live() + LiveAll(a[1..])
  {
    hide LeafLayout.Leaf.Live;
  }

  lemma Associate(a: seq<Tuple>, b: seq<Tuple>, c: seq<Tuple>)
    ensures (a + b) + c == a + (b + c)
  {
  }

  lemma {:induction false} LiveOfLeaves(t: Tree)
    ensures LiveAll(Leaves(t)) == Flat(t)
    decreases t
  {
    hide LeafLayout.Leaf.Live;
    match t
    case Lf(p) => assert [p][1..] == [];
    case Nd(_, kids) => LiveOfForest(kids);
  }

  lemma {:induction false} LiveOfForest(kids: seq<Tree>)
    ensures LiveAll(LeavesAll(kids)) == FlatAll(kids)
    decreases kids
  {
    hide LeafLayout.Leaf.Live, Leaves, Flat, LiveAll;
    if kids == [] {
      LiveOfNone();
    } else {
      LiveOfLeaves(kids[0]);
      LiveOfForest(kids[1..]);
      LiveAllConcat(Leaves(kids[0]), LeavesAll(kids[1..]));
    }
  }

  lemma LiveOfNone()
    ensures LiveAll([]) == []
  {
  }

  // The chain visits the leaves of the tree in order and no others; their live
  // tuples in that order are sorted by key and are exactly the entries of the map.
  lemma ChainHoldsContents(s: PageMap, t: Tree, lo: int, hi: int, h: nat, full: bool, m: map<Key, seq<Byte>>,
                           leaves: seq<Leaf>)
    requires Good(t, Site(lo, hi, h, full, 0)) && Carries(s, t) && Represents(s, Flat(t), m) && 0 !in s
    ensures Walk(s, First(t), leaves, 0) <==> leaves == Leaves(t)
    ensures LiveAll(Leaves(t)) == Flat(t) && Sorted(LiveAll(Leaves(t)))
    ensures forall k: Key :: k in m <==> HasKey(LiveAll(Leaves(t)), k)
  {
    hide Shape, Linked, Own, Carries, Represents, Walk, LiveAll, Leaves, HasKey, Flat;
    TreeWalk(s, t, Site(lo, hi, h, full, 0));
    if Walk(s, First(t), leaves, 0) {
      WalkUnique(s, First(t), leaves, Leaves(t));
    }
    LiveOfLeaves(t);
    ShapeKeys(t, lo, hi, h, full);
    forall k: Key ensures k in m <==> HasKey(Flat(t), k) {
      RepresentsHas(s, Flat(t), m, k);
    }
  }
}
