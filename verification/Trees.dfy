// The shape of the B+ tree as a value: which page holds which subtree, where the
// separators put the keys, and how the leaves are chained.
module Trees {
  import opened Bytes
  import opened Tuples
  import opened LeafLayout
  import opened InternalPages
  import opened Pages

  const MIN_KEYS: nat := 127  // one more than an underflown internal page can hold

  datatype Tree = Lf(leaf: Leaf) | Nd(node: Node, kids: seq<Tree>)

  function Pid(t: Tree): PageID {
    if t.Lf? then t.leaf.pid else t.node.pid
  }

  // The leftmost leaf.
  function First(t: Tree): PageID
    decreases t
  {
    match t
    case Lf(p) => p.pid
    case Nd(_, kids) => if kids == [] then 0 else First(kids[0])
  }

  // All live tuples from left to right.
  function Flat(t: Tree): seq<Tuple>
    decreases t
  {
    match t
    case Lf(p) => p.Live()
    case Nd(_, kids) => FlatAll(kids)
  }

  function FlatAll(kids: seq<Tree>): seq<Tuple>
    decreases kids
  {
    if kids == [] then [] else Flat(kids[0]) + FlatAll(kids[1..])
  }

  function Pids(t: Tree): set<PageID>
    decreases t
  {
    match t
    case Lf(p) => {p.pid}
    case Nd(n, kids) => {n.pid} + PidsAll(kids)
  }

  function PidsAll(kids: seq<Tree>): set<PageID>
    decreases kids
  {
    if kids == [] then {} else Pids(kids[0]) + PidsAll(kids[1..])
  }

  // No page belongs to two subtrees.
  ghost predicate Own(t: Tree)
    decreases t
  {
    match t
    case Lf(_) => true
    case Nd(n, kids) => n.pid !in PidsAll(kids) && OwnAll(kids)
  }

  ghost predicate OwnAll(kids: seq<Tree>)
    decreases kids
  {
    kids == [] || (Own(kids[0]) && OwnAll(kids[1..]) && Pids(kids[0]) !! PidsAll(kids[1..]))
  }

  // Following right pointers from leaf to leaf leads through the subtree to e.
  ghost predicate Linked(t: Tree, e: PageID)
    decreases t
  {
    match t
    case Lf(p) => p.right == e
    case Nd(_, kids) => LinkedAll(kids, e)
  }

  ghost predicate LinkedAll(kids: seq<Tree>, e: PageID)
    decreases kids
  {
    kids == [] || (Linked(kids[0], FirstOr(kids[1..], e)) && LinkedAll(kids[1..], e))
  }

  function FirstOr(kids: seq<Tree>, e: PageID): PageID {
    if kids == [] then e else First(kids[0])
  }

  // The separators of a page between its outer bounds; child i holds the keys in
  // [fence[i], fence[i + 1]).
  function Fence(keys: seq<Key>, lo: int, hi: int): seq<int> {
    [lo] + keys + [hi]
  }

  // Where a subtree hangs: the keys it may hold, its height, whether its root page is
  // held to a minimum, and the leaf page after it.
  datatype Site = Site(lo: int, hi: int, h: nat, full: bool, e: PageID)

  // The site of a whole tree.
  function Top(h: nat): Site {
    Site(0, KEY_LIMIT, h, false, 0)
  }

  // The site of child i of a page.
  function KidSite(n: Node, kids: seq<Tree>, i: nat, site: Site): Site
    requires i < |kids| && i + 1 < |Fence(n.keys, site.lo, site.hi)| && site.h > 0
  {
    var f := Fence(n.keys, site.lo, site.hi);
    Site(f[i], f[i + 1], site.h - 1, |kids| > 1, FirstOr(kids[i + 1..], site.e))
  }

  ghost predicate Rising(f: seq<int>) {
    forall i, j | 0 <= i < j < |f| :: f[i] < f[j]
  }

  lemma KeysRise(keys: seq<Key>, lo: int, hi: int)
    requires Rising(Fence(keys, lo, hi))
    ensures Increasing(keys)
  {
    var f := Fence(keys, lo, hi);
    assert forall i | 0 <= i < |keys| :: f[i + 1] == keys[i];
  }

  // All leaves at depth h, keys inside their fences, pages within their capacity;
  // a page with a sibling is at least half full.
  ghost predicate Shape(t: Tree, lo: int, hi: int, h: nat, full: bool)
    decreases t
  {
    match t
    case Lf(p) => h == 1 && p.Valid() && KeysIn(p.Live(), lo, hi)
    case Nd(n, kids) =>
      && h > 1
      && Counts(n, kids, full)
      && Forest(kids, Fence(n.keys, lo, hi), h - 1, |kids| > 1)
  }

  ghost predicate Counts(n: Node, kids: seq<Tree>, full: bool) {
    && |kids| == |n.keys| + 1 == |n.children| <= NUM_KEY_SLOTS + 1
    && (full ==> |n.keys| >= MIN_KEYS)
    && forall i | 0 <= i < |kids| :: n.children[i] == Pid(kids[i])
  }

  ghost predicate Forest(kids: seq<Tree>, f: seq<int>, h: nat, full: bool)
    decreases kids
  {
    && |f| == |kids| + 1 && Rising(f)
    && forall i | 0 <= i < |kids| :: Shape(kids[i], f[i], f[i + 1], h, full)
  }

  // A root directly above the leaves has a separator: a merge that takes the last
  // one makes the leaf the root.
  ghost predicate Branched(t: Tree, h: nat) {
    h == 2 ==> t.Nd? && t.node.keys != []
  }

  // The root page has a single child.
  ghost predicate Lone(t: Tree) {
    t.Nd? && t.node.keys == []
  }

  // A page loses at most one separator.
  ghost predicate Narrows(t: Tree, t': Tree) {
    t.Nd? ==> t'.Nd? && |t'.node.keys| + 1 >= |t.node.keys|
  }

  // The pages of the store carry the tree; the left pointers of leaves are not
  // maintained by the program and are ignored.
  function NoLeft(p: Page): Page {
    if p.LeafPg? then LeafPg(p.leaf.(left := 0)) else p
  }

  ghost predicate Carries(store: PageMap, t: Tree)
    decreases t
  {
    match t
    case Lf(p) => p.pid in store && p.left == 0 && NoLeft(store[p.pid]) == LeafPg(p)
    case Nd(n, kids) =>
      n.pid in store && store[n.pid] == InternalPg(n) && forall i | 0 <= i < |kids| :: Carries(store, kids[i])
  }

  ghost predicate CarriesAll(store: PageMap, kids: seq<Tree>) {
    forall i | 0 <= i < |kids| :: Carries(store, kids[i])
  }

  // Every page outside the set keeps its content.
  ghost predicate Frame(store: PageMap, store': PageMap, pids: set<PageID>) {
    forall p | p in store && p !in pids :: p in store' && NoLeft(store'[p]) == NoLeft(store[p])
  }

  // ----- forests are spliced -----

  lemma {:induction false} FlatConcat(a: seq<Tree>, b: seq<Tree>)
    ensures FlatAll(a + b) == FlatAll(a) + FlatAll(b)
  {
    hide Flat;
    if a == [] {
      assert a + b == b;
    } else {
      FlatConcat(a[1..], b);
      assert (a + b)[1..] == a[1..] + b && (a + b)[0] == a[0];
    }
  }

  lemma {:induction false} PidsConcat(a: seq<Tree>, b: seq<Tree>)
    ensures PidsAll(a + b) == PidsAll(a) + PidsAll(b)
  {
    hide Pids;
    if a == [] {
      assert a + b == b;
    } else {
      PidsConcat(a[1..], b);
      assert (a + b)[1..] == a[1..] + b && (a + b)[0] == a[0];
    }
  }

  lemma {:induction false} OwnConcat(a: seq<Tree>, b: seq<Tree>)
    ensures OwnAll(a + b) <==> OwnAll(a) && OwnAll(b) && PidsAll(a) !! PidsAll(b)
  {
    hide Pids, Own;
    if a == [] {
      assert a + b == b;
    } else {
      OwnConcat(a[1..], b);
      PidsConcat(a[1..], b);
      assert (a + b)[1..] == a[1..] + b && (a + b)[0] == a[0];
    }
  }

  lemma {:induction false} LinkedConcat(a: seq<Tree>, b: seq<Tree>, e: PageID)
    ensures LinkedAll(a + b, e) <==> LinkedAll(a, FirstOr(b, e)) && LinkedAll(b, e)
  {
    hide Linked, First;
    if a == [] {
      assert a + b == b;
    } else {
      LinkedConcat(a[1..], b, e);
      assert (a + b)[1..] == a[1..] + b && (a + b)[0] == a[0];
      assert a[1..] == [] ==> a[1..] + b == b;
      assert a[1..] != [] ==> (a[1..] + b)[0] == a[1..][0];
    }
  }

  lemma ForestConcat(a: seq<Tree>, b: seq<Tree>, f: seq<int>, g: seq<int>, h: nat, full: bool)
    requires Forest(a, f, h, full) && Forest(b, g, h, full) && f[|a|] == g[0]
    ensures Forest(a + b, f + g[1..], h, full)
  {
    hide Shape;
    var k, w := a + b, f + g[1..];
    forall i | 0 <= i < |k| ensures Shape(k[i], w[i], w[i + 1], h, full) {
      if i < |a| {
        assert k[i] == a[i];
      } else {
        assert k[i] == b[i - |a|] && w[i + 1] == g[i - |a| + 1];
        assert w[i] == g[i - |a|];
      }
    }
    forall i, j | 0 <= i < j < |w| ensures w[i] < w[j] {
      if i < |f| && j >= |f| {
        assert w[j] == g[j - |a|] && f[i] <= f[|a|];
      } else if i >= |f| {
        assert w[j] == g[j - |a|] && w[i] == g[i - |a|];
      }
    }
  }

  lemma ForestSlice(k: seq<Tree>, f: seq<int>, h: nat, full: bool, i: nat, j: nat)
    requires Forest(k, f, h, full) && i <= j <= |k|
    ensures Forest(k[i..j], f[i..j + 1], h, full)
  {
    hide Shape;
    assert forall x | 0 <= x < j - i :: k[i..j][x] == k[x + i];
  }

  lemma ForestOne(t: Tree, lo: int, hi: int, h: nat, full: bool)
    requires Shape(t, lo, hi, h, full) && lo < hi
    ensures Forest([t], [lo, hi], h, full)
  {
    hide Shape;
  }

  lemma ForestTwo(l: Tree, r: Tree, lo: int, b: int, hi: int, h: nat, full: bool)
    requires Shape(l, lo, b, h, full) && Shape(r, b, hi, h, full) && lo < b < hi
    ensures Forest([l, r], [lo, b, hi], h, full)
  {
    hide Shape;
  }

  lemma ForestWeaken(k: seq<Tree>, f: seq<int>, h: nat)
    requires Forest(k, f, h, true)
    ensures Forest(k, f, h, false)
  {
    hide Forest;
    ForestUnfold(k, f, h, true);
    forall i | 0 <= i < |k| ensures Shape(k[i], f[i], f[i + 1], h, false) {
      ShapeWeaken(k[i], f[i], f[i + 1], h);
    }
    ForestFold(k, f, h, false);
  }

  lemma ShapeWeaken(t: Tree, lo: int, hi: int, h: nat)
    requires Shape(t, lo, hi, h, true)
    ensures Shape(t, lo, hi, h, false)
  {
    hide Forest;
  }

  lemma ForestUnfold(k: seq<Tree>, f: seq<int>, h: nat, full: bool)
    requires Forest(k, f, h, full)
    ensures |f| == |k| + 1 && Rising(f) && forall i | 0 <= i < |k| :: Shape(k[i], f[i], f[i + 1], h, full)
  {
    hide Shape;
  }

  lemma ForestFold(k: seq<Tree>, f: seq<int>, h: nat, full: bool)
    requires |f| == |k| + 1 && Rising(f) && forall i | 0 <= i < |k| :: Shape(k[i], f[i], f[i + 1], h, full)
    ensures Forest(k, f, h, full)
  {
    hide Shape;
  }

  lemma ForestParts(a: seq<Tree>, m: seq<Tree>, b: seq<Tree>, f: seq<int>, h: nat, full: bool)
    requires Forest(a + m + b, f, h, full)
    ensures |f| == |a| + |m| + |b| + 1
    ensures Forest(a, f[..|a| + 1], h, full) && Forest(m, f[|a|..|a| + |m| + 1], h, full)
    ensures Forest(b, f[|a| + |m|..], h, full)
  {
    hide Forest;
    var k := a + m + b;
    ForestUnfold(k, f, h, full);
    ForestSlice(k, f, h, full, 0, |a|);
    ForestSlice(k, f, h, full, |a|, |a| + |m|);
    ForestSlice(k, f, h, full, |a| + |m|, |k|);
    assert k[0..|a|] == a && k[|a|..|a| + |m|] == m && k[|a| + |m|..|k|] == b;
    assert f[0..|a| + 1] == f[..|a| + 1] && f[|a| + |m|..|k| + 1] == f[|a| + |m|..];
  }

  // Two forests whose fences meet; the right one given by the rest of a longer fence.
  lemma ForestJoin(a: seq<Tree>, b: seq<Tree>, f: seq<int>, g: seq<int>, n: nat, h: nat, full: bool)
    requires n < |g| && Forest(a, f, h, full) && Forest(b, g[n..], h, full) && f[|a|] == g[n]
    ensures Forest(a + b, f + g[n + 1..], h, full)
  {
    hide Forest;
    ForestUnfold(a, f, h, full);
    ForestConcat(a, b, f, g[n..], h, full);
    assert g[n..][1..] == g[n + 1..];
  }

  lemma ForestLead(a: seq<Tree>, m: seq<Tree>, f: seq<int>, g: seq<int>, h: nat, full: bool)
    requires |a| < |f| && Forest(a, f[..|a| + 1], h, full) && Forest(m, g, h, full) && f[|a|] == g[0]
    ensures Forest(a + m, f[..|a|] + g, h, full)
  {
    hide Forest;
    ForestUnfold(m, g, h, full);
    ForestConcat(a, m, f[..|a| + 1], g, h, full);
    assert f[..|a| + 1] + g[1..] == f[..|a|] + g;
  }

  // Replacing the middle of a forest by another forest over the same key range.
  lemma ForestSplice(a: seq<Tree>, m: seq<Tree>, b: seq<Tree>, f: seq<int>, m': seq<Tree>, g: seq<int>, f': seq<int>,
                     h: nat, full: bool)
    requires |f| == |a| + |m| + |b| + 1 && |g| == |m'| + 1
    requires Forest(a + m + b, f, h, full) && Forest(m', g, h, full)
    requires g[0] == f[|a|] && g[|m'|] == f[|a| + |m|]
    requires f' == f[..|a|] + g + f[|a| + |m| + 1..]
    ensures Forest(a + m' + b, f', h, full)
  {
    hide *;
    ForestParts(a, m, b, f, h, full);
    ForestLead(a, m', f, g, h, full);
    ForestRest(a + m', b, f[..|a|], g, f, |a| + |m|, f', h, full);
  }

  lemma ForestRest(k: seq<Tree>, b: seq<Tree>, d: seq<int>, g: seq<int>, f: seq<int>, n: nat, f': seq<int>, h: nat,
                   full: bool)
    requires n < |f| && f' == d + g + f[n + 1..] && |k| + 1 == |d| + |g| && |g| > 0 && Forest(k, d + g, h, full)
             && Forest(b, f[n..], h, full)
    requires g[|g| - 1] == f[n]
    ensures Forest(k + b, f', h, full)
  {
    hide Forest;
    assert (d + g)[|k|] == g[|g| - 1];
    ForestJoin(k, b, d + g, f, n, h, full);
  }
}
