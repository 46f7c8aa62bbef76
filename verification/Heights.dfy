// How high a tree can grow: every page below a root that split is at least half
// full, and page numbers are never reused.
module Heights {
  import opened Bytes
  import opened Pages
  import opened PoolState
  import opened Trees
  import opened TreeStore

  const MAX_HEIGHT: nat := 9

  function Pow128(n: nat): (r: nat)
    ensures r > 0
  {
    if n == 0 then 1 else 128 * Pow128(n - 1)
  }

  // The least number of pages that must have been handed out for a tree to have
  // reached the height.
  function Least(h: nat): nat {
    if h < 2 then 0 else 2 * Pow128(h - 2)
  }

  lemma {:induction false} PowMonotone(a: nat, b: nat)
    requires a <= b
    ensures Pow128(a) <= Pow128(b)
    decreases b - a
  {
    if a < b {
      PowMonotone(a, b - 1);
    }
  }

  // A file offset bounds the number of pages, and so the height.
  lemma HeightBound(h: nat, pages: nat)
    requires Least(h) <= pages <= MAX_PAGES
    ensures h <= MAX_HEIGHT
  {
    if h > MAX_HEIGHT {
      PowMonotone(8, h - 2);
      Pow128Eight();
    }
  }

  lemma Pow128Eight()
    ensures Pow128(8) == 0x100_0000_0000_0000
  {
    assert Pow128(2) == 0x4000;
    assert Pow128(4) == 0x4000 * Pow128(2);
    assert Pow128(6) == 0x4000 * Pow128(4);
    assert Pow128(8) == 0x4000 * Pow128(6);
  }

  lemma {:induction false} FullPages(t: Tree, lo: int, hi: int, h: nat)
    requires Shape(t, lo, hi, h, true) && Own(t)
    ensures h >= 1 && |Pids(t)| >= Pow128(h - 1)
    decreases t
  {
    hide Forest, Fence;
    match t
    case Lf(p) =>
    case Nd(n, kids) =>
      ManyPages(kids, Fence(n.keys, lo, hi), h - 1);
      Product(|kids|, Pow128(h - 2));
      assert Pids(t) == {n.pid} + PidsAll(kids);
  }

  lemma Product(n: nat, p: nat)
    requires n >= 128
    ensures n * p >= 128 * p
  {
  }

  lemma {:induction false} ManyPages(kids: seq<Tree>, f: seq<int>, h: nat)
    requires Forest(kids, f, h, true) && OwnAll(kids) && h >= 1
    ensures |PidsAll(kids)| >= |kids| * Pow128(h - 1)
    decreases kids
  {
    hide Shape, Own, Pids;
    if kids != [] {
      ForestUnfold(kids, f, h, true);
      ForestSlice(kids, f, h, true, 1, |kids|);
      assert kids[1..|kids|] == kids[1..];
      FullPages(kids[0], f[0], f[1], h);
      ManyPages(kids[1..], f[1..|kids| + 1], h);
      hide Forest, OwnAll, Pow128;
      assert PidsAll(kids) == Pids(kids[0]) + PidsAll(kids[1..]);
      Distribute(|kids|, Pow128(h - 1));
    }
  }

  lemma Distribute(n: nat, p: nat)
    requires n > 0
    ensures n * p == p + (n - 1) * p
  {
  }

  lemma {:induction false} CountBelow(pids: set<PageID>, n: nat)
    requires forall p | p in pids :: 0 < p < n
    ensures pids == {} || |pids| < n
    decreases n
  {
    if n > 0 && pids != {} {
      var last: int := n - 1;
      var rest := set p | p in pids && p != last;
      CountBelow(rest, n - 1);
      if p: PageID :| p in pids && p == last {
        assert pids == rest + {p};
      } else {
        assert pids == rest;
      }
    }
  }

  // Once a root has split into two pages that are half full, enough pages exist for
  // a tree one level higher.
  lemma GrowsWithin(s: PageMap, l: Tree, b: int, r: Tree, lo: int, hi: int, h: nat, next: nat)
    requires Shape(l, lo, b, h, true) && Own(l) && Shape(r, b, hi, h, true) && Own(r) && Pids(l) !! Pids(r)
    requires Carries(s, l) && Carries(s, r) && forall p | p in s :: 0 < p < next
    ensures Least(h + 1) <= next
  {
    hide Shape, Own, Pids, Carries, Pow128;
    FullPages(l, lo, b, h);
    FullPages(r, b, hi, h);
    CarriedPids(s, l);
    CarriedPids(s, r);
    CountBelow(Pids(l) + Pids(r), next);
    assert |Pids(l) + Pids(r)| == |Pids(l)| + |Pids(r)|;
  }
}
