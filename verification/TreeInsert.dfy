// What descending to a leaf for an insertion, with splits on the way back, does
// to a tree: its tuples stay the same and the key's leaf has room.
module TreeInsert {
  import opened Bytes
  import opened Tuples
  import opened LeafLayout
  import opened LeafPages
  import opened InternalPages
  import opened Pages
  import opened Trees
  import opened TreeEdits
  import opened TreePairs
  import opened TreeStore

  // The subtree is still one page at its root.
  ghost predicate Kept(s: PageMap, s': PageMap, t: Tree, l: Tree, site: Site, key: Key, w: PageID, size: nat) {
    && s.Keys <= s'.Keys
    && Good(l, site) && Pid(l) == Pid(t) && First(l) == First(t)
    && Pids(l) <= Pids(t) + (s'.Keys - s.Keys)
    && Carries(s', l) && Flat(l) == Flat(t)
    && Hosts(l, site.lo, site.hi, key, w, size)
    && (t.Nd? ==> l.Nd? && |l.node.keys| >= |t.node.keys|)
  }

  // Its root page has split at b.
  ghost predicate Parted(s: PageMap, s': PageMap, t: Tree, l: Tree, b: Key, r: Tree, site: Site, key: Key, w: PageID,
                         size: nat) {
    && s.Keys <= s'.Keys && site.lo < b < site.hi
    && Good(l, site.(hi := b, full := true, e := First(r))) && Good(r, site.(lo := b, full := true))
    && Pid(l) == Pid(t) && First(l) == First(t) && Pids(l) !! Pids(r)
    && Pids(l) + Pids(r) <= Pids(t) + (s'.Keys - s.Keys)
    && Carries(s', l) && Carries(s', r) && Flat(l) + Flat(r) == Flat(t)
    && (Hosts(l, site.lo, b, key, w, size) || Hosts(r, b, site.hi, key, w, size))
  }

  lemma LeafParts(s: PageMap, s': PageMap, p: Leaf, l: Leaf, b: Key, r: Leaf, site: Site, key: Key, w: PageID,
                  size: nat)
    requires site.h == 1
    requires Good(Lf(p.(left := 0)), site) && p.pid in s && r.pid !in s && site.lo <= key < site.hi
    requires l.Valid() && r.Valid() && l.Live() + r.Live() == p.Live() && l.Live() != [] && r.Live() != []
    requires b == TKey(r.Live()[0]) && l.pid == p.pid && l.right == r.pid && r.right == p.right
    requires l.Free() >= MIN_ENTRY && r.Free() >= MIN_ENTRY
    requires w == if key >= b then r.pid else l.pid
    requires s' == s[l.pid := LeafPg(l)][r.pid := LeafPg(r)]
    ensures Parted(s, s', Lf(p.(left := 0)), Lf(l.(left := 0)), b, Lf(r.(left := 0)), site, key, w, size)
    ensures Frame(s, s', {p.pid})
  {
    hide TKey, LeafLayout.Leaf.Valid, LeafLayout.Leaf.Live, LeafLayout.Leaf.Free;
    LeftPointer(p);
    LeftPointer(l);
    LeftPointer(r);
    ShapeKeys(Lf(p.(left := 0)), site.lo, site.hi, 1, site.full);
    CutKeys(l.Live(), r.Live(), site.lo, site.hi);
    assert s'.Keys - s.Keys == {r.pid};
  }

  lemma LeafKept(s: PageMap, p: Leaf, site: Site, key: Key, size: nat)
    requires site.h == 1
    requires Good(Lf(p.(left := 0)), site) && Carries(s, Lf(p.(left := 0))) && site.lo <= key < site.hi
    requires MinEntry(size) <= p.Free()
    ensures Kept(s, s, Lf(p.(left := 0)), Lf(p.(left := 0)), site, key, p.pid, size)
  {
    hide LeafLayout.Leaf.Valid, LeafLayout.Leaf.Live, LeafLayout.Leaf.Free;
    LeftPointer(p);
  }

  // The siblings of a child that was worked on are still carried.
  lemma Siblings(s: PageMap, s': PageMap, n: Node, kids: seq<Tree>, i: nat, m: nat, pids: set<PageID>)
    requires Carries(s, Nd(n, kids)) && i + m <= |kids| && Own(Nd(n, kids))
    requires Frame(s, s', pids) && pids <= PidsAll(kids[i..i + m]) + {n.pid}
    ensures CarriesAll(s', kids[..i]) && CarriesAll(s', kids[i + m..])
    ensures n.pid !in pids ==> n.pid in s' && s'[n.pid] == InternalPg(n)
  {
    hide PidsAll, OwnAll;
    CarriesNode(s, n, kids);
    hide Carries;
    assert kids == kids[..i] + kids[i..] && kids[i..] == kids[i..i + m] + kids[i + m..];
    CarriesConcat(s, kids[..i], kids[i..]);
    CarriesConcat(s, kids[i..i + m], kids[i + m..]);
    OwnConcat(kids[..i], kids[i..]);
    OwnConcat(kids[i..i + m], kids[i + m..]);
    PidsConcat(kids[..i], kids[i..]);
    PidsConcat(kids[i..i + m], kids[i + m..]);
    CarriedAll(s, kids[..i]);
    CarriedAll(s, kids[i + m..]);
    CarriesAllFrame(s, s', kids[..i]);
    CarriesAllFrame(s, s', kids[i + m..]);
  }

  lemma HostsMiddle(a: seq<Tree>, m: seq<Tree>, b: seq<Tree>, f: seq<int>, g: seq<int>, key: Key, w: PageID, size: nat)
    requires HostsAll(m, g, key, w, size) && |g| == |m| + 1
    requires |f| == |a| + |m| + |b| + 1 && forall j | 0 <= j < |g| :: f[|a| + j] == g[j]
    ensures HostsAll(a + m + b, f, key, w, size)
  {
    hide Hosts;
    var j :| 0 <= j < |m| && Hosts(m[j], g[j], g[j + 1], key, w, size);
    assert (a + m + b)[|a| + j] == m[j];
    assert f[|a| + j] == g[j] && f[|a| + (j + 1)] == g[j + 1];
  }

  lemma HostsOf(n: Node, kids: seq<Tree>, lo: int, hi: int, key: Key, w: PageID, size: nat)
    ensures Hosts(Nd(n, kids), lo, hi, key, w, size) <==> HostsAll(kids, Fence(n.keys, lo, hi), key, w, size)
  {
    hide HostsAll, Fence;
  }

  lemma NewPages(s: PageMap, s': PageMap, t: Tree)
    requires Carries(s, t)
    ensures (s'.Keys - s.Keys) !! Pids(t) && Pids(t) <= s.Keys
  {
    hide Carries, Pids;
    CarriedPids(s, t);
  }

  // The child that was descended into is still one page.
  lemma NodeKept(s: PageMap, s': PageMap, n: Node, kids: seq<Tree>, i: nat, c: Tree, site: Site, key: Key, w: PageID,
                 size: nat)
    requires Good(Nd(n, kids), site) && Carries(s, Nd(n, kids)) && i < |kids| && site.h > 1
    requires |Fence(n.keys, site.lo, site.hi)| == |kids| + 1
    requires Frame(s, s', Pids(kids[i]))
    requires Kept(s, s', kids[i], c, KidSite(n, kids, i, site), key, w, size)
    ensures Kept(s, s', Nd(n, kids), Nd(n, kids[..i] + [c] + kids[i + 1..]), site, key, w, size)
    ensures Frame(s, s', Pids(Nd(n, kids)))
  {
    hide OwnAll, LinkedAll, PidsAll, FlatAll, Forest, Fence, FirstOr, Shape, Own, Linked, Pids, First, Carries,
      Flat, Hosts, HostsAll;
    var f := Fence(n.keys, site.lo, site.hi);
    var a, b := kids[..i], kids[i + 1..];
    ChildOf(n, kids, i, site);
    NewPages(s, s', Nd(n, kids));
    KeepChild(n, kids, i, site, c, s'.Keys - s.Keys);
    SiblingsOf(s, s', n, kids, i, site, Pids(kids[i]));
    CarryNode(s', n, a, [c], b);
    FlatAt(n, a, kids[i], b);
    FlatAt(n, a, c, b);
    assert HostsAll([c], [f[i], f[i + 1]], key, w, size) by { OneHost(c, f[i], f[i + 1], key, w, size); }
    HostsMiddle(a, [c], b, f, [f[i], f[i + 1]], key, w, size);
    HostsOf(n, a + [c] + b, site.lo, site.hi, key, w, size);
    PidOf(n, a + [c] + b);
    PidOf(n, kids);
  }

  lemma OneHost(c: Tree, lo: int, hi: int, key: Key, w: PageID, size: nat)
    requires Hosts(c, lo, hi, key, w, size)
    ensures HostsAll([c], [lo, hi], key, w, size)
  {
    hide Hosts;
    assert Hosts([c][0], [lo, hi][0], [lo, hi][1], key, w, size);
  }

  lemma SiblingsOf(s: PageMap, s': PageMap, n: Node, kids: seq<Tree>, i: nat, site: Site, pids: set<PageID>)
    requires Good(Nd(n, kids), site) && Carries(s, Nd(n, kids)) && i < |kids|
    requires Frame(s, s', pids) && pids <= Pids(kids[i]) + {n.pid}
    ensures CarriesAll(s', kids[..i]) && CarriesAll(s', kids[i + 1..])
    ensures n.pid !in pids ==> n.pid in s' && s'[n.pid] == InternalPg(n)
  {
    hide PidsAll, Carries, Pids, Shape, Linked, OwnAll;
    assert kids[i..i + 1] == [kids[i]];
    One(kids[i], 0);
    Siblings(s, s', n, kids, i, 1, pids);
  }

  lemma CarryNode(s: PageMap, n: Node, a: seq<Tree>, m: seq<Tree>, b: seq<Tree>)
    requires CarriesAll(s, a) && CarriesAll(s, m) && CarriesAll(s, b)
    requires n.pid in s && s[n.pid] == InternalPg(n)
    ensures Carries(s, Nd(n, a + m + b))
  {
    hide Carries;
    CarriesConcat(s, a + m, b);
    CarriesConcat(s, a, m);
    CarriesNode(s, n, a + m + b);
  }

  // The child that split, seen from its parent.
  ghost predicate ChildParted(s: PageMap, s': PageMap, n: Node, kids: seq<Tree>, i: nat, l: Tree, b: Key, r: Tree,
                              site: Site, key: Key, w: PageID, size: nat) {
    && Good(Nd(n, kids), site) && Carries(s, Nd(n, kids)) && i < |kids| && site.h > 1
    && |Fence(n.keys, site.lo, site.hi)| == |kids| + 1 == |n.keys| + 2 == |n.children| + 1
    && Frame(s, s', Pids(kids[i]))
    && Parted(s, s', kids[i], l, b, r, KidSite(n, kids, i, site), key, w, size)
  }

  lemma TwoHosts(l: Tree, r: Tree, lo: int, b: int, hi: int, key: Key, w: PageID, size: nat)
    requires Hosts(l, lo, b, key, w, size) || Hosts(r, b, hi, key, w, size)
    ensures HostsAll([l, r], [lo, b, hi], key, w, size)
  {
    hide Hosts;
    var k, f := [l, r], [lo, b, hi];
    assert Hosts(k[0], f[0], f[1], key, w, size) || Hosts(k[1], f[1], f[2], key, w, size);
  }

  lemma InsertedFence(keys: seq<Key>, i: nat, b: Key, lo: int, hi: int)
    requires i <= |keys|
    ensures var f, g := Fence(keys, lo, hi), Fence(InsertAt(keys, i, b), lo, hi);
            |g| == |f| + 1 && g[i] == f[i] && g[i + 1] == b && g[i + 2] == f[i + 1]
  {
  }

  // What the children of a page look like once one of them has split.
  lemma PartedChildren(s: PageMap, s': PageMap, n: Node, kids: seq<Tree>, i: nat, l: Tree, b: Key, r: Tree, site: Site,
                       key: Key, w: PageID, size: nat)
    requires ChildParted(s, s', n, kids, i, l, b, r, site, key, w, size)
    ensures var all := kids[..i] + [l, r] + kids[i + 1..];
            && HostsAll(all, Fence(InsertAt(n.keys, i, b), site.lo, site.hi), key, w, size)
            && FlatAll(all) == Flat(Nd(n, kids))
            && CarriesAll(s', all) && n.pid in s' && s'[n.pid] == InternalPg(n)
            && i <= |n.keys| && i + 1 <= |n.children|
    ensures Frame(s, s', Pids(Nd(n, kids)))
  {
    hide OwnAll, LinkedAll, PidsAll, FlatAll, Forest, Fence, FirstOr, Shape, Own, Linked, Pids, First, Carries,
      Flat, Hosts, HostsAll, InsertAt;
    var f, g := Fence(n.keys, site.lo, site.hi), Fence(InsertAt(n.keys, i, b), site.lo, site.hi);
    ChildOf(n, kids, i, site);
    SiblingsOf(s, s', n, kids, i, site, Pids(kids[i]));
    NewPages(s, s', Nd(n, kids));
    CarryAll(s', kids[..i], l, r, kids[i + 1..]);
    PartedFlat(n, kids, i, l, r);
    InsertedFence(n.keys, i, b, site.lo, site.hi);
    TwoHosts(l, r, f[i], b, f[i + 1], key, w, size);
    HostsMiddle(kids[..i], [l, r], kids[i + 1..], g, [f[i], b, f[i + 1]], key, w, size);
  }

  lemma CarryAll(s: PageMap, a: seq<Tree>, l: Tree, r: Tree, b: seq<Tree>)
    requires CarriesAll(s, a) && Carries(s, l) && Carries(s, r) && CarriesAll(s, b)
    ensures CarriesAll(s, a + [l, r] + b)
  {
    hide Carries;
    CarriesConcat(s, a + [l, r], b);
    CarriesConcat(s, a, [l, r]);
  }

  lemma PartedFlat(n: Node, kids: seq<Tree>, i: nat, l: Tree, r: Tree)
    requires i < |kids| && Flat(l) + Flat(r) == Flat(kids[i])
    ensures FlatAll(kids[..i] + [l, r] + kids[i + 1..]) == Flat(Nd(n, kids))
  {
    hide FlatAll;
    assert kids == kids[..i] + [kids[i]] + kids[i + 1..];
    FlatThree(kids[..i], [l, r], kids[i + 1..]);
    FlatThree(kids[..i], [kids[i]], kids[i + 1..]);
    Pair(l, r, 0);
    One(kids[i], 0);
  }

  // A page with a free slot takes the new separator.
  lemma NodeAdds(s: PageMap, s': PageMap, n: Node, kids: seq<Tree>, i: nat, l: Tree, b: Key, r: Tree, site: Site,
                 key: Key, w: PageID, size: nat, n': Node, s'': PageMap)
    requires ChildParted(s, s', n, kids, i, l, b, r, site, key, w, size)
    requires |n.keys| < NUM_KEY_SLOTS
    requires n' == Node(n.pid, InsertAt(n.keys, i, b), InsertAt(n.children, i + 1, Pid(r)))
    requires s'' == s'[n.pid := InternalPg(n')]
    ensures Kept(s, s'', Nd(n, kids), Nd(n', kids[..i] + [l, r] + kids[i + 1..]), site, key, w, size)
    ensures Frame(s, s'', Pids(Nd(n, kids)))
  {
    hide OwnAll, LinkedAll, PidsAll, FlatAll, Forest, Fence, FirstOr, Shape, Own, Linked, First, Carries, Flat,
      Hosts, HostsAll, InsertAt, Pid;
    InsertAtLength(n.keys, i, b);
    PartedChildren(s, s', n, kids, i, l, b, r, site, key, w, size);
    NewPages(s, s', Nd(n, kids));
    SplitChild(n, kids, i, site, l, b, r, s'.Keys - s.Keys);
    var all := kids[..i] + [l, r] + kids[i + 1..];
    var t' := Nd(n', all);
    hide Pids;
    Rewritten(s', s'', n, n', all, site);
    HostsOf(n', all, site.lo, site.hi, key, w, size);
    FlatOf(n', all);
    PidOf(n', all);
    PidOf(n, kids);
    assert s''.Keys == s'.Keys;
  }

  lemma FlatOf(n: Node, kids: seq<Tree>)
    ensures Flat(Nd(n, kids)) == FlatAll(kids)
  {
  }

  // Rewriting the page at the root leaves the children carried.
  lemma Rewritten(s: PageMap, s': PageMap, n: Node, n': Node, kids: seq<Tree>, site: Site)
    requires CarriesAll(s, kids) && s' == s[n'.pid := InternalPg(n')] && Good(Nd(n', kids), site)
    ensures Carries(s', Nd(n', kids))
  {
    hide PidsAll, OwnAll, Shape, Linked;
    assert n'.pid !in PidsAll(kids);
    CarriesAllFrame(s, s', kids);
    CarriesNode(s', n', kids);
  }

  // The children of an overfull page, before they are dealt out to two pages.
  lemma SplitForest(s: PageMap, s': PageMap, n: Node, kids: seq<Tree>, i: nat, l: Tree, b: Key, r: Tree, site: Site,
                    key: Key, w: PageID, size: nat)
    requires ChildParted(s, s', n, kids, i, l, b, r, site, key, w, size)
    ensures var all := kids[..i] + [l, r] + kids[i + 1..];
            var children := InsertAt(n.children, i + 1, Pid(r));
            && i <= |n.keys| && GoodAll(all, Fence(InsertAt(n.keys, i, b), site.lo, site.hi), site.h - 1, true, site.e)
            && PidsAll(all) <= PidsAll(kids) + (s'.Keys - s.Keys) && n.pid !in PidsAll(all)
            && First(all[0]) == First(Nd(n, kids))
            && |children| == |all| && forall j | 0 <= j < |all| :: children[j] == Pid(all[j])
  {
    hide OwnAll, LinkedAll, PidsAll, FlatAll, Forest, Fence, FirstOr, Shape, Own, Linked, First, Carries, Flat,
      Hosts, HostsAll, Pids;
    var f := Fence(n.keys, site.lo, site.hi);
    var added := s'.Keys - s.Keys;
    ChildOf(n, kids, i, site);
    NewPages(s, s', Nd(n, kids));
    Unfold(n, kids, site);
    GoodTwo(l, r, f[i], b, f[i + 1], site.h - 1, true, FirstOr(kids[i + 1..], site.e));
    One(kids[i], site.e);
    FenceInsert(n.keys, i, b, site.lo, site.hi);
    FenceSize(n.keys, site.lo, site.hi);
    ForestReplace(kids[..i], [kids[i]], kids[i + 1..], f, site.e, [l, r], [f[i], b, f[i + 1]],
                  Fence(InsertAt(n.keys, i, b), site.lo, site.hi), site.h - 1, added);
  }

  lemma HalvesHost(all: seq<Tree>, nl: Node, up: Key, nr: Node, lo: int, hi: int, key: Key, w: PageID, size: nat)
    requires HostsAll(all, Fence(nl.keys + [up] + nr.keys, lo, hi), key, w, size)
    requires |all| == |nl.keys| + |nr.keys| + 2
    ensures var c := |nl.keys| + 1;
            Hosts(Nd(nl, all[..c]), lo, up, key, w, size) || Hosts(Nd(nr, all[c..]), up, hi, key, w, size)
  {
    hide Fence, HostsAll;
    var c := |nl.keys| + 1;
    FenceCut(nl.keys, up, nr.keys, lo, hi);
    assert all == all[..c] + all[c..];
    HostsCut(all[..c], all[c..], Fence(nl.keys + [up] + nr.keys, lo, hi), key, w, size);
    HostsOf(nl, all[..c], lo, up, key, w, size);
    HostsOf(nr, all[c..], up, hi, key, w, size);
  }

  lemma HalvesCarried(s: PageMap, s': PageMap, all: seq<Tree>, nl: Node, nr: Node, c: nat)
    requires CarriesAll(s, all) && c <= |all| && nl.pid != nr.pid
    requires nl.pid !in PidsAll(all) && nr.pid !in PidsAll(all)
    requires s' == s[nl.pid := InternalPg(nl)][nr.pid := InternalPg(nr)]
    ensures Carries(s', Nd(nl, all[..c])) && Carries(s', Nd(nr, all[c..]))
  {
    hide PidsAll;
    CarriesAllFrame(s, s', all);
    assert all == all[..c] + all[c..];
    CarriesConcat(s', all[..c], all[c..]);
    CarriesNode(s', nl, all[..c]);
    CarriesNode(s', nr, all[c..]);
  }

  // A full page splits in two around its middle separator.
  lemma NodeParts(s: PageMap, s': PageMap, n: Node, kids: seq<Tree>, i: nat, l: Tree, b: Key, r: Tree, site: Site,
                  key: Key, w: PageID, size: nat, nl: Node, up: Key, nr: Node, s'': PageMap)
    requires ChildParted(s, s', n, kids, i, l, b, r, site, key, w, size)
    requires i <= |n.keys| && i + 1 <= |n.children|
    requires nl.keys + [up] + nr.keys == InsertAt(n.keys, i, b)
    requires nl.children + nr.children == InsertAt(n.children, i + 1, Pid(r))
    requires |nl.children| == |nl.keys| + 1 && |nr.children| == |nr.keys| + 1
    requires |nl.keys| == MIN_KEYS && |nr.keys| == MIN_KEYS
    requires nl.pid == n.pid && nr.pid !in s' && s'' == s'[nl.pid := InternalPg(nl)][nr.pid := InternalPg(nr)]
    ensures var all := kids[..i] + [l, r] + kids[i + 1..];
            var c := |nl.children|;
            c <= |all|
            && Parted(s, s'', Nd(n, kids), Nd(nl, all[..c]), up, Nd(nr, all[c..]), site, key, w, size)
    ensures Frame(s, s'', Pids(Nd(n, kids)))
  {
    var all := kids[..i] + [l, r] + kids[i + 1..];
    var c := |nl.children|;
    assert site.h > 1;
    hide OwnAll, LinkedAll, PidsAll, FlatAll, Forest, Fence, FirstOr, Shape, Own, Linked, First, Carries, Flat,
      Hosts, HostsAll, Pids,
      InsertAt, Good, GoodAll, ChildParted, Parted, Frame, Pid;
    SplitForest(s, s', n, kids, i, l, b, r, site, key, w, size);
    PartedChildren(s, s', n, kids, i, l, b, r, site, key, w, size);
    CarriedAll(s', all);
    PartedPages(s, s', n, kids, i, l, b, r, site, key, w, size, nl, nr, s'', all);
    PairCut(all, nl, up, nr, site.lo, site.hi, site.h, site.e);
    HalvesHost(all, nl, up, nr, site.lo, site.hi, key, w, size);
    HalvesCarried(s', s'', all, nl, nr, c);
    FlatCut(nl, nr, all, c);
    PidOf(nl, all[..c]);
    PidOf(n, kids);
    Assemble(s, s'', Nd(n, kids), Nd(nl, all[..c]), up, Nd(nr, all[c..]), site, key, w, size);
  }

  lemma Assemble(s: PageMap, s': PageMap, t: Tree, l: Tree, b: Key, r: Tree, site: Site, key: Key, w: PageID, size: nat)
    requires s.Keys <= s'.Keys && site.lo < b < site.hi
    requires Good(l, site.(hi := b, full := true, e := First(r))) && Good(r, site.(lo := b, full := true))
    requires Pid(l) == Pid(t) && First(l) == First(t) && Pids(l) !! Pids(r)
    requires Pids(l) + Pids(r) <= Pids(t) + (s'.Keys - s.Keys)
    requires Carries(s', l) && Carries(s', r) && Flat(l) + Flat(r) == Flat(t)
    requires Hosts(l, site.lo, b, key, w, size) || Hosts(r, b, site.hi, key, w, size)
    ensures Parted(s, s', t, l, b, r, site, key, w, size)
  {
    hide Good, Pids, First, Carries, Flat, Hosts, Pid;
  }

  lemma PartedPages(s: PageMap, s': PageMap, n: Node, kids: seq<Tree>, i: nat, l: Tree, b: Key, r: Tree, site: Site,
                    key: Key, w: PageID, size: nat, nl: Node, nr: Node, s'': PageMap, all: seq<Tree>)
    requires ChildParted(s, s', n, kids, i, l, b, r, site, key, w, size)
    requires nl.pid == n.pid && nr.pid !in s' && s'' == s'[nl.pid := InternalPg(nl)][nr.pid := InternalPg(nr)]
    requires n.pid in s'
    requires PidsAll(all) <= PidsAll(kids) + (s'.Keys - s.Keys)
    requires Frame(s, s', Pids(Nd(n, kids)))
    ensures s.Keys <= s''.Keys && {n.pid, nr.pid} + PidsAll(all) <= Pids(Nd(n, kids)) + (s''.Keys - s.Keys)
    ensures Frame(s, s'', Pids(Nd(n, kids)))
  {
    hide OwnAll, LinkedAll, PidsAll, FlatAll, Forest, Fence, FirstOr, Shape, Own, Linked, First, Carries, Flat,
      Hosts, HostsAll;
    NewPages(s, s', Nd(n, kids));
    assert n.pid in Pids(Nd(n, kids));
  }
}
