// What a deletion makes of a tree, page by page: which neighbour lends, what moves,
// and which pages become one. Only trees are mentioned, no store.
module DeleteShape {
  import opened Bytes
  import opened Tuples
  import opened LeafLayout
  import LeafTransfers
  import opened InternalPages
  import opened Trees
  import opened TreeDelete
  import opened DeleteOps

  // The space a leaf uses once the key is gone.
  function Remaining(p: Leaf, key: Key): int {
    p.Used() - SizeWith(p.Live(), key)
  }

  function Needed(p: Leaf, key: Key): nat {
    if Remaining(p, key) > 1626 then 0 else 1627 - Remaining(p, key)
  }

  // The neighbour of child i on the left (right) grants what the child asks for.
  ghost predicate LeftLends(kids: seq<Tree>, i: nat, key: Key)
    requires i < |kids|
  {
    i > 0 && (match kids[i - 1]
              case Lf(p) => kids[i].Lf? && LeafTransfers.CanLendLast(p, Needed(kids[i].leaf, key))
              case Nd(n, _) => |n.keys| > 127)
  }

  ghost predicate RightLends(kids: seq<Tree>, i: nat, key: Key)
    requires i < |kids|
  {
    i + 1 < |kids| && (match kids[i + 1]
                       case Lf(p) => kids[i].Lf? && LeafTransfers.CanLendFirst(p, Needed(kids[i].leaf, key))
                       case Nd(n, _) => |n.keys| > 127)
  }

  // The page at the root of the subtree is reported to its parent as underflown:
  // a leaf at or below the threshold, or an internal page that has lost a child to
  // a merge and is left with fewer than 127 keys.
  ghost predicate Underflows(t: Tree, key: Key)
    decreases t
  {
    match t
    case Lf(p) => Remaining(p, key) <= 1626
    case Nd(n, kids) =>
      var i := UpperIndex(n.keys, key);
      && i < |kids| && |kids| > 1 && |n.keys| <= 127
      && Underflows(kids[i], key) && !LeftLends(kids, i, key) && !RightLends(kids, i, key)
  }

  // Somewhere on the path an underflown page is its parent's only child.
  ghost predicate Orphaned(t: Tree, key: Key)
    decreases t
  {
    match t
    case Lf(_) => false
    case Nd(n, kids) =>
      var i := UpperIndex(n.keys, key);
      i < |kids| && (Orphaned(kids[i], key) || (|kids| == 1 && Underflows(kids[i], key)))
  }

  // ----- the pages that trade or merge -----

  // The left page l has lent to the right page r, across the separator s: a leaf the
  // least number of last tuples that yield the bytes asked for, an internal page one
  // child, which takes the separator along.
  ghost predicate LentRight(l: Tree, s: Key, r: Tree, l': Tree, b: Key, r': Tree, needed: nat) {
    match l
    case Lf(p) => r.Lf? && l'.Lf? && r'.Lf? && LentLast(p, r.leaf, l'.leaf, b, r'.leaf, needed)
    case Nd(p, kl) =>
      && r.Nd? && 0 < |p.keys| && |kl| == |p.children| == |p.keys| + 1
      && var m := |p.keys| - 1;
      && l' == Nd(Node(p.pid, p.keys[..m], p.children[..m + 1]), kl[..m + 1]) && b == p.keys[m]
      && r' == Nd(Node(r.node.pid, [s] + r.node.keys, [p.children[m + 1]] + r.node.children), [kl[m + 1]] + r.kids)
  }

  // The same from right to left.
  ghost predicate LentLeft(l: Tree, s: Key, r: Tree, l': Tree, b: Key, r': Tree, needed: nat) {
    match r
    case Lf(q) => l.Lf? && l'.Lf? && r'.Lf? && LentFirst(l.leaf, q, l'.leaf, b, r'.leaf, needed)
    case Nd(q, kr) =>
      && l.Nd? && 0 < |q.keys| && |kr| == |q.children| == |q.keys| + 1
      && r' == Nd(Node(q.pid, q.keys[1..], q.children[1..]), kr[1..]) && b == q.keys[0]
      && l' == Nd(Node(l.node.pid, l.node.keys + [s], l.node.children + [q.children[0]]), l.kids + [kr[0]])
  }

  // The left page has taken over the right one.
  ghost predicate Joined(l: Tree, s: Key, r: Tree, w: Tree) {
    match l
    case Lf(p) => r.Lf? && w.Lf? && w.leaf.Live() == p.Live() + r.leaf.Live() && w.leaf.pid == p.pid
    case Nd(p, kl) =>
      r.Nd? && w == Nd(Node(p.pid, p.keys + [s] + r.node.keys, p.children + r.node.children), kl + r.kids)
  }

  // What an underflown child asks its neighbours for.
  function Asked(t: Tree, key: Key): nat {
    if t.Lf? then Needed(t.leaf, key) else 0
  }

  // The neighbours j and j + 1 of a page have traded; the separator between them is new.
  ghost predicate PairTraded(n: Node, kids: seq<Tree>, j: nat, t': Tree) {
    && j + 1 < |kids| == |n.keys| + 1 && t'.Nd? && |t'.kids| == |kids| && |t'.node.keys| == |n.keys|
    && t' == Nd(n.(keys := n.keys[j := t'.node.keys[j]]), kids[..j] + [t'.kids[j], t'.kids[j + 1]] + kids[j + 2..])
  }

  // They have become one.
  ghost predicate PairGone(n: Node, kids: seq<Tree>, j: nat, t': Tree) {
    && j + 1 < |kids| == |n.keys| + 1 == |n.children| && t'.Nd? && |t'.kids| == |kids| - 1
    && t' == Nd(Node(n.pid, RemoveAt(n.keys, j), RemoveAt(n.children, j + 1)),
                kids[..j] + [t'.kids[j]] + kids[j + 2..])
  }

  // Child i of a page has become c, and the page t'. An underflown child borrows from
  // the left neighbour if that one lends, else from the right one if that one does;
  // else it merges with the left one, or with the right one if there is no left one.
  ghost predicate Mended(n: Node, kids: seq<Tree>, i: nat, c: Tree, key: Key, t': Tree) {
    && i < |kids|
    && if |kids| == 1 || !Underflows(kids[i], key) then
         t' == Nd(n, kids[..i] + [c] + kids[i + 1..])
       else if LeftLends(kids, i, key) then
         && i > 0 && PairTraded(n, kids, i - 1, t')
         && LentRight(kids[i - 1], n.keys[i - 1], c, t'.kids[i - 1], t'.node.keys[i - 1], t'.kids[i],
                      Asked(kids[i], key))
       else if RightLends(kids, i, key) then
         && PairTraded(n, kids, i, t')
         && LentLeft(c, n.keys[i], kids[i + 1], t'.kids[i], t'.node.keys[i], t'.kids[i + 1], Asked(kids[i], key))
       else
         var j := if i > 0 then i - 1 else 0;
         && PairGone(n, kids, j, t')
         && Joined(Left(kids, i, c, j), n.keys[j], Right(kids, i, c, j), t'.kids[j])
  }

  // A deletion has made t' of the subtree t.
  ghost predicate Shrinks(t: Tree, t': Tree, key: Key)
    decreases t
  {
    match t
    case Lf(p) => t'.Lf? && t'.leaf.Live() == Without(p.Live(), key) && t'.leaf.Used() == Remaining(p, key)
    case Nd(n, kids) =>
      var i := UpperIndex(n.keys, key);
      i < |kids| && exists c :: Shrinks(kids[i], c, key) && Mended(n, kids, i, c, key, t')
  }

  // The root was left with a single leaf, which has become the tree: its two leaves
  // are one, since the one with the key underflows and the other does not lend.
  ghost predicate Melts(t: Tree, w: Tree, key: Key) {
    && t.Nd? && |t.kids| == 2 && |t.node.keys| == 1
    && var i := UpperIndex(t.node.keys, key);
    && Underflows(t.kids[i], key) && !LeftLends(t.kids, i, key) && !RightLends(t.kids, i, key)
    && exists c ::
         Shrinks(t.kids[i], c, key) && Joined(Left(t.kids, i, c, 0), t.node.keys[0], Right(t.kids, i, c, 0), w)
  }

  // When that happens.
  ghost predicate Melting(t: Tree, key: Key) {
    && t.Nd? && |t.kids| == 2
    && var i := UpperIndex(t.node.keys, key);
    && i < 2 && t.kids[i].Lf? && Underflows(t.kids[i], key)
    && !LeftLends(t.kids, i, key) && !RightLends(t.kids, i, key)
  }

  // A page above two leaves that does not give way to them has no separator left.
  lemma ShrunkBare(t: Tree, t': Tree, key: Key)
    requires Shrinks(t, t', key) && Melting(t, key)
    ensures t'.Nd? && t'.node.keys == []
  {
    hide LeftLends, RightLends, Underflows, Joined;
    var i := UpperIndex(t.node.keys, key);
    var c :| Shrinks(t.kids[i], c, key) && Mended(t.node, t.kids, i, c, key, t');
    hide Shrinks;
    var j := if i > 0 then i - 1 else 0;
    assert PairGone(t.node, t.kids, j, t');
  }

  lemma ShrinksBy(n: Node, kids: seq<Tree>, i: nat, c: Tree, key: Key, t': Tree)
    requires i == UpperIndex(n.keys, key) < |kids| && Shrinks(kids[i], c, key) && Mended(n, kids, i, c, key, t')
    ensures Shrinks(Nd(n, kids), t', key)
  {
    hide Mended;
  }

  // ----- how a page is mended -----

  lemma LeftAlone(n: Node, kids: seq<Tree>, i: nat, c: Tree, key: Key)
    requires i < |kids| && (|kids| == 1 || !Underflows(kids[i], key))
    ensures Mended(n, kids, i, c, key, Nd(n, kids[..i] + [c] + kids[i + 1..]))
  {
  }

  lemma TradedPair(n: Node, kids: seq<Tree>, j: nat, l: Tree, b: Key, r: Tree)
    requires j + 1 < |kids| == |n.keys| + 1
    ensures var t' := Nd(n.(keys := n.keys[j := b]), kids[..j] + [l, r] + kids[j + 2..]);
            PairTraded(n, kids, j, t') && t'.kids[j] == l && t'.kids[j + 1] == r && t'.node.keys[j] == b
  {
  }

  lemma MendedLeft(n: Node, kids: seq<Tree>, i: nat, c: Tree, key: Key, l: Tree, b: Key, r: Tree)
    requires 0 < i < |kids| == |n.keys| + 1 && Underflows(kids[i], key) && LeftLends(kids, i, key)
    requires LentRight(kids[i - 1], n.keys[i - 1], c, l, b, r, Asked(kids[i], key))
    ensures Mended(n, kids, i, c, key, Nd(n.(keys := n.keys[i - 1 := b]), kids[..i - 1] + [l, r] + kids[i + 1..]))
  {
    hide Underflows, LeftLends, RightLends, LentRight, LentLeft, Asked, PairTraded;
    TradedPair(n, kids, i - 1, l, b, r);
  }

  lemma MendedRight(n: Node, kids: seq<Tree>, i: nat, c: Tree, key: Key, l: Tree, b: Key, r: Tree)
    requires i + 1 < |kids| == |n.keys| + 1 && Underflows(kids[i], key)
    requires !LeftLends(kids, i, key) && RightLends(kids, i, key)
    requires LentLeft(c, n.keys[i], kids[i + 1], l, b, r, Asked(kids[i], key))
    ensures Mended(n, kids, i, c, key, Nd(n.(keys := n.keys[i := b]), kids[..i] + [l, r] + kids[i + 2..]))
  {
    hide Underflows, LeftLends, RightLends, LentRight, LentLeft, Asked, PairTraded;
    TradedPair(n, kids, i, l, b, r);
  }

  lemma MendedJoin(n: Node, kids: seq<Tree>, i: nat, c: Tree, key: Key, j: nat, w: Tree)
    requires i < |kids| == |n.keys| + 1 == |n.children| && |kids| > 1 && j == (if i > 0 then i - 1 else 0)
    requires Underflows(kids[i], key) && !LeftLends(kids, i, key) && !RightLends(kids, i, key)
    requires Joined(Left(kids, i, c, j), n.keys[j], Right(kids, i, c, j), w)
    ensures Mended(n, kids, i, c, key,
                   Nd(Node(n.pid, RemoveAt(n.keys, j), RemoveAt(n.children, j + 1)), kids[..j] + [w] + kids[j + 2..]))
  {
    hide Underflows, LeftLends, RightLends, LentRight, LentLeft, Asked, Joined, RemoveAt;
    assert (kids[..j] + [w] + kids[j + 2..])[j] == w;
  }
}
