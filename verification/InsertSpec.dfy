// What an insertion makes of a tree, page by page: when a page splits, where, and
// which pages stay as they are. Only trees are mentioned, no store.
module InsertSpec {
  import opened Bytes
  import opened Tuples
  import opened LeafLayout
  import opened LeafEdits
  import opened LeafPages
  import opened LeafSplits
  import opened InternalPages
  import opened Trees

  // A leaf takes an entry if it has 128 bytes free, or room for the whole payload with
  // its slot and header.
  predicate HasRoom(free: int, size: nat) {
    free >= 128 || free >= 18 + size
  }

  lemma RoomRule(free: int, size: nat)
    ensures HasRoom(free, size) <==> MinEntry(size) <= free
  {
  }

  // The leaf for the key has room.
  ghost predicate Fits(t: Tree, key: Key, size: nat)
    decreases t
  {
    match t
    case Lf(p) => HasRoom(p.Free(), size)
    case Nd(n, kids) => var i := UpperIndex(n.keys, key); i < |kids| && Fits(kids[i], key, size)
  }

  // The root page of the subtree splits: a leaf without room, or a page of 254 keys
  // whose child splits.
  ghost predicate Divides(t: Tree, key: Key, size: nat)
    decreases t
  {
    match t
    case Lf(p) => !HasRoom(p.Free(), size)
    case Nd(n, kids) =>
      var i := UpperIndex(n.keys, key);
      i < |kids| && |n.keys| == 254 && Divides(kids[i], key, size)
  }

  // The pages that the splits take from the file.
  ghost function Taken(t: Tree, key: Key, size: nat): nat
    decreases t
  {
    match t
    case Lf(p) => if HasRoom(p.Free(), size) then 0 else 1
    case Nd(n, kids) =>
      var i := UpperIndex(n.keys, key);
      if i < |kids| then Taken(kids[i], key, size) + (if Divides(t, key, size) then 1 else 0) else 0
  }

  // Child i of a page has split at b.
  function Wider(n: Node, i: nat, b: Key, child: PageID): Node
    requires i <= |n.keys| && i < |n.children|
  {
    Node(n.pid, InsertAt(n.keys, i, b), InsertAt(n.children, i + 1, child))
  }

  // The subtree has become l, still one page at its root: nothing changes but the
  // pages that split and the one above the last of them.
  ghost predicate Remains(t: Tree, l: Tree, key: Key, size: nat)
    decreases t
  {
    match t
    case Lf(p) => HasRoom(p.Free(), size) && l == t
    case Nd(n, kids) =>
      var i := UpperIndex(n.keys, key);
      && i < |kids| && i < |n.children|
      && ((exists c :: Remains(kids[i], c, key, size) && l == Nd(n, kids[..i] + [c] + kids[i + 1..]))
          || (|n.keys| < 254
              && exists cl, b, cr ::
                && Cleft(kids[i], cl, b, cr, key, size)
                && l == Nd(Wider(n, i, b, Pid(cr)), kids[..i] + [cl, cr] + kids[i + 1..])))
  }

  // Its root page has split at b: a leaf where its live tuples exceed half a page, an
  // internal page around the middle of its 255 keys.
  ghost predicate Cleft(t: Tree, l: Tree, b: Key, r: Tree, key: Key, size: nat)
    decreases t
  {
    match t
    case Lf(p) =>
      && !HasRoom(p.Free(), size) && l.Lf? && r.Lf?
      && l.leaf.Live() + r.leaf.Live() == p.Live() && SplitsAt(p.Live(), |l.leaf.Live()|)
      && r.leaf.Live() != [] && b == TKey(r.leaf.Live()[0])
    case Nd(n, kids) =>
      var i := UpperIndex(n.keys, key);
      && i < |kids| && i < |n.children| && |n.keys| == 254 && l.Nd? && r.Nd?
      && exists cl, c, cr ::
           && Cleft(kids[i], cl, c, cr, key, size)
           && |l.node.keys| == 127 && |l.kids| == |l.node.children| == 128
           && l.node.keys + [b] + r.node.keys == InsertAt(n.keys, i, c)
           && l.node.children + r.node.children == InsertAt(n.children, i + 1, Pid(cr))
           && l.kids + r.kids == kids[..i] + [cl, cr] + kids[i + 1..]
  }

  lemma {:induction false} RemainsWhole(t: Tree, l: Tree, key: Key, size: nat)
    requires Remains(t, l, key, size)
    ensures !Divides(t, key, size)
    decreases t
  {
    match t
    case Lf(_) =>
    case Nd(n, kids) =>
      var i := UpperIndex(n.keys, key);
      if c :| Remains(kids[i], c, key, size) && l == Nd(n, kids[..i] + [c] + kids[i + 1..]) {
        RemainsWhole(kids[i], c, key, size);
      }
  }

  lemma {:induction false} CleftDivides(t: Tree, l: Tree, b: Key, r: Tree, key: Key, size: nat)
    requires Cleft(t, l, b, r, key, size)
    ensures Divides(t, key, size) && !Fits(t, key, size)
    decreases t
  {
    match t
    case Lf(_) =>
    case Nd(n, kids) =>
      var i := UpperIndex(n.keys, key);
      var cl, c, cr :| Cleft(kids[i], cl, c, cr, key, size);
      CleftDivides(kids[i], cl, c, cr, key, size);
  }

  // A subtree whose leaf has room stays as it is.
  lemma {:induction false} FitsUnchanged(t: Tree, l: Tree, key: Key, size: nat)
    requires Remains(t, l, key, size) && Fits(t, key, size)
    ensures l == t && Taken(t, key, size) == 0
    decreases t
  {
    RemainsWhole(t, l, key, size);
    match t
    case Lf(_) =>
    case Nd(n, kids) =>
      var i := UpperIndex(n.keys, key);
      var c := FitsBelow(n, kids, l, key, size);
      FitsUnchanged(kids[i], c, key, size);
      assert kids[..i] + [kids[i]] + kids[i + 1..] == kids;
  }

  lemma FitsBelow(n: Node, kids: seq<Tree>, l: Tree, key: Key, size: nat) returns (c: Tree)
    requires Remains(Nd(n, kids), l, key, size) && Fits(Nd(n, kids), key, size)
    ensures var i := UpperIndex(n.keys, key);
            i < |kids| && Remains(kids[i], c, key, size) && l == Nd(n, kids[..i] + [c] + kids[i + 1..])
  {
    var i := UpperIndex(n.keys, key);
    if cl, b, cr :| Cleft(kids[i], cl, b, cr, key, size) {
      CleftDivides(kids[i], cl, b, cr, key, size);
    }
    c :| Remains(kids[i], c, key, size) && l == Nd(n, kids[..i] + [c] + kids[i + 1..]);
  }

  // If it has none, a page is taken.
  lemma {:induction false} RoomlessTakes(t: Tree, l: Tree, key: Key, size: nat)
    requires Remains(t, l, key, size) && !Fits(t, key, size)
    ensures Taken(t, key, size) >= 1
    decreases t
  {
    match t
    case Lf(_) =>
    case Nd(n, kids) =>
      var i := UpperIndex(n.keys, key);
      if c :| Remains(kids[i], c, key, size) && l == Nd(n, kids[..i] + [c] + kids[i + 1..]) {
        RoomlessTakes(kids[i], c, key, size);
      } else {
        var cl, b, cr :| Cleft(kids[i], cl, b, cr, key, size);
        CleftTakes(kids[i], cl, b, cr, key, size);
      }
  }

  lemma {:induction false} CleftTakes(t: Tree, l: Tree, b: Key, r: Tree, key: Key, size: nat)
    requires Cleft(t, l, b, r, key, size)
    ensures Taken(t, key, size) >= 1
    decreases t
  {
    match t
    case Lf(_) =>
    case Nd(n, kids) =>
      var i := UpperIndex(n.keys, key);
      var cl, c, cr :| Cleft(kids[i], cl, c, cr, key, size);
      CleftTakes(kids[i], cl, c, cr, key, size);
  }

  // ----- from a child to its page -----

  lemma ChildRemains(n: Node, kids: seq<Tree>, c: Tree, key: Key, size: nat)
    requires var i := UpperIndex(n.keys, key);
             i < |kids| && i < |n.children| && Remains(kids[i], c, key, size)
    ensures var i := UpperIndex(n.keys, key);
            Remains(Nd(n, kids), Nd(n, kids[..i] + [c] + kids[i + 1..]), key, size)
  {
  }

  lemma ChildEntered(n: Node, kids: seq<Tree>, cl: Tree, b: Key, cr: Tree, key: Key, size: nat)
    requires var i := UpperIndex(n.keys, key);
             i < |kids| && i < |n.children| && |n.keys| < 254 && Cleft(kids[i], cl, b, cr, key, size)
    ensures var i := UpperIndex(n.keys, key);
            Remains(Nd(n, kids), Nd(Wider(n, i, b, Pid(cr)), kids[..i] + [cl, cr] + kids[i + 1..]), key, size)
  {
  }

  lemma PageCleft(n: Node, kids: seq<Tree>, cl: Tree, c: Key, cr: Tree, key: Key, size: nat, nl: Node, b: Key, nr: Node)
    requires var i := UpperIndex(n.keys, key);
             && i < |kids| && i < |n.children| && |n.keys| == 254 && Cleft(kids[i], cl, c, cr, key, size)
             && |nl.keys| == 127 && |nl.children| == 128 <= |kids| + 1
             && nl.keys + [b] + nr.keys == InsertAt(n.keys, i, c)
             && nl.children + nr.children == InsertAt(n.children, i + 1, Pid(cr))
    ensures var i := UpperIndex(n.keys, key);
            var all := kids[..i] + [cl, cr] + kids[i + 1..];
            Cleft(Nd(n, kids), Nd(nl, all[..128]), b, Nd(nr, all[128..]), key, size)
  {
    hide *;
    var i := UpperIndex(n.keys, key);
    var all := kids[..i] + [cl, cr] + kids[i + 1..];
    assert all[..128] + all[128..] == all;
    HalvesCleft(n, kids, cl, c, cr, key, size, Nd(nl, all[..128]), b, Nd(nr, all[128..]));
  }

  lemma HalvesCleft(n: Node, kids: seq<Tree>, cl: Tree, c: Key, cr: Tree, key: Key, size: nat, l: Tree, b: Key, r: Tree)
    requires var i := UpperIndex(n.keys, key);
             && i < |kids| && i < |n.children| && |n.keys| == 254 && Cleft(kids[i], cl, c, cr, key, size)
             && l.Nd? && r.Nd? && |l.node.keys| == 127 && |l.kids| == |l.node.children| == 128
             && l.node.keys + [b] + r.node.keys == InsertAt(n.keys, i, c)
             && l.node.children + r.node.children == InsertAt(n.children, i + 1, Pid(cr))
             && l.kids + r.kids == kids[..i] + [cl, cr] + kids[i + 1..]
    ensures Cleft(Nd(n, kids), l, b, r, key, size)
  {
    hide InsertAt;
  }

  // ----- the whole tree -----

  // The tree before the entry is written: it has grown by a level if its root split.
  ghost predicate Grows(t: Tree, t': Tree, key: Key, size: nat) {
    if Divides(t, key, size) then
      && t'.Nd? && |t'.kids| == 2 && |t'.node.keys| == 1
      && t'.node.children == [Pid(t'.kids[0]), Pid(t'.kids[1])]
      && Cleft(t, t'.kids[0], t'.node.keys[0], t'.kids[1], key, size)
    else
      Remains(t, t', key, size)
  }

  // The leaf p for the key has become q; every other page is as it was.
  ghost predicate Replaced(t: Tree, t': Tree, key: Key, p: Leaf, q: Leaf)
    decreases t
  {
    match t
    case Lf(_) => t == Lf(p) && t' == Lf(q)
    case Nd(n, kids) =>
      var i := UpperIndex(n.keys, key);
      && i < |kids| && t'.Nd? && |t'.kids| == |kids| && t' == Nd(n, kids[i := t'.kids[i]])
      && Replaced(kids[i], t'.kids[i], key, p, q)
  }

  // The tuple x has entered the leaf for its key: the longest first chunk of the
  // payload that fits, with a new slot unless a tombstone gave way.
  ghost predicate Entered(t: Tree, t': Tree, key: Key, x: Tuple, size: nat) {
    exists p, q ::
      Replaced(t, t', key, p, q) && q.Live() == InsertSorted(p.Live(), x) && TookChunk(p, q, key, x, size)
  }
}
