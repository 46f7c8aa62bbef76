// A deletion that succeeds and reports failure: an internal merge under the root
// leaves single-child pages behind, and an underflow below one has no neighbour.
module Orphans {
  import opened Bytes
  import opened Tuples
  import opened LeafLayout
  import opened LeafEdits
  import opened LeafPages
  import opened InternalPages
  import opened Pages
  import opened BufferPools
  import opened Trees
  import opened TreeEdits
  import opened TreeStore
  import opened TreeInsert
  import opened Contents
  import opened StoreEntry
  import opened Streams
  import opened Heights
  import opened DeleteShape
  import opened DeleteSpec
  import opened BTrees

  const ROOT: PageID := 2
  const INNER: PageID := 3
  const LEAF: PageID := 4

  // A page without a separator over one subtree is well formed.
  lemma SpineGood(n: Node, t: Tree, h: nat)
    requires Good(t, Top(h)) && h >= 1 && n.keys == [] && n.children == [Pid(t)] && n.pid !in Pids(t)
    ensures Good(Nd(n, [t]), Top(h + 1)) && Flat(Nd(n, [t])) == Flat(t)
    ensures Pids(Nd(n, [t])) == {n.pid} + Pids(t)
  {
    hide Shape, Own, Linked, Flat, Pids, First, Pid, FlatAll;
    assert Fence(n.keys, 0, KEY_LIMIT) == [0, KEY_LIMIT];
    GoodOne(t, Top(h));
    GoodParts([t], [0, KEY_LIMIT], h, false, 0);
    Fold(n, [t], Top(h + 1));
    FlatOf(n, [t]);
  }

  lemma SpineOrphans(n: Node, t: Tree, key: Key)
    requires n.keys == [] && (Underflows(t, key) || Orphaned(t, key))
    ensures Orphaned(Nd(n, [t]), key)
  {
    hide Underflows;
    OrphanRule(n, [t], key);
  }

  // The pages of a file whose tree has come down to one entry under two pages
  // without separators.
  function LonelyPages(p: Leaf): PageMap {
    map[META_PID := MetaPage(DATABASE_MAGIC_NUMBER, ROOT),
        ROOT := InternalPg(Node(ROOT, [], [INNER])),
        INNER := InternalPg(Node(INNER, [], [LEAF])),
        LEAF := LeafPg(p)]
  }

  function LonelyTree(p: Leaf): Tree {
    Nd(Node(ROOT, [], [INNER]), [Nd(Node(INNER, [], [LEAF]), [Lf(p)])])
  }

  // A payload that is nothing but its key, as it is stored.
  function KeyOnly(key: Key): (s: seq<Byte>)
    ensures |s| == 8
  {
    Encode(key, 8)
  }

  lemma LoneTuple(key: Key)
    ensures var x := HeadTuple(KeyOnly(key), 8);
            |x| == MIN_TUPLE && TKey(x) == key && Stored(map[], x, KeyOnly(key))
  {
    hide Stored, TKey;
    var payload := KeyOnly(key);
    Pow256Values();
    DecodeEncode(key, 8);
    assert payload[..8] == payload;
    HeadFacts(payload, 8);
    StoredWhole(map[], payload);
  }

  // For every key there is a store with a tree of height 3 on which deletion finds
  // and removes the key and reports that it did not.
  lemma OrphanExists(key: Key) returns (p: Leaf)
    ensures var s, t, m := LonelyPages(p), LonelyTree(p), map[key := KeyOnly(key)];
            Stands(s, ROOT, t, 3) && Represents(s, Flat(t), m) && key in m && Orphaned(t, key)
  {
    var x := HeadTuple(KeyOnly(key), 8);
    LoneTuple(key);
    p := LoneLeaf(x);
    LonelyStands(p, x, key);
    var s := LonelyPages(p);
    LonelyHolds(s, p, x, key);
  }

  lemma LoneLeaf(x: Tuple) returns (p: Leaf)
    requires |x| == MIN_TUPLE
    ensures p.Valid() && p.Live() == [x] && p.pid == LEAF && p.left == 0 && p.right == 0 && p.Used() <= UNDERFLOW
  {
    hide LeafLayout.Leaf.Live, LeafLayout.Leaf.Valid, LeafLayout.Leaf.Used, TKey;
    assert Cost([x]) == MIN_TUPLE + SLOT_SIZE;
    p := PageHolding([x], LEAF, 0, 0);
    CompactUsed(p);
    CompactValid(p);
  }

  lemma CompactValid(p: Leaf)
    requires Compact(p)
    ensures p.Valid()
  {
    hide LeafLayout.Leaf.Valid;
  }

  lemma LonelyStands(p: Leaf, x: Tuple, key: Key)
    requires p.Valid() && p.Live() == [x] && p.pid == LEAF && p.left == 0 && p.right == 0 && p.Used() <= UNDERFLOW
    requires TKey(x) == key
    ensures Stands(LonelyPages(p), ROOT, LonelyTree(p), 3) && Orphaned(LonelyTree(p), key) && Flat(LonelyTree(p)) == [x]
  {
    hide LeafLayout.Leaf.Valid, LeafLayout.Leaf.Live, LeafLayout.Leaf.Used, TKey, Good, Flat;
    var s := LonelyPages(p);
    var inner := Nd(Node(INNER, [], [LEAF]), [Lf(p)]);
    LeafAlone(p, x, key);
    SpineGood(inner.node, Lf(p), 1);
    SpineGood(Node(ROOT, [], [INNER]), inner, 2);
    SpineOrphans(inner.node, Lf(p), key);
    SpineOrphans(Node(ROOT, [], [INNER]), inner, key);
    hide Orphaned;
    CarriesNode(s, inner.node, [Lf(p)]);
    CarriesNode(s, Node(ROOT, [], [INNER]), [inner]);
  }

  lemma LeafAlone(p: Leaf, x: Tuple, key: Key)
    requires p.Valid() && p.Live() == [x] && p.pid == LEAF && p.right == 0 && p.Used() <= UNDERFLOW && TKey(x) == key
    ensures Good(Lf(p), Top(1)) && Flat(Lf(p)) == [x] && Underflows(Lf(p), key)
  {
    hide LeafLayout.Leaf.Valid, LeafLayout.Leaf.Live, LeafLayout.Leaf.Used, TKey;
  }

  lemma LonelyHolds(s: PageMap, p: Leaf, x: Tuple, key: Key)
    requires Flat(LonelyTree(p)) == [x] && TKey(x) == key && Stored(map[], x, KeyOnly(key))
    ensures Represents(s, Flat(LonelyTree(p)), map[key := KeyOnly(key)])
  {
    hide Flat, TKey, Stored, LonelyTree;
    StoredFrame(map[], s, x, KeyOnly(key));
    assert HasKey([x], key) by { assert TKey([x][0]) == key; }
  }

  // A tree between calls needs three levels for this to happen.
  lemma OrphansNeedHeight(b: BTree, key: Key)
    requires b.Valid() && Orphaned(b.tree, key)
    ensures b.height >= 3
  {
    StandsAt(b.pool.View, b.rootPid, b.tree, b.height);
    hide BTree.Valid, Stands, Underflows, Good, Carries, UpperIndex;
    match b.tree
    case Lf(_) =>
    case Nd(n, kids) =>
      Unfold(n, kids, Top(b.height));
      if b.height == 2 {
        LeavesBelow(n, kids, key);
      }
  }

  // Directly above the leaves only a page with a single child can orphan one.
  lemma LeavesBelow(n: Node, kids: seq<Tree>, key: Key)
    requires Good(Nd(n, kids), Top(2)) && Orphaned(Nd(n, kids), key)
    ensures |kids| == 1
  {
    hide Underflows, Forest, Fence, Own, Linked, First, UpperIndex, Shape, Orphaned;
    OrphanRule(n, kids, key);
    var i := UpperIndex(n.keys, key);
    Unfold(n, kids, Top(2));
    ForestUnfold(kids, Fence(n.keys, 0, KEY_LIMIT), 1, |kids| > 1);
    LowestLevel(kids[i], Fence(n.keys, 0, KEY_LIMIT)[i], Fence(n.keys, 0, KEY_LIMIT)[i + 1], |kids| > 1, key);
  }

  lemma LowestLevel(t: Tree, lo: int, hi: int, full: bool, key: Key)
    requires Shape(t, lo, hi, 1, full)
    ensures t.Lf? && !Orphaned(t, key)
  {
  }

  // The leaf as the program writes it.
  method WriteLoneLeaf(key: Key) returns (p: Leaf)
    ensures p.Valid() && p.Live() == [HeadTuple(KeyOnly(key), 8)] && p.Used() <= UNDERFLOW
    ensures p.pid == LEAF && p.left == 0 && p.right == 0
  {
    hide LeafLayout.Leaf.Live, LeafLayout.Leaf.Valid, LeafLayout.Leaf.Used, LeafLayout.Leaf.Free, TKey, EncodeHeader,
      HasKey, Decode, InsertSorted, KeyOnly;
    var payload := KeyOnly(key);
    var empty := MakeEmpty(LEAF);
    EmptyWrites(empty, payload, key);
    var page := new LeafPage.Load(empty);
    var written, addr := page.WriteChunkLeaf(payload, key, None);
    p := page.Value();
    LoneWritten(empty, p, payload, written);
  }

  lemma EmptyWrites(empty: Leaf, payload: seq<Byte>, key: Key)
    requires Compact(empty) && empty.Live() == [] && payload == KeyOnly(key)
    ensures CanWrite(empty, payload, key) && |empty.data| == PAGE_SIZE && empty.Free() == USABLE && empty.Used() == 0
    ensures 8 <= |payload| && Decode(payload[..8]) == key && SLOT_SIZE + TUPLE_HEADER_SIZE + |payload| < SIZE_LIMIT
  {
    hide TKey;
    Pow256Values();
    DecodeEncode(key, 8);
    assert payload[..8] == payload;
    CompactUsed(empty);
  }

  lemma LoneWritten(empty: Leaf, p: Leaf, payload: seq<Byte>, written: nat)
    requires empty.Live() == [] && empty.Used() == 0 && |payload| == 8 && written == 8
    requires p.Live() == InsertSorted([], HeadTuple(payload, 8))
    requires p.Used() <= empty.Used() + written + TUPLE_HEADER_SIZE + SLOT_SIZE
    ensures p.Live() == [HeadTuple(payload, 8)] && p.Used() <= UNDERFLOW
  {
    hide LeafLayout.Leaf.Live, LeafLayout.Leaf.Used, TKey, HeadTuple;
  }

  // A file with such a tree, opened by the program.
  method OpenLonely(key: Key) returns (tree: BTree)
    ensures tree.Valid() && tree.Contents == map[key := KeyOnly(key)] && Orphaned(tree.tree, key) && tree.height == 3
    ensures tree.pool.Pins == multiset{} && tree.pool.MaxPins == MAX_HEIGHT + 2
    ensures fresh(tree) && fresh(tree.pool) && fresh(tree.pool.metas) && fresh(tree.pool.frames)
  {
    hide Stands, Represents, Orphaned, BufferPool.Valid, KeyOnly, Least, LonelyTree;
    var p := WriteLoneLeaf(key);
    LoneTuple(key);
    LonelyStands(p, HeadTuple(KeyOnly(key), 8), key);
    LonelyHolds(LonelyPages(p), p, HeadTuple(KeyOnly(key), 8), key);
    LeastThree();
    var pool := new BufferPool(LonelyPages(p), 256, MAX_HEIGHT + 2);
    tree := Open(pool, LonelyTree(p), 3, map[key := KeyOnly(key)]);
  }

  // The same through the program's own operations: the key is found, its deletion
  // reports failure, and the key is gone.
  method DeleteReportsFailure(key: Key) returns (tree: BTree, found: bool, success: bool)
    ensures found && !success && tree.Valid() && tree.Contents == map[]
  {
    hide BTree.Valid, Orphaned, BufferPool.Valid, KeyOnly, Here;
    tree := OpenLonely(key);
    var stream := tree.Search(key);
    found := !stream.IsEOF();
    success := tree.Delete(key);
  }

  lemma LeastThree()
    ensures Least(3) == 256
  {
    assert Pow128(1) == 128;
  }
}
