// Every run of requests against the tree: the contents and the answers are those
// of a plain map (database/src/impl/server/server.cpp).
module Runs {
  import opened Bytes
  import opened Tuples
  import opened PoolState
  import opened BufferPools
  import opened Trees
  import opened TreeEdits
  import opened InsertSpec
  import opened DeleteShape
  import opened DeleteSpec
  import opened Contents
  import opened StoreEntry
  import opened Heights
  import opened Streams
  import opened BTrees

  type Table = map<Key, seq<Byte>>

  datatype Request = Find(key: Key) | Put(key: Key, buffer: seq<Byte>) | Drop(key: Key)
  datatype Reply = Payload(bytes: seq<Byte>) | Absent | Stored | Dropped(success: bool)

  function Apply(m: Table, r: Request): Table {
    match r
    case Find(_) => m
    case Put(key, buffer) => m[key := buffer]
    case Drop(key) => m - {key}
  }

  function After(m: Table, run: seq<Request>): Table {
    if run == [] then m else Apply(After(m, run[..|run| - 1]), run[|run| - 1])
  }

  // What the tree's callers promise: a payload starts with its key, its size fits the
  // tuple header, and the key is new.
  ghost predicate Allowed(m: Table, r: Request) {
    r.Put? ==>
      && r.key !in m && 8 <= |r.buffer| && Decode(r.buffer[..8]) == r.key
      && SLOT_SIZE + TUPLE_HEADER_SIZE + |r.buffer| < SIZE_LIMIT
  }

  // The pages a request may take from the file.
  function Room(r: Request): nat {
    if r.Put? then MAX_HEIGHT + 1 + Spills(|r.buffer|) else 0
  }

  function RoomFor(run: seq<Request>): nat {
    if run == [] then 0 else Room(run[0]) + RoomFor(run[1..])
  }

  // The tree is well formed and its keys are those of the map.
  ghost predicate Holds(t: Tree, m: Table) {
    && (exists h :: Good(t, Top(h)) && Branched(t, h))
    && forall k: Key :: HasKey(Flat(t), k) <==> k in m
  }

  // What a request is answered when it finds the map m, held by the tree t. A search
  // answers with the whole payload or not at all; a deletion says whether the key
  // was there, unless the shape of the tree makes it report failure.
  ghost predicate Answers(m: Table, t: Tree, r: Request, reply: Reply) {
    match r
    case Find(key) => reply == if key in m then Payload(m[key]) else Absent
    case Put(_, _) => reply == Stored
    case Drop(key) => reply.Dropped? && (reply.success <==> key in m && !Orphaned(t, key))
  }

  // What a request does to the tree. After an insertion the root has a single child
  // only if it had one, after a deletion only if it had at most two.
  ghost predicate Step(t: Tree, r: Request, t': Tree) {
    match r
    case Find(_) => t' == t
    case Put(key, buffer) =>
      && (exists x :: TKey(x) == key && Flat(t') == InsertSorted(Flat(t), x)) && (Lone(t') ==> Lone(t))
      && exists g, x :: Grows(t, g, key, |buffer|) && Entered(g, t', key, x, |buffer|)
    case Drop(key) =>
      && Flat(t') == Without(Flat(t), key) && (Lone(t') ==> NearLone(t))
      && if Melting(t, key) then Melts(t, t', key) else Shrinks(t, t', key)
  }

  lemma TreeHolds(tree: BTree)
    requires tree.Valid()
    ensures Holds(tree.tree, tree.Contents)
  {
    hide BufferPool.Valid, Good, Carries, Represents, Flat, HasKey, Least, Branched;
    StandsAt(tree.pool.View, tree.rootPid, tree.tree, tree.height);
    forall k: Key ensures HasKey(Flat(tree.tree), k) <==> k in tree.Contents {
      RepresentsHas(tree.pool.View, Flat(tree.tree), tree.Contents, k);
    }
  }

  method Handle(tree: BTree, r: Request) returns (reply: Reply)
    requires tree.Valid() && tree.pool.Pins == multiset{} && Allowed(tree.Contents, r)
    requires tree.pool.nextPid + Room(r) <= MAX_PAGES && tree.pool.MaxPins >= MAX_HEIGHT + 2
    modifies tree, tree.pool, tree.pool.metas, tree.pool.frames
    ensures tree.Valid() && tree.pool.Pins == multiset{} && tree.pool.nextPid <= old(tree.pool.nextPid) + Room(r)
    ensures tree.Contents == Apply(old(tree.Contents), r)
    ensures Answers(old(tree.Contents), old(tree.tree), r, reply) && Step(old(tree.tree), r, tree.tree)
  {
    hide BufferPool.Valid, BTree.Valid, Decode, Spills, Here, Orphaned, Flat, InsertSorted, Without, TKey, Lone,
      NearLone, Melting, Melts, Shrinks, Grows, Entered;
    match r
    case Find(key) =>
      reply := HandleFind(tree, key);
    case Put(key, buffer) =>
      var ok, x, grown := tree.Insert(buffer, key);
      reply := Stored;
    case Drop(key) =>
      var success := DropKey(tree, key);
      reply := Dropped(success);
  }

  method DropKey(tree: BTree, key: Key) returns (success: bool)
    requires tree.Valid() && tree.pool.Pins == multiset{} && tree.pool.MaxPins >= MAX_HEIGHT + 2
    modifies tree, tree.pool, tree.pool.metas, tree.pool.frames
    ensures tree.Valid() && tree.pool.Pins == multiset{} && tree.pool.nextPid == old(tree.pool.nextPid)
    ensures tree.Contents == old(tree.Contents) - {key}
    ensures success <==> key in old(tree.Contents) && !Orphaned(old(tree.tree), key)
    ensures Step(old(tree.tree), Drop(key), tree.tree)
  {
    hide BufferPool.Valid, BTree.Valid, Orphaned, Flat, Without, Lone, NearLone, Melting, Melts, Shrinks;
    success := tree.Delete(key);
  }

  // The payload is streamed to the client, preceded by its length; the tree is untouched.
  method HandleFind(tree: BTree, key: Key) returns (reply: Reply)
    requires tree.Valid() && tree.pool.Pins == multiset{} && tree.pool.MaxPins >= MAX_HEIGHT + 2
    modifies tree.pool, tree.pool.metas, tree.pool.frames
    ensures tree.Valid() && tree.pool.Pins == multiset{} && tree.pool.nextPid == old(tree.pool.nextPid)
    ensures reply == if key in tree.Contents then Payload(tree.Contents[key]) else Absent
  {
    hide BufferPool.Valid, Stands, Represents, Here, Flat, Least, Good;
    var stream := tree.Search(key);
    if stream.IsEOF() {
      return Absent;
    }
    var total, pieces := SendPayload(stream);
    reply := Payload(Whole(pieces));
  }

  ghost predicate Legal(m: Table, run: seq<Request>) {
    forall i | 0 <= i < |run| :: Allowed(After(m, run[..i]), run[i])
  }

  // Each reply is the one due to the contents its request found, and to the tree
  // that held them.
  ghost predicate Answered(m: Table, run: seq<Request>, trees: seq<Tree>, replies: seq<Reply>) {
    && |replies| < |trees| && |replies| <= |run|
    && forall i | 0 <= i < |replies| ::
         Holds(trees[i], After(m, run[..i])) && Answers(After(m, run[..i]), trees[i], run[i], replies[i])
  }

  // Each request takes one tree to the next.
  ghost predicate Linked(run: seq<Request>, trees: seq<Tree>) {
    && 0 < |trees| <= |run| + 1
    && forall i | 0 <= i < |trees| - 1 :: Step(trees[i], run[i], trees[i + 1])
  }

  // Handles the requests in turn; the tree goes through the given ones.
  method Serve(tree: BTree, run: seq<Request>) returns (replies: seq<Reply>, ghost trees: seq<Tree>)
    requires tree.Valid() && tree.pool.Pins == multiset{} && Legal(tree.Contents, run)
    requires tree.pool.nextPid + RoomFor(run) <= MAX_PAGES && tree.pool.MaxPins >= MAX_HEIGHT + 2
    modifies tree, tree.pool, tree.pool.metas, tree.pool.frames
    ensures tree.Valid() && tree.pool.Pins == multiset{} && tree.Contents == After(old(tree.Contents), run)
    ensures |replies| == |run| && Answered(old(tree.Contents), run, trees, replies)
    ensures |trees| == |run| + 1 && trees[0] == old(tree.tree) && trees[|run|] == tree.tree && Linked(run, trees)
  {
    hide BTree.Valid, BufferPool.Valid, Allowed, Room, Apply, Answers, Answered, Holds, After, RoomFor, Step, Linked;
    ghost var m := tree.Contents;
    replies, trees := [], [tree.tree];
    var i := 0;
    RunStarts(m, run, tree.tree);
    while i < |run|
      invariant 0 <= i <= |run| && |replies| == i && |trees| == i + 1
      invariant tree.Valid() && tree.pool.Pins == multiset{} && tree.Contents == After(m, run[..i])
      invariant tree.pool.nextPid + RoomFor(run[i..]) <= MAX_PAGES
      invariant Answered(m, run, trees, replies)
      invariant Linked(run, trees) && trees[0] == old(tree.tree) && trees[i] == tree.tree
    {
      RunStep(m, run, i);
      TreeHolds(tree);
      var reply := Handle(tree, run[i]);
      NextAnswered(m, run, trees, replies, reply, tree.tree);
      replies, trees := replies + [reply], trees + [tree.tree];
      i := i + 1;
    }
    assert run[..i] == run;
  }

  lemma RunStarts(m: Table, run: seq<Request>, t: Tree)
    ensures After(m, run[..0]) == m && RoomFor(run[0..]) == RoomFor(run)
    ensures Answered(m, run, [t], []) && Linked(run, [t])
  {
    assert run[..0] == [] && run[0..] == run;
  }

  lemma RunStep(m: Table, run: seq<Request>, i: nat)
    requires i < |run|
    ensures After(m, run[..i + 1]) == Apply(After(m, run[..i]), run[i])
    ensures RoomFor(run[i..]) == Room(run[i]) + RoomFor(run[i + 1..])
  {
    hide Apply, Room;
    assert run[i..][1..] == run[i + 1..] && run[..i + 1][..i] == run[..i];
  }

  lemma NextAnswered(m: Table, run: seq<Request>, trees: seq<Tree>, replies: seq<Reply>, reply: Reply, t: Tree)
    requires Answered(m, run, trees, replies) && Linked(run, trees) && |replies| < |run| && |trees| == |replies| + 1
    requires Holds(trees[|replies|], After(m, run[..|replies|]))
    requires Answers(After(m, run[..|replies|]), trees[|replies|], run[|replies|], reply)
    requires Step(trees[|replies|], run[|replies|], t)
    ensures Answered(m, run, trees + [t], replies + [reply]) && Linked(run, trees + [t])
  {
    hide Answers, After, Holds, Step;
  }

  // Over a run, a deletion replies as a map would unless it meets a root with a
  // single child.
  lemma RepliesExact(m: Table, run: seq<Request>, trees: seq<Tree>, replies: seq<Reply>, i: nat)
    requires Answered(m, run, trees, replies) && i < |replies| && run[i].Drop? && !Lone(trees[i])
    ensures replies[i] == Dropped(run[i].key in After(m, run[..i]))
  {
    hide After, HasKey, Flat, Lone, Orphaned, Good, Branched;
    var h :| Good(trees[i], Top(h)) && Branched(trees[i], h);
    if Orphaned(trees[i], run[i].key) {
      OrphansUnderLoneRoot(trees[i], run[i].key, Top(h));
    }
  }

  // Such a root comes from an earlier deletion that found it with two children.
  lemma {:induction false} LoneRootArises(run: seq<Request>, trees: seq<Tree>, i: nat) returns (j: nat)
    requires Linked(run, trees) && i < |trees| && Lone(trees[i]) && !Lone(trees[0])
    ensures j < i && run[j].Drop? && NearLone(trees[j]) && !Lone(trees[j])
  {
    hide Lone, NearLone;
    j := i - 1;
    assert Step(trees[j], run[j], trees[j + 1]);
    if Lone(trees[j]) {
      j := LoneRootArises(run, trees, j);
    }
  }
}
