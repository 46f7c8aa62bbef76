// Writing a payload: the first chunk goes to the leaf, the rest to a chain of
// overflow pages (database/src/impl/b-tree/b-tree.cpp, second half of Insert).
module StoreEntry {
  import opened Bytes
  import opened Tuples
  import opened LeafLayout
  import opened LeafEdits
  import opened LeafPages
  import opened Pages
  import opened PoolState
  import opened BufferPools
  import opened PageOps

  // The overflow pages from p to last hold the bytes so far; all but the last are
  // full and linked.
  ghost predicate OpenChain(s: PageMap, p: PageID, bytes: seq<Byte>, last: PageID)
    decreases |bytes|
  {
    && bytes != [] && p in s && s[p].OverflowPg? && |s[p].over.data| == PAGE_SIZE
    && (if p == last then
          |bytes| <= OVERFLOW_CHUNK && !s[p].over.more
          && s[p].over.data[OVERFLOW_HEADER..OVERFLOW_HEADER + |bytes|] == bytes
        else
          |bytes| > OVERFLOW_CHUNK && s[p].over.more && s[p].over.data[OVERFLOW_HEADER..] == bytes[..OVERFLOW_CHUNK]
          && OpenChain(s, s[p].over.next, bytes[OVERFLOW_CHUNK..], last))
  }

  lemma {:induction false} ClosedChain(s: PageMap, p: PageID, bytes: seq<Byte>, last: PageID)
    requires OpenChain(s, p, bytes, last)
    ensures ChainAt(s, p, bytes)
    decreases |bytes|
  {
    if p != last {
      ClosedChain(s, s[p].over.next, bytes[OVERFLOW_CHUNK..], last);
    }
  }

  // A full last page is linked to a new one.
  lemma {:induction false} ExtendChain(s: PageMap, s': PageMap, p: PageID, bytes: seq<Byte>, last: PageID, q: PageID,
                                       chunk: seq<Byte>)
    requires OpenChain(s, p, bytes, last) && |bytes| % OVERFLOW_CHUNK == 0
    requires q !in s && last in s && s[last].OverflowPg?
    requires forall r | r in s && r != last :: r in s' && s'[r] == s[r]
    requires last in s' && s'[last] == OverflowPg(s[last].over.(more := true, next := q))
    requires OpenChain(s', q, chunk, q)
    ensures OpenChain(s', p, bytes + chunk, q)
    decreases |bytes|
  {
    if p == last {
      assert (bytes + chunk)[OVERFLOW_CHUNK..] == chunk;
      assert (bytes + chunk)[..OVERFLOW_CHUNK] == bytes;
    } else {
      ExtendChain(s, s', s[p].over.next, bytes[OVERFLOW_CHUNK..], last, q, chunk);
      assert (bytes + chunk)[OVERFLOW_CHUNK..] == bytes[OVERFLOW_CHUNK..] + chunk;
      assert (bytes + chunk)[..OVERFLOW_CHUNK] == bytes[..OVERFLOW_CHUNK];
    }
  }

  // The content of a new overflow page that takes the first part of the rest.
  method FillOverflow(pid: PageID, rest: seq<Byte>) returns (page: Overflow, written: nat)
    requires rest != []
    ensures 0 < written == (if |rest| <= OVERFLOW_CHUNK then |rest| else OVERFLOW_CHUNK)
    ensures page.pid == pid && !page.more && |page.data| == PAGE_SIZE
    ensures page.data[OVERFLOW_HEADER..OVERFLOW_HEADER + written] == rest[..written]
  {
    var p := new OverflowPage.Blank(pid);
    written := p.WriteChunkOverflow(rest);
    page := p.Value();
  }

  // One more overflow page after the pinned page cur, whose new content links to it.
  method Spill(pool: BufferPool, cur: PageID, rest: seq<Byte>) returns (q: PageID, written: nat, ghost page: Overflow)
    requires pool.Valid() && cur in pool.Pins && cur in pool.View && rest != []
    requires |pool.Pins| < pool.Budget() && pool.nextPid < MAX_PAGES && pool.Touched <= {cur}
    modifies pool, pool.metas, pool.frames
    ensures pool.Valid() && pool.nextPid == old(pool.nextPid) + 1
    ensures q !in old(pool.View) && q in pool.Pins && cur in pool.Pins
    ensures pool.Pins == old(pool.Pins) + multiset{q} && pool.Touched == old(pool.Touched) + {q}
    ensures 0 < written == (if |rest| <= OVERFLOW_CHUNK then |rest| else OVERFLOW_CHUNK)
    ensures pool.View == old(pool.View)[q := OverflowPg(page)]
    ensures OpenChain(pool.View, q, rest[..written], q)
  {
    hide BufferPool.Valid;
    q := pool.AllocateNewPage();
    var over;
    over, written := FillOverflow(q, rest);
    page := over;
    pool.Write(q, OverflowPg(over));
  }

  // The number of overflow pages a rest of the given size takes.
  function Spills(n: nat): nat {
    (n + OVERFLOW_CHUNK - 1) / OVERFLOW_CHUNK
  }

  // A full overflow page is linked to a new one, which stays pinned instead.
  method NextOverflow(pool: BufferPool, cur: PageID, rest: seq<Byte>, ghost head: PageID, ghost bytes: seq<Byte>)
    returns (q: PageID, written: nat)
    requires pool.Valid() && cur in pool.Pins && cur in pool.View && rest != [] && pool.Touched <= {cur}
    requires |pool.Pins| < pool.Budget() && pool.nextPid < MAX_PAGES
    requires OpenChain(pool.View, head, bytes, cur) && |bytes| % OVERFLOW_CHUNK == 0 && pool.View[cur].OverflowPg?
    modifies pool, pool.metas, pool.frames
    ensures pool.Valid() && pool.nextPid == old(pool.nextPid) + 1
    ensures q !in old(pool.View) && q in pool.View && pool.View[q].OverflowPg?
    ensures pool.Pins == old(pool.Pins) - multiset{cur} + multiset{q} && pool.Touched <= {q}
    ensures 0 < written == (if |rest| <= OVERFLOW_CHUNK then |rest| else OVERFLOW_CHUNK)
    ensures forall r | r in old(pool.View) && r != cur :: r in pool.View && pool.View[r] == old(pool.View)[r]
    ensures old(pool.View).Keys <= pool.View.Keys
    ensures OpenChain(pool.View, head, bytes + rest[..written], q)
  {
    hide BufferPool.Valid, OpenChain;
    ghost var s := pool.View;
    ghost var filled;
    q, written, filled := Spill(pool, cur, rest);
    var page := pool.Read(cur);
    WriteBack(pool, cur, OverflowPg(page.over.(more := true, next := q)));
    NewOpen(s[q := OverflowPg(filled)], pool.View, q, rest[..written]);
    ExtendChain(s, pool.View, head, bytes, cur, q, rest[..written]);
  }

  lemma NewOpen(s: PageMap, s': PageMap, q: PageID, chunk: seq<Byte>)
    requires OpenChain(s, q, chunk, q) && q in s' && s'[q] == s[q]
    ensures OpenChain(s', q, chunk, q)
  {
  }

  // The leaf that carries the tuple of a payload of which the given part is stored.
  function HeadTuple(buffer: seq<Byte>, written: nat): Tuple
    requires written <= |buffer|
  {
    EncodeHeader(TupleHeader(false, 0, |buffer|)) + buffer[..written]
  }

  ghost predicate LeafHolds(s: PageMap, w: PageID, p: Leaf, q: Leaf, x: Tuple) {
    && w in s && s[w] == LeafPg(q) && q.Valid() && q.Live() == InsertSorted(p.Live(), x)
    && q.pid == p.pid && q.left == p.left && q.right == p.right
  }

  ghost predicate CanWrite(p: Leaf, buffer: seq<Byte>, key: Key) {
    && p.Valid() && !HasKey(p.Live(), key) && MinEntry(|buffer|) <= p.Free()
    && 8 <= |buffer| && Decode(buffer[..8]) == key && SLOT_SIZE + TUPLE_HEADER_SIZE + |buffer| < SIZE_LIMIT
  }

  method ChunkIntoLeaf(p: Leaf, buffer: seq<Byte>, key: Key) returns (q: Leaf, written: nat, addr: nat)
    requires CanWrite(p, buffer, key)
    ensures 8 <= written <= |buffer|
    ensures q.Valid() && q.Live() == InsertSorted(p.Live(), HeadTuple(buffer, written))
    ensures q.pid == p.pid && q.left == p.left && q.right == p.right
    ensures StoredAt(q, addr, HeadTuple(buffer, written))
    ensures TookChunk(p, q, key, HeadTuple(buffer, written), |buffer|)
  {
    hide TKey, InsertSorted, LeafLayout.Leaf.Live, LeafLayout.Leaf.Free, StoredAt, Decode, HasKey, EncodeHeader,
      UsedGrows;
    ValidData(p);
    var page := new LeafPage.Load(p);
    written, addr := page.WriteChunkLeaf(buffer, key, None);
    q := page.Value();
  }

  lemma ValidData(p: Leaf)
    requires p.Valid()
    ensures |p.data| == PAGE_SIZE && Sorted(p.Live())
  {
    LiveSorted(p.slots, p.data);
  }

  method LinkInLeaf(q: Leaf, addr: nat, page: PageID, ghost p: Leaf, ghost t: Tuple) returns (r: Leaf)
    requires p.Valid() && q.Valid() && StoredAt(q, addr, t) && |t| >= MIN_TUPLE
    requires q.Live() == InsertSorted(p.Live(), t) && !HasKey(p.Live(), TKey(t))
    ensures r.Valid() && r.Live() == InsertSorted(p.Live(), Relink(t, page))
    ensures r.pid == q.pid && r.left == q.left && r.right == q.right && r.Used() == q.Used()
  {
    hide TKey, InsertSorted, LeafLayout.Leaf.Live, StoredAt, HasKey, Relink, LeafLayout.Leaf.Used;
    ValidData(p);
    ValidData(q);
    var leaf := new LeafPage.Load(q);
    leaf.SetOverflow(addr, page, t);
    r := leaf.Value();
    RelinkHeader(t, page);
    SwappedInsert(p.Live(), t, Relink(t, page), r.Live());
  }

  lemma HeadFacts(buffer: seq<Byte>, written: nat)
    requires 8 <= written <= |buffer| && SLOT_SIZE + TUPLE_HEADER_SIZE + |buffer| < SIZE_LIMIT
    ensures var t := HeadTuple(buffer, written);
            && |t| == written + TUPLE_HEADER_SIZE && t[TUPLE_HEADER_SIZE..] == buffer[..written]
            && DecodeHeader(t) == TupleHeader(false, 0, |buffer|) && TKey(t) == Decode(buffer[..8])
  {
    var h := EncodeHeader(TupleHeader(false, 0, |buffer|));
    HeaderRoundTrip(TupleHeader(false, 0, |buffer|), buffer[..written]);
    ChunkKey(h, buffer[..written]);
    assert buffer[..written][..8] == buffer[..8];
  }

  // A payload that fits into the leaf.
  lemma StoredWhole(s: PageMap, buffer: seq<Byte>)
    requires 8 <= |buffer| && SLOT_SIZE + TUPLE_HEADER_SIZE + |buffer| < SIZE_LIMIT
    ensures Stored(s, HeadTuple(buffer, |buffer|), buffer)
  {
    hide DecodeHeader, EncodeHeader, TKey, Decode;
    HeadFacts(buffer, |buffer|);
    assert buffer[..|buffer|] == buffer;
  }

  // A payload whose rest is in a chain.
  lemma StoredLinked(s: PageMap, buffer: seq<Byte>, written: nat, head: PageID, last: PageID)
    requires 8 <= written < |buffer| && SLOT_SIZE + TUPLE_HEADER_SIZE + |buffer| < SIZE_LIMIT
    requires OpenChain(s, head, buffer[written..], last)
    ensures |HeadTuple(buffer, written)| >= MIN_TUPLE
    ensures Stored(s, Relink(HeadTuple(buffer, written), head), buffer)
  {
    hide DecodeHeader, EncodeHeader, TKey, Decode, OpenChain;
    HeadFacts(buffer, written);
    var t := HeadTuple(buffer, written);
    RelinkHeader(t, head);
    ClosedChain(s, head, buffer[written..], last);
  }

  // Pages other than w keep their content; pages are only added.
  ghost predicate Others(s: PageMap, s': PageMap, w: PageID) {
    forall r | r in s && r != w :: r in s' && s'[r] == s[r]
  }

  lemma FirstStored(s: PageMap, s': PageMap, head: PageID, x: Page, w: PageID, y: Page)
    requires head !in s && w in s && s' == s[head := x][w := y]
    ensures Others(s, s', w) && head != w && head in s' && s'[head] == x && w in s' && s'[w] == y
  {
  }

  // The first overflow page: the leaf tuple is linked to it and the leaf given back.
  method FirstOverflow(pool: BufferPool, w: PageID, q: Leaf, addr: nat, buffer: seq<Byte>, written: nat, ghost p: Leaf,
                       ghost key: Key)
    returns (head: PageID, n: nat, ghost r: Leaf)
    requires pool.Valid() && w in pool.Pins && w in pool.View && pool.Touched <= {w}
    requires |pool.Pins| < pool.Budget() && pool.nextPid < MAX_PAGES
    requires CanWrite(p, buffer, key) && 8 <= written < |buffer|
    requires LeafHolds(pool.View, w, p, q, HeadTuple(buffer, written)) && StoredAt(q, addr, HeadTuple(buffer, written))
    modifies pool, pool.metas, pool.frames
    ensures pool.Valid() && pool.nextPid == old(pool.nextPid) + 1
    ensures head !in old(pool.View) && head in pool.View && pool.View[head].OverflowPg?
    ensures pool.Pins == old(pool.Pins) - multiset{w} + multiset{head} && pool.Touched <= {head}
    ensures |HeadTuple(buffer, written)| >= MIN_TUPLE && r.Used() == q.Used()
    ensures LeafHolds(pool.View, w, p, r, Relink(HeadTuple(buffer, written), head))
    ensures Others(old(pool.View), pool.View, w)
    ensures 0 < n == (if |buffer| - written <= OVERFLOW_CHUNK then |buffer| - written else OVERFLOW_CHUNK)
    ensures OpenChain(pool.View, head, buffer[written..written + n], head)
  {
    hide BufferPool.Valid, OpenChain, TKey, InsertSorted, LeafLayout.Leaf.Live, LeafLayout.Leaf.Free, StoredAt,
      Decode, HasKey,
      EncodeHeader, Relink, LeafLayout.Leaf.Valid, HeadTuple, Others, LeafLayout.Leaf.Used;
    ghost var s := pool.View;
    ghost var t := HeadTuple(buffer, written);
    HeadFacts(buffer, written);
    ghost var filled;
    head, n, filled := Spill(pool, w, buffer[written..]);
    var linked := LinkInLeaf(q, addr, head, p, t);
    r := linked;
    WriteBack(pool, w, LeafPg(linked));
    assert buffer[written..][..n] == buffer[written..written + n];
    FirstStored(s, pool.View, head, OverflowPg(filled), w, LeafPg(linked));
    NewOpen(s[head := OverflowPg(filled)], pool.View, head, buffer[written..written + n]);
  }

  // The chain from head holds the payload from start to done, and its last page
  // is pinned; s is the store before the loop.
  ghost predicate Writing(view: PageMap, pins: multiset<PageID>, touched: set<PageID>, s: PageMap, head: PageID,
                          last: PageID, buffer: seq<Byte>, start: nat, done: nat) {
    && start <= done <= |buffer| && (done < |buffer| ==> (done - start) % OVERFLOW_CHUNK == 0)
    && last in pins && last in view && view[last].OverflowPg? && touched <= {last}
    && OpenChain(view, head, buffer[start..done], last)
    && Others(s, view, head) && s.Keys <= view.Keys && (last == head || last !in s)
  }

  lemma WritingEnd(view: PageMap, pins: multiset<PageID>, touched: set<PageID>, s: PageMap, head: PageID, last: PageID,
                   buffer: seq<Byte>, start: nat, done: nat)
    requires Writing(view, pins, touched, s, head, last, buffer, start, done) && done >= |buffer|
    ensures last in pins && touched <= {last} && OpenChain(view, head, buffer[start..], last) && Others(s, view, head)
    ensures done == |buffer|
  {
    assert buffer[start..done] == buffer[start..];
  }

  // The rest of the payload, one full page after another.
  method OverflowLoop(pool: BufferPool, head: PageID, buffer: seq<Byte>, start: nat, n: nat) returns (last: PageID)
    requires pool.Valid() && |pool.Pins| < pool.Budget() && start + n <= |buffer|
    requires pool.nextPid + Spills(|buffer| - start - n) <= MAX_PAGES
    requires Writing(pool.View, pool.Pins, pool.Touched, pool.View, head, head, buffer, start, start + n)
    modifies pool, pool.metas, pool.frames
    ensures pool.Valid() && pool.nextPid == old(pool.nextPid) + Spills(|buffer| - start - n)
    ensures pool.Pins == old(pool.Pins) - multiset{head} && pool.Touched == {}
    ensures OpenChain(pool.View, head, buffer[start..], last)
    ensures Others(old(pool.View), pool.View, head)
  {
    hide BufferPool.Valid, OpenChain, Spills, Others, Writing;
    var done := start + n;
    last := head;
    ghost var before := pool.Pins;
    HeadPinned(pool.View, pool.Pins, pool.Touched, head, buffer, start, done);
    while done < |buffer|
      invariant pool.Valid() && done <= |buffer| && last in pool.Pins
      invariant Writing(pool.View, pool.Pins, pool.Touched, old(pool.View), head, last, buffer, start, done)
      invariant pool.Pins == before - multiset{head} + multiset{last}
      invariant pool.nextPid + Spills(|buffer| - done) == old(pool.nextPid) + Spills(|buffer| - start - n)
    {
      last, done := OverflowStep(pool, last, buffer, start, done, head, old(pool.View));
    }
    WritingEnd(pool.View, pool.Pins, pool.Touched, old(pool.View), head, last, buffer, start, done);
    NoSpills();
    Release(pool, last, true);
  }

  lemma HeadPinned(view: PageMap, pins: multiset<PageID>, touched: set<PageID>, head: PageID, buffer: seq<Byte>,
                   start: nat, done: nat)
    requires Writing(view, pins, touched, view, head, head, buffer, start, done)
    ensures head in pins && done <= |buffer|
  {
  }

  lemma Unchanged(s: PageMap, w: PageID)
    ensures Others(s, s, w)
  {
  }

  lemma NoSpills()
    ensures Spills(0) == 0
  {
  }

  lemma SpillsStep(n: nat, written: nat)
    requires 0 < n && written == (if n <= OVERFLOW_CHUNK then n else OVERFLOW_CHUNK)
    ensures Spills(n) == 1 + Spills(n - written)
  {
  }

  lemma OthersStep(s: PageMap, s1: PageMap, s2: PageMap, w: PageID, last: PageID)
    requires Others(s, s1, w) && (last == w || last !in s)
    requires forall r | r in s1 && r != last :: r in s2 && s2[r] == s1[r]
    ensures Others(s, s2, w)
  {
  }

  method OverflowStep(pool: BufferPool, last: PageID, buffer: seq<Byte>, ghost start: nat, done: nat,
                      ghost head: PageID, ghost s: PageMap)
    returns (q: PageID, done': nat)
    requires pool.Valid() && Writing(pool.View, pool.Pins, pool.Touched, s, head, last, buffer, start, done)
    requires |pool.Pins| < pool.Budget() && done < |buffer| && pool.nextPid + Spills(|buffer| - done) <= MAX_PAGES
    modifies pool, pool.metas, pool.frames
    ensures pool.Valid() && Writing(pool.View, pool.Pins, pool.Touched, s, head, q, buffer, start, done')
    ensures done < done' <= |buffer| && q in pool.Pins
    ensures pool.Pins == old(pool.Pins) - multiset{last} + multiset{q}
    ensures pool.nextPid + Spills(|buffer| - done') == old(pool.nextPid) + Spills(|buffer| - done)
  {
    hide BufferPool.Valid, OpenChain, Spills, Others;
    ghost var s1 := pool.View;
    var written;
    SpillsStep(|buffer| - done, if |buffer| - done <= OVERFLOW_CHUNK then |buffer| - done else OVERFLOW_CHUNK);
    q, written := NextOverflow(pool, last, buffer[done..], head, buffer[start..done]);
    assert buffer[start..done] + buffer[done..][..written] == buffer[start..done + written];
    OthersStep(s, s1, pool.View, head, last);
    done' := done + written;
  }

  // Stores a payload in the pinned leaf w, which has room for its first chunk.
  method StorePayload(pool: BufferPool, w: PageID, buffer: seq<Byte>, key: Key) returns (ghost q: Leaf, ghost x: Tuple)
    requires pool.Valid() && w in pool.Pins && w in pool.View && pool.View[w].LeafPg? && pool.Touched <= {w}
    requires |pool.Pins| < pool.Budget() && pool.nextPid + Spills(|buffer|) <= MAX_PAGES
    requires CanWrite(pool.View[w].leaf, buffer, key)
    modifies pool, pool.metas, pool.frames
    ensures pool.Valid() && pool.Pins == old(pool.Pins) - multiset{w} && pool.Touched == {}
    ensures LeafHolds(pool.View, w, old(pool.View)[w].leaf, q, x) && TKey(x) == key && Stored(pool.View, x, buffer)
    ensures Others(old(pool.View), pool.View, w)
    ensures TookChunk(old(pool.View)[w].leaf, q, key, x, |buffer|)
    ensures TUPLE_HEADER_SIZE <= |x| <= |buffer| + TUPLE_HEADER_SIZE
    ensures pool.nextPid == old(pool.nextPid) + Spills(|buffer| + TUPLE_HEADER_SIZE - |x|)
    ensures pool.nextPid <= old(pool.nextPid) + Spills(|buffer|)
  {
    hide BufferPool.Valid, OpenChain, TKey, InsertSorted, LeafLayout.Leaf.Live, LeafLayout.Leaf.Free, StoredAt,
      Decode, HasKey,
      EncodeHeader, Relink, LeafLayout.Leaf.Valid, HeadTuple, Stored, DecodeHeader, TookChunk, Spills;
    NoSpills();
    var page := pool.Read(w);
    var leaf, written, addr := ChunkIntoLeaf(page.leaf, buffer, key);
    pool.Write(w, LeafPg(leaf));
    HeadFacts(buffer, written);
    if written == |buffer| {
      q, x := leaf, HeadTuple(buffer, written);
      StoredWhole(pool.View, buffer);
      Release(pool, w, true);
    } else {
      q, x := StoreRest(pool, w, leaf, addr, buffer, written, page.leaf, key);
      TookSame(page.leaf, leaf, q, key, HeadTuple(buffer, written), x, |buffer|);
    }
  }

  method StoreRest(pool: BufferPool, w: PageID, leaf: Leaf, addr: nat, buffer: seq<Byte>, written: nat, ghost p: Leaf,
                   ghost key: Key)
    returns (ghost q: Leaf, ghost x: Tuple)
    requires pool.Valid() && w in pool.Pins && w in pool.View && pool.Touched <= {w}
    requires |pool.Pins| < pool.Budget() && pool.nextPid + Spills(|buffer|) <= MAX_PAGES
    requires CanWrite(p, buffer, key) && 8 <= written < |buffer|
    requires LeafHolds(pool.View, w, p, leaf, HeadTuple(buffer, written))
    requires StoredAt(leaf, addr, HeadTuple(buffer, written))
    modifies pool, pool.metas, pool.frames
    ensures pool.Valid() && pool.Pins == old(pool.Pins) - multiset{w} && pool.Touched == {}
    ensures LeafHolds(pool.View, w, p, q, x) && TKey(x) == key && Stored(pool.View, x, buffer)
    ensures Others(old(pool.View), pool.View, w)
    ensures q.Used() == leaf.Used() && |x| == written + TUPLE_HEADER_SIZE
    ensures pool.nextPid == old(pool.nextPid) + Spills(|buffer| - written) <= old(pool.nextPid) + Spills(|buffer|)
  {
    hide BufferPool.Valid, OpenChain, TKey, InsertSorted, LeafLayout.Leaf.Live, LeafLayout.Leaf.Free, StoredAt,
      Decode, HasKey,
      EncodeHeader, Relink, LeafLayout.Leaf.Valid, HeadTuple, Stored, DecodeHeader, LeafLayout.Leaf.Used, Spills,
      Others, Writing, LeafHolds;
    ghost var s := pool.View;
    HeadFacts(buffer, written);
    SpillsFit(|buffer|, written, if |buffer| - written <= OVERFLOW_CHUNK then |buffer| - written else OVERFLOW_CHUNK);
    var head, n;
    head, n, q := FirstOverflow(pool, w, leaf, addr, buffer, written, p, key);
    x := Relink(HeadTuple(buffer, written), head);
    RelinkHeader(HeadTuple(buffer, written), head);
    ghost var s1 := pool.View;
    WritingStart(s1, pool.Pins, pool.Touched, head, buffer, written, n);
    var last := OverflowLoop(pool, head, buffer, written, n);
    StoredLinked(pool.View, buffer, written, head, last);
    OthersAlso(s, s1, pool.View, w, head, p, q, x);
  }

  lemma WritingStart(view: PageMap, pins: multiset<PageID>, touched: set<PageID>, head: PageID, buffer: seq<Byte>,
                     start: nat, n: nat)
    requires start < |buffer| && head in pins && head in view && view[head].OverflowPg? && touched <= {head}
    requires n == if |buffer| - start <= OVERFLOW_CHUNK then |buffer| - start else OVERFLOW_CHUNK
    requires OpenChain(view, head, buffer[start..start + n], head)
    ensures Writing(view, pins, touched, view, head, head, buffer, start, start + n)
  {
    hide OpenChain;
  }

  // Edits of w and then of a new page leave what w holds and every other page alone.
  lemma OthersAlso(s: PageMap, s1: PageMap, s2: PageMap, w: PageID, head: PageID, p: Leaf, q: Leaf, x: Tuple)
    requires w in s && head !in s && Others(s, s1, w) && Others(s1, s2, head) && LeafHolds(s1, w, p, q, x)
    ensures Others(s, s2, w) && LeafHolds(s2, w, p, q, x)
  {
    hide InsertSorted, LeafLayout.Leaf.Valid, LeafLayout.Leaf.Live;
  }

  lemma SpillsFit(size: nat, written: nat, n: nat)
    requires written < size && n == (if size - written <= OVERFLOW_CHUNK then size - written else OVERFLOW_CHUNK)
    ensures Spills(size - written) == 1 + Spills(size - written - n) <= Spills(size)
  {
  }

  lemma TookSame(p: Leaf, q: Leaf, r: Leaf, key: Key, x: Tuple, y: Tuple, size: nat)
    requires TookChunk(p, q, key, x, size) && r.Used() == q.Used() && |y| == |x|
    ensures TookChunk(p, r, key, y, size)
  {
    hide TombstoneBefore, LeafLayout.Leaf.Used;
  }
}
