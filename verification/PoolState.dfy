// The buffer pool's tables as a value, and the steps that change them
// (database/src/impl/bufferpool/bufferpool.cpp).
module PoolState {
  import opened Bytes
  import opened Pages

  const POOL_SIZE: nat := 1000

  datatype FrameMeta = FrameMeta(pageId: PageID, pinCount: nat, dirty: bool, referenced: bool, inQueue: bool)

  const FREE_FRAME := FrameMeta(0, 0, false, false, false)

  datatype Pool = Pool(table: map<PageID, nat>, free: seq<nat>, queue: seq<nat>,
                       metas: seq<FrameMeta>, frames: seq<Page>, disk: PageMap, next: nat)
  {
    ghost predicate Resident(i: nat) {
      i < |metas| && metas[i].pageId in table && table[metas[i].pageId] == i
    }

    // Frames are split into free ones and ones that hold the page the table says.
    ghost predicate FramesOk() {
      && |metas| == |frames| == POOL_SIZE
      && (forall p | p in table :: table[p] < POOL_SIZE && metas[table[p]].pageId == p && p in disk)
      && (forall i | i in free :: i < POOL_SIZE && metas[i] == FREE_FRAME && !Resident(i))
      && (forall i, j | 0 <= i < j < |free| :: free[i] != free[j])
      && (forall i | 0 <= i < POOL_SIZE :: i in free || Resident(i))
    }

    // The queue lists every unpinned resident frame, apart from one that a sweep
    // has just taken out, and no frame twice.
    ghost predicate QueueOk(out: int) {
      && (forall i | i in queue :: i < POOL_SIZE && Resident(i) && i != out)
      && (forall i, j | 0 <= i < j < |queue| :: queue[i] != queue[j])
      && (forall i | 0 <= i < |metas| && i != out :: metas[i].inQueue <==> i in queue)
      && (forall i | 0 <= i < |metas| && Resident(i) && metas[i].pinCount == 0 && i != out :: i in queue)
    }

    ghost predicate DiskOk() {
      && 0 < next <= MAX_PAGES
      && (forall p | p in disk :: 0 < p < next)
    }

    ghost predicate PinsAre(pins: multiset<PageID>) {
      forall p: PageID :: pins[p] == if p in table && table[p] < |metas| then metas[table[p]].pinCount else 0
    }

    // What a reader of the page sees: its frame if it is resident, else the disk.
    ghost predicate Shows(p: PageID, page: Page) {
      && p in disk
      && (if p in table && table[p] < |frames| then frames[table[p]] == page else disk[p] == page)
    }

    // A clean frame that nobody has written to since agrees with the disk.
    ghost predicate ViewOk(view: PageMap, touched: set<PageID>) {
      forall p | p in view ::
        && Shows(p, view[p])
        && (p in table && table[p] < |metas| && !metas[table[p]].dirty && p !in touched ==> disk[p] == view[p])
    }
  }

  const MAX_PAGES: nat := 0x8_0000_0000_0000  // file offsets are signed 64-bit

  ghost predicate PoolOk(s: Pool, out: int) {
    s.FramesOk() && s.QueueOk(out) && s.DiskOk()
  }

  // The pool serves a view: pins are counted, every page of the view is shown, and
  // only pinned pages carry writes that no release has reported yet.
  ghost predicate Serves(s: Pool, view: PageMap, pins: multiset<PageID>, touched: set<PageID>) {
    && PoolOk(s, -1)
    && s.PinsAre(pins)
    && s.ViewOk(view, touched)
    && Untouched(touched, pins)
  }

  ghost predicate Untouched(touched: set<PageID>, pins: multiset<PageID>) {
    forall p | p in touched :: p in pins
  }

  // Some frame can be had for a page that is not resident.
  // The pages that were pinned are resident in the frames they had.
  ghost predicate Stays(pins: multiset<PageID>, table: map<PageID, nat>, table': map<PageID, nat>) {
    forall p | p in pins :: p in table && p in table' && table'[p] == table[p]
  }

  // Evicting one page that is not pinned and loading another disturbs no pinned page.
  lemma Stayed(table: map<PageID, nat>, kept: map<PageID, nat>, table': map<PageID, nat>, pid: PageID, i: nat,
               pins: multiset<PageID>)
    requires pid !in table && kept.Keys <= table.Keys && (forall p | p in kept :: kept[p] == table[p])
    requires table' == kept[pid := i] || table' == table == kept
    requires forall p | p in pins :: p in kept
    ensures Stays(pins, table, table')
  {
  }

  ghost predicate Available(s: Pool) {
    s.free != [] || SomeUnpinned(s)
  }

  ghost predicate SomeUnpinned(s: Pool) {
    exists i | i in s.queue :: i < |s.metas| && s.metas[i].pinCount == 0
  }

  // ----- a page that is resident is pinned once more -----

  function Hit(s: Pool, p: PageID): Pool
    requires p in s.table && s.table[p] < |s.metas|
  {
    var m := s.metas[s.table[p]];
    s.(metas := s.metas[s.table[p] := m.(pinCount := m.pinCount + 1, referenced := true)])
  }

  lemma HitOk(s: Pool, p: PageID, view: PageMap, pins: multiset<PageID>, touched: set<PageID>)
    requires Serves(s, view, pins, touched) && p in s.table
    ensures s.table[p] < |s.metas|
    ensures Serves(Hit(s, p), view, pins + multiset{p}, touched)
  {
    assert s.table[p] < |s.metas| by { InRange(s, p); }
    hide Pool.FramesOk, Pool.QueueOk, Pool.ViewOk, Pool.PinsAre;
    HitFrames(s, p);
    HitQueue(s, p);
    HitView(s, p, view, pins, touched);
  }

  lemma InRange(s: Pool, p: PageID)
    requires s.FramesOk()
    ensures p in s.table ==> s.table[p] < POOL_SIZE && p in s.disk
    ensures |s.metas| == |s.frames| == POOL_SIZE
    ensures s.free != [] ==> s.free[|s.free| - 1] < POOL_SIZE
  {
    assert s.free != [] ==> s.free[|s.free| - 1] in s.free;
  }

  lemma HitFrames(s: Pool, p: PageID)
    requires s.FramesOk() && p in s.table
    ensures Hit(s, p).FramesOk()
  {
  }

  lemma HitQueue(s: Pool, p: PageID)
    requires s.FramesOk() && s.QueueOk(-1) && p in s.table
    ensures Hit(s, p).QueueOk(-1)
  {
  }

  lemma HitView(s: Pool, p: PageID, view: PageMap, pins: multiset<PageID>, touched: set<PageID>)
    requires s.FramesOk() && p in s.table && s.PinsAre(pins) && s.ViewOk(view, touched)
    ensures Hit(s, p).ViewOk(view, touched) && Hit(s, p).PinsAre(pins + multiset{p})
  {
  }

  // ----- an absent page is read into the last free frame -----

  function Load(s: Pool, p: PageID): Pool
    requires s.free != [] && s.free[|s.free| - 1] < |s.metas| == |s.frames| && p in s.disk
  {
    var i := s.free[|s.free| - 1];
    s.(table := s.table[p := i], free := s.free[..|s.free| - 1],
    metas := s.metas[i := FrameMeta(p, 1, false, true, false)], frames := s.frames[i := s.disk[p]])
  }

  lemma LoadOk(s: Pool, p: PageID, view: PageMap, pins: multiset<PageID>, touched: set<PageID>)
    requires Serves(s, view, pins, touched) && p !in s.table && p in s.disk && s.free != []
    ensures s.free[|s.free| - 1] < |s.metas| == |s.frames|
    ensures Serves(Load(s, p), view, pins + multiset{p}, touched)
  {
    hide Pool.FramesOk, Pool.QueueOk, Pool.ViewOk, Pool.PinsAre;
    InRange(s, p);
    LoadFrames(s, p);
    LoadQueue(s, p);
    LoadView(s, p, view, touched);
    LoadPins(s, p, pins);
  }

  lemma LoadPins(s: Pool, p: PageID, pins: multiset<PageID>)
    requires s.FramesOk() && p !in s.table && p in s.disk && s.free != [] && s.PinsAre(pins)
    ensures s.free[|s.free| - 1] < |s.metas|
    ensures Load(s, p).PinsAre(pins + multiset{p})
  {
    assert s.free[|s.free| - 1] in s.free;
  }

  lemma LoadFrames(s: Pool, p: PageID)
    requires s.FramesOk() && p !in s.table && p in s.disk && s.free != []
    ensures s.free[|s.free| - 1] < |s.metas|
    ensures Load(s, p).FramesOk()
  {
    var n := |s.free| - 1;
    assert s.free[n] in s.free;
    var t := Load(s, p);
    forall i | i in t.free ensures i in s.free && i != s.free[n] {
      var j :| 0 <= j < n && t.free[j] == i;
      assert s.free[j] == i;
    }
    forall i | 0 <= i < POOL_SIZE ensures i in t.free || t.Resident(i) {
      if i in s.free {
        var j :| 0 <= j <= n && s.free[j] == i;
        assert j < n ==> t.free[j] == i;
      } else {
        assert s.Resident(i);
      }
    }
  }

  lemma LoadQueue(s: Pool, p: PageID)
    requires s.FramesOk() && s.QueueOk(-1) && p !in s.table && p in s.disk && s.free != []
    ensures s.free[|s.free| - 1] < |s.metas|
    ensures Load(s, p).QueueOk(-1)
  {
    assert s.free[|s.free| - 1] in s.free;
  }

  lemma LoadView(s: Pool, p: PageID, view: PageMap, touched: set<PageID>)
    requires s.FramesOk() && p !in s.table && p in s.disk && s.free != [] && s.ViewOk(view, touched)
    ensures s.free[|s.free| - 1] < |s.metas|
    ensures Load(s, p).ViewOk(view, touched)
  {
    assert s.free[|s.free| - 1] in s.free;
  }

  // ----- an unpinned frame taken out of the queue is written back and freed -----

  function Evict(s: Pool, i: nat): Pool
    requires i < |s.metas| == |s.frames|
  {
    var m := s.metas[i];
    s.(disk := if m.dirty then s.disk[m.pageId := s.frames[i]] else s.disk,
    table := s.table - {m.pageId}, metas := s.metas[i := FREE_FRAME], free := s.free + [i])
  }

  lemma EvictOk(s: Pool, i: nat, view: PageMap, pins: multiset<PageID>, touched: set<PageID>)
    requires PoolOk(s, i) && s.Resident(i) && s.metas[i].pinCount == 0
    requires s.PinsAre(pins) && s.ViewOk(view, touched) && Untouched(touched, pins)
    ensures Serves(Evict(s, i), view, pins, touched)
  {
    assert |s.metas| == |s.frames| && (s.metas[i].dirty ==> s.metas[i].pageId in s.disk);
    hide Pool.FramesOk, Pool.QueueOk, Pool.ViewOk, Pool.PinsAre;
    EvictFrames(s, i);
    EvictQueue(s, i);
    EvictView(s, i, view, pins, touched);
  }

  lemma EvictFrames(s: Pool, i: nat)
    requires s.FramesOk() && s.Resident(i)
    ensures Evict(s, i).FramesOk()
  {
  }

  lemma EvictQueue(s: Pool, i: nat)
    requires s.FramesOk() && s.QueueOk(i) && s.Resident(i)
    ensures Evict(s, i).QueueOk(-1)
  {
  }

  lemma EvictView(s: Pool, i: nat, view: PageMap, pins: multiset<PageID>, touched: set<PageID>)
    requires s.FramesOk() && s.Resident(i) && s.metas[i].pinCount == 0
    requires s.PinsAre(pins) && s.ViewOk(view, touched) && Untouched(touched, pins)
    ensures Evict(s, i).ViewOk(view, touched) && Evict(s, i).PinsAre(pins)
  {
  }

  // A page that somebody has pinned is no longer resident.
  ghost predicate Lost(s: Pool, pins: multiset<PageID>) {
    exists p | p in pins :: p !in s.table
  }

  lemma NoneLost(s: Pool, view: PageMap, pins: multiset<PageID>, touched: set<PageID>)
    requires Serves(s, view, pins, touched)
    ensures !Lost(s, pins)
  {
    PinnedResident(s, view, pins, touched);
  }

  lemma LostIsInvalid(s: Pool, view: PageMap, pins: multiset<PageID>, touched: set<PageID>)
    requires Lost(s, pins)
    ensures !Serves(s, view, pins, touched)
  {
    hide Lost;
    if Serves(s, view, pins, touched) {
      NoneLost(s, view, pins, touched);
    }
  }

  // Evicting a pinned frame takes its page away from whoever holds the pin.
  lemma PinnedEvictLoses(s: Pool, i: nat, pins: multiset<PageID>)
    requires |s.metas| == |s.frames| && s.Resident(i) && s.metas[i].pinCount > 0 && s.PinsAre(pins)
    ensures Lost(Evict(s, i), pins)
  {
    var p := s.metas[i].pageId;
    assert pins[p] > 0;
    assert p in pins && p !in Evict(s, i).table;
  }

  lemma LostTable(s: Pool, t: Pool, pins: multiset<PageID>)
    requires s.table == t.table
    ensures Lost(s, pins) <==> Lost(t, pins)
  {
  }

  lemma StaysLost(s: Pool, t: Pool, p: PageID, i: nat, pins: multiset<PageID>)
    requires t.table == s.table[p := i]
    ensures Lost(s, pins) && p !in pins ==> Lost(t, pins + multiset{p})
  {
    if Lost(s, pins) && p !in pins {
      var q: PageID :| q in pins && q !in s.table;
      assert q in pins + multiset{p};
    }
  }

  // Such a frame can be all that the queue offers: every frame holds a pinned page,
  // and the first one was pinned again while it was queued.
  lemma OnlyPinnedQueued() returns (s: Pool, view: PageMap, pins: multiset<PageID>)
    ensures Serves(s, view, pins, {}) && s.free == [] && s.queue == [0] && !SomeUnpinned(s)
    ensures s.metas[0].pinCount > 0 && s.Resident(0)
  {
    view := map p: PageID | 0 < p <= POOL_SIZE && Numbered(p) :: BlankPage;
    pins := multiset(set p: PageID | 0 < p <= POOL_SIZE && Numbered(p));
    s := FullPool(view);
    FullTables(s, view);
    hide Pool.FramesOk, Pool.QueueOk;
  }

  predicate Numbered(p: PageID) {
    0 < p <= POOL_SIZE
  }

  // Page p sits in frame p - 1, pinned once; only the first frame is queued.
  function FullPool(disk: PageMap): Pool {
    Pool(map p: PageID | 0 < p <= POOL_SIZE && Numbered(p) :: (p - 1) as nat, [], [0],
         seq(POOL_SIZE, i requires 0 <= i < POOL_SIZE => FrameMeta((i + 1) as PageID, 1, false, true, i == 0)),
         seq(POOL_SIZE, i => BlankPage), disk, POOL_SIZE + 1)
  }

  lemma FullTables(s: Pool, view: PageMap)
    requires s == FullPool(view) && forall p: PageID | Numbered(p) :: p in view
    ensures s.FramesOk() && s.QueueOk(-1) && s.Resident(0)
  {
    forall i | 0 <= i < POOL_SIZE ensures s.Resident(i) {
      assert Numbered(s.metas[i].pageId);
    }
  }

  // ----- writing through a page pointer -----

  function Store(s: Pool, p: PageID, page: Page): Pool
    requires p in s.table && s.table[p] < |s.frames|
  {
    s.(frames := s.frames[s.table[p] := page])
  }

  lemma StoreOk(s: Pool, p: PageID, page: Page, view: PageMap, pins: multiset<PageID>, touched: set<PageID>)
    requires Serves(s, view, pins, touched) && p in pins
    ensures p in s.table && s.table[p] < |s.frames|
    ensures Serves(Store(s, p, page), view[p := page], pins, touched + {p})
  {
    assert pins[p] > 0;
    InRange(s, p);
    hide Pool.FramesOk, Pool.QueueOk, Pool.ViewOk;
    StoreTables(s, p, page);
    StoreView(s, p, page, view, touched);
  }

  lemma StoreTables(s: Pool, p: PageID, page: Page)
    requires s.FramesOk() && s.QueueOk(-1) && p in s.table
    ensures s.table[p] < |s.frames|
    ensures Store(s, p, page).FramesOk() && Store(s, p, page).QueueOk(-1)
  {
  }

  lemma StoreView(s: Pool, p: PageID, page: Page, view: PageMap, touched: set<PageID>)
    requires s.FramesOk() && p in s.table && s.ViewOk(view, touched)
    ensures s.table[p] < |s.frames|
    ensures Store(s, p, page).ViewOk(view[p := page], touched + {p})
  {
  }

  // ----- giving a pin back -----

  function Unpin(s: Pool, p: PageID, dirty: bool): Pool
    requires p in s.table && s.table[p] < |s.metas| && s.metas[s.table[p]].pinCount > 0
  {
    var i := s.table[p];
    var m := s.metas[i];
    var last := m.pinCount == 1 && !m.inQueue;
    var m' := m.(pinCount := m.pinCount - 1, inQueue := m.inQueue || last, dirty := m.dirty || dirty);
    s.(metas := s.metas[i := m'], queue := if last then s.queue + [i] else s.queue)
  }

  // Nothing changes but the page's metadata and, with its last pin, the queue.
  lemma UnpinSpelled(s: Pool, p: PageID, dirty: bool)
    requires p in s.table && s.table[p] < |s.metas| && s.metas[s.table[p]].pinCount > 0
    ensures var i := s.table[p];
            var m := s.metas[i];
            var queued := m.pinCount == 1 && !m.inQueue;
            var m' := FrameMeta(m.pageId, m.pinCount - 1, m.dirty || dirty, m.referenced, m.inQueue || queued);
            Unpin(s, p, dirty) == s.(metas := s.metas[i := m'], queue := if queued then s.queue + [i] else s.queue)
  {
  }

  lemma UnpinOk(s: Pool, p: PageID, dirty: bool, view: PageMap, pins: multiset<PageID>, touched: set<PageID>)
    requires Serves(s, view, pins, touched) && p in pins
    ensures p in s.table && s.table[p] < |s.metas| && s.metas[s.table[p]].pinCount > 0
    ensures var t := Unpin(s, p, dirty);
            && (dirty ==> Serves(t, view, pins - multiset{p}, touched - {p}))
            && (pins[p] > 1 || p !in touched ==>
                  Serves(t, view, pins - multiset{p}, if dirty then touched - {p} else touched))
            && Serves(t, view - {p}, pins - multiset{p}, touched - {p})
  {
    assert pins[p] > 0;
    InRange(s, p);
    hide Pool.Shows, Pool.FramesOk, Pool.QueueOk, Pool.ViewOk;
    UnpinFrames(s, p, dirty);
    UnpinQueue(s, p, dirty);
    UnpinView(s, p, dirty, view, touched);
  }

  // What a released page means for the pages that its holders may rely on.
  lemma ReleaseOk(s: Pool, p: PageID, dirty: bool, view: PageMap, pins: multiset<PageID>, touched: set<PageID>)
    requires Serves(s, view, pins, touched) && p in pins
    ensures p in s.table && s.table[p] < |s.metas| && s.metas[s.table[p]].pinCount > 0
    ensures Serves(Unpin(s, p, dirty), if !dirty && p in touched && pins[p] == 1 then view - {p} else view,
                   pins - multiset{p}, if dirty || pins[p] == 1 then touched - {p} else touched)
  {
    hide Serves, Unpin;
    assert p !in touched ==> touched - {p} == touched;
    UnpinOk(s, p, dirty, view, pins, touched);
  }

  lemma UnpinFrames(s: Pool, p: PageID, dirty: bool)
    requires s.FramesOk() && p in s.table && s.metas[s.table[p]].pinCount > 0
    ensures Unpin(s, p, dirty).FramesOk()
  {
  }

  lemma UnpinView(s: Pool, p: PageID, dirty: bool, view: PageMap, touched: set<PageID>)
    requires s.FramesOk() && p in s.table && s.metas[s.table[p]].pinCount > 0 && s.ViewOk(view, touched)
    ensures var t := Unpin(s, p, dirty);
            t.ViewOk(view, if dirty then touched - {p} else touched) && t.ViewOk(view - {p}, touched - {p})
  {
  }

  lemma UnpinQueue(s: Pool, p: PageID, dirty: bool)
    requires s.FramesOk() && s.QueueOk(-1) && p in s.table && s.metas[s.table[p]].pinCount > 0
    ensures Unpin(s, p, dirty).QueueOk(-1)
  {
    var t := Unpin(s, p, dirty);
    assert forall j | 0 <= j < |s.metas| :: t.Resident(j) <==> s.Resident(j);
    if t.queue == s.queue {
      assert forall j | 0 <= j < |s.metas| :: t.metas[j].inQueue == s.metas[j].inQueue;
    } else {
      Enqueued(s.queue, s.table[p], t.queue);
    }
  }

  lemma Enqueued(q: seq<nat>, i: nat, q': seq<nat>)
    requires q' == q + [i]
    ensures forall j :: j in q' <==> j in q || j == i
  {
  }

  // ----- a fresh page at the end of the file -----

  function Grow(s: Pool): Pool
    requires s.next < MAX_PAGES
  {
    s.(disk := s.disk[s.next as PageID := BlankPage], next := s.next + 1)
  }

  lemma GrowOk(s: Pool, view: PageMap, pins: multiset<PageID>, touched: set<PageID>)
    requires Serves(s, view, pins, touched) && s.next < MAX_PAGES
    ensures s.next as PageID !in s.table && s.next as PageID !in s.disk && s.next as PageID !in view
    ensures Serves(Grow(s), view[s.next as PageID := BlankPage], pins, touched)
  {
    Unclaimed(s, view, touched);
    hide Pool.FramesOk, Pool.QueueOk, Pool.ViewOk;
    GrowTables(s);
    GrowView(s, view, touched);
  }

  lemma Unclaimed(s: Pool, view: PageMap, touched: set<PageID>)
    requires s.FramesOk() && s.DiskOk() && s.ViewOk(view, touched) && s.next < MAX_PAGES
    ensures s.next as PageID !in s.table && s.next as PageID !in s.disk && s.next as PageID !in view
  {
    hide Pool.QueueOk;
  }

  lemma GrowTables(s: Pool)
    requires s.FramesOk() && s.QueueOk(-1) && s.next < MAX_PAGES
    ensures Grow(s).FramesOk() && Grow(s).QueueOk(-1)
  {
  }

  lemma GrowView(s: Pool, view: PageMap, touched: set<PageID>)
    requires s.ViewOk(view, touched) && s.next < MAX_PAGES
    requires s.next as PageID !in s.table && s.next as PageID !in s.disk && s.next as PageID !in view
    ensures Grow(s).ViewOk(view[s.next as PageID := BlankPage], touched)
  {
  }

  // ----- fewer pins than frames leave a frame to use -----

  lemma {:induction false} OnceEach(ids: seq<PageID>, pins: multiset<PageID>)
    requires forall i, j | 0 <= i < j < |ids| :: ids[i] != ids[j]
    requires forall i | 0 <= i < |ids| :: ids[i] in pins
    ensures |ids| <= |pins|
  {
    if ids != [] {
      var n := |ids| - 1;
      OnceEach(ids[..n], pins - multiset{ids[n]}) by {
        assert forall i | 0 <= i < n :: ids[..n][i] == ids[i];
      }
      assert ids == ids[..n] + [ids[n]];
      assert pins == (pins - multiset{ids[n]}) + multiset{ids[n]};
    }
  }

  lemma SomeFrame(s: Pool, view: PageMap, pins: multiset<PageID>, touched: set<PageID>)
    requires Serves(s, view, pins, touched) && |pins| < POOL_SIZE
    ensures Available(s)
  {
    if !Available(s) {
      var ids := seq(POOL_SIZE, i requires 0 <= i < |s.metas| => s.metas[i].pageId);
      forall i | 0 <= i < POOL_SIZE ensures ids[i] in pins && s.table[ids[i]] == i {
        assert s.Resident(i);
        assert i in s.queue ==> s.metas[i].pinCount > 0;
        assert pins[ids[i]] == s.metas[i].pinCount;
      }
      OnceEach(ids, pins);
    }
  }

  lemma ViewPages(s: Pool, view: PageMap, pins: multiset<PageID>, touched: set<PageID>)
    requires Serves(s, view, pins, touched)
    ensures forall p | p in view :: 0 < p < s.next
  {
    hide Pool.FramesOk, Pool.QueueOk, Pool.PinsAre;
  }

  lemma ServesPage(s: Pool, view: PageMap, pins: multiset<PageID>, touched: set<PageID>, p: PageID)
    requires Serves(s, view, pins, touched)
    ensures |s.metas| == |s.frames| == POOL_SIZE && 0 < s.next <= MAX_PAGES
    ensures p in s.table ==> s.table[p] < POOL_SIZE
    ensures p in pins ==> p in s.table
    ensures p in view ==> p in s.disk && 0 < p < s.next
    ensures p in view ==> view[p] == if p in s.table then s.frames[s.table[p]] else s.disk[p]
    ensures s.free != [] ==> s.free[|s.free| - 1] < POOL_SIZE
  {
    InRange(s, p);
  }

  lemma PinnedResident(s: Pool, view: PageMap, pins: multiset<PageID>, touched: set<PageID>)
    requires Serves(s, view, pins, touched)
    ensures forall p | p in pins :: p in s.table
    ensures forall p | p in touched :: p in pins
  {
  }

  lemma NoQueue(s: Pool, view: PageMap, pins: multiset<PageID>, touched: set<PageID>)
    requires Serves(s, view, pins, touched)
    ensures s.queue == [] ==> !SomeUnpinned(s)
    ensures s.free != [] ==> Available(s)
  {
  }

  // ----- writing one dirty frame back -----

  function FlushFrame(s: Pool, i: nat): Pool
    requires i < |s.metas| == |s.frames| && s.metas[i].dirty
  {
    s.(disk := s.disk[s.metas[i].pageId := s.frames[i]], metas := s.metas[i := s.metas[i].(dirty := false)])
  }

  lemma FlushOk(s: Pool, i: nat, view: PageMap, pins: multiset<PageID>, touched: set<PageID>)
    requires Serves(s, view, pins, touched) && i < POOL_SIZE
    ensures |s.metas| == |s.frames| == POOL_SIZE
    ensures s.metas[i].dirty ==> Serves(FlushFrame(s, i), view, pins, touched)
  {
    if s.metas[i].dirty {
      assert s.Resident(i);
      FlushTables(s, i);
      FlushView(s, i, view, pins, touched);
    }
  }

  lemma FlushTables(s: Pool, i: nat)
    requires PoolOk(s, -1) && i < POOL_SIZE && s.Resident(i) && s.metas[i].dirty
    ensures |s.metas| == |s.frames| && PoolOk(FlushFrame(s, i), -1)
  {
    hide Pool.DiskOk, Pool.QueueOk;
    FlushQueue(s, i);
    FlushDisk(s, i);
  }

  lemma FlushQueue(s: Pool, i: nat)
    requires s.FramesOk() && s.QueueOk(-1) && i < POOL_SIZE && s.Resident(i) && s.metas[i].dirty
    ensures FlushFrame(s, i).QueueOk(-1)
  {
  }

  lemma FlushDisk(s: Pool, i: nat)
    requires s.FramesOk() && s.DiskOk() && i < POOL_SIZE && s.Resident(i) && s.metas[i].dirty
    ensures FlushFrame(s, i).DiskOk()
  {
  }

  lemma FlushView(s: Pool, i: nat, view: PageMap, pins: multiset<PageID>, touched: set<PageID>)
    requires s.FramesOk() && i < POOL_SIZE && s.Resident(i) && s.metas[i].dirty
    requires s.ViewOk(view, touched) && s.PinsAre(pins)
    ensures FlushFrame(s, i).ViewOk(view, touched) && FlushFrame(s, i).PinsAre(pins)
  {
  }

  lemma AllFlushed(s: Pool, view: PageMap, pins: multiset<PageID>, touched: set<PageID>)
    requires Serves(s, view, pins, touched) && forall i | 0 <= i < |s.metas| :: !s.metas[i].dirty
    ensures forall p | p in view && p !in touched :: p in s.disk && s.disk[p] == view[p]
  {
  }
}
