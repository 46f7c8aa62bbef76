// The buffer pool: a fixed set of frames, second-chance replacement, and pins.
// The file behind it never fails and hands out fresh zeroed pages.
module BufferPools {
  import opened Bytes
  import opened Pages
  import opened PoolState
  import opened ClockSweep

  datatype Result<+T> = Ok(value: T) | Err(error: PoolError)
  datatype PoolError = BufferPoolFull | PageNotFoundInBufferPool

  class BufferPool {
    var pageTable: map<PageID, nat>
    var freeFrames: seq<nat>
    var unpinned: seq<nat>
    const metas: array<FrameMeta>
    const frames: array<Page>
    var disk: PageMap
    var nextPid: nat

    // The pages a client may rely on, its pins, and the pages it has written to
    // but not yet released dirty.
    ghost var View: PageMap
    ghost var Pins: multiset<PageID>
    ghost var Touched: set<PageID>

    // The most pins a client will ever hold at once.
    ghost const MaxPins: nat

    ghost function State(): Pool
      reads this, metas, frames
    {
      Pool(pageTable, freeFrames, unpinned, metas[..], frames[..], disk, nextPid)
    }

    ghost predicate Valid()
      reads this, metas, frames
    {
      Serves(State(), View, Pins, Touched) && |Pins| <= MaxPins
    }

    // The pins that fit both the client's limit and the frames.
    ghost function Budget(): nat {
      if MaxPins < POOL_SIZE then MaxPins else POOL_SIZE
    }

    constructor (disk: PageMap, next: nat, ghost maxPins: nat)
      requires 0 < next <= MAX_PAGES && forall p | p in disk :: 0 < p < next
      ensures Valid() && fresh(metas) && fresh(frames)
      ensures View == disk && Pins == multiset{} && Touched == {} && nextPid == next && MaxPins == maxPins
      ensures pageTable == map[] && unpinned == [] && |freeFrames| == POOL_SIZE
      ensures forall i | 0 <= i < POOL_SIZE :: freeFrames[i] == i
    {
      pageTable, freeFrames, unpinned := map[], seq(POOL_SIZE, i => i), [];
      metas := new FrameMeta[POOL_SIZE](i => FREE_FRAME);
      frames := new Page[POOL_SIZE](i => BlankPage);
      this.disk, nextPid := disk, next;
      View, Pins, Touched, MaxPins := disk, multiset{}, {}, maxPins;
      new;
      assert forall i | 0 <= i < POOL_SIZE :: freeFrames[i] == i;
      forall i | 0 <= i < POOL_SIZE ensures i in freeFrames {
        assert freeFrames[i] == i;
      }
    }

    // Looks at the frame at the front of the queue: a pinned one is dropped, a
    // referenced one goes to the back with its bit cleared, any other is the victim.
    method TakeFront(ghost s: Pool, ghost i: nat, ghost second: seq<nat>)
      returns (index: nat, victim: bool, ghost second': seq<nat>)
      requires PoolOk(s, -1) && Sweep(s, i, unpinned, metas[..], second) && unpinned != []
      requires Chances(s, i, metas[..], second)
      modifies this`unpinned, metas
      ensures index == old(unpinned)[0] && index in s.queue && index < POOL_SIZE == metas.Length
      ensures Unaltered(old(metas[..]), s.metas)
      ensures victim ==> metas[index].pinCount == 0 && SomeUnpinned(s) && Unaltered(metas[..], s.metas)
      ensures victim ==> PoolOk(s.(queue := unpinned, metas := metas[..]), index)
      ensures victim ==> index == Choice(s) && Chosen(s, unpinned, metas[..])
      ensures !victim ==> i < |s.queue| && index == s.queue[i] && Sweep(s, i + 1, unpinned, metas[..], second')
      ensures !victim ==> Chances(s, i + 1, metas[..], second')
    {
      hide PoolOk, Sweep, Distinct, SameButQueue, Unaltered, SomeUnpinned, Chances, Choice, Chosen, Idle;
      index, victim, second' := unpinned[0], false, second;
      Victim(s, i, unpinned, metas[..], second);
      SweptQueue(s, i, unpinned, metas[..], second);
      if metas[index].pinCount > 0 {
        DropPinned(s, i, unpinned, metas[..], second);
        PinnedChances(s, i, metas[..], second, index);
        unpinned := unpinned[1..];
        metas[index] := metas[index].(inQueue := false);
      } else if metas[index].referenced {
        SecondChance(s, i, unpinned, metas[..], second);
        NextChance(s, i, metas[..], second, index);
        second' := second + [index];
        unpinned := unpinned[1..] + [index];
        metas[index] := metas[index].(referenced := false);
      } else {
        ChoiceMade(s, i, unpinned, metas[..], second);
        victim := true;
        unpinned := unpinned[1..];
      }
    }

    // Sweeps the queue until a victim turns up. If every queued frame is pinned,
    // the last one dropped is returned.
    method FindPageToEvict() returns (r: Option<nat>)
      requires PoolOk(State(), -1)
      modifies this`unpinned, metas
      ensures r.None? <==> old(unpinned) == []
      ensures r.Some? ==> r.value in old(unpinned) && r.value < POOL_SIZE == metas.Length
      ensures r.Some? ==> (metas[r.value].pinCount == 0 <==> SomeUnpinned(old(State())))
      ensures r.Some? && metas[r.value].pinCount == 0 ==> PoolOk(State(), r.value)
      ensures r.None? || metas[r.value].pinCount > 0 ==> PoolOk(State(), -1) && unpinned == []
      ensures r.Some? && metas[r.value].pinCount > 0 ==> r.value == old(unpinned)[|old(unpinned)| - 1]
      ensures SomeUnpinned(old(State())) ==>
                r == Some(Choice(old(State()))) && Chosen(old(State()), unpinned, metas[..])
      ensures Unaltered(metas[..], old(metas[..]))
    {
      hide PoolOk, Sweep, Distinct, SameButQueue, Unaltered, SomeUnpinned, Chances, Choice, Chosen, Idle;
      ghost var s, i, second := State(), 0, [];
      SweepStart(s);
      NoChances(s);
      QueueFacts(s);
      r := None;
      var iteration, maxIters, victim := 0, 2 * |unpinned|, false;
      while iteration < maxIters
        invariant iteration == i <= |s.queue| && metas.Length == POOL_SIZE
        invariant Sweep(s, i, unpinned, metas[..], second) && Chances(s, i, metas[..], second)
        invariant r.None? <==> i == 0
        invariant r.Some? ==> r.value == s.queue[i - 1]
      {
        if unpinned == [] {
          break;
        }
        var index;
        index, victim, second := TakeFront(s, i, second);
        r := Some(index);
        if victim {
          return;
        }
        i := i + 1;
        iteration := iteration + 1;
      }
      if s.queue == [] {
        NothingQueued(s, i, unpinned, metas[..], second);
      }
      AllPinned(s, i, metas[..], second);
    }

    // Writes the frame back if it is dirty and takes its page out of the table.
    method EvictPage(index: nat)
      requires index < metas.Length == frames.Length
      modifies this`pageTable, this`disk, metas
      ensures State().(free := freeFrames + [index]) == Evict(old(State()), index)
    {
      var m := metas[index];
      if m.dirty {
        disk := disk[m.pageId := frames[index]];
      }
      pageTable := pageTable - {m.pageId};
      metas[index] := FREE_FRAME;
    }

    // The frames and tables with a frame in hand counted as free.
    ghost predicate InHand(index: nat)
      reads this, metas, frames
    {
      Serves(State().(free := freeFrames + [index]), View, Pins, Touched)
    }

    // Whether a request for the page can be served without taking a frame from
    // somebody who has pinned it.
    ghost predicate Servable(pid: PageID)
      reads this, metas, frames
    {
      pid in pageTable || Available(State()) || unpinned == []
    }

    // A free frame, or one freed by evicting a page. If only pinned frames are queued,
    // one of them is evicted.
    method FindFrame() returns (r: Option<nat>)
      requires Valid()
      modifies this`unpinned, this`pageTable, this`freeFrames, this`disk, metas
      ensures r.None? <==> old(freeFrames == [] && unpinned == [])
      ensures r.None? ==> Valid() && pageTable == old(pageTable)
      ensures r.Some? ==> r.value < metas.Length == frames.Length
      ensures r.Some? ==> if old(Available(State())) then InHand(r.value) else Lost(State(), Pins)
      ensures pageTable.Keys <= old(pageTable).Keys && forall p | p in pageTable :: pageTable[p] == old(pageTable)[p]
      ensures disk.Keys >= old(disk).Keys
      ensures old(freeFrames != []) ==>
                && r == Some(old(freeFrames[|freeFrames| - 1])) && pageTable == old(pageTable)
                && unpinned == old(unpinned)
      ensures old(freeFrames == [] && SomeUnpinned(State())) ==>
                && r == Some(old(Choice(State()))) && r.value < metas.Length == frames.Length
                && pageTable == old(pageTable) - {old(metas[..])[r.value].pageId}
                && var m := old(metas[..])[r.value];
                disk == if m.dirty then old(disk)[m.pageId := old(frames[..])[r.value]] else old(disk)
      ensures old(freeFrames != []) ==> disk == old(disk)
    {
      hide PoolOk, Pool.PinsAre, Pool.ViewOk, Untouched, Unaltered, SomeUnpinned, Pool.Resident, Lost, Choice, Chosen;
      ServesPage(State(), View, Pins, Touched, 0);
      if freeFrames != [] {
        var n := |freeFrames| - 1;
        r := Some(freeFrames[n]);
        assert freeFrames == freeFrames[..n] + [freeFrames[n]];
        freeFrames := freeFrames[..n];
        return;
      }
      ghost var s := State();
      r := FindPageToEvict();
      SamePages(metas[..], s.metas);
      SweepServes(s, unpinned, metas[..], View, Pins, Touched);
      if r.Some? {
        if metas[r.value].pinCount == 0 {
          EvictOk(State(), r.value, View, Pins, Touched);
        } else {
          PinnedEvictLoses(State(), r.value, Pins);
        }
        ghost var t := Evict(State(), r.value);
        EvictPage(r.value);
        LostTable(State(), t, Pins);
      }
    }

    // Pins a page, reading it from disk if it is not resident. The pool stays sound
    // exactly if no pinned page had to go; fewer pins than frames are enough for that.
    method RequestPage(pid: PageID) returns (r: Result<nat>)
      requires Valid() && pid in View && |Pins| < MaxPins
      modifies this, metas, frames
      ensures Valid() <==> old(Servable(pid))
      ensures |old(Pins)| < POOL_SIZE ==> Valid() && r.Ok?
      ensures View == old(View) && Touched == old(Touched) && nextPid == old(nextPid)
      ensures r.Err? <==> old(pid !in pageTable && freeFrames == [] && unpinned == [])
      ensures r.Err? ==> r.error == BufferPoolFull && Pins == old(Pins)
      ensures r.Ok? ==> Pins == old(Pins) + multiset{pid} && pid in pageTable && r.value == pageTable[pid]
      ensures Valid() && r.Ok? ==> r.value < frames.Length && frames[r.value] == View[pid]
      ensures Valid() ==>
                forall p | p in old(Pins) :: p in pageTable && p in old(pageTable) && pageTable[p] == old(pageTable)[p]
      ensures !Valid() ==> exists p | p in old(Pins) :: p !in pageTable
      ensures r.Ok? ==> r.value < metas.Length && metas[r.value].referenced
      ensures r.Ok? && old(pid !in pageTable) ==> metas[r.value] == FrameMeta(pid, 1, false, true, false)
      ensures old(pid in pageTable) ==> pageTable == old(pageTable) && unpinned == old(unpinned)
      ensures old(pid !in pageTable && freeFrames != []) ==>
                pageTable == old(pageTable)[pid := old(freeFrames[|freeFrames| - 1])]
      ensures old(pid !in pageTable && freeFrames == [] && SomeUnpinned(State())) ==>
                var x := old(Choice(State()));
                && x < metas.Length && pageTable == (old(pageTable) - {old(metas[..])[x].pageId})[pid := x]
    {
      hide Serves, PoolOk, SomeUnpinned, Available, Choice;
      ServesPage(State(), View, Pins, Touched, pid);
      PinnedResident(State(), View, Pins, Touched);
      if pid in pageTable {
        var index := PinResident(pid);
        return Ok(index);
      }
      r := LoadAbsent(pid);
    }

    // Brings a page that is not resident into a frame.
    method LoadAbsent(pid: PageID) returns (r: Result<nat>)
      requires Valid() && pid in View && pid !in pageTable && |Pins| < MaxPins
      modifies this, metas, frames
      ensures Valid() <==> old(Available(State()) || unpinned == [])
      ensures |old(Pins)| < POOL_SIZE ==> Valid() && r.Ok?
      ensures View == old(View) && Touched == old(Touched) && nextPid == old(nextPid)
      ensures r.Err? <==> old(freeFrames == [] && unpinned == [])
      ensures r.Err? ==> r.error == BufferPoolFull && Pins == old(Pins)
      ensures r.Ok? ==> Pins == old(Pins) + multiset{pid} && pid in pageTable && r.value == pageTable[pid]
      ensures Valid() && r.Ok? ==> r.value < frames.Length && frames[r.value] == View[pid]
      ensures Valid() ==> Stays(old(Pins), old(pageTable), pageTable)
      ensures !Valid() ==> exists p | p in old(Pins) :: p !in pageTable
      ensures r.Ok? ==> r.value < metas.Length && metas[r.value] == FrameMeta(pid, 1, false, true, false)
      ensures old(freeFrames != []) ==> pageTable == old(pageTable)[pid := old(freeFrames[|freeFrames| - 1])]
      ensures old(freeFrames == [] && SomeUnpinned(State())) ==>
                var x := old(Choice(State()));
                && x < metas.Length && pageTable == (old(pageTable) - {old(metas[..])[x].pageId})[pid := x]
    {
      hide Serves, PoolOk, SomeUnpinned, Choice, Available, Stays;
      ghost var s := State();
      ServesPage(s, View, Pins, Touched, pid);
      PinnedResident(s, View, Pins, Touched);
      NoQueue(s, View, Pins, Touched);
      if |Pins| < POOL_SIZE {
        SomeFrame(s, View, Pins, Touched);
      }
      var frame := FindFrame();
      if frame.None? {
        Stayed(s.table, pageTable, s.table, pid, 0, Pins);
        return Err(BufferPoolFull);
      }
      ghost var kept := pageTable;
      r := ReadInto(pid, frame.value);
      if Valid() {
        Stayed(s.table, kept, pageTable, pid, frame.value, old(Pins));
      }
    }

    method PinResident(pid: PageID) returns (index: nat)
      requires Valid() && pid in pageTable && |Pins| < MaxPins
      modifies this`Pins, metas
      ensures Valid() && index == pageTable[pid] < frames.Length && Pins == old(Pins) + multiset{pid}
      ensures index < metas.Length
      ensures metas[..] == old(metas[..])[index := old(metas[..])[index].(
                           pinCount := old(metas[..])[index].pinCount + 1, referenced := true)]
    {
      hide Serves;
      ServesPage(State(), View, Pins, Touched, pid);
      HitOk(State(), pid, View, Pins, Touched);
      index := pageTable[pid];
      Pins := Pins + multiset{pid};
      metas[index] := metas[index].(pinCount := metas[index].pinCount + 1, referenced := true);
    }

    method ReadInto(pid: PageID, index: nat) returns (r: Result<nat>)
      requires index < metas.Length == frames.Length && pid in View && pid !in pageTable && pid in disk
      requires (InHand(index) || Lost(State(), Pins)) && |Pins| < MaxPins
      modifies this`Pins, this`pageTable, metas, frames
      ensures old(InHand(index)) ==> Valid() && index < frames.Length && frames[index] == View[pid]
      ensures old(InHand(index)) ==> forall p | p in old(Pins) :: p in old(pageTable)
      ensures old(Lost(State(), Pins)) && pid !in old(Pins) ==> Lost(State(), Pins) && !Valid()
      ensures r == Ok(index) && pageTable == old(pageTable)[pid := index] && Pins == old(Pins) + multiset{pid}
      ensures metas[index] == FrameMeta(pid, 1, false, true, false)
    {
      hide Serves, Lost;
      ghost var s := State().(free := freeFrames + [index]);
      if InHand(index) {
        ServesPage(s, View, Pins, Touched, pid);
        PinnedResident(s, View, Pins, Touched);
        LoadOk(s, pid, View, Pins, Touched);
        assert s.free[..|s.free| - 1] == freeFrames;
      }
      ghost var before := State();
      frames[index] := disk[pid];
      metas[index] := FrameMeta(pid, 1, false, true, false);
      pageTable := pageTable[pid := index];
      StaysLost(before, State(), pid, index, Pins);
      Pins := Pins + multiset{pid};
      r := Ok(index);
      if Lost(State(), Pins) {
        LostIsInvalid(State(), View, Pins, Touched);
      }
    }

    // Gives a pin back. A page whose last pin goes back clean after it was written
    // to is lost: an eviction may bring its old content back, so it leaves the view.
    method ReleasePage(pid: PageID, dirty: bool) returns (r: Result<bool>)
      requires Valid() && (pid in pageTable ==> pid in Pins)
      modifies this, metas
      ensures Valid() && nextPid == old(nextPid)
      ensures r.Err? <==> pid !in old(Pins)
      ensures r.Err? ==>
                r.error == PageNotFoundInBufferPool && View == old(View) && Pins == old(Pins) && Touched == old(Touched)
      ensures r.Ok? ==> Pins == old(Pins) - multiset{pid}
      ensures r.Ok? ==>
                && pid in old(pageTable) && old(pageTable)[pid] < metas.Length
                && var i := old(pageTable)[pid];
                && var m := old(metas[..])[i];
                && m.pinCount > 0
                && var queued := m.pinCount == 1 && !m.inQueue;
                && unpinned == (if queued then old(unpinned) + [i] else old(unpinned))
                && var m' := FrameMeta(m.pageId, m.pinCount - 1, m.dirty || dirty, m.referenced, m.inQueue || queued);
                && metas[..] == old(metas[..])[i := m']
      ensures r.Ok? ==> Touched == if dirty || old(Pins)[pid] == 1 then old(Touched) - {pid} else old(Touched)
      ensures r.Ok? ==> var lost := !dirty && pid in old(Touched) && old(Pins)[pid] == 1;
                        View == if lost then old(View) - {pid} else old(View)
    {
      hide Serves, Unpin;
      ghost var s := State();
      ServesPage(s, View, Pins, Touched, pid);
      if pid !in pageTable {
        return Err(PageNotFoundInBufferPool);
      }
      ReleaseOk(s, pid, dirty, View, Pins, Touched);
      UnpinSpelled(s, pid, dirty);
      GiveBack(pid, dirty);
      r := Ok(true);
    }

    method GiveBack(pid: PageID, dirty: bool)
      requires Valid() && pid in Pins && pid in pageTable && pageTable[pid] < metas.Length
      requires metas[pageTable[pid]].pinCount > 0
      modifies this`View, this`Touched, this`Pins, this`unpinned, metas
      ensures Valid() && State() == Unpin(old(State()), pid, dirty)
      ensures Pins == old(Pins) - multiset{pid}
      ensures Touched == if dirty || old(Pins)[pid] == 1 then old(Touched) - {pid} else old(Touched)
      ensures var lost := !dirty && pid in old(Touched) && old(Pins)[pid] == 1;
              View == if lost then old(View) - {pid} else old(View)
    {
      hide Serves, Unpin;
      ReleaseOk(State(), pid, dirty, View, Pins, Touched);
      ghost var view := if !dirty && pid in Touched && Pins[pid] == 1 then View - {pid} else View;
      ghost var touched := if dirty || Pins[pid] == 1 then Touched - {pid} else Touched;
      ghost var pins := Pins - multiset{pid};
      assert |pins| <= |Pins|;
      Unref(pid, dirty);
      View, Touched, Pins := view, touched, pins;
    }

    method Unref(pid: PageID, dirty: bool)
      requires pid in pageTable && pageTable[pid] < metas.Length && metas[pageTable[pid]].pinCount > 0
      modifies this`unpinned, metas
      ensures State() == Unpin(old(State()), pid, dirty)
    {
      var index := pageTable[pid];
      var m := metas[index];
      if m.pinCount == 1 && !m.inQueue {
        unpinned := unpinned + [index];
        metas[index] := m.(pinCount := 0, inQueue := true, dirty := m.dirty || dirty);
      } else {
        metas[index] := m.(pinCount := m.pinCount - 1, dirty := m.dirty || dirty);
      }
    }

    // A fresh page at the end of the file, pinned. The file has room for it.
    method AllocateNewPage() returns (pid: PageID)
      requires Valid() && nextPid < MAX_PAGES && |Pins| < MaxPins && (|Pins| < POOL_SIZE || Available(State()))
      modifies this, metas, frames
      ensures Valid() && nextPid == old(nextPid) + 1 && pid == old(nextPid) && pid !in old(View)
      ensures View == old(View)[pid := BlankPage] && Touched == old(Touched) && Pins == old(Pins) + multiset{pid}
    {
      hide Serves;
      GrowOk(State(), View, Pins, Touched);
      pid := nextPid;
      disk := disk[pid := BlankPage];
      View := View[pid := BlankPage];
      nextPid := nextPid + 1;
      var r := RequestPage(pid);
    }

    // The content a pinned page pointer leads to.
    method Read(pid: PageID) returns (page: Page)
      requires Valid() && pid in Pins && pid in View
      ensures page == View[pid]
    {
      hide Serves;
      ServesPage(State(), View, Pins, Touched, pid);
      page := frames[pageTable[pid]];
    }

    // Writing through a pinned page pointer.
    method Write(pid: PageID, page: Page)
      requires Valid() && pid in Pins && pid in View
      modifies this`View, this`Touched, frames
      ensures Valid() && View == old(View)[pid := page] && Touched == old(Touched) + {pid}
    {
      hide Serves;
      StoreOk(State(), pid, page, View, Pins, Touched);
      View, Touched := View[pid := page], Touched + {pid};
      frames[pageTable[pid]] := page;
    }

    // The destructor: every dirty frame goes to disk, which then holds the view.
    method Flush()
      requires Valid()
      modifies this`disk, metas
      ensures Valid()
      ensures forall p | p in View && p !in Touched :: p in disk && disk[p] == View[p]
      ensures forall i | 0 <= i < metas.Length :: !metas[i].dirty
    {
      hide PoolOk, Pool.PinsAre, Pool.ViewOk, Untouched;
      ServesPage(State(), View, Pins, Touched, 0);
      for index := 0 to POOL_SIZE
        invariant Valid() && metas.Length == frames.Length == POOL_SIZE
        invariant forall i | 0 <= i < index :: !metas[i].dirty
      {
        FlushOk(State(), index, View, Pins, Touched);
        if metas[index].dirty {
          disk := disk[metas[index].pageId := frames[index]];
          metas[index] := metas[index].(dirty := false);
        }
      }
      AllFlushed(State(), View, Pins, Touched);
    }
  }
}
