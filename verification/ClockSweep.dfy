// Invariant of the second-chance sweep over the queue of unpinned frames.
module ClockSweep {
  import opened Bytes
  import opened Pages
  import opened PoolState

  // The sweep changes nothing but reference bits and queue flags.
  ghost predicate SameButQueue(m: FrameMeta, n: FrameMeta) {
    m.pageId == n.pageId && m.pinCount == n.pinCount && m.dirty == n.dirty
  }

  ghost predicate Unaltered(metas: seq<FrameMeta>, before: seq<FrameMeta>) {
    |metas| == |before| && forall i | 0 <= i < |metas| :: SameButQueue(metas[i], before[i])
  }

  // The unpinned frames of a queue, in order.
  function Idle(queue: seq<nat>, metas: seq<FrameMeta>): (u: seq<nat>)
    ensures forall j :: j in u <==> j in queue && j < |metas| && metas[j].pinCount == 0
    ensures |u| <= |queue|
  {
    if queue == [] then [] else
    var q, x := queue[..|queue| - 1], queue[|queue| - 1];
    assert forall j :: j in queue <==> j in q || j == x;
    Idle(q, metas) + if x < |metas| && metas[x].pinCount == 0 then [x] else []
  }

  predicate Referenced(metas: seq<FrameMeta>, j: nat) {
    j < |metas| && metas[j].referenced
  }

  // How many of the frames at the front are owed a second chance.
  function Spared(u: seq<nat>, metas: seq<FrameMeta>): (k: nat)
    ensures k <= |u| && (forall j | 0 <= j < k :: Referenced(metas, u[j])) && (k < |u| ==> !Referenced(metas, u[k]))
  {
    if u == [] || !Referenced(metas, u[0]) then 0 else
    var k := 1 + Spared(u[1..], metas);
    assert forall j | 1 <= j < |u| :: u[j] == u[1..][j - 1];
    k
  }

  // The first unpinned frame without its reference bit, or the first one if all have it.
  function Choice(s: Pool): nat {
    var u := Idle(s.queue, s.metas);
    var k := Spared(u, s.metas);
    if k < |u| then u[k] else if u != [] then u[0] else 0
  }

  // The queue and the reference bits once the choice has been made: the frames that
  // got a second chance have lost their bit and are queued again, in order, behind
  // those that were not looked at.
  ghost predicate Chosen(s: Pool, queue: seq<nat>, metas: seq<FrameMeta>) {
    var u := Idle(s.queue, s.metas);
    var k := Spared(u, s.metas);
    && u != [] && |metas| == |s.metas|
    && (if k < |u| then
          exists p :: 0 <= p < |s.queue| && s.queue[p] == u[k] && queue == s.queue[p + 1..] + u[..k]
        else
          queue == u[1..])
    && forall j | 0 <= j < |metas| :: metas[j].referenced == (s.metas[j].referenced && j !in u[..k])
  }

  // After i of the queued frames, those that got a second chance are the unpinned
  // ones among them.
  ghost predicate Chances(s: Pool, i: nat, metas: seq<FrameMeta>, second: seq<nat>) {
    && i <= |s.queue| && |metas| == |s.metas| && second == Idle(s.queue[..i], s.metas)
    && (forall j | 0 <= j < |second| :: Referenced(s.metas, second[j]))
    && forall j | 0 <= j < |metas| :: metas[j].referenced == (s.metas[j].referenced && j !in second)
  }

  lemma NoChances(s: Pool)
    ensures Chances(s, 0, s.metas, [])
  {
    assert s.queue[..0] == [];
  }

  lemma PinnedChances(s: Pool, i: nat, metas: seq<FrameMeta>, second: seq<nat>, x: nat)
    requires Chances(s, i, metas, second) && i < |s.queue| && s.queue[i] == x < |metas| && s.metas[x].pinCount > 0
    ensures Chances(s, i + 1, metas[x := metas[x].(inQueue := false)], second)
  {
    assert s.queue[..i + 1][..i] == s.queue[..i];
  }

  lemma NextChance(s: Pool, i: nat, metas: seq<FrameMeta>, second: seq<nat>, x: nat)
    requires Chances(s, i, metas, second) && i < |s.queue| && s.queue[i] == x < |metas| && s.metas[x].pinCount == 0
    requires metas[x].referenced
    ensures Chances(s, i + 1, metas[x := metas[x].(referenced := false)], second + [x])
  {
    assert s.queue[..i + 1][..i] == s.queue[..i];
    assert forall j :: j in second + [x] <==> j in second || j == x;
  }

  lemma IdleStep(q: seq<nat>, x: nat, metas: seq<FrameMeta>)
    ensures Idle(q + [x], metas) == Idle(q, metas) + if x < |metas| && metas[x].pinCount == 0 then [x] else []
    ensures Idle([], metas) == []
  {
    assert (q + [x])[..|q + [x]| - 1] == q;
  }

  lemma {:induction false} IdleConcat(a: seq<nat>, b: seq<nat>, metas: seq<FrameMeta>)
    ensures Idle(a + b, metas) == Idle(a, metas) + Idle(b, metas)
    decreases |b|
  {
    hide Idle;
    if b == [] {
      assert a + b == a;
      IdleStep(a, 0, metas);
    } else {
      var c, x := b[..|b| - 1], b[|b| - 1];
      IdleConcat(a, c, metas);
      IdleStep(c, x, metas);
      IdleStep(a + c, x, metas);
      assert b == c + [x] && a + b == (a + c) + [x];
    }
  }

  lemma SparedAt(u: seq<nat>, metas: seq<FrameMeta>, k: nat)
    requires k <= |u| && (forall j | 0 <= j < k :: Referenced(metas, u[j])) && (k < |u| ==> !Referenced(metas, u[k]))
    ensures Spared(u, metas) == k
  {
    hide Referenced;
    var n := Spared(u, metas);
  }

  // The frame that the sweep stops at is the choice.
  lemma ChoiceMade(s: Pool, i: nat, queue: seq<nat>, metas: seq<FrameMeta>, second: seq<nat>)
    requires Chances(s, i, metas, second) && queue == s.queue[i..] + second && queue != [] && Distinct(s.queue)
    requires queue[0] < |metas| && s.metas[queue[0]].pinCount == 0 && !metas[queue[0]].referenced
    ensures queue[0] == Choice(s) && Chosen(s, queue[1..], metas)
  {
    ChancesAre(s, i, metas, second);
    hide *;
    if i < |s.queue| {
      FrontOf(s.queue, i, second, queue);
      IdleSplit(s.queue, i, s.metas);
      ChoiceEarly(s, i, queue[1..], queue[0], metas, second, Idle(s.queue[i + 1..], s.metas));
    } else {
      assert queue == second;
      ChoiceLate(s, metas, second);
    }
  }

  lemma FrontOf(q: seq<nat>, i: nat, second: seq<nat>, queue: seq<nat>)
    requires i < |q| && queue == q[i..] + second
    ensures queue[0] == q[i] && queue[1..] == q[i + 1..] + second
  {
  }

  lemma ChancesAre(s: Pool, i: nat, metas: seq<FrameMeta>, second: seq<nat>)
    requires Chances(s, i, metas, second) && Distinct(s.queue)
    ensures i <= |s.queue| && |metas| == |s.metas| && second == Idle(s.queue[..i], s.metas)
    ensures i < |s.queue| ==> s.queue[i] !in second
  {
    hide Idle;
  }

  lemma IdleSplit(queue: seq<nat>, i: nat, metas: seq<FrameMeta>)
    requires i < |queue| && queue[i] < |metas| && metas[queue[i]].pinCount == 0
    ensures Idle(queue, metas) == Idle(queue[..i], metas) + [queue[i]] + Idle(queue[i + 1..], metas)
  {
    hide Idle;
    assert queue[..i + 1] == queue[..i] + [queue[i]] && queue == queue[..i + 1] + queue[i + 1..];
    IdleConcat(queue[..i + 1], queue[i + 1..], metas);
    IdleStep(queue[..i], queue[i], metas);
  }

  lemma ChoiceEarly(s: Pool, i: nat, queue: seq<nat>, x: nat, metas: seq<FrameMeta>, second: seq<nat>,
                    after: seq<nat>)
    requires Chances(s, i, metas, second) && i < |s.queue| && s.queue[i] == x < |metas| && !metas[x].referenced
    requires queue == s.queue[i + 1..] + second && Idle(s.queue, s.metas) == second + [x] + after
    requires s.metas[x].pinCount == 0 && x !in second
    ensures x == Choice(s) && Chosen(s, queue, metas)
  {
    hide Idle, Spared;
    SparedEarly(Idle(s.queue, s.metas), second, x, after, s.metas);
  }

  lemma SparedEarly(u: seq<nat>, second: seq<nat>, x: nat, after: seq<nat>, metas: seq<FrameMeta>)
    requires u == second + [x] + after && !Referenced(metas, x)
    requires forall j | 0 <= j < |second| :: Referenced(metas, second[j])
    ensures Spared(u, metas) == |second| < |u| && u[..|second|] == second && u[|second|] == x
  {
    hide Referenced, Spared;
    assert forall j | 0 <= j < |second| :: u[j] == second[j];
    SparedAt(u, metas, |second|);
  }

  lemma ChoiceLate(s: Pool, metas: seq<FrameMeta>, second: seq<nat>)
    requires Chances(s, |s.queue|, metas, second) && second != []
    ensures second[0] == Choice(s) && Chosen(s, second[1..], metas)
  {
    assert s.queue[..|s.queue|] == s.queue;
    hide Idle;
    SparedAt(second, s.metas, |second|);
    hide Spared;
    assert second[..|second|] == second;
  }

  // After i of the queued frames: the rest of the queue is still in front of
  // those that got a second chance, and pinned frames have been dropped.
  ghost predicate Sweep(s: Pool, i: nat, queue: seq<nat>, metas: seq<FrameMeta>, second: seq<nat>) {
    && Distinct(s.queue) && (forall j | j in s.queue :: j < POOL_SIZE)
    && i <= |s.queue| && queue == s.queue[i..] + second
    && |metas| == |s.metas| == POOL_SIZE
    && (forall j | 0 <= j < POOL_SIZE :: SameButQueue(metas[j], s.metas[j]) && (j in s.queue || metas[j] == s.metas[j]))
    && (forall j | j in second :: j in s.queue[..i] && j in s.queue && metas[j].pinCount == 0 && !metas[j].referenced)
    && Distinct(second) && |second| <= i
    && (forall k | 0 <= k < i && s.queue[k] in s.queue && metas[s.queue[k]].pinCount == 0 :: s.queue[k] in second)
    && (forall j | 0 <= j < POOL_SIZE :: metas[j].inQueue <==> j in queue)
  }

  lemma SweepStart(s: Pool)
    requires PoolOk(s, -1)
    ensures Sweep(s, 0, s.queue, s.metas, [])
  {
    hide Pool.FramesOk, Pool.DiskOk, Pool.Resident;
    assert |s.metas| == POOL_SIZE by { FrameCount(s); }
  }

  lemma FrameCount(s: Pool)
    requires s.FramesOk()
    ensures |s.metas| == POOL_SIZE
  {
  }

  lemma QueueFacts(s: Pool)
    requires PoolOk(s, -1)
    ensures Distinct(s.queue) && |s.metas| == POOL_SIZE && forall j | j in s.queue :: j < POOL_SIZE
  {
  }

  lemma DropPinned(s: Pool, i: nat, queue: seq<nat>, metas: seq<FrameMeta>, second: seq<nat>)
    requires Sweep(s, i, queue, metas, second) && queue != [] && queue[0] in s.queue && metas[queue[0]].pinCount > 0
    ensures i < |s.queue| && queue[0] == s.queue[i]
    ensures Sweep(s, i + 1, queue[1..], metas[queue[0] := metas[queue[0]].(inQueue := false)], second)
  {
    hide SameButQueue;
    var x := queue[0];
    assert i == |s.queue| ==> x in second;
    assert x == s.queue[i] && s.queue[..i + 1] == s.queue[..i] + [x];
    assert s.queue[i..] == [x] + s.queue[i + 1..];
    assert queue[1..] == s.queue[i + 1..] + second;
    assert x !in s.queue[i + 1..] && x !in second;
    assert SameButQueue(metas[x].(inQueue := false), s.metas[x]) by { Same(metas[x], s.metas[x]); }
  }

  lemma Same(m: FrameMeta, n: FrameMeta)
    requires SameButQueue(m, n)
    ensures SameButQueue(m.(inQueue := false), n) && SameButQueue(m.(referenced := false), n)
  {
  }

  lemma SecondChance(s: Pool, i: nat, queue: seq<nat>, metas: seq<FrameMeta>, second: seq<nat>)
    requires Sweep(s, i, queue, metas, second) && queue != [] && queue[0] in s.queue
    requires metas[queue[0]].pinCount == 0 && metas[queue[0]].referenced
    ensures i < |s.queue| && queue[0] == s.queue[i]
    ensures Sweep(s, i + 1, queue[1..] + [queue[0]], metas[queue[0] := metas[queue[0]].(referenced := false)],
                  second + [queue[0]])
  {
    hide SameButQueue;
    var x := queue[0];
    assert i == |s.queue| ==> x in second;
    assert x == s.queue[i] && s.queue[..i + 1] == s.queue[..i] + [x];
    assert s.queue[i..] == [x] + s.queue[i + 1..];
    assert queue[1..] + [x] == s.queue[i + 1..] + (second + [x]);
    assert x !in second;
    Same(metas[x], s.metas[x]);
  }

  // The unpinned frame at the front leaves a well-formed pool behind.
  lemma Victim(s: Pool, i: nat, queue: seq<nat>, metas: seq<FrameMeta>, second: seq<nat>)
    requires PoolOk(s, -1) && Sweep(s, i, queue, metas, second) && queue != []
    ensures queue[0] in s.queue && queue[0] < POOL_SIZE == |metas|
            && metas[queue[0]].pinCount == s.metas[queue[0]].pinCount
    ensures metas[queue[0]].pinCount == 0 ==>
              PoolOk(s.(queue := queue[1..], metas := metas), queue[0]) && SomeUnpinned(s)
    ensures Unaltered(metas, s.metas)
  {
    QueueMembers(s, i, queue, metas, second);
    assert queue[0] in queue;
    if metas[queue[0]].pinCount == 0 {
      SweptFrames(s, queue[1..], metas);
      VictimQueue(s, i, queue, metas, second);
    }
  }

  lemma SweptQueue(s: Pool, i: nat, queue: seq<nat>, metas: seq<FrameMeta>, second: seq<nat>)
    requires Sweep(s, i, queue, metas, second)
    ensures i <= |s.queue| && queue == s.queue[i..] + second && |metas| == |s.metas| && Distinct(s.queue)
  {
  }

  lemma QueueMembers(s: Pool, i: nat, queue: seq<nat>, metas: seq<FrameMeta>, second: seq<nat>)
    requires Sweep(s, i, queue, metas, second)
    ensures forall j | j in queue :: j in s.queue
    ensures Distinct(queue)
  {
    hide SameButQueue;
    assert s.queue == s.queue[..i] + s.queue[i..];
    forall j, k | 0 <= j < k < |queue| ensures queue[j] != queue[k] {
      var n := |s.queue| - i;
      if k < n {
        assert queue[j] == s.queue[i + j] && queue[k] == s.queue[i + k];
      } else if j < n {
        assert queue[j] == s.queue[i + j] && queue[k] == second[k - n] && second[k - n] in s.queue[..i];
        var m :| 0 <= m < i && s.queue[..i][m] == second[k - n];
        assert s.queue[m] == second[k - n];
      } else {
        assert queue[j] == second[j - n] && queue[k] == second[k - n];
      }
    }
  }

  lemma SweptFrames(s: Pool, queue: seq<nat>, metas: seq<FrameMeta>)
    requires PoolOk(s, -1) && |metas| == POOL_SIZE
    requires forall j | 0 <= j < POOL_SIZE ::
               SameButQueue(metas[j], s.metas[j]) && (j in s.queue || metas[j] == s.metas[j])
    ensures s.(queue := queue, metas := metas).FramesOk()
  {
    var t := s.(queue := queue, metas := metas);
    assert forall i | 0 <= i < POOL_SIZE :: SameButQueue(metas[i], s.metas[i]) && (t.Resident(i) <==> s.Resident(i));
  }

  lemma VictimQueue(s: Pool, i: nat, queue: seq<nat>, metas: seq<FrameMeta>, second: seq<nat>)
    requires s.QueueOk(-1) && Sweep(s, i, queue, metas, second) && queue != []
    requires Distinct(queue) && (forall j | j in queue :: j in s.queue) && queue[0] in queue
             && metas[queue[0]].pinCount == 0
    ensures s.(queue := queue[1..], metas := metas).QueueOk(queue[0])
  {
    var x := queue[0];
    var t := s.(queue := queue[1..], metas := metas);
    assert queue == [x] + queue[1..];
    assert forall j | 0 <= j < POOL_SIZE :: SameButQueue(metas[j], s.metas[j]) && (t.Resident(j) <==> s.Resident(j));
    forall j | j in queue[1..] ensures j < POOL_SIZE && t.Resident(j) && j != x {
      var k :| 0 <= k < |queue[1..]| && queue[1..][k] == j;
      assert queue[k + 1] == j && j in queue;
    }
    forall j | 0 <= j < POOL_SIZE && j != x ensures metas[j].inQueue <==> j in queue[1..] {
      assert j in queue <==> j in queue[1..];
    }
    forall j | 0 <= j < POOL_SIZE && t.Resident(j) && metas[j].pinCount == 0 && j != x ensures j in queue[1..] {
      assert j in s.queue;
      StillQueued(s, i, queue, metas, second, j);
    }
  }

  // Every unpinned frame that was queued is queued again.
  lemma StillQueued(s: Pool, i: nat, queue: seq<nat>, metas: seq<FrameMeta>, second: seq<nat>, j: nat)
    requires Sweep(s, i, queue, metas, second) && j in s.queue
    ensures metas[j].pinCount == 0 ==> j in queue
  {
    hide SameButQueue;
    var k :| 0 <= k < |s.queue| && s.queue[k] == j;
    if k >= i {
      assert queue[k - i] == j;
    }
  }

  lemma NothingQueued(s: Pool, i: nat, queue: seq<nat>, metas: seq<FrameMeta>, second: seq<nat>)
    requires Sweep(s, i, queue, metas, second) && s.queue == []
    ensures queue == []
  {
  }

  // A sweep that ends with an empty queue has met pinned frames only.
  lemma AllPinned(s: Pool, i: nat, metas: seq<FrameMeta>, second: seq<nat>)
    requires PoolOk(s, -1) && Sweep(s, i, [], metas, second)
    ensures i == |s.queue| && forall j | j in s.queue :: j < POOL_SIZE && metas[j].pinCount > 0
    ensures PoolOk(s.(queue := [], metas := metas), -1) && !SomeUnpinned(s)
    ensures Unaltered(metas, s.metas)
  {
    QueueFacts(s);
    forall j | j in s.queue ensures metas[j].pinCount > 0 && s.metas[j].pinCount > 0 {
      assert SameButQueue(metas[j], s.metas[j]);
      StillQueued(s, i, [], metas, second, j);
    }
    SweptFrames(s, [], metas);
    var t := s.(queue := [], metas := metas);
    assert forall j | 0 <= j < POOL_SIZE :: SameButQueue(metas[j], s.metas[j]) && (t.Resident(j) <==> s.Resident(j));
  }

  lemma SamePages(metas: seq<FrameMeta>, before: seq<FrameMeta>)
    requires Unaltered(metas, before)
    ensures |metas| == |before| && forall i | 0 <= i < |metas| ::
              metas[i].pageId == before[i].pageId && metas[i].dirty == before[i].dirty
  {
  }

  // A sweep leaves the pool serving the same view.
  lemma SweepServes(s: Pool, queue: seq<nat>, metas: seq<FrameMeta>, view: PageMap, pins: multiset<PageID>,
                    touched: set<PageID>)
    requires Serves(s, view, pins, touched) && Unaltered(metas, s.metas)
    ensures var t := s.(queue := queue, metas := metas);
            t.PinsAre(pins) && t.ViewOk(view, touched) && forall i | i in s.queue :: t.Resident(i)
  {
    assert forall i | 0 <= i < |metas| :: SameButQueue(metas[i], s.metas[i]);
  }
}
