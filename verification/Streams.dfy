// Reading a payload piece by piece: first from its leaf page, then along its
// overflow chain (database/src/impl/page/leaf_page.cpp, PayloadStream).
module Streams {
  import opened Bytes
  import opened Tuples
  import opened Pages
  import opened BufferPools
  import opened PageOps

  function RawBytes(page: Page): seq<Byte> {
    match page
    case LeafPg(p) => p.data
    case OverflowPg(o) => o.data
    case _ => []
  }

  // A position in a payload: the next byte to read, the end of the page's part,
  // and the overflow page after it.
  datatype Cursor = Cursor(pid: PageID, offset: nat, end: nat, overflow: bool, next: PageID)

  // The unread bytes start at the cursor and go on, if flagged, in the overflow chain.
  ghost predicate Here(s: PageMap, c: Cursor, rest: seq<Byte>) {
    && c.pid in s && c.offset < c.end <= |RawBytes(s[c.pid])|
    && (if c.overflow then
          && c.end - c.offset < |rest| && RawBytes(s[c.pid])[c.offset..c.end] == rest[..c.end - c.offset]
          && ChainAt(s, c.next, rest[c.end - c.offset..])
        else
          |rest| <= c.end - c.offset && RawBytes(s[c.pid])[c.offset..c.offset + |rest|] == rest)
  }

  // An overflow page read from its start.
  lemma ChainHere(s: PageMap, p: PageID, rest: seq<Byte>)
    requires ChainAt(s, p, rest)
    ensures p in s && s[p].OverflowPg?
    ensures Here(s, Cursor(p, OVERFLOW_HEADER, PAGE_SIZE, s[p].over.more, s[p].over.next), rest)
  {
  }

  // A stored tuple read from behind its header.
  lemma StoredHere(s: PageMap, pid: PageID, offset: nat, end: nat, t: Tuple, payload: seq<Byte>)
    requires Stored(s, t, payload) && pid in s && offset + TUPLE_HEADER_SIZE <= end <= |RawBytes(s[pid])|
    requires RawBytes(s[pid])[offset..end] == t && |payload| > 0
    ensures DecodeHeader(t).size == |payload|
    ensures Here(s, Cursor(pid, offset + TUPLE_HEADER_SIZE, end, DecodeHeader(t).overflow, DecodeHeader(t).page),
                 payload)
  {
    hide DecodeHeader, ChainAt;
    assert RawBytes(s[pid])[offset + TUPLE_HEADER_SIZE..end] == t[TUPLE_HEADER_SIZE..];
  }

  // Reading k bytes within the page.
  lemma HereAdvance(s: PageMap, c: Cursor, rest: seq<Byte>, k: nat)
    requires Here(s, c, rest) && k <= |rest| && k <= c.end - c.offset
    ensures RawBytes(s[c.pid])[c.offset..c.offset + k] == rest[..k]
    ensures c.offset + k < c.end ==> Here(s, c.(offset := c.offset + k), rest[k..])
    ensures c.offset + k == c.end && c.overflow ==> |rest[k..]| > 0 && ChainAt(s, c.next, rest[k..])
    ensures c.offset + k == c.end && !c.overflow ==> rest[k..] == []
  {
    hide ChainAt;
    var n := if c.overflow then c.end - c.offset else |rest|;
    assert rest[..|rest|] == rest;
    WindowAdvance(RawBytes(s[c.pid]), c.offset, n, rest, k);
  }

  lemma WindowAdvance(data: seq<Byte>, offset: nat, n: nat, rest: seq<Byte>, k: nat)
    requires offset + n <= |data| && k <= n <= |rest| && data[offset..offset + n] == rest[..n]
    ensures data[offset..offset + k] == rest[..k] && data[offset + k..offset + n] == rest[k..][..n - k]
    ensures rest[k..][n - k..] == rest[n..]
  {
    assert data[offset..offset + k] == data[offset..offset + n][..k];
    assert data[offset + k..offset + n] == data[offset..offset + n][k..];
    assert rest[..n][k..] == rest[k..][..n - k];
  }

  lemma HerePage(s: PageMap, c: Cursor, rest: seq<Byte>)
    requires Here(s, c, rest)
    ensures c.pid in s && c.offset < c.end <= |RawBytes(s[c.pid])|
  {
  }

  function Min(a: nat, b: nat): nat {
    if a <= b then a else b
  }

  method ReadPage(page: Page, n: nat, start: nat, end: nat) returns (bytes: seq<Byte>, result: nat)
    requires start < end <= |RawBytes(page)|
    ensures result == start + Min(n, end - start) && bytes == RawBytes(page)[start..result]
  {
    var possible := end - start;
    result := if n <= possible then start + n else start + possible;
    bytes := RawBytes(page)[start..result];
  }

  // Goes on to the first byte of the next overflow page.
  method NextPage(pool: BufferPool, c: Cursor, ghost rest: seq<Byte>) returns (page: Page, c': Cursor)
    requires pool.Valid() && c.pid in pool.Pins && pool.Touched == {} && |pool.Pins| <= pool.Budget()
    requires ChainAt(pool.View, c.next, rest)
    modifies pool, pool.metas, pool.frames
    ensures pool.Valid() && pool.View == old(pool.View) && pool.Touched == {} && pool.nextPid == old(pool.nextPid)
    ensures pool.Pins == old(pool.Pins) - multiset{c.pid} + multiset{c'.pid}
    ensures c'.pid in pool.View && page == pool.View[c'.pid] && Here(pool.View, c', rest)
  {
    hide BufferPool.Valid, Here;
    ChainHere(pool.View, c.next, rest);
    hide ChainAt;
    Release(pool, c.pid, false);
    page := Fetch(pool, c.next);
    c' := Cursor(c.next, OVERFLOW_HEADER, PAGE_SIZE, page.over.more, page.over.next);
  }

  // One round of the loop: what the page has, then on to the next page if the end
  // of this one was reached.
  method ReadSome(pool: BufferPool, page: Page, c: Cursor, toRead: nat, ghost rest: seq<Byte>)
    returns (chunk: seq<Byte>, page': Page, c': Cursor, stop: bool)
    requires pool.Valid() && c.pid in pool.Pins && pool.Touched == {} && |pool.Pins| <= pool.Budget()
    requires 0 < toRead <= |rest| && Here(pool.View, c, rest) && c.pid in pool.View && page == pool.View[c.pid]
    modifies pool, pool.metas, pool.frames
    ensures pool.Valid() && pool.View == old(pool.View) && pool.Touched == {} && pool.nextPid == old(pool.nextPid)
    ensures pool.Pins == old(pool.Pins) - multiset{c.pid} + multiset{c'.pid}
    ensures c'.pid in pool.View && page' == pool.View[c'.pid]
    ensures 0 < |chunk| <= toRead && chunk == rest[..|chunk|]
    ensures rest[|chunk|..] != [] ==> Here(pool.View, c', rest[|chunk|..])
    ensures stop ==> |chunk| == toRead
  {
    hide BufferPool.Valid, ChainAt, Here;
    HerePage(pool.View, c, rest);
    page', c', stop := page, c, true;
    var result;
    chunk, result := ReadPage(page, toRead, c.offset, c.end);
    HereAdvance(pool.View, c, rest, |chunk|);
    if result == c.end {
      if c.overflow {
        page', c' := NextPage(pool, c, rest[|chunk|..]);
        stop := false;
      }
    } else {
      c' := c.(offset := result);
    }
  }

  method ReadLoop(pool: BufferPool, c: Cursor, n: nat, ghost rest: seq<Byte>) returns (buffer: seq<Byte>, c': Cursor)
    requires pool.Valid() && pool.Touched == {} && |pool.Pins| < pool.Budget()
    requires rest != [] && n <= |rest| && Here(pool.View, c, rest)
    modifies pool, pool.metas, pool.frames
    ensures pool.Valid() && pool.View == old(pool.View) && pool.Touched == {} && pool.nextPid == old(pool.nextPid)
    ensures pool.Pins == old(pool.Pins)
    ensures buffer == rest[..n] && (rest[n..] != [] ==> Here(pool.View, c', rest[n..]))
  {
    hide BufferPool.Valid, Here;
    HerePage(pool.View, c, rest);
    var page := Fetch(pool, c.pid);
    buffer, c' := [], c;
    var toRead, stop := n, false;
    ghost var left := rest;
    while toRead > 0 && !stop
      invariant pool.Valid() && pool.View == old(pool.View) && pool.Touched == {} && pool.nextPid == old(pool.nextPid)
      invariant pool.Pins == old(pool.Pins) + multiset{c'.pid} && c'.pid in pool.View && page == pool.View[c'.pid]
      invariant 0 <= toRead <= |left| && (stop ==> toRead == 0)
      invariant SoFar(rest, n, buffer, left, toRead)
      invariant left != [] ==> Here(pool.View, c', left)
      decreases toRead
    {
      hide SoFar;
      var chunk;
      chunk, page, c', stop := ReadSome(pool, page, c', toRead, left);
      Onwards(rest, n, buffer, left, toRead, chunk);
      buffer := buffer + chunk;
      left := left[|chunk|..];
      toRead := toRead - |chunk|;
    }
    Release(pool, c'.pid, false);
  }

  // The buffer and what is left are the whole; toRead bytes of n are still to come.
  ghost predicate SoFar(rest: seq<Byte>, n: nat, buffer: seq<Byte>, left: seq<Byte>, toRead: int) {
    buffer + left == rest && |buffer| + toRead == n
  }

  lemma Onwards(rest: seq<Byte>, n: nat, buffer: seq<Byte>, left: seq<Byte>, toRead: int, chunk: seq<Byte>)
    requires SoFar(rest, n, buffer, left, toRead) && |chunk| <= |left| && chunk == left[..|chunk|]
    ensures SoFar(rest, n, buffer + chunk, left[|chunk|..], toRead - |chunk|)
  {
    assert buffer + chunk + left[|chunk|..] == buffer + left;
  }

  class PayloadStream {
    const pool: BufferPool?
    var at: Cursor
    const totalBytes: nat
    var bytesRead: nat

    ghost var Rest: seq<Byte>  // the bytes not yet read

    ghost predicate Counted()
      reads this
    {
      totalBytes == bytesRead + |Rest|
    }

    ghost predicate Valid()
      reads this, if pool == null then {} else {pool}, if pool == null then {} else {pool.metas, pool.frames}
    {
      && Counted()
      && (Rest != [] ==> pool != null && pool.Valid() && Here(pool.View, at, Rest))
    }

    // The pool can serve the next read: no page is being written, and a pin is left.
    ghost predicate Ready()
      reads this, if pool == null then {} else {pool}, if pool == null then {} else {pool.metas, pool.frames}
    {
      && Valid()
      && (pool != null ==> pool.Valid() && pool.Touched == {} && |pool.Pins| < pool.Budget())
    }

    // A stream over nothing.
    constructor Empty()
      ensures pool == null && Rest == [] && Valid()
    {
      pool, at, totalBytes, bytesRead, Rest := null, Cursor(0, 0, 0, false, 0), 0, 0, [];
    }

    // A stream over the payload of the tuple stored at the offset of a leaf page.
    constructor OfTuple(pool: BufferPool, leafPid: PageID, tupleOffset: nat, tupleEnd: nat, header: TupleHeader,
                        ghost t: Tuple, ghost payload: seq<Byte>)
      requires pool.Valid() && Stored(pool.View, t, payload) && |payload| > 0 && header == DecodeHeader(t)
      requires leafPid in pool.View && tupleOffset + TUPLE_HEADER_SIZE <= tupleEnd <= |RawBytes(pool.View[leafPid])|
      requires RawBytes(pool.View[leafPid])[tupleOffset..tupleEnd] == t
      ensures this.pool == pool && Rest == payload && Valid()
    {
      this.pool, at := pool, Cursor(leafPid, tupleOffset + TUPLE_HEADER_SIZE, tupleEnd, header.overflow, header.page);
      totalBytes, bytesRead, Rest := header.size, 0, payload;
      new;
      hide BufferPool.Valid, DecodeHeader, Stored, Here;
      StoredHere(pool.View, leafPid, tupleOffset, tupleEnd, t, payload);
    }

    predicate IsEOF()
      reads this
      requires Counted()
      ensures IsEOF() <==> Rest == []
    {
      bytesRead >= totalBytes
    }

    function PayloadRemaining(): (n: nat)
      reads this
      requires Counted()
      ensures n == |Rest|
    {
      totalBytes - bytesRead
    }

    // The next n bytes of the payload, or all that is left.
    method NextBytes(n: nat) returns (buffer: seq<Byte>)
      requires Ready()
      modifies this, if pool == null then {} else {pool, pool.metas, pool.frames}
      ensures Ready()
      ensures pool != null ==>
                pool.View == old(pool.View) && pool.Pins == old(pool.Pins) && pool.nextPid == old(pool.nextPid)
      ensures buffer == old(Rest)[..Min(n, |old(Rest)|)] && Rest == old(Rest)[|buffer|..]
    {
      hide BufferPool.Valid, Here;
      var possible := totalBytes - bytesRead;
      var toRead := Min(n, possible);
      if possible == 0 {
        return [];
      }
      buffer, at := ReadLoop(pool, at, toRead, Rest);
      bytesRead, Rest := bytesRead + |buffer|, Rest[toRead..];
    }
  }

  // Any run of requests yields a prefix of the payload, and all of it once they
  // add up to its length.
  function Sum(sizes: seq<nat>): nat {
    if sizes == [] then 0 else sizes[0] + Sum(sizes[1..])
  }

  function Gathered(rest: seq<Byte>, sizes: seq<nat>): seq<Byte>
    decreases sizes
  {
    if sizes == [] then [] else
    var k := Min(sizes[0], |rest|);
    rest[..k] + Gathered(rest[k..], sizes[1..])
  }

  lemma {:induction false} GatheredPrefix(rest: seq<Byte>, sizes: seq<nat>)
    ensures Gathered(rest, sizes) == rest[..Min(Sum(sizes), |rest|)]
    ensures Gathered(rest, sizes) == rest <==> Sum(sizes) >= |rest|
    decreases sizes
  {
    if sizes != [] {
      var k := Min(sizes[0], |rest|);
      GatheredPrefix(rest[k..], sizes[1..]);
      var n := Min(Sum(sizes), |rest|);
      assert rest[..k] + rest[k..][..n - k] == rest[..n];
    }
  }

  // Reads pieces of the given sizes, one after the other.
  method ReadPieces(stream: PayloadStream, sizes: seq<nat>) returns (sent: seq<Byte>)
    requires stream.Ready()
    modifies stream, if stream.pool == null then {} else {stream.pool, stream.pool.metas, stream.pool.frames}
    ensures sent == old(stream.Rest)[..Min(Sum(sizes), |old(stream.Rest)|)]
    ensures stream.Ready() && stream.Rest == old(stream.Rest)[|sent|..]
    ensures stream.IsEOF() <==> Sum(sizes) >= |old(stream.Rest)|
    ensures stream.pool != null ==>
              && stream.pool.View == old(stream.pool.View) && stream.pool.Pins == old(stream.pool.Pins)
              && stream.pool.nextPid == old(stream.pool.nextPid)
  {
    hide BufferPool.Valid, Here, Gathered, Sum;
    ghost var rest := stream.Rest;
    sent := [];
    var i := 0;
    NothingGathered(rest, sizes);
    while i < |sizes|
      invariant 0 <= i <= |sizes| && stream.Ready()
      invariant sent + stream.Rest == rest && Gathered(rest, sizes) == sent + Gathered(stream.Rest, sizes[i..])
      invariant stream.pool != null ==>
                  && stream.pool.View == old(stream.pool.View) && stream.pool.Pins == old(stream.pool.Pins)
                  && stream.pool.nextPid == old(stream.pool.nextPid)
    {
      ghost var left := stream.Rest;
      var buffer := stream.NextBytes(sizes[i]);
      NextGathered(rest, sizes, i, sent, left, buffer, stream.Rest);
      sent := sent + buffer;
      i := i + 1;
    }
    AllGathered(rest, sizes, sent, stream.Rest);
  }

  lemma NothingGathered(rest: seq<Byte>, sizes: seq<nat>)
    ensures [] + rest == rest && Gathered(rest, sizes) == [] + Gathered(rest, sizes[0..])
  {
    assert sizes[0..] == sizes;
  }

  lemma NextGathered(rest: seq<Byte>, sizes: seq<nat>, i: nat, sent: seq<Byte>, left: seq<Byte>, buffer: seq<Byte>,
                     left': seq<Byte>)
    requires i < |sizes| && sent + left == rest && Gathered(rest, sizes) == sent + Gathered(left, sizes[i..])
    requires buffer == left[..Min(sizes[i], |left|)] && left' == left[|buffer|..]
    ensures (sent + buffer) + left' == rest
    ensures Gathered(rest, sizes) == (sent + buffer) + Gathered(left', sizes[i + 1..])
  {
    assert sizes[i..][1..] == sizes[i + 1..] && buffer + left' == left;
    assert Gathered(left, sizes[i..]) == buffer + Gathered(left', sizes[i + 1..]);
    assert sent + (buffer + Gathered(left', sizes[i + 1..])) == (sent + buffer) + Gathered(left', sizes[i + 1..]);
  }

  lemma AllGathered(rest: seq<Byte>, sizes: seq<nat>, sent: seq<Byte>, left: seq<Byte>)
    requires sent + left == rest && Gathered(rest, sizes) == sent + Gathered(left, sizes[|sizes|..])
    ensures sent == rest[..Min(Sum(sizes), |rest|)] && left == rest[|sent|..]
    ensures left == [] <==> Sum(sizes) >= |rest|
  {
    hide Sum;
    assert sent + [] == sent;
    GatheredPrefix(rest, sizes);
  }

  // The pieces of a reply, put together.
  function Whole(pieces: seq<seq<Byte>>): seq<Byte> {
    if pieces == [] then [] else Whole(pieces[..|pieces| - 1]) + pieces[|pieces| - 1]
  }

  // Pieces of 1024 bytes, of which the last one may be shorter.
  predicate Even(pieces: seq<seq<Byte>>) {
    && (forall i | 0 <= i < |pieces| - 1 :: |pieces[i]| == 1024)
    && (pieces != [] ==> 0 < |pieces[|pieces| - 1]| <= 1024)
  }

  lemma AddPiece(pieces: seq<seq<Byte>>, piece: seq<Byte>)
    ensures Whole(pieces + [piece]) == Whole(pieces) + piece
  {
    assert (pieces + [piece])[..|pieces|] == pieces;
  }

  // The reply loop of the server: the length first, then chunks of 1024 bytes until the
  // stream ends.
  method SendPayload(stream: PayloadStream) returns (total: nat, pieces: seq<seq<Byte>>)
    requires stream.Ready()
    modifies stream, if stream.pool == null then {} else {stream.pool, stream.pool.metas, stream.pool.frames}
    ensures stream.Ready() && stream.IsEOF()
    ensures Whole(pieces) == old(stream.Rest) && total == |old(stream.Rest)| && Even(pieces)
    ensures stream.pool != null ==>
              && stream.pool.View == old(stream.pool.View) && stream.pool.Pins == old(stream.pool.Pins)
              && stream.pool.nextPid == old(stream.pool.nextPid)
  {
    hide BufferPool.Valid, Here, Whole;
    total := stream.PayloadRemaining();
    pieces := [];
    NoPieces();
    while !stream.IsEOF()
      invariant stream.Ready() && Whole(pieces) + stream.Rest == old(stream.Rest)
      invariant Even(pieces) && (stream.Rest != [] ==> forall i | 0 <= i < |pieces| :: |pieces[i]| == 1024)
      invariant stream.pool != null ==>
                  && stream.pool.View == old(stream.pool.View) && stream.pool.Pins == old(stream.pool.Pins)
                  && stream.pool.nextPid == old(stream.pool.nextPid)
      decreases |stream.Rest|
    {
      ghost var rest := stream.Rest;
      var buffer := stream.NextBytes(1024);
      AddPiece(pieces, buffer);
      assert Whole(pieces) + rest == (Whole(pieces) + buffer) + stream.Rest;
      pieces := pieces + [buffer];
    }
  }

  lemma NoPieces()
    ensures Whole([]) == []
  {
  }
}
