// The typed content of a page, and payloads that continue in overflow pages.
module Pages {
  import opened Bytes
  import opened Memory
  import opened Tuples
  import opened LeafLayout
  import opened InternalPages

  const OVERFLOW_HEADER: nat := 18
  const OVERFLOW_CHUNK: nat := 4078  // PAGE_SIZE - OVERFLOW_HEADER

  datatype Overflow = Overflow(pid: PageID, more: bool, next: PageID, data: seq<Byte>)

  datatype Page =
    | BlankPage
    | MetaPage(magic: nat, root: PageID)
    | LeafPg(leaf: Leaf)
    | InternalPg(node: Node)
    | OverflowPg(over: Overflow)

  type PageMap = map<PageID, Page>

  class OverflowPage {
    var pid: PageID
    var more: bool
    var next: PageID
    const data: array<Byte>

    function Value(): Overflow
      reads this, data
    {
      Overflow(pid, more, next, data[..])
    }

    // A zeroed page just taken from the pool.
    constructor Blank(pid: PageID)
      ensures this.pid == pid && !more && next == 0 && data.Length == PAGE_SIZE && fresh(data)
    {
      this.pid, more, next := pid, false, 0;
      data := new Byte[PAGE_SIZE](i => 0);
    }

    method WriteChunkOverflow(buffer: seq<Byte>) returns (written: nat)
      requires data.Length == PAGE_SIZE && !more
      modifies this, data
      ensures written == if |buffer| <= OVERFLOW_CHUNK then |buffer| else OVERFLOW_CHUNK
      ensures |data[..]| == PAGE_SIZE && data[OVERFLOW_HEADER..OVERFLOW_HEADER + written] == buffer[..written]
      ensures !more && pid == old(pid)
    {
      if |buffer| + OVERFLOW_HEADER > PAGE_SIZE {
        written := OVERFLOW_CHUNK;
      } else {
        written := |buffer|;
        more, next := false, 0;
      }
      CopyInto(data, OVERFLOW_HEADER, buffer[..written]);
    }
  }

  // The page p of an overflow chain holds the next part of the remaining bytes.
  ghost predicate ChunkAt(store: PageMap, p: PageID, rest: seq<Byte>) {
    && p in store && store[p].OverflowPg? && |store[p].over.data| == PAGE_SIZE
    && (if |rest| <= OVERFLOW_CHUNK then
          !store[p].over.more && store[p].over.data[OVERFLOW_HEADER..OVERFLOW_HEADER + |rest|] == rest
        else
          store[p].over.more && store[p].over.data[OVERFLOW_HEADER..] == rest[..OVERFLOW_CHUNK])
  }

  ghost predicate ChainAt(store: PageMap, p: PageID, rest: seq<Byte>)
    decreases |rest|
  {
    && ChunkAt(store, p, rest)
    && (|rest| > OVERFLOW_CHUNK ==> ChainAt(store, store[p].over.next, rest[OVERFLOW_CHUNK..]))
  }

  // The bytes of a tuple and of its overflow chain are exactly the payload.
  ghost predicate Stored(store: PageMap, t: Tuple, payload: seq<Byte>) {
    && |t| >= MIN_TUPLE && |t| - TUPLE_HEADER_SIZE <= |payload|
    && t[TUPLE_HEADER_SIZE..] == payload[..|t| - TUPLE_HEADER_SIZE]
    && DecodeHeader(t).size == |payload|
    && DecodeHeader(t).overflow == (|t| - TUPLE_HEADER_SIZE < |payload|)
    && (DecodeHeader(t).overflow ==>
          ChainAt(store, DecodeHeader(t).page, payload[|t| - TUPLE_HEADER_SIZE..]))
  }

  // Overflow pages are written once and never change afterwards.
  ghost predicate KeepsOverflow(store: PageMap, store': PageMap) {
    forall p | p in store && store[p].OverflowPg? :: p in store' && store'[p] == store[p]
  }

  lemma {:induction false} ChainFrame(store: PageMap, store': PageMap, p: PageID, rest: seq<Byte>)
    requires ChainAt(store, p, rest) && KeepsOverflow(store, store')
    ensures ChainAt(store', p, rest)
    decreases |rest|
  {
    if |rest| > OVERFLOW_CHUNK {
      ChainFrame(store, store', store[p].over.next, rest[OVERFLOW_CHUNK..]);
    }
  }

  lemma StoredFrame(store: PageMap, store': PageMap, t: Tuple, payload: seq<Byte>)
    requires Stored(store, t, payload) && KeepsOverflow(store, store')
    ensures Stored(store', t, payload)
  {
    hide DecodeHeader;
    if DecodeHeader(t).overflow {
      ChainFrame(store, store', DecodeHeader(t).page, payload[|t| - TUPLE_HEADER_SIZE..]);
    }
  }
}
