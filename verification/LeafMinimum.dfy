// How far a leaf keeps three tuples: splits and deletions that leave two behind
// (Architecture.md, database/src/impl/page/leaf_page.cpp).
module LeafMinimum {
  import opened Bytes
  import opened Tuples
  import opened LeafLayout
  import opened LeafEdits
  import opened LeafPages
  import LeafTransfers
  import opened LeafSplits
  import opened Pages

  // Five stored payloads of the largest size that fits a leaf whole fill it; its split
  // leaves two on the right.
  lemma SplitLeavesTwo() returns (v: Leaf)
    ensures Tight(v) && |v.Live()| == 5
    ensures forall i | 0 <= i < 5 ::
              |v.Live()[i]| == MAX_TUPLE && Stored(map[], v.Live()[i], v.Live()[i][TUPLE_HEADER_SIZE..])
    ensures forall c: nat | SplitsAt(v.Live(), c) :: |v.Live()| - c == 2
  {
    var s := LargestRun(5);
    LargestFacts(5);
    FiveCost(s);
    hide Cost, Compact, SplitsAt, Size, LeafLayout.Leaf.Live, LeafLayout.Leaf.Valid, Tight, Stored, TKey, LargestRun;
    v := PageHolding(s, 1, 0, 0);
    FullPage(v, s);
    forall c: nat | SplitsAt(v.Live(), c) ensures |v.Live()| - c == 2 {
      ThreeEach(v, c);
      FiveSplits(s, c);
    }
  }

  // Tuples of the largest size with ascending keys.
  ghost function LargestRun(n: nat): seq<Tuple>
    requires n < KEY_LIMIT
  {
    if n == 0 then [] else LargestRun(n - 1) + [Largest(n - 1)]
  }

  lemma {:induction false} LargestFacts(n: nat)
    requires n < KEY_LIMIT
    ensures var s := LargestRun(n);
            |s| == n && Sorted(s) && forall i | 0 <= i < n :: |s[i]| == MAX_TUPLE && TKey(s[i]) == i
    ensures forall i | 0 <= i < n ::
              Stored(map[], LargestRun(n)[i], LargestRun(n)[i][TUPLE_HEADER_SIZE..])
  {
    hide Largest, TKey, Stored;
    if n > 0 {
      LargestFacts(n - 1);
      LargestKey(n - 1);
    }
  }

  // A payload that starts with its key and fills a tuple of the largest size.
  function LargestPayload(k: Key): (s: seq<Byte>)
    ensures |s| == MAX_TUPLE - TUPLE_HEADER_SIZE && s[..8] == Encode(k, 8)
  {
    Encode(k, 8) + seq(MAX_TUPLE - MIN_TUPLE, i => 0 as Byte)
  }

  function Largest(k: Key): (t: Tuple)
    ensures |t| == MAX_TUPLE
  {
    EncodeHeader(TupleHeader(false, 0, MAX_TUPLE - TUPLE_HEADER_SIZE)) + LargestPayload(k)
  }

  lemma LargestKey(k: Key)
    ensures TKey(Largest(k)) == k && Stored(map[], Largest(k), Largest(k)[TUPLE_HEADER_SIZE..])
  {
    hide TKey, Encode, EncodeHeader, DecodeHeader, LargestPayload;
    var h := TupleHeader(false, 0, MAX_TUPLE - TUPLE_HEADER_SIZE);
    HeaderRoundTrip(h, LargestPayload(k));
    ChunkKey(EncodeHeader(h), LargestPayload(k));
    Pow256Values();
    DecodeEncode(k, 8);
  }

  lemma FiveCost(s: seq<Tuple>)
    requires |s| == 5 && forall i | 0 <= i < 5 :: |s[i]| == MAX_TUPLE
    ensures Cost(s) == USABLE && Size(s[..2]) <= SPLIT_THRESHOLD < Size(s[..3])
  {
    assert Cost(s[4..]) == 813;
    assert s[3..][1..] == s[4..] && Cost(s[3..]) == 1626;
    assert s[2..][1..] == s[3..] && Cost(s[2..]) == 2439;
    assert s[1..][1..] == s[2..] && Cost(s[1..]) == 3252;
    SizeSmall(s, 2);
    assert s == s[..3] + s[3..];
    CostConcat(s[..3], s[3..]);
  }

  lemma FullPage(v: Leaf, s: seq<Tuple>)
    requires Compact(v) && v.Live() == s && Cost(s) == USABLE
    ensures Tight(v)
  {
    hide Cost, LeafLayout.Leaf.Live, LeafLayout.Leaf.Valid;
    CompactUsed(v);
  }

  lemma FiveSplits(s: seq<Tuple>, c: nat)
    requires |s| == 5 && c >= 3 && SplitsAt(s, c) && Size(s[..2]) <= SPLIT_THRESHOLD < Size(s[..3])
    ensures c == 3
  {
    hide Cost, Size;
    SizeMonotone(s, 3, 4);
  }

  // ----- deletions -----

  // A leaf with fewer than three tuples escapes the underflow threshold by what its
  // tombstones cost, and by nothing else.
  lemma FewNeedTombstones(v: Leaf)
    requires v.Valid() && |v.Live()| <= 2
    ensures v.Used() > UNDERFLOW <==> SLOT_SIZE * Tombstones(v.slots) > UNDERFLOW - Cost(v.Live()) >= 0
  {
    hide LeafLayout.Leaf.Valid, LeafLayout.Leaf.Live, LeafLayout.Leaf.Used, Tombstones;
    UsedMeaning(v);
    LeafTransfers.LiveTupleSizes(v);
    SmallCost(v.Live());
  }

  lemma SmallCost(s: seq<Tuple>)
    requires |s| <= 2 && forall i | 0 <= i < |s| :: |s[i]| <= MAX_TUPLE
    ensures Cost(s) <= UNDERFLOW
  {
    if |s| == 2 {
      assert s == [s[0]] + [s[1]];
      CostOne(s[0]);
      CostOne(s[1]);
      CostConcat([s[0]], [s[1]]);
    } else if |s| == 1 {
      assert s == [s[0]];
      CostOne(s[0]);
    }
  }

  // A deletion leaves a leaf with fewer than three tuples that is not underflown
  // exactly if it finds at most three and what they use without the key's tuple is
  // above the threshold.
  lemma DeletionLeavesFew(v: Leaf, w: Leaf, key: Key)
    requires v.Valid() && HasKey(v.Live(), key) && w.Live() == Without(v.Live(), key)
    requires w.Used() == v.Used() - SizeWith(v.Live(), key)
    ensures |w.Live()| < 3 && w.Used() > UNDERFLOW <==>
            |v.Live()| <= 3 && v.Used() - SizeWith(v.Live(), key) > UNDERFLOW
  {
    hide LeafLayout.Leaf.Used, SizeWith, TKey, Without, HasKey, LiveIn, Tup;
    assert Sorted(v.Live()) by {
      LiveSorted(v.slots, v.data);
    }
    WithoutOne(v.Live(), key);
  }

  lemma WithoutOne(s: seq<Tuple>, key: Key)
    requires Sorted(s) && HasKey(s, key)
    ensures |Without(s, key)| == |s| - 1
  {
    hide TKey, Without;
    var i :| 0 <= i < |s| && TKey(s[i]) == key;
    assert s == s[..i] + [s[i]] + s[i + 1..];
    KeyAlone(s, i);
    hide Sorted, HasKey;
    WithoutBetween(s[..i], s[i], s[i + 1..]);
  }

  lemma KeyAlone(s: seq<Tuple>, i: nat)
    requires Sorted(s) && i < |s|
    ensures !HasKey(s[..i], TKey(s[i])) && !HasKey(s[i + 1..], TKey(s[i]))
  {
    hide TKey;
  }

  // The page takes the whole payload of the next key.
  lemma NextLargest(v: Leaf, k: Key)
    requires v.Valid() && k < 3 && v.Live() == LargestRun(k) && v.Used() <= MAX_ENTRY * k
    ensures var payload := LargestPayload(k);
            && Decode(payload[..8]) == k && !HasKey(v.Live(), k)
            && MinEntry(|payload|) <= v.Free() && EntrySize(|payload|, v.Free()) == MAX_ENTRY
            && InsertSorted(v.Live(), EncodeHeader(TupleHeader(false, 0, |payload|)) + payload[..|payload|])
               == LargestRun(k + 1)
  {
    hide LeafLayout.Leaf.Valid, LeafLayout.Leaf.Live, LargestPayload, Encode, EncodeHeader, InsertSorted, TKey;
    Pow256Values();
    DecodeEncode(k, 8);
    LargestFacts(k);
    LargestKey(k);
    var payload := LargestPayload(k);
    assert payload[..|payload|] == payload;
    InsertBetween(LargestRun(k), Largest(k), []);
    assert LargestRun(k) + [] == LargestRun(k);
    assert LargestRun(k) + [Largest(k)] + [] == LargestRun(k + 1);
  }

  lemma NoneWritten(v: Leaf)
    requires Compact(v) && v.Live() == []
    ensures v.Valid() && |v.data| == PAGE_SIZE && v.Live() == LargestRun(0) && v.Used() == 0
  {
    hide LeafLayout.Leaf.Live;
    CompactUsed(v);
  }

  lemma ThreeWritten(p: Leaf)
    requires p.Valid() && p.Live() == LargestRun(3)
    ensures forall t | t in p.Live() :: |t| == MAX_TUPLE && Stored(map[], t, t[TUPLE_HEADER_SIZE..])
    ensures |p.Live()| == 3 && HasKey(p.Live(), 0) && |Without(p.Live(), 0)| == 2
    ensures p.Used() - SizeWith(p.Live(), 0) > UNDERFLOW
  {
    hide LeafLayout.Leaf.Valid, LeafLayout.Leaf.Live, LeafLayout.Leaf.Used, LargestRun, TKey, Stored, Without,
      SizeWith, Cost;
    LargestFacts(3);
    var s := LargestRun(3);
    assert TKey(s[0]) == 0;
    WithoutOne(s, 0);
    UsedMeaning(p);
    assert s == [] + [s[0]] + s[1..];
    SizeAt([], s[0], s[1..], 0);
    ThreeCost(s);
  }

  lemma ThreeCost(s: seq<Tuple>)
    requires |s| == 3 && forall i | 0 <= i < 3 :: |s[i]| == MAX_TUPLE
    ensures Cost(s) == 3 * MAX_ENTRY
  {
    assert Cost(s[2..]) == MAX_ENTRY;
    assert s[1..][1..] == s[2..] && Cost(s[1..]) == 2 * MAX_ENTRY;
  }

  // Writes the payload of the given key on a page that holds the smaller ones.
  method WriteLargest(page: LeafPage, k: Key)
    requires page.Value().Valid() && k < 3 && page.Value().Live() == LargestRun(k)
    requires page.Value().Used() <= MAX_ENTRY * k
    modifies page, page.data
    ensures page.Value().Valid() && page.Value().Live() == LargestRun(k + 1)
    ensures page.Value().Used() <= MAX_ENTRY * (k + 1)
  {
    hide LeafLayout.Leaf.Valid, LeafLayout.Leaf.Live, LeafLayout.Leaf.Used, LargestRun, LargestPayload, TKey, HasKey,
      Decode, Encode, EncodeHeader, InsertSorted;
    NextLargest(page.Value(), k);
    var written, addr := page.WriteChunkLeaf(LargestPayload(k), k, None);
  }

  // Three such payloads; without one of them the leaf has two tuples and counts as
  // filled well enough.
  method DeleteLeavesTwo() returns (p: Leaf, found: bool, q: Leaf)
    ensures p.Valid() && |p.Live()| == 3
    ensures forall t | t in p.Live() :: |t| == MAX_TUPLE && Stored(map[], t, t[TUPLE_HEADER_SIZE..])
    ensures found && q.Valid() && |q.Live()| == 2 && q.Used() > UNDERFLOW
  {
    hide LeafLayout.Leaf.Valid, LeafLayout.Leaf.Live, LeafLayout.Leaf.Used, LargestRun, TKey, HasKey, Without,
      SizeWith, Compact, Stored;
    var empty := MakeEmpty(1);
    NoneWritten(empty);
    var page := new LeafPage.Load(empty);
    WriteLargest(page, 0);
    WriteLargest(page, 1);
    WriteLargest(page, 2);
    p := page.Value();
    ThreeWritten(p);
    found := page.DeleteTuple(0);
    q := page.Value();
  }
}
