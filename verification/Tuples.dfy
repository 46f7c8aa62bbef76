// A stored tuple: a 13-byte header (overflow flag, overflow page, total size)
// followed by the part of the payload that lives in the leaf page. The first
// eight payload bytes are the key.
module Tuples {
  import opened Bytes

  const SLOT_SIZE: nat := 5
  const TUPLE_HEADER_SIZE: nat := 13
  const MIN_TUPLE: nat := 21    // header and key
  const MAX_TUPLE: nat := 808   // MAX_LEAF_PAGE_DATA - SLOT_SIZE

  type Tuple = seq<Byte>
  datatype TupleHeader = TupleHeader(overflow: bool, page: PageID, size: nat)

  function LinkBytes(overflow: bool, page: PageID): (s: seq<Byte>)
    ensures |s| == 9
  {
    [if overflow then 1 else 0] + Encode(page, 8)
  }

  function EncodeHeader(h: TupleHeader): (s: seq<Byte>)
    ensures |s| == TUPLE_HEADER_SIZE
  {
    LinkBytes(h.overflow, h.page) + Encode(h.size, 4)
  }

  function DecodeHeader(t: Tuple): TupleHeader
    requires |t| >= TUPLE_HEADER_SIZE
  {
    DecodeBound(t[1..9]);
    Pow256Values();
    TupleHeader(t[0] > 0, Decode(t[1..9]), Decode(t[9..13]))
  }

  // Setting the overflow link rewrites the first nine bytes of a stored tuple.
  function Relink(t: Tuple, page: PageID): (t': Tuple)
    requires |t| >= MIN_TUPLE
    ensures |t'| == |t|
  {
    LinkBytes(true, page) + t[9..]
  }

  function TKey(t: Tuple): Key {
    if |t| < MIN_TUPLE then 0 else
    DecodeBound(t[13..21]);
    Pow256Values();
    Decode(t[13..21])
  }

  // The bytes of a header: the flag, the overflow page in bytes 1 to 8 and the size in
  // bytes 9 to 12, least byte first.
  lemma HeaderBytes(h: TupleHeader, i: nat)
    requires i < TUPLE_HEADER_SIZE
    ensures EncodeHeader(h)[i] == if i == 0 then (if h.overflow then 1 else 0)
                                  else if i < 9 then h.page / Pow256(i - 1) % 256
                                  else h.size / Pow256(i - 9) % 256
  {
    if 0 < i < 9 {
      EncodeAt(h.page, 8, i - 1);
    } else if i >= 9 {
      EncodeAt(h.size, 4, i - 9);
    }
  }

  lemma HeaderRoundTrip(h: TupleHeader, chunk: seq<Byte>)
    requires h.size < SIZE_LIMIT
    ensures DecodeHeader(EncodeHeader(h) + chunk) == h
  {
    var t := EncodeHeader(h) + chunk;
    Pow256Values();
    DecodeEncode(h.page, 8);
    DecodeEncode(h.size, 4);
    assert t[1..9] == Encode(h.page, 8);
    assert t[9..13] == Encode(h.size, 4);
  }

  lemma RelinkHeader(t: Tuple, page: PageID)
    requires |t| >= MIN_TUPLE
    ensures DecodeHeader(Relink(t, page)) == TupleHeader(true, page, DecodeHeader(t).size)
    ensures Relink(t, page)[13..] == t[13..] && TKey(Relink(t, page)) == TKey(t)
  {
    var r := Relink(t, page);
    Pow256Values();
    DecodeEncode(page, 8);
    assert r[1..9] == Encode(page, 8);
    assert r[9..13] == t[9..13];
    assert r[13..21] == t[13..21];
  }

  lemma ChunkKey(h: seq<Byte>, chunk: seq<Byte>)
    requires |h| == TUPLE_HEADER_SIZE && |chunk| >= 8
    ensures TKey(h + chunk) == Decode(chunk[..8])
  {
    assert (h + chunk)[13..21] == chunk[..8];
  }

  ghost predicate Sorted(s: seq<Tuple>) {
    forall i, j | 0 <= i < j < |s| :: TKey(s[i]) < TKey(s[j])
  }

  ghost predicate HasKey(s: seq<Tuple>, k: Key) {
    exists i | 0 <= i < |s| :: TKey(s[i]) == k
  }

  ghost predicate KeysIn(s: seq<Tuple>, lo: int, hi: int) {
    forall i | 0 <= i < |s| :: lo <= TKey(s[i]) < hi
  }

  function InsertSorted(s: seq<Tuple>, x: Tuple): seq<Tuple> {
    if s == [] || TKey(x) < TKey(s[0]) then [x] + s else [s[0]] + InsertSorted(s[1..], x)
  }

  function Without(s: seq<Tuple>, k: Key): seq<Tuple> {
    if s == [] then [] else (if TKey(s[0]) == k then [] else [s[0]]) + Without(s[1..], k)
  }

  // Bytes that a run of live tuples costs a leaf page, slots included.
  function Cost(s: seq<Tuple>): nat {
    if s == [] then 0 else |s[0]| + SLOT_SIZE + Cost(s[1..])
  }

  lemma {:induction false} InsertBetween(a: seq<Tuple>, x: Tuple, b: seq<Tuple>)
    requires forall i | 0 <= i < |a| :: TKey(a[i]) < TKey(x)
    requires forall i | 0 <= i < |b| :: TKey(x) < TKey(b[i])
    ensures InsertSorted(a + b, x) == a + [x] + b
  {
    if a == [] {
      assert a + b == b;
    } else {
      InsertBetween(a[1..], x, b);
      assert (a + b)[1..] == a[1..] + b;
    }
  }

  lemma {:induction false} WithoutConcat(a: seq<Tuple>, b: seq<Tuple>, k: Key)
    ensures Without(a + b, k) == Without(a, k) + Without(b, k)
  {
    if a == [] {
      assert a + b == b;
    } else {
      WithoutConcat(a[1..], b, k);
      assert (a + b)[1..] == a[1..] + b && (a + b)[0] == a[0];
      var h := if TKey(a[0]) == k then [] else [a[0]];
      assert Without(a + b, k) == h + (Without(a[1..], k) + Without(b, k));
      assert h + (Without(a[1..], k) + Without(b, k)) == (h + Without(a[1..], k)) + Without(b, k);
    }
  }

  lemma {:induction false} WithoutAbsent(s: seq<Tuple>, k: Key)
    requires !HasKey(s, k)
    ensures Without(s, k) == s
  {
    if s != [] {
      assert TKey(s[0]) != k;
      assert forall i | 0 <= i < |s[1..]| :: s[1..][i] == s[i + 1];
      WithoutAbsent(s[1..], k);
    }
  }

  lemma WithoutBetween(a: seq<Tuple>, t: Tuple, b: seq<Tuple>)
    requires !HasKey(a, TKey(t)) && !HasKey(b, TKey(t))
    ensures Without(a + [t] + b, TKey(t)) == a + b && HasKey(a + [t] + b, TKey(t))
  {
    hide TKey, Without;
    assert (a + [t] + b)[|a|] == t;
    hide HasKey;
    WithoutConcat(a + [t], b, TKey(t));
    WithoutConcat(a, [t], TKey(t));
    WithoutAbsent(a, TKey(t));
    WithoutAbsent(b, TKey(t));
    WithoutSelf(t);
  }

  lemma WithoutSelf(t: Tuple)
    ensures Without([t], TKey(t)) == []
  {
    hide TKey;
  }

  lemma CostOne(t: Tuple)
    ensures Cost([t]) == |t| + SLOT_SIZE
  {
  }

  lemma {:induction false} CostConcat(a: seq<Tuple>, b: seq<Tuple>)
    ensures Cost(a + b) == Cost(a) + Cost(b)
  {
    if a == [] {
      assert a + b == b;
    } else {
      CostConcat(a[1..], b);
      assert (a + b)[1..] == a[1..] + b;
    }
  }

  // A sorted run splits around any key strictly between two of its parts.
  lemma InsertInto(a: seq<Tuple>, m: seq<Tuple>, b: seq<Tuple>, x: Tuple, lo: int, hi: int)
    requires Sorted(m) && !HasKey(m, TKey(x)) && lo <= TKey(x) < hi
    requires forall i | 0 <= i < |a| :: TKey(a[i]) < lo
    requires forall i | 0 <= i < |b| :: hi <= TKey(b[i])
    ensures InsertSorted(a + m + b, x) == a + InsertSorted(m, x) + b
  {
    hide *;
    var c := SplitPoint(m, x);
    assert m[..c] + m[c..] == m;
    InsertWithin(a, m[..c], m[c..], b, x, m);
  }

  lemma InsertWithin(a: seq<Tuple>, c: seq<Tuple>, d: seq<Tuple>, b: seq<Tuple>, x: Tuple, m: seq<Tuple>)
    requires m == c + d
    requires forall i | 0 <= i < |a| :: TKey(a[i]) < TKey(x)
    requires forall i | 0 <= i < |c| :: TKey(c[i]) < TKey(x)
    requires forall i | 0 <= i < |d| :: TKey(x) < TKey(d[i])
    requires forall i | 0 <= i < |b| :: TKey(x) < TKey(b[i])
    ensures InsertSorted(a + m + b, x) == a + InsertSorted(m, x) + b
  {
    hide *;
    InsertBetween(c, x, d);
    assert forall i | 0 <= i < |a + c| :: TKey((a + c)[i]) < TKey(x);
    assert forall i | 0 <= i < |d + b| :: TKey(x) < TKey((d + b)[i]);
    InsertBetween(a + c, x, d + b);
    Regroup(a, c, d, b, m, x);
  }

  lemma Regroup(a: seq<Tuple>, c: seq<Tuple>, d: seq<Tuple>, b: seq<Tuple>, m: seq<Tuple>, x: Tuple)
    requires m == c + d
    ensures (a + c) + (d + b) == a + m + b
    ensures (a + c) + [x] + (d + b) == a + (c + [x] + d) + b
  {
  }

  lemma SplitPoint(s: seq<Tuple>, x: Tuple) returns (c: nat)
    requires Sorted(s) && !HasKey(s, TKey(x))
    ensures c <= |s|
    ensures forall i | 0 <= i < c :: TKey(s[i]) < TKey(x)
    ensures forall i | c <= i < |s| :: TKey(x) < TKey(s[i])
  {
    c := 0;
    while c < |s| && TKey(s[c]) < TKey(x)
      invariant c <= |s|
      invariant forall i | 0 <= i < c :: TKey(s[i]) < TKey(x)
    {
      c := c + 1;
    }
  }

  // s' is s with the tuple t replaced by t'.
  ghost predicate Swapped(s: seq<Tuple>, s': seq<Tuple>, t: Tuple, t': Tuple) {
    |s'| == |s| && forall i | 0 <= i < |s| :: s'[i] == if s[i] == t then t' else s[i]
  }

  lemma SwappedInsert(base: seq<Tuple>, x: Tuple, x': Tuple, s: seq<Tuple>)
    requires Sorted(base) && !HasKey(base, TKey(x)) && TKey(x') == TKey(x)
    requires Swapped(InsertSorted(base, x), s, x, x')
    ensures s == InsertSorted(base, x')
  {
    hide TKey, InsertSorted;
    var c := SplitPoint(base, x);
    InsertBetween(base[..c], x, base[c..]);
    InsertBetween(base[..c], x', base[c..]);
    assert base[..c] + base[c..] == base;
    SwapAt(base[..c], x, base[c..], x', s);
  }

  lemma SwapAt(a: seq<Tuple>, x: Tuple, b: seq<Tuple>, x': Tuple, s: seq<Tuple>)
    requires Swapped(a + [x] + b, s, x, x') && x !in a && x !in b
    ensures s == a + [x'] + b
  {
  }

  lemma CostMonotone(s: seq<Tuple>, i: nat, j: nat)
    requires i <= j <= |s|
    ensures Cost(s[j..]) <= Cost(s[i..]) <= Cost(s)
    ensures Cost(s[..i]) <= Cost(s[..j]) <= Cost(s)
  {
    hide Cost;
    assert s[i..] == s[i..j] + s[j..] && s[..j] == s[..i] + s[i..j] && s == s[..i] + s[i..] && s == s[..j] + s[j..];
    CostConcat(s[i..j], s[j..]);
    CostConcat(s[..i], s[i..j]);
    CostConcat(s[..i], s[i..]);
    CostConcat(s[..j], s[j..]);
  }

  // Bytes of the tuple with the given key, or 0.
  function SizeWith(s: seq<Tuple>, k: Key): nat {
    if s == [] then 0 else if TKey(s[0]) == k then |s[0]| else SizeWith(s[1..], k)
  }

  lemma {:induction false} SizeAt(a: seq<Tuple>, x: Tuple, b: seq<Tuple>, k: Key)
    requires !HasKey(a, k) && TKey(x) == k
    ensures SizeWith(a + [x] + b, k) == |x|
  {
    hide TKey;
    if a != [] {
      assert TKey(a[0]) != k;
      assert forall i | 0 <= i < |a[1..]| :: a[1..][i] == a[i + 1];
      SizeAt(a[1..], x, b, k);
      assert (a + [x] + b)[1..] == a[1..] + [x] + b;
    }
  }

  lemma {:induction false} SizeAbsent(s: seq<Tuple>, k: Key)
    requires !HasKey(s, k)
    ensures SizeWith(s, k) == 0
  {
    hide TKey;
    if s != [] {
      assert TKey(s[0]) != k;
      assert forall i | 0 <= i < |s[1..]| :: s[1..][i] == s[i + 1];
      SizeAbsent(s[1..], k);
    }
  }
}
