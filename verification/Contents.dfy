// A tree as a map from keys to payloads.
module Contents {
  import opened Bytes
  import opened Tuples
  import opened Pages
  import opened Trees
  import opened TreeStore

  const META_PID: PageID := 1

  // The sorted run of tuples and its overflow chains hold exactly the map.
  ghost predicate Represents(s: PageMap, flat: seq<Tuple>, m: map<Key, seq<Byte>>) {
    && Sorted(flat)
    && (forall k | k in m :: HasKey(flat, k))
    && (forall i | 0 <= i < |flat| :: TKey(flat[i]) in m && Stored(s, flat[i], m[TKey(flat[i])]))
  }

  lemma RepresentsFrame(s: PageMap, s': PageMap, flat: seq<Tuple>, m: map<Key, seq<Byte>>)
    requires Represents(s, flat, m) && KeepsOverflow(s, s')
    ensures Represents(s', flat, m)
  {
    hide TKey, Stored, KeepsOverflow;
    forall i | 0 <= i < |flat| ensures Stored(s', flat[i], m[TKey(flat[i])]) {
      StoredFrame(s, s', flat[i], m[TKey(flat[i])]);
    }
  }

  lemma RepresentsHas(s: PageMap, flat: seq<Tuple>, m: map<Key, seq<Byte>>, k: Key)
    requires Represents(s, flat, m)
    ensures k in m <==> HasKey(flat, k)
  {
    hide TKey, Stored;
  }

  lemma {:induction false} InsertedMembers(flat: seq<Tuple>, x: Tuple)
    ensures forall i | 0 <= i < |InsertSorted(flat, x)| ::
              InsertSorted(flat, x)[i] == x || InsertSorted(flat, x)[i] in flat
    ensures x in InsertSorted(flat, x) && forall y | y in flat :: y in InsertSorted(flat, x)
  {
    hide TKey;
    if flat != [] && !(TKey(x) < TKey(flat[0])) {
      InsertedMembers(flat[1..], x);
      assert InsertSorted(flat, x) == [flat[0]] + InsertSorted(flat[1..], x);
      assert forall y | y in flat :: y == flat[0] || y in flat[1..];
    }
  }

  lemma {:induction false} WithoutMembers(flat: seq<Tuple>, k: Key)
    ensures forall i | 0 <= i < |Without(flat, k)| :: Without(flat, k)[i] in flat && TKey(Without(flat, k)[i]) != k
    ensures forall y | y in flat && TKey(y) != k :: y in Without(flat, k)
  {
    hide TKey;
    if flat != [] {
      WithoutMembers(flat[1..], k);
      var h := if TKey(flat[0]) == k then [] else [flat[0]];
      assert Without(flat, k) == h + Without(flat[1..], k);
      assert forall y | y in flat :: y == flat[0] || y in flat[1..];
    }
  }

  lemma RepresentsInsert(s: PageMap, s': PageMap, flat: seq<Tuple>, m: map<Key, seq<Byte>>, x: Tuple,
                         payload: seq<Byte>)
    requires Represents(s, flat, m) && KeepsOverflow(s, s') && Stored(s', x, payload)
    requires TKey(x) !in m && Sorted(InsertSorted(flat, x))
    ensures Represents(s', InsertSorted(flat, x), m[TKey(x) := payload])
  {
    hide TKey, Stored, KeepsOverflow, InsertSorted;
    RepresentsFrame(s, s', flat, m);
    InsertedMembers(flat, x);
    var g, m' := InsertSorted(flat, x), m[TKey(x) := payload];
    forall k | k in m' ensures HasKey(g, k) {
      if k == TKey(x) {
        var i :| 0 <= i < |g| && g[i] == x;
        assert TKey(g[i]) == k;
      } else {
        var j :| 0 <= j < |flat| && TKey(flat[j]) == k;
        assert flat[j] in g;
        var i :| 0 <= i < |g| && g[i] == flat[j];
        assert TKey(g[i]) == k;
      }
    }
  }

  lemma RepresentsDelete(s: PageMap, s': PageMap, flat: seq<Tuple>, m: map<Key, seq<Byte>>, k: Key)
    requires Represents(s, flat, m) && KeepsOverflow(s, s') && Sorted(Without(flat, k))
    ensures Represents(s', Without(flat, k), m - {k})
  {
    hide TKey, Stored, KeepsOverflow, Without;
    RepresentsFrame(s, s', flat, m);
    WithoutMembers(flat, k);
    RepresentsPart(s', flat, m, k, Without(flat, k));
  }

  // A part of the run that lacks only the key represents the map without it.
  lemma RepresentsPart(s: PageMap, flat: seq<Tuple>, m: map<Key, seq<Byte>>, k: Key, g: seq<Tuple>)
    requires Represents(s, flat, m) && Sorted(g)
    requires forall i | 0 <= i < |g| :: g[i] in flat && TKey(g[i]) != k
    requires forall y | y in flat && TKey(y) != k :: y in g
    ensures Represents(s, g, m - {k})
  {
    hide TKey, Stored, HasKey;
    var m' := m - {k};
    forall c | c in m' ensures HasKey(g, c) {
      KeyRemains(flat, g, k, c);
    }
    PartStored(s, flat, m, k, g);
  }

  lemma PartStored(s: PageMap, flat: seq<Tuple>, m: map<Key, seq<Byte>>, k: Key, g: seq<Tuple>)
    requires Represents(s, flat, m)
    requires forall i | 0 <= i < |g| :: g[i] in flat && TKey(g[i]) != k
    ensures forall i | 0 <= i < |g| :: TKey(g[i]) in m - {k} && Stored(s, g[i], (m - {k})[TKey(g[i])])
  {
    hide TKey, Stored, Represents;
    forall i | 0 <= i < |g| ensures TKey(g[i]) in m - {k} && Stored(s, g[i], (m - {k})[TKey(g[i])]) {
      RepresentsAt(s, flat, m, g[i]);
    }
  }

  lemma KeyRemains(flat: seq<Tuple>, g: seq<Tuple>, k: Key, c: Key)
    requires HasKey(flat, c) && c != k && forall y | y in flat && TKey(y) != k :: y in g
    ensures HasKey(g, c)
  {
    hide TKey;
    var j :| 0 <= j < |flat| && TKey(flat[j]) == c;
    assert flat[j] in g;
  }

  // The content a stored tuple has is unique.
  lemma RepresentsAt(s: PageMap, flat: seq<Tuple>, m: map<Key, seq<Byte>>, x: Tuple)
    requires Represents(s, flat, m) && x in flat
    ensures TKey(x) in m && Stored(s, x, m[TKey(x)])
  {
    hide TKey, Stored;
  }

  // Editing tree pages and adding pages keeps every overflow page.
  lemma FrameOverflow(s: PageMap, s': PageMap, t: Tree)
    requires Carries(s, t) && Frame(s, s', Pids(t))
    ensures KeepsOverflow(s, s')
  {
    hide Carries, Pids;
    CarriedPids(s, t);
  }
}
