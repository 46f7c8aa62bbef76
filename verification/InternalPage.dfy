// The internal page operations of database/src/impl/page/internal_page.cpp: a
// fixed array of 254 keys and one of 255 child pointers.
module InternalPages {
  import opened Bytes
  import opened Memory

  const NUM_KEY_SLOTS: nat := 254
  const INTERNAL_UNDERFLOW: nat := 2026
  const PAIR_SIZE: nat := 16

  datatype Node = Node(pid: PageID, keys: seq<Key>, children: seq<PageID>)

  // std::upper_bound and std::find.
  function UpperIndex(keys: seq<Key>, x: Key): (i: nat)
    ensures i <= |keys| && (forall j | 0 <= j < i :: keys[j] <= x) && (i < |keys| ==> x < keys[i])
  {
    if keys == [] || x < keys[0] then 0 else 1 + UpperIndex(keys[1..], x)
  }

  function LowerIndex(keys: seq<Key>, x: Key): (i: nat)
    ensures i <= |keys| && (forall j | 0 <= j < i :: keys[j] < x) && (i < |keys| ==> x <= keys[i])
  {
    if keys == [] || x <= keys[0] then 0 else 1 + LowerIndex(keys[1..], x)
  }

  function Find(s: seq<PageID>, x: PageID): (i: nat)
    ensures i <= |s| && (forall j | 0 <= j < i :: s[j] != x) && (i < |s| ==> s[i] == x)
  {
    if s == [] || s[0] == x then 0 else 1 + Find(s[1..], x)
  }

  ghost predicate Increasing(keys: seq<Key>) {
    forall i, j | 0 <= i < j < |keys| :: keys[i] < keys[j]
  }

  lemma FindsItself(v: Node, i: nat)
    requires Increasing(v.keys) && Distinct(v.children) && i < |v.keys| && i + 1 < |v.children|
    ensures LowerIndex(v.keys, v.keys[i]) == i && Find(v.children, v.children[i + 1]) == i + 1
  {
  }

  function InsertAt<T>(s: seq<T>, i: nat, x: T): seq<T>
    requires i <= |s|
  {
    s[..i] + [x] + s[i..]
  }

  lemma InsertAtLength<T>(s: seq<T>, i: nat, x: T)
    requires i <= |s|
    ensures |InsertAt(s, i, x)| == |s| + 1
  {
  }

  function RemoveAt<T>(s: seq<T>, i: nat): seq<T>
    requires i < |s|
  {
    s[..i] + s[i + 1..]
  }

  // Shifting the tail of an array by one and writing the gap is an insertion.
  lemma ShiftInsert<T>(a: seq<T>, n: nat, i: nat, x: T)
    requires i <= n < |a|
    ensures Splice(a, i + 1, a[i..n])[i := x][..n + 1] == InsertAt(a[..n], i, x)
  {
  }

  lemma PairsUp(needed: nat)
    ensures needed / PAIR_SIZE + (if needed % PAIR_SIZE == 0 then 0 else 1) == (needed + PAIR_SIZE - 1) / PAIR_SIZE
  {
  }

  lemma Wraps(x: int)
    requires 0 <= x + KEY_LIMIT && x < KEY_LIMIT
    ensures x % KEY_LIMIT == if x < 0 then x + KEY_LIMIT else x
  {
  }

  // The keys and children of v with a new entry, dealt out around the middle key.
  ghost predicate Divided(v: Node, key: Key, child: PageID, l: Node, b: Key, r: Node) {
    var i := UpperIndex(v.keys, key);
    && l.keys + [b] + r.keys == InsertAt(v.keys, i, key) && i < |v.children|
    && l.children + r.children == InsertAt(v.children, i + 1, child)
    && |l.keys| == (|v.keys| + 1) / 2 && |r.keys| == |v.keys| / 2
  }

  lemma Halved(v: Node, key: Key, child: PageID, keys: seq<Key>, ptrs: seq<PageID>, h: nat, n: nat, l: Node, r: Node)
    requires UpperIndex(v.keys, key) < |v.children| && h == (|v.keys| + 1) / 2 && n == |v.keys| / 2
    requires keys == InsertAt(v.keys, UpperIndex(v.keys, key), key) && |keys| == |v.keys| + 1
    requires ptrs == InsertAt(v.children, UpperIndex(v.keys, key) + 1, child) && |ptrs| == |keys| + 1
    requires l.keys == keys[..h] && l.children == ptrs[..h + 1]
    requires r.keys == keys[h + 1..][..n] && r.children == ptrs[h + 1..][..n + 1]
    ensures Divided(v, key, child, l, keys[h], r)
  {
    hide InsertAt, UpperIndex;
    assert h + 1 + n == |keys|;
    assert keys == keys[..h] + [keys[h]] + keys[h + 1..];
    assert ptrs == ptrs[..h + 1] + ptrs[h + 1..];
  }

  lemma PrependAll<T>(a: seq<T>, n: nat, front: seq<T>)
    requires n + |front| <= |a|
    ensures Splice(Splice(a, |front|, a[..n]), 0, front)[..n + |front|] == front + a[..n]
  {
  }

  lemma PrependPast<T>(a: seq<T>, n: nat, front: seq<T>, x: T)
    requires n + |front| + 1 <= |a|
    ensures Splice(Splice(a, |front| + 1, a[..n])[|front| := x], 0, front)[..n + |front| + 1] == front + [x] + a[..n]
  {
  }

  lemma AppendAll<T>(a: seq<T>, n: nat, back: seq<T>)
    requires n + |back| <= |a|
    ensures Splice(a, n, back)[..n + |back|] == a[..n] + back
  {
  }

  lemma AppendPast<T>(a: seq<T>, n: nat, x: T, back: seq<T>)
    requires n + 1 + |back| <= |a|
    ensures Splice(a[n := x], n + 1, back)[..n + 1 + |back|] == a[..n] + [x] + back
  {
  }

  lemma DropFront<T>(a: seq<T>, n: nat, k: nat)
    requires k <= n <= |a|
    ensures Splice(a, 0, a[k..n])[..n - k] == a[..n][k..]
  {
  }

  lemma CloseGap<T>(a: seq<T>, n: nat, i: nat)
    requires i < n <= |a|
    ensures Splice(a, i, a[i + 1..n])[..n - 1] == RemoveAt(a[..n], i)
  {
  }

  datatype SiblingError = ChildPtrNotFound | SiblingDoesNotExist
  datatype Sibling = Found(pid: PageID) | Missing(error: SiblingError)

  class InternalPage {
    var pid: PageID
    var numKeys: nat
    const keys: array<Key>
    const children: array<PageID>

    predicate Valid()
      reads this
    {
      keys.Length == NUM_KEY_SLOTS && children.Length == NUM_KEY_SLOTS + 1 && numKeys <= NUM_KEY_SLOTS
    }

    function Value(): Node
      requires Valid()
      reads this, keys, children
    {
      Node(pid, keys[..numKeys], children[..numKeys + 1])
    }

    constructor Load(v: Node)
      requires |v.keys| <= NUM_KEY_SLOTS && |v.children| == |v.keys| + 1
      ensures Valid() && Value() == v && fresh(keys) && fresh(children)
    {
      pid, numKeys := v.pid, |v.keys|;
      keys := new Key[NUM_KEY_SLOTS](i requires 0 <= i < NUM_KEY_SLOTS => if i < |v.keys| then v.keys[i] else 0);
      children := new PageID[NUM_KEY_SLOTS + 1](i requires 0 <= i < NUM_KEY_SLOTS + 1 =>
                                                if i < |v.children| then v.children[i] else 0);
    }

    // A page just taken from the pool.
    constructor Blank()
      ensures Valid() && fresh(keys) && fresh(children)
    {
      pid, numKeys := 0, 0;
      keys := new Key[NUM_KEY_SLOTS](i => 0);
      children := new PageID[NUM_KEY_SLOTS + 1](i => 0);
    }

    method MakePage(keysPtr: seq<Key>, childrenPtr: seq<PageID>, toTake: nat, pid: PageID)
      requires Valid() && toTake <= NUM_KEY_SLOTS && toTake <= |keysPtr| && toTake + 1 <= |childrenPtr|
      modifies this, keys, children
      ensures Valid() && Value() == Node(pid, keysPtr[..toTake], childrenPtr[..toTake + 1])
    {
      this.pid, numKeys := pid, toTake;
      CopyInto(keys, 0, keysPtr[..toTake]);
      CopyInto(children, 0, childrenPtr[..toTake + 1]);
    }

    method UpperBound(key: Key) returns (i: nat)
      requires Valid()
      ensures i == UpperIndex(Value().keys, key) <= numKeys
    {
      i := UpperIndex(keys[..numKeys], key);
    }

    method GetChildPageID(key: Key) returns (child: PageID)
      requires Valid()
      ensures child == Value().children[UpperIndex(Value().keys, key)]
    {
      child := children[UpperIndex(keys[..numKeys], key)];
    }

    // Inserts a separator and the page to its right.
    method InsertKeyValue(boundary: Key, newPid: PageID)
      requires Valid() && numKeys < NUM_KEY_SLOTS
      modifies this, keys, children
      ensures Valid()
      ensures var v := old(Value());
              var i := UpperIndex(v.keys, boundary);
              Value() == Node(v.pid, InsertAt(v.keys, i, boundary), InsertAt(v.children, i + 1, newPid))
    {
      hide Splice, InsertAt, UpperIndex;
      ghost var v := Value();
      var i := UpperBound(boundary);
      ShiftInsert(keys[..], numKeys, i, boundary);
      ShiftInsert(children[..], numKeys + 1, i + 1, newPid);
      CopyInto(keys, i + 1, keys[i..numKeys]);
      keys[i] := boundary;
      CopyInto(children, i + 2, children[i + 1..numKeys + 1]);
      children[i + 1] := newPid;
      numKeys := numKeys + 1;
    }

    // Inserts a separator into a full page and moves the upper half, without the
    // middle separator, to a new page.
    method HandleSplit(newPage: InternalPage, key: Key, childPid: PageID, newPid: PageID) returns (boundary: Key)
      requires Valid() && newPage.Valid()
      requires this != newPage && keys != newPage.keys && children != newPage.children
      modifies this, keys, children, newPage, newPage.keys, newPage.children
      ensures Valid() && newPage.Valid()
      ensures Divided(old(Value()), key, childPid, Value(), boundary, newPage.Value())
      ensures Value().pid == old(pid) && newPage.Value().pid == newPid
    {
      hide Splice, UpperIndex, InsertAt;
      var oldPid := pid;
      var i := UpperBound(key);
      var v := Value();
      var tempKeys := InsertAt(v.keys, i, key);
      var tempPtrs := InsertAt(v.children, i + 1, childPid);
      InsertAtLength(v.keys, i, key);
      InsertAtLength(v.children, i + 1, childPid);
      var length := numKeys + 1;
      var half := length / 2;
      assert length == |tempKeys| == |tempPtrs| - 1 <= NUM_KEY_SLOTS + 1;
      hide *;
      boundary := tempKeys[half];
      MakePage(tempKeys, tempPtrs, half, oldPid);
      newPage.MakePage(tempKeys[half + 1..], tempPtrs[half + 1..], (length - 1) / 2, newPid);
      Halved(v, key, childPid, tempKeys, tempPtrs, half, (length - 1) / 2, Value(), newPage.Value());
    }

    method GetLeftSibling(child: PageID) returns (r: Sibling)
      requires Valid()
      ensures var i := Find(Value().children, child);
              r == if i == |Value().children| then Missing(ChildPtrNotFound)
              else if i == 0 then Missing(SiblingDoesNotExist)
              else Found(Value().children[i - 1])
    {
      var i := Find(children[..numKeys + 1], child);
      if i == numKeys + 1 {
        return Missing(ChildPtrNotFound);
      }
      if i == 0 {
        return Missing(SiblingDoesNotExist);
      }
      return Found(children[i - 1]);
    }

    method GetRightSibling(child: PageID) returns (r: Sibling)
      requires Valid()
      ensures var i := Find(Value().children, child);
              r == if i == |Value().children| then Missing(ChildPtrNotFound)
              else if i == |Value().children| - 1 then Missing(SiblingDoesNotExist)
              else Found(Value().children[i + 1])
    {
      var i := Find(children[..numKeys + 1], child);
      if i == numKeys + 1 {
        return Missing(ChildPtrNotFound);
      }
      if i == numKeys {
        return Missing(SiblingDoesNotExist);
      }
      return Found(children[i + 1]);
    }

    // The separator between a child and its right neighbour.
    method SetNewBoundaryKey(boundary: Key, leftPid: PageID)
      requires Valid() && Find(Value().children, leftPid) < numKeys
      modifies keys
      ensures Value() == old(Value()).(keys := old(Value()).keys[Find(old(Value()).children, leftPid) := boundary])
    {
      keys[Find(children[..numKeys + 1], leftPid)] := boundary;
    }

    method CheckUsedSpace() returns (used: nat)
      requires Valid()
      ensures used == PAIR_SIZE * |Value().keys| + 8
    {
      used := numKeys * 8 + (numKeys + 1) * 8;
    }

    // The space is compared after an unsigned 64-bit subtraction, so a request for
    // more than the page holds counts as granted.
    method CanLend(needed: nat) returns (q: BorrowQuery)
      requires Valid() && needed < 0x1_0000
      ensures var pairs := (needed + PAIR_SIZE - 1) / PAIR_SIZE;
              && (q.canBorrow <==> |Value().keys| < pairs || |Value().keys| >= pairs + 127)
              && (q.canBorrow ==> q.amount == pairs)
    {
      var used := CheckUsedSpace();
      var pairs := needed / PAIR_SIZE + (if needed % PAIR_SIZE == 0 then 0 else 1);
      var loss := PAIR_SIZE * pairs;
      PairsUp(needed);
      Wraps(used - loss);
      if (used - loss) % KEY_LIMIT <= INTERNAL_UNDERFLOW {
        return BorrowQuery(false, 0);
      }
      return BorrowQuery(true, pairs);
    }

    // Shifts both arrays right and fills the front: the first half of a left borrow.
    method PrependEntries(front: seq<Key>, rotated: Key, moved: seq<PageID>)
      requires Valid() && |moved| == |front| + 1 && numKeys + |moved| <= NUM_KEY_SLOTS
      modifies this, keys, children
      ensures Valid()
      ensures var v := old(Value());
              Value() == Node(v.pid, front + [rotated] + v.keys, moved + v.children)
    {
      hide Splice;
      PrependPast(keys[..], numKeys, front, rotated);
      PrependAll(children[..], numKeys + 1, moved);
      CopyInto(keys, |moved|, keys[..numKeys]);
      CopyInto(children, |moved|, children[..numKeys + 1]);
      CopyInto(children, 0, moved);
      keys[|moved| - 1] := rotated;
      CopyInto(keys, 0, front);
      numKeys := numKeys + |moved|;
    }

    // Shifts both arrays left over the first k entries.
    method DropEntries(k: nat)
      requires Valid() && k <= numKeys
      modifies this, keys, children
      ensures Valid()
      ensures var v := old(Value()); Value() == Node(v.pid, v.keys[k..], v.children[k..])
    {
      hide Splice;
      DropFront(children[..], numKeys + 1, k);
      CopyInto(children, 0, children[k..numKeys + 1]);
      DropFront(keys[..], numKeys, k);
      CopyInto(keys, 0, keys[k..numKeys]);
      numKeys := numKeys - k;
    }

    // Writes past the ends of both arrays: a right borrow or a merge.
    method AppendEntries(rotated: Key, back: seq<Key>, moved: seq<PageID>)
      requires Valid() && |moved| == |back| + 1 && numKeys + |moved| <= NUM_KEY_SLOTS
      modifies this, keys, children
      ensures Valid()
      ensures var v := old(Value());
              Value() == Node(v.pid, v.keys + [rotated] + back, v.children + moved)
    {
      hide Splice;
      AppendPast(keys[..], numKeys, rotated, back);
      AppendAll(children[..], numKeys + 1, moved);
      keys[numKeys] := rotated;
      CopyInto(keys, numKeys + 1, back);
      CopyInto(children, numKeys + 1, moved);
      numKeys := numKeys + |moved|;
    }

    // Removes the separator right of the absorbing child, and the merged child.
    method DeleteKeyAndChildPtr(absorbing: PageID, merged: PageID)
      requires Valid() && Increasing(Value().keys) && Distinct(Value().children)
      requires var i := Find(Value().children, absorbing); i < numKeys && Value().children[i + 1] == merged
      modifies this, keys, children
      ensures Valid()
      ensures var v := old(Value());
              var i := Find(v.children, absorbing);
              Value() == Node(v.pid, RemoveAt(v.keys, i), RemoveAt(v.children, i + 1))
    {
      hide Splice, RemoveAt, Find, LowerIndex, Increasing, Distinct;
      var key := keys[Find(children[..numKeys + 1], absorbing)];
      var i := LowerIndex(keys[..numKeys], key);
      FindsItself(Value(), Find(Value().children, absorbing));
      CloseGap(keys[..], numKeys, i);
      CopyInto(keys, i, keys[i + 1..numKeys]);
      var c := Find(children[..numKeys + 1], merged);
      CloseGap(children[..], numKeys + 1, c);
      CopyInto(children, c, children[c + 1..numKeys + 1]);
      numKeys := numKeys - 1;
    }

    // As above, handing the removed separator to the caller.
    method DeletePartitionKeyAndChildPtr(leftPid: PageID) returns (partition: Key)
      requires Valid() && Find(Value().children, leftPid) < numKeys
      modifies this, keys, children
      ensures Valid()
      ensures var v := old(Value());
              var i := Find(v.children, leftPid);
              && partition == v.keys[i]
              && Value() == Node(v.pid, RemoveAt(v.keys, i), RemoveAt(v.children, i + 1))
    {
      hide Splice, RemoveAt;
      var i := Find(children[..numKeys + 1], leftPid);
      CloseGap(children[..], numKeys + 1, i + 1);
      CopyInto(children, i + 1, children[i + 2..numKeys + 1]);
      partition := keys[i];
      CloseGap(keys[..], numKeys, i);
      CopyInto(keys, i, keys[i + 1..numKeys]);
      numKeys := numKeys - 1;
    }
  }

  // The arrays of two pages never overlap.
  ghost predicate Separate(p: InternalPage, q: InternalPage) {
    p != q && p.keys != q.keys && p.children != q.children
  }

  // Rotates the last k children of the left sibling through the parent separator.
  method HandleLeftBorrow(page: InternalPage, borrower: InternalPage, lender: InternalPage, amount: nat)
    requires page.Valid() && borrower.Valid() && lender.Valid()
    requires Separate(page, borrower) && Separate(page, lender) && Separate(borrower, lender)
    requires Find(page.Value().children, lender.pid) < page.numKeys
    requires 0 < amount <= lender.numKeys && borrower.numKeys + amount <= NUM_KEY_SLOTS
    modifies page.keys, borrower, borrower.keys, borrower.children, lender
    ensures page.Valid() && borrower.Valid() && lender.Valid()
    ensures var p, b, l := old(page.Value()), old(borrower.Value()), old(lender.Value());
            var i, n := Find(p.children, l.pid), |l.keys| - amount;
            && page.Value() == Node(p.pid, p.keys[i := l.keys[n]], p.children)
            && borrower.Value() == Node(b.pid, l.keys[n + 1..] + [p.keys[i]] + b.keys, l.children[n + 1..] + b.children)
            && lender.Value() == Node(l.pid, l.keys[..n], l.children[..n + 1])
  {
    hide Find;
    var i := Find(page.children[..page.numKeys + 1], lender.pid);
    var n := lender.numKeys - amount;
    var front, moved := lender.keys[n + 1..lender.numKeys], lender.children[n + 1..lender.numKeys + 1];
    assert front == lender.keys[..lender.numKeys][n + 1..] && moved == lender.children[..lender.numKeys + 1][n + 1..];
    borrower.PrependEntries(front, page.keys[i], moved);
    page.keys[i] := lender.keys[n];
    lender.numKeys := n;
  }

  // Rotates the first k children of the right sibling through the parent separator.
  method HandleRightBorrow(page: InternalPage, borrower: InternalPage, lender: InternalPage, amount: nat)
    requires page.Valid() && borrower.Valid() && lender.Valid()
    requires Separate(page, borrower) && Separate(page, lender) && Separate(borrower, lender)
    requires Find(page.Value().children, borrower.pid) < page.numKeys
    requires 0 < amount <= lender.numKeys && borrower.numKeys + amount <= NUM_KEY_SLOTS
    modifies page.keys, borrower, borrower.keys, borrower.children, lender, lender.keys, lender.children
    ensures page.Valid() && borrower.Valid() && lender.Valid()
    ensures var p, b, l := old(page.Value()), old(borrower.Value()), old(lender.Value());
            var i := Find(p.children, b.pid);
            && page.Value() == Node(p.pid, p.keys[i := l.keys[amount - 1]], p.children)
            && borrower.Value() == Node(b.pid, b.keys + [p.keys[i]] + l.keys[..amount - 1],
                                        b.children + l.children[..amount])
            && lender.Value() == Node(l.pid, l.keys[amount..], l.children[amount..])
  {
    hide Find;
    var i := Find(page.children[..page.numKeys + 1], borrower.pid);
    var m := lender.numKeys;
    assert lender.keys[..amount - 1] == lender.keys[..m][..amount - 1];
    assert lender.children[..amount] == lender.children[..m + 1][..amount];
    borrower.AppendEntries(page.keys[i], lender.keys[..amount - 1], lender.children[..amount]);
    page.keys[i] := lender.keys[amount - 1];
    lender.DropEntries(amount);
  }

  // The left page takes over the separator and everything on the right page.
  method MergePages(partition: Key, absorber: InternalPage, absorbee: InternalPage)
    requires absorber.Valid() && absorbee.Valid() && Separate(absorber, absorbee)
    requires absorber.numKeys + absorbee.numKeys + 1 <= NUM_KEY_SLOTS
    modifies absorber, absorber.keys, absorber.children
    ensures absorber.Valid()
    ensures var a, b := old(absorber.Value()), absorbee.Value();
            absorber.Value() == Node(a.pid, a.keys + [partition] + b.keys, a.children + b.children)
  {
    hide Find;
    absorber.AppendEntries(partition, absorbee.keys[..absorbee.numKeys], absorbee.children[..absorbee.numKeys + 1]);
  }
}
