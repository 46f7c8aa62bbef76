// Page-level steps of a deletion: a leaf or internal page asks a neighbour for
// entries, trades with it or is merged into it (database/src/impl/b-tree/b-tree.cpp).
module DeleteOps {
  import opened Bytes
  import opened Tuples
  import opened LeafLayout
  import opened LeafPages
  import LeafTransfers
  import opened InternalPages
  import opened Trees

  // ----- leaves -----

  // Two neighbouring leaves have traded tuples; b is the least key on the right.
  ghost predicate Traded(p: Leaf, q: Leaf, p': Leaf, q': Leaf, b: Key) {
    && p'.Valid() && q'.Valid() && p'.Live() + q'.Live() == p.Live() + q.Live()
    && p'.Live() != [] && q'.Live() != [] && b == TKey(q'.Live()[0])
    && p'.pid == p.pid && q'.pid == q.pid && p'.right == p.right && q'.right == q.right
  }

  // The bytes a leaf is short of, once it has fallen to the threshold.
  predicate Short(p: Leaf, needed: nat) {
    p.Used() + needed == UNDERFLOW + 1 && needed > 0
  }

  method RemoveTuple(p: Leaf, key: Key) returns (found: bool, p': Leaf, used: int)
    requires p.Valid()
    ensures found == HasKey(p.Live(), key) && (!found ==> p' == p)
    ensures p'.Valid() && p'.Live() == Without(p.Live(), key)
    ensures p'.pid == p.pid && p'.left == p.left && p'.right == p.right
    ensures used == p'.Used() == p.Used() - SizeWith(p.Live(), key)
  {
    hide LeafLayout.Leaf.Live, LeafLayout.Leaf.Valid, Without, SizeWith, HasKey, LeafLayout.Leaf.Used;
    SizeOfPage(p);
    var page := new LeafPage.Load(p);
    found := page.DeleteTuple(key);
    p' := page.Value();
    used := p'.Used();
  }

  lemma SizeOfPage(p: Leaf)
    requires p.Valid()
    ensures |p.data| == PAGE_SIZE
  {
  }

  method AskLast(lender: Leaf, needed: nat) returns (q: BorrowQuery)
    requires lender.Valid() && needed > 0
    ensures q.canBorrow <==> LeafTransfers.CanLendLast(lender, needed)
    ensures q.canBorrow ==> GrantedLast(lender, needed, q.amount)
  {
    hide LeafLayout.Leaf.Live, LeafLayout.Leaf.Valid, LeafTransfers.LendsLast, LeafTransfers.CanLendLast, Cost;
    SizeOfPage(lender);
    var page := new LeafPage.Load(lender);
    q := LeafTransfers.CanLendFromRight(page, needed);
  }

  method AskFirst(lender: Leaf, needed: nat) returns (q: BorrowQuery)
    requires lender.Valid() && needed > 0
    ensures q.canBorrow <==> LeafTransfers.CanLendFirst(lender, needed)
    ensures q.canBorrow ==> GrantedFirst(lender, needed, q.amount)
  {
    hide LeafLayout.Leaf.Live, LeafLayout.Leaf.Valid, LeafTransfers.LendsFirst, LeafTransfers.CanLendFirst, Cost;
    SizeOfPage(lender);
    var page := new LeafPage.Load(lender);
    q := LeafTransfers.CanLendFromLeft(page, needed);
  }

  // The granted amount is the least that yields the needed bytes.
  ghost predicate GrantedLast(lender: Leaf, needed: nat, k: nat) {
    && LeafTransfers.LendsLast(lender.Live(), lender.Used(), needed, k)
    && 0 < k && Cost(lender.Live()[|lender.Live()| - k + 1..]) < needed
  }

  ghost predicate GrantedFirst(lender: Leaf, needed: nat, k: nat) {
    && LeafTransfers.LendsFirst(lender.Live(), lender.Used(), needed, k)
    && 0 < k && Cost(lender.Live()[..k - 1]) < needed
  }

  // The last (first) k tuples of the lender are now the borrower's, and b is the least
  // key on the right; the lender is still above the threshold.
  ghost predicate MovedLast(p: Leaf, q: Leaf, p': Leaf, b: Key, q': Leaf, k: nat) {
    && 0 < k < |p.Live()| && p'.Live() == p.Live()[..|p.Live()| - k]
    && q'.Live() == p.Live()[|p.Live()| - k..] + q.Live() && b == TKey(p.Live()[|p.Live()| - k])
    && p'.Used() > 1626
  }

  ghost predicate MovedFirst(p: Leaf, q: Leaf, p': Leaf, b: Key, q': Leaf, k: nat) {
    && 0 < k < |q.Live()| && q'.Live() == q.Live()[k..] && p'.Live() == p.Live() + q.Live()[..k]
    && b == TKey(q.Live()[k]) && q'.Used() > 1626
  }

  // The least number of tuples that yields the needed bytes has moved.
  ghost predicate LentLast(p: Leaf, q: Leaf, p': Leaf, b: Key, q': Leaf, needed: nat) {
    exists k :: GrantedLast(p, needed, k) && MovedLast(p, q, p', b, q', k)
  }

  ghost predicate LentFirst(p: Leaf, q: Leaf, p': Leaf, b: Key, q': Leaf, needed: nat) {
    exists k :: GrantedFirst(q, needed, k) && MovedFirst(p, q, p', b, q', k)
  }

  // A granted amount fits the borrower and leaves the lender a tuple: tombstones
  // alone never keep a page above the threshold.
  lemma LastFits(borrower: Leaf, lender: Leaf, needed: nat, k: nat)
    requires lender.Valid() && Short(borrower, needed) && GrantedLast(lender, needed, k)
    ensures 0 < k < |lender.Live()|
    ensures borrower.Used() + Cost(lender.Live()[|lender.Live()| - k..]) <= USABLE
  {
    LeafTransfers.LiveTupleSizes(lender);
    UsedMeaning(lender);
    hide LeafLayout.Leaf.Live, LeafLayout.Leaf.Valid, LeafLayout.Leaf.Used, Tombstones;
    var live := lender.Live();
    var i := |live| - k;
    assert live[i..][1..] == live[i + 1..];
    assert live[0..] == live;
  }

  lemma FirstFits(borrower: Leaf, lender: Leaf, needed: nat, k: nat)
    requires lender.Valid() && Short(borrower, needed) && GrantedFirst(lender, needed, k)
    ensures 0 < k < |lender.Live()|
    ensures borrower.Used() + Cost(lender.Live()[..k]) <= USABLE
  {
    LeafTransfers.LiveTupleSizes(lender);
    UsedMeaning(lender);
    hide LeafLayout.Leaf.Live, LeafLayout.Leaf.Valid, LeafLayout.Leaf.Used, Tombstones;
    var live := lender.Live();
    assert live[..k] == live[..k - 1] + [live[k - 1]];
    CostConcat(live[..k - 1], [live[k - 1]]);
    CostOne(live[k - 1]);
    assert live[..|live|] == live;
  }

  method BorrowLast(borrower: Leaf, lender: Leaf, amount: nat, ghost needed: nat)
    returns (boundary: Key, lender': Leaf, borrower': Leaf)
    requires borrower.Valid() && lender.Valid() && LeafTransfers.Before(lender.Live(), borrower.Live())
    requires Short(borrower, needed) && GrantedLast(lender, needed, amount)
    ensures Traded(lender, borrower, lender', borrower', boundary)
    ensures LentLast(lender, borrower, lender', boundary, borrower', needed)
  {
    hide LeafLayout.Leaf.Live, LeafLayout.Leaf.Valid, LeafLayout.Leaf.Used, LeafTransfers.Before, Cost, TKey,
      GrantedLast, Short;
    LastFits(borrower, lender, needed, amount);
    SizeOfPage(borrower);
    SizeOfPage(lender);
    var b := new LeafPage.Load(borrower);
    var l := new LeafPage.Load(lender);
    boundary := LeafTransfers.HandleLeftBorrow(b, l, amount);
    borrower', lender' := b.Value(), l.Value();
    TradedLast(borrower, lender, amount, boundary, lender', borrower');
    StaysUp(lender, needed, amount);
  }

  lemma StaysUp(lender: Leaf, needed: nat, k: nat)
    ensures GrantedLast(lender, needed, k) ==>
              && k <= |lender.Live()|
              && lender.Used() - Cost(lender.Live()[|lender.Live()| - k..]) > UNDERFLOW
    ensures GrantedFirst(lender, needed, k) ==>
              k <= |lender.Live()| && lender.Used() - Cost(lender.Live()[..k]) > UNDERFLOW
  {
    hide LeafLayout.Leaf.Live, LeafLayout.Leaf.Used, Cost;
  }

  lemma TradedLast(q: Leaf, p: Leaf, k: nat, b: Key, p': Leaf, q': Leaf)
    requires 0 < k < |p.Live()| && p'.Valid() && q'.Valid()
    requires p'.Live() == p.Live()[..|p.Live()| - k] && q'.Live() == p.Live()[|p.Live()| - k..] + q.Live()
    requires b == TKey(p.Live()[|p.Live()| - k])
    requires p'.pid == p.pid && q'.pid == q.pid && p'.right == p.right && q'.right == q.right
    ensures Traded(p, q, p', q', b)
  {
    hide LeafLayout.Leaf.Live, LeafLayout.Leaf.Valid, TKey;
  }

  method BorrowFirst(borrower: Leaf, lender: Leaf, amount: nat, ghost needed: nat)
    returns (boundary: Key, borrower': Leaf, lender': Leaf)
    requires borrower.Valid() && lender.Valid() && LeafTransfers.Before(borrower.Live(), lender.Live())
    requires Short(borrower, needed) && GrantedFirst(lender, needed, amount)
    ensures Traded(borrower, lender, borrower', lender', boundary)
    ensures LentFirst(borrower, lender, borrower', boundary, lender', needed)
  {
    hide LeafLayout.Leaf.Live, LeafLayout.Leaf.Valid, LeafLayout.Leaf.Used, LeafTransfers.Before, Cost, TKey,
      GrantedFirst, Short;
    FirstFits(borrower, lender, needed, amount);
    SizeOfPage(borrower);
    SizeOfPage(lender);
    var b := new LeafPage.Load(borrower);
    var l := new LeafPage.Load(lender);
    boundary := LeafTransfers.HandleRightBorrow(b, l, amount);
    borrower', lender' := b.Value(), l.Value();
    TradedFirst(borrower, lender, amount, boundary, borrower', lender');
    StaysUp(lender, needed, amount);
  }

  lemma TradedFirst(p: Leaf, q: Leaf, k: nat, b: Key, p': Leaf, q': Leaf)
    requires 0 < k < |q.Live()| && p'.Valid() && q'.Valid()
    requires q'.Live() == q.Live()[k..] && p'.Live() == p.Live() + q.Live()[..k]
    requires b == TKey(q.Live()[k])
    requires p'.pid == p.pid && q'.pid == q.pid && p'.right == p.right && q'.right == q.right
    ensures Traded(p, q, p', q', b)
  {
    hide LeafLayout.Leaf.Live, LeafLayout.Leaf.Valid, TKey;
  }

  // A page takes over every tuple of its right neighbour; the fatal error of a
  // merge that does not fit is out of reach.
  method MergeLeaves(to: Leaf, from: Leaf) returns (merged: Leaf)
    requires to.Valid() && from.Valid() && LeafTransfers.Before(to.Live(), from.Live())
    requires to.Used() + from.Used() <= USABLE
    ensures merged.Valid() && merged.Live() == to.Live() + from.Live()
    ensures merged.pid == to.pid && merged.right == from.right
  {
    hide LeafLayout.Leaf.Live, LeafLayout.Leaf.Valid, LeafLayout.Leaf.Used, LeafTransfers.Before, Cost;
    CostOfPage(from);
    SizeOfPage(to);
    SizeOfPage(from);
    var t := new LeafPage.Load(to);
    var f := new LeafPage.Load(from);
    var fatal := LeafTransfers.MergePages(t, f);
    merged := t.Value();
  }

  lemma CostOfPage(p: Leaf)
    requires p.Valid()
    ensures Cost(p.Live()) <= p.Used()
  {
    hide LeafLayout.Leaf.Live, LeafLayout.Leaf.Valid, LeafLayout.Leaf.Used, Cost;
    UsedMeaning(p);
  }

  // ----- the parent -----

  ghost predicate Parent(n: Node) {
    |n.children| == |n.keys| + 1 <= NUM_KEY_SLOTS + 1 && Increasing(n.keys) && Distinct(n.children)
  }

  lemma FindsChild(n: Node, i: nat)
    requires Parent(n) && i < |n.children|
    ensures Find(n.children, n.children[i]) == i
  {
  }

  method LeftOf(n: Node, ghost i: nat, child: PageID) returns (r: Sibling)
    requires Parent(n) && i < |n.children| && n.children[i] == child
    ensures r == if i == 0 then Missing(SiblingDoesNotExist) else Found(n.children[i - 1])
  {
    hide Find, Increasing, Distinct;
    FindsChild(n, i);
    var page := new InternalPage.Load(n);
    r := page.GetLeftSibling(child);
  }

  method RightOf(n: Node, ghost i: nat, child: PageID) returns (r: Sibling)
    requires Parent(n) && i < |n.children| && n.children[i] == child
    ensures r == if i + 1 == |n.children| then Missing(SiblingDoesNotExist) else Found(n.children[i + 1])
  {
    hide Find, Increasing, Distinct;
    FindsChild(n, i);
    var page := new InternalPage.Load(n);
    r := page.GetRightSibling(child);
  }

  method MoveBoundary(n: Node, ghost j: nat, left: PageID, boundary: Key) returns (n': Node)
    requires Parent(n) && j + 1 < |n.children| && n.children[j] == left
    ensures n' == n.(keys := n.keys[j := boundary])
  {
    hide Find, Increasing, Distinct;
    FindsChild(n, j);
    var page := new InternalPage.Load(n);
    page.SetNewBoundaryKey(boundary, left);
    n' := page.Value();
  }

  method DropChild(n: Node, ghost j: nat, left: PageID, right: PageID) returns (n': Node)
    requires Parent(n) && j + 1 < |n.children| && n.children[j] == left && n.children[j + 1] == right
    ensures n' == Node(n.pid, RemoveAt(n.keys, j), RemoveAt(n.children, j + 1))
  {
    hide Find, RemoveAt;
    FindsChild(n, j);
    var page := new InternalPage.Load(n);
    page.DeleteKeyAndChildPtr(left, right);
    n' := page.Value();
  }

  method TakeSeparator(n: Node, ghost j: nat, left: PageID) returns (partition: Key, n': Node)
    requires Parent(n) && j + 1 < |n.children| && n.children[j] == left
    ensures partition == n.keys[j] && n' == Node(n.pid, RemoveAt(n.keys, j), RemoveAt(n.children, j + 1))
  {
    hide Find, RemoveAt, Increasing, Distinct;
    FindsChild(n, j);
    var page := new InternalPage.Load(n);
    partition := page.DeletePartitionKeyAndChildPtr(left);
    n' := page.Value();
  }

  // ----- internal pages -----

  ghost predicate Sound(n: Node) {
    |n.children| == |n.keys| + 1 <= NUM_KEY_SLOTS + 1
  }

  // Two neighbouring pages have traded children through their separator s, which
  // is now b; both keep at least the least number of keys.
  ghost predicate Rotated(l: Node, s: Key, r: Node, l': Node, b: Key, r': Node) {
    && l'.keys + [b] + r'.keys == l.keys + [s] + r.keys && l'.children + r'.children == l.children + r.children
    && Sound(l') && Sound(r') && |l'.keys| >= MIN_KEYS && |r'.keys| >= MIN_KEYS
    && l'.pid == l.pid && r'.pid == r.pid
  }

  // One entry has gone from the end of the left page to the front of the right one,
  // through the separator; or the other way.
  ghost predicate TurnedLast(l: Node, s: Key, r: Node, l': Node, b: Key, r': Node) {
    && 0 < |l.keys| && |l.children| == |l.keys| + 1
    && var m := |l.keys| - 1;
    && l' == Node(l.pid, l.keys[..m], l.children[..m + 1]) && b == l.keys[m]
    && r' == Node(r.pid, [s] + r.keys, [l.children[m + 1]] + r.children)
  }

  ghost predicate TurnedFirst(l: Node, s: Key, r: Node, l': Node, b: Key, r': Node) {
    && 0 < |r.keys| && |r.children| == |r.keys| + 1
    && r' == Node(r.pid, r.keys[1..], r.children[1..]) && b == r.keys[0]
    && l' == Node(l.pid, l.keys + [s], l.children + [r.children[0]])
  }

  method AskNode(lender: Node, needed: nat) returns (q: BorrowQuery)
    requires Sound(lender) && |lender.keys| >= MIN_KEYS && needed == 3
    ensures q.canBorrow <==> |lender.keys| > MIN_KEYS
    ensures q.canBorrow ==> q.amount == 1
  {
    var page := new InternalPage.Load(lender);
    q := page.CanLend(needed);
  }

  method RotateLast(n: Node, ghost j: nat, borrower: Node, lender: Node, amount: nat)
    returns (n': Node, lender': Node, borrower': Node, ghost b: Key)
    requires Parent(n) && Sound(borrower) && Sound(lender) && j + 1 < |n.children| && n.children[j] == lender.pid
    requires |borrower.keys| + 1 == MIN_KEYS && |lender.keys| > MIN_KEYS && amount == 1
    ensures n' == n.(keys := n.keys[j := b]) && n'.pid == n.pid && n'.children == n.children && |n'.keys| == |n.keys|
    ensures Rotated(lender, n.keys[j], borrower, lender', b, borrower')
    ensures TurnedLast(lender, n.keys[j], borrower, lender', b, borrower')
  {
    hide Find, Increasing, Distinct, Rotated, TurnedLast;
    FindsChild(n, j);
    var page := new InternalPage.Load(n);
    var q := new InternalPage.Load(borrower);
    var p := new InternalPage.Load(lender);
    HandleLeftBorrow(page, q, p, amount);
    n', lender', borrower' := page.Value(), p.Value(), q.Value();
    b := LastRotated(lender, n.keys[j], borrower, lender', borrower');
  }

  lemma LastRotated(l: Node, s: Key, r: Node, l': Node, r': Node) returns (b: Key)
    requires Sound(l) && Sound(r) && |r.keys| + 1 == MIN_KEYS && |l.keys| > MIN_KEYS
    requires var n := |l.keys| - 1;
             && l' == Node(l.pid, l.keys[..n], l.children[..n + 1])
             && r' == Node(r.pid, l.keys[n + 1..] + [s] + r.keys, l.children[n + 1..] + r.children)
    ensures b == l.keys[|l.keys| - 1] && Rotated(l, s, r, l', b, r') && TurnedLast(l, s, r, l', b, r')
  {
    b := l.keys[|l.keys| - 1];
    assert l.keys == l'.keys + [b];
    assert r'.keys == [s] + r.keys;
    assert l.children[|l.keys|..] == [l.children[|l.keys|]];
  }

  method RotateFirst(n: Node, ghost j: nat, borrower: Node, lender: Node, amount: nat)
    returns (n': Node, borrower': Node, lender': Node, ghost b: Key)
    requires Parent(n) && Sound(borrower) && Sound(lender) && j + 1 < |n.children| && n.children[j] == borrower.pid
    requires |borrower.keys| + 1 == MIN_KEYS && |lender.keys| > MIN_KEYS && amount == 1
    ensures n' == n.(keys := n.keys[j := b]) && n'.pid == n.pid && n'.children == n.children && |n'.keys| == |n.keys|
    ensures Rotated(borrower, n.keys[j], lender, borrower', b, lender')
    ensures TurnedFirst(borrower, n.keys[j], lender, borrower', b, lender')
  {
    hide Find, Increasing, Distinct, Rotated, TurnedFirst;
    FindsChild(n, j);
    var page := new InternalPage.Load(n);
    var q := new InternalPage.Load(borrower);
    var p := new InternalPage.Load(lender);
    HandleRightBorrow(page, q, p, amount);
    n', borrower', lender' := page.Value(), q.Value(), p.Value();
    b := FirstRotated(borrower, n.keys[j], lender, borrower', lender');
  }

  lemma FirstRotated(l: Node, s: Key, r: Node, l': Node, r': Node) returns (b: Key)
    requires Sound(l) && Sound(r) && |l.keys| + 1 == MIN_KEYS && |r.keys| > MIN_KEYS
    requires l' == Node(l.pid, l.keys + [s] + r.keys[..0], l.children + r.children[..1])
    requires r' == Node(r.pid, r.keys[1..], r.children[1..])
    ensures b == r.keys[0] && Rotated(l, s, r, l', b, r') && TurnedFirst(l, s, r, l', b, r')
  {
    b := r.keys[0];
    assert r.children[..1] == [r.children[0]];
    assert r.keys == [b] + r'.keys;
    assert l'.keys == l.keys + [s];
  }

  method MergeNodes(partition: Key, to: Node, from: Node) returns (merged: Node)
    requires Sound(to) && Sound(from) && |to.keys| + |from.keys| + 1 <= NUM_KEY_SLOTS
    ensures merged == Node(to.pid, to.keys + [partition] + from.keys, to.children + from.children)
  {
    var t := new InternalPage.Load(to);
    var f := new InternalPage.Load(from);
    MergePages(partition, t, f);
    merged := t.Value();
  }
}
