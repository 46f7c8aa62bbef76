// Fixed-width integers and the little-endian encoding that the pages use
// (commons/types.h, commons/constants.h).
module Bytes {
  const PAGE_SIZE: nat := 4096
  const KEY_LIMIT: nat := 0x1_0000_0000_0000_0000
  const SIZE_LIMIT: nat := 0x1_0000_0000

  type Byte = b: int | 0 <= b < 256
  type Key = k: int | 0 <= k < KEY_LIMIT
  type PageID = p: int | 0 <= p < KEY_LIMIT

  datatype Option<+T> = None | Some(value: T)

  // A page's answer to a neighbour that asks for entries (commons/types.h).
  datatype BorrowQuery = BorrowQuery(canBorrow: bool, amount: nat)

  ghost predicate Distinct<T>(s: seq<T>) {
    forall i, j | 0 <= i < j < |s| :: s[i] != s[j]
  }

  function Pow256(n: nat): (p: nat)
    ensures p > 0
  {
    if n == 0 then 1 else 256 * Pow256(n - 1)
  }

  function Decode(s: seq<Byte>): nat {
    if s == [] then 0 else s[0] + 256 * Decode(s[1..])
  }

  function Encode(n: nat, width: nat): (s: seq<Byte>)
    ensures |s| == width
  {
    if width == 0 then [] else [n % 256] + Encode(n / 256, width - 1)
  }

  // Byte i of an encoded number is its digit of weight 256 to the power i.
  lemma {:induction false} EncodeAt(n: nat, width: nat, i: nat)
    requires i < width
    ensures Encode(n, width)[i] == n / Pow256(i) % 256
    decreases width
  {
    if i > 0 {
      EncodeAt(n / 256, width - 1, i - 1);
      DivideTwice(n, 256, Pow256(i - 1));
    }
  }

  lemma DivideTwice(n: nat, a: nat, b: nat)
    requires a > 0 && b > 0
    ensures a * b > 0 && n / a / b == n / (a * b)
  {
    Euclid(n, a);
    Euclid(n / a, b);
    DivideParts(n, a, b, n / a, n % a, n / a / b, n / a % b);
  }

  lemma Euclid(n: nat, d: nat)
    requires d > 0
    ensures n == n / d * d + n % d
  {
  }

  lemma DivideParts(n: nat, a: nat, b: nat, m: nat, r: nat, q: nat, s: nat)
    requires n == m * a + r && r < a && m == q * b + s && s < b
    ensures a * b > 0 && n / (a * b) == q
  {
    Positive(a, b);
    Spread(q, b, s, a);
    Under(s, b, a, r);
    Quotient(n, a * b, q, s * a + r);
  }

  lemma Positive(a: nat, b: nat)
    requires a > 0 && b > 0
    ensures a * b > 0
  {
  }

  lemma Spread(q: nat, b: nat, s: nat, a: nat)
    ensures (q * b + s) * a == q * (a * b) + s * a
  {
  }

  lemma Under(s: nat, b: nat, a: nat, r: nat)
    requires s < b && r < a
    ensures s * a + r < a * b
  {
    Monotone(s + 1, b, a);
  }

  lemma Monotone(x: int, y: int, a: nat)
    requires x <= y
    ensures x * a <= y * a
  {
  }

  lemma Quotient(n: nat, d: nat, q: nat, r: nat)
    requires d > 0 && r < d && n == q * d + r
    ensures n / d == q
  {
    var m := n / d;
    if m < q {
      Monotone(m + 1, q, d);
    } else if q < m {
      Monotone(q + 1, m, d);
    }
  }

  lemma {:induction false} DecodeBound(s: seq<Byte>)
    ensures Decode(s) < Pow256(|s|)
  {
    if s != [] {
      DecodeBound(s[1..]);
    }
  }

  lemma {:induction false} DecodeEncode(n: nat, width: nat)
    requires n < Pow256(width)
    ensures Decode(Encode(n, width)) == n
  {
    if width > 0 {
      DecodeEncode(n / 256, width - 1);
      assert Encode(n, width)[1..] == Encode(n / 256, width - 1);
    }
  }

  lemma Pow256Values()
    ensures Pow256(4) == SIZE_LIMIT && Pow256(8) == KEY_LIMIT
  {
    assert Pow256(2) == 0x1_0000;
    assert Pow256(4) == 0x1_0000 * Pow256(2);
    assert Pow256(6) == 0x1_0000 * Pow256(4);
  }
}
