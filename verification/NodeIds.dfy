/** DHT node ids and the XOR metric (src/net/dht/routing.rs). */
module NodeIds {
  import opened Common

  const ID_BYTES: nat := 20
  const ID_BITS: nat := 160

  type NodeId = s: seq<bv8> | |s| == ID_BYTES witness seq(ID_BYTES, i => 0 as bv8)

  function Xor(a: NodeId, b: NodeId): NodeId {
    seq(ID_BYTES, i requires 0 <= i < ID_BYTES => a[i] ^ b[i])
  }

  /** Bit `k` of a byte, the most significant one first: shifted down by `7 - k`. */
  function ByteBit(x: bv8, k: nat): bv8
    requires k < 8
  {
    match k
    case 0 => (x >> 7) & 1
    case 1 => (x >> 6) & 1
    case 2 => (x >> 5) & 1
    case 3 => (x >> 4) & 1
    case 4 => (x >> 3) & 1
    case 5 => (x >> 2) & 1
    case 6 => (x >> 1) & 1
    case _ => x & 1
  }

  function BitAt(id: NodeId, index: nat): bv8 {
    if index >= ID_BITS then 0 else ByteBit(id[index / 8], index % 8)
  }

  function ByteZeros(x: bv8): nat {
    if x >= 0x80 then 0 else if x >= 0x40 then 1 else if x >= 0x20 then 2 else if x >= 0x10 then 3
    else if x >= 0x08 then 4 else if x >= 0x04 then 5 else if x >= 0x02 then 6 else if x >= 0x01 then 7 else 8
  }

  /** Zero bits from byte `i` on, before the first one bit. */
  function ZerosFrom(id: NodeId, i: nat): nat
    requires i <= ID_BYTES
    decreases ID_BYTES - i
  {
    if i == ID_BYTES then 0 else if id[i] == 0 then 8 + ZerosFrom(id, i + 1) else ByteZeros(id[i])
  }

  method LeadingZeros(id: NodeId) returns (count: nat)
    ensures count == ZerosFrom(id, 0)
  {
    count := 0;
    for i := 0 to ID_BYTES
      invariant count + ZerosFrom(id, i) == ZerosFrom(id, 0)
    {
      if id[i] == 0 {
        count := count + 8;
      } else {
        count := count + ByteZeros(id[i]);
        return;
      }
    }
  }

  /** Leading bits two ids have in common, as the routing table computes it. */
  function Shared(a: NodeId, b: NodeId): nat { ZerosFrom(Xor(a, b), 0) }

  // ----- bits -----

  lemma XorTable(x: bv8, y: bv8)
    ensures ((x ^ y) >> 7) & 1 == 0 <==> (x >> 7) & 1 == (y >> 7) & 1
    ensures ((x ^ y) >> 6) & 1 == 0 <==> (x >> 6) & 1 == (y >> 6) & 1
    ensures ((x ^ y) >> 5) & 1 == 0 <==> (x >> 5) & 1 == (y >> 5) & 1
    ensures ((x ^ y) >> 4) & 1 == 0 <==> (x >> 4) & 1 == (y >> 4) & 1
    ensures ((x ^ y) >> 3) & 1 == 0 <==> (x >> 3) & 1 == (y >> 3) & 1
    ensures ((x ^ y) >> 2) & 1 == 0 <==> (x >> 2) & 1 == (y >> 2) & 1
    ensures ((x ^ y) >> 1) & 1 == 0 <==> (x >> 1) & 1 == (y >> 1) & 1
    ensures (x ^ y) & 1 == 0 <==> x & 1 == y & 1
  {
  }

  lemma XorBit(x: bv8, y: bv8, k: nat)
    requires k < 8
    ensures ByteBit(x ^ y, k) == 0 <==> ByteBit(x, k) == ByteBit(y, k)
  {
    XorTable(x, y);
  }

  lemma ByteZerosBits(x: bv8, k: nat)
    requires k < 8
    ensures k < ByteZeros(x) ==> ByteBit(x, k) == 0
    ensures k == ByteZeros(x) ==> ByteBit(x, k) != 0
  {
  }

  lemma XorCancels(x: bv8, y: bv8, z: bv8)
    requires x ^ z == y ^ z
    ensures x == y
  {
  }

  lemma {:induction false} ZerosExact(id: NodeId, i: nat, k: nat)
    requires i <= ID_BYTES && 8 * i <= k < ID_BITS
    ensures ZerosFrom(id, i) <= ID_BITS - 8 * i
    ensures k < 8 * i + ZerosFrom(id, i) ==> BitAt(id, k) == 0
    ensures k == 8 * i + ZerosFrom(id, i) ==> BitAt(id, k) != 0
    decreases ID_BYTES - i
  {
    ByteZerosBits(id[k / 8], k % 8);
    if id[i] == 0 && i + 1 < ID_BYTES {
      ZerosExact(id, i + 1, if k < 8 * (i + 1) then 8 * (i + 1) else k);
    }
  }

  lemma XorBitAt(a: NodeId, b: NodeId, k: nat)
    ensures BitAt(Xor(a, b), k) == 0 <==> BitAt(a, k) == BitAt(b, k)
  {
    if k < ID_BITS {
      XorBit(a[k / 8], b[k / 8], k % 8);
    }
  }

  /** The shared length is the length of the longest common bit prefix: `n` bits
      are shared exactly when the first `n` agree. */
  lemma SharedExact(a: NodeId, b: NodeId, n: nat)
    requires n <= ID_BITS
    ensures Shared(a, b) <= ID_BITS
    ensures n <= Shared(a, b) <==> forall k: nat :: k < n ==> BitAt(a, k) == BitAt(b, k)
  {
    var z := Shared(a, b);
    ZerosExact(Xor(a, b), 0, 0);
    forall k: nat | k < n && k < z ensures BitAt(a, k) == BitAt(b, k) {
      ZerosExact(Xor(a, b), 0, k);
      XorBitAt(a, b, k);
    }
    if z < n {
      ZerosExact(Xor(a, b), 0, z);
      XorBitAt(a, b, z);
    }
  }

  /** The first bit after `k` shared ones is shared exactly when more than `k` are. */
  lemma SharedBit(a: NodeId, b: NodeId, k: nat)
    requires k < ID_BITS && k <= Shared(a, b)
    ensures BitAt(a, k) == BitAt(b, k) <==> k < Shared(a, b)
  {
    ZerosExact(Xor(a, b), 0, k);
    XorBitAt(a, b, k);
  }

  // ----- order -----

  /** The derived order of the byte arrays: lexicographic. */
  predicate Less(a: seq<bv8>, b: seq<bv8>)
    requires |a| == |b|
  {
    |a| > 0 && (a[0] < b[0] || (a[0] == b[0] && Less(a[1..], b[1..])))
  }

  lemma {:induction false} LessTransitive(a: seq<bv8>, b: seq<bv8>, c: seq<bv8>)
    requires |a| == |b| == |c| && Less(a, b) && Less(b, c)
    ensures Less(a, c)
  {
    if a[0] == b[0] == c[0] {
      LessTransitive(a[1..], b[1..], c[1..]);
    }
  }

  lemma {:induction false} LessTotal(a: seq<bv8>, b: seq<bv8>)
    requires |a| == |b|
    ensures Less(a, b) || a == b || Less(b, a)
    ensures !(Less(a, b) && Less(b, a)) && !Less(a, a)
  {
    if |a| > 0 {
      LessTotal(a[1..], b[1..]);
      assert a == [a[0]] + a[1..] && b == [b[0]] + b[1..];
    }
  }

  lemma XorAt(a: NodeId, b: NodeId, i: nat, x: bv8, y: bv8)
    requires i < ID_BYTES && a[i] == x && b[i] == y
    ensures Xor(a, b)[i] == x ^ y
  {
  }

  lemma XorInjectiveAt(a: NodeId, b: NodeId, target: NodeId, i: nat, x: bv8, y: bv8, z: bv8)
    requires Xor(a, target) == Xor(b, target) && i < ID_BYTES && a[i] == x && b[i] == y && target[i] == z
    ensures x == y
  {
    XorAt(a, target, i, x, z);
    XorAt(b, target, i, y, z);
    XorCancels(x, y, z);
  }

  lemma XorInjective(a: NodeId, b: NodeId, target: NodeId)
    requires Xor(a, target) == Xor(b, target)
    ensures a == b
  {
    forall i: nat | i < ID_BYTES ensures a[i] == b[i] {
      XorInjectiveAt(a, b, target, i, a[i], b[i], target[i]);
    }
  }

  /** `b` is not closer to the target than `a`. */
  predicate NotAfter(a: NodeId, b: NodeId, target: NodeId) { !Less(Xor(b, target), Xor(a, target)) }

  lemma NotAfterTotal(a: NodeId, b: NodeId, target: NodeId)
    ensures NotAfter(a, b, target) || NotAfter(b, a, target)
    ensures NotAfter(a, b, target) && NotAfter(b, a, target) ==> a == b
  {
    LessTotal(Xor(a, target), Xor(b, target));
    if NotAfter(a, b, target) && NotAfter(b, a, target) {
      XorInjective(a, b, target);
    }
  }

  lemma NotAfterTransitive(a: NodeId, b: NodeId, c: NodeId, target: NodeId)
    requires NotAfter(a, b, target) && NotAfter(b, c, target)
    ensures NotAfter(a, c, target)
  {
    var (x, y, z) := (Xor(a, target), Xor(b, target), Xor(c, target));
    LessTotal(x, y);
    LessTotal(y, z);
    LessTotal(x, z);
    if Less(x, y) && Less(y, z) {
      LessTransitive(x, y, z);
    }
  }

  // ----- what closer means -----

  /** `a` is nearer to the target than `b`: at the first bit where they differ, `a`
      has the target's bit. */
  ghost predicate Nearer(a: NodeId, b: NodeId, target: NodeId) { exists k: nat :: NearerAt(a, b, target, k) }

  ghost predicate NearerAt(a: NodeId, b: NodeId, target: NodeId, k: nat) {
    && k < ID_BITS && (forall j: nat :: j < k ==> BitAt(a, j) == BitAt(b, j))
    && BitAt(a, k) == BitAt(target, k) && BitAt(b, k) != BitAt(target, k)
  }

  lemma ByteOrderHigh(x: bv8, y: bv8)
    ensures x ^ y >= 0x80 ==> (x < y <==> (x >> 7) & 1 == 0)
    ensures 0x40 <= x ^ y < 0x80 ==> (x < y <==> (x >> 6) & 1 == 0)
    ensures 0x20 <= x ^ y < 0x40 ==> (x < y <==> (x >> 5) & 1 == 0)
    ensures 0x10 <= x ^ y < 0x20 ==> (x < y <==> (x >> 4) & 1 == 0)
  {
  }

  lemma ByteOrderLow(x: bv8, y: bv8)
    ensures 0x08 <= x ^ y < 0x10 ==> (x < y <==> (x >> 3) & 1 == 0)
    ensures 0x04 <= x ^ y < 0x08 ==> (x < y <==> (x >> 2) & 1 == 0)
    ensures 0x02 <= x ^ y < 0x04 ==> (x < y <==> (x >> 1) & 1 == 0)
    ensures x ^ y == 0x01 ==> (x < y <==> x & 1 == 0)
  {
  }

  lemma DifferentBytes(x: bv8, y: bv8)
    requires x != y
    ensures x ^ y != 0 && ByteZeros(x ^ y) < 8
  {
  }

  lemma ByteOrderAt(x: bv8, y: bv8, k: nat)
    requires k == ByteZeros(x ^ y) && k < 8
    ensures x < y <==> ByteBit(x, k) == 0
  {
    ByteOrderHigh(x, y);
    ByteOrderLow(x, y);
  }

  /** Two bytes are ordered by the first bit in which they differ. */
  lemma ByteOrder(x: bv8, y: bv8) returns (k: nat)
    requires x != y
    ensures k < 8 && (forall j: nat :: j < k ==> ByteBit(x, j) == ByteBit(y, j))
    ensures ByteBit(x, k) != ByteBit(y, k) && (x < y <==> ByteBit(x, k) == 0)
  {
    DifferentBytes(x, y);
    k := ByteZeros(x ^ y);
    forall j: nat | j < k ensures ByteBit(x, j) == ByteBit(y, j) {
      ByteZerosBits(x ^ y, j);
      XorBit(x, y, j);
    }
    ByteZerosBits(x ^ y, k);
    XorBit(x, y, k);
    ByteOrderAt(x, y, k);
  }

  /** The first byte in which two sequences differ orders them. */
  lemma {:induction false} FirstByteOrders(a: seq<bv8>, b: seq<bv8>) returns (i: nat)
    requires |a| == |b| && a != b
    ensures i < |a| && a[..i] == b[..i] && a[i] != b[i] && (Less(a, b) <==> a[i] < b[i])
  {
    if a[0] != b[0] {
      i := 0;
    } else {
      assert a == [a[0]] + a[1..] && b == [b[0]] + b[1..];
      var n := FirstByteOrders(a[1..], b[1..]);
      i := n + 1;
      assert a[..i] == [a[0]] + a[1..][..n] && b[..i] == [b[0]] + b[1..][..n];
    }
  }

  lemma ByteBitBinary(x: bv8, k: nat)
    requires k < 8
    ensures ByteBit(x, k) == 0 || ByteBit(x, k) == 1
  {
  }

  lemma BitBinary(id: NodeId, k: nat)
    ensures BitAt(id, k) == 0 || BitAt(id, k) == 1
  {
    if k < ID_BITS {
      ByteBitBinary(id[k / 8], k % 8);
    }
  }

  /** Two ids agree in a bit exactly when their distances to the target do. */
  lemma XorBitsAgree(a: NodeId, b: NodeId, target: NodeId, k: nat)
    ensures BitAt(Xor(a, target), k) == BitAt(Xor(b, target), k) <==> BitAt(a, k) == BitAt(b, k)
  {
    XorBitAt(a, target, k);
    XorBitAt(b, target, k);
    BitBinary(a, k);
    BitBinary(b, k);
    BitBinary(target, k);
    BitBinary(Xor(a, target), k);
    BitBinary(Xor(b, target), k);
  }

  /** The first bit in which two different ids differ, and what it decides. */
  lemma FirstBit(x: NodeId, y: NodeId) returns (k: nat)
    requires x != y
    ensures k < ID_BITS && (forall j: nat :: j < k ==> BitAt(x, j) == BitAt(y, j))
    ensures BitAt(x, k) != BitAt(y, k) && (Less(x, y) <==> BitAt(x, k) == 0)
  {
    var i := FirstByteOrders(x, y);
    var n := ByteOrder(x[i], y[i]);
    k := 8 * i + n;
    forall j: nat | j < k ensures BitAt(x, j) == BitAt(y, j) {
      if j / 8 < i {
        assert x[..i][j / 8] == y[..i][j / 8];
      }
    }
  }

  lemma FirstDifference(a: NodeId, b: NodeId, target: NodeId) returns (k: nat)
    requires a != b
    ensures k < ID_BITS && (forall j: nat :: j < k ==> BitAt(a, j) == BitAt(b, j)) && BitAt(a, k) != BitAt(b, k)
    ensures Less(Xor(a, target), Xor(b, target)) <==> BitAt(a, k) == BitAt(target, k)
  {
    if Xor(a, target) == Xor(b, target) {
      XorInjective(a, b, target);
    }
    k := FirstBit(Xor(a, target), Xor(b, target));
    forall j: nat | j < k ensures BitAt(a, j) == BitAt(b, j) {
      XorBitsAgree(a, b, target, j);
    }
    XorBitsAgree(a, b, target, k);
    XorBitAt(a, target, k);
  }

  lemma OneDiffers(a: NodeId, b: NodeId, target: NodeId, k: nat)
    requires BitAt(a, k) != BitAt(b, k)
    ensures BitAt(a, k) == BitAt(target, k) <==> BitAt(b, k) != BitAt(target, k)
  {
    BitBinary(a, k);
    BitBinary(b, k);
    BitBinary(target, k);
  }

  /** The order the program sorts by is the order of nearness. */
  lemma LessIsNearer(a: NodeId, b: NodeId, target: NodeId)
    ensures Less(Xor(a, target), Xor(b, target)) <==> Nearer(a, b, target)
  {
    if a == b {
      LessTotal(Xor(a, target), Xor(b, target));
    } else {
      var k := FirstDifference(a, b, target);
      OneDiffers(a, b, target, k);
      if Less(Xor(a, target), Xor(b, target)) {
        assert NearerAt(a, b, target, k);
      }
      if Nearer(a, b, target) {
        var n: nat :| NearerAt(a, b, target, n);
        assert n == k;
      }
    }
  }

  lemma NotAfterIsNearness(a: NodeId, b: NodeId, target: NodeId)
    ensures NotAfter(a, b, target) <==> !Nearer(b, a, target)
    ensures NotAfter(a, b, target) && a != b <==> Nearer(a, b, target)
  {
    LessIsNearer(b, a, target);
    LessIsNearer(a, b, target);
    NotAfterTotal(a, b, target);
    LessTotal(Xor(a, target), Xor(b, target));
  }

  /** Sharing more leading bits with the target is being nearer to it. */
  lemma SharingIsNearer(a: NodeId, b: NodeId, target: NodeId)
    requires Shared(a, target) > Shared(b, target)
    ensures Nearer(a, b, target)
  {
    var k := Shared(b, target);
    SharedExact(a, target, 0);
    SharedExact(b, target, 0);
    forall j: nat | j < k ensures BitAt(a, j) == BitAt(b, j) {
      SharedBitsAgree(a, target, j);
      SharedBitsAgree(b, target, j);
    }
    SharedBitsAgree(a, target, k);
    SharedBit(b, target, k);
    assert NearerAt(a, b, target, k);
  }

  lemma SharedBitsAgree(a: NodeId, b: NodeId, k: nat)
    requires k < Shared(a, b)
    ensures k < ID_BITS && BitAt(a, k) == BitAt(b, k)
  {
    SharedExact(a, b, 0);
    SharedExact(a, b, k + 1);
  }

  /** No element stands behind a nearer one. */
  ghost predicate ByNearness<T(!new)>(key: T -> NodeId, target: NodeId, xs: seq<T>) {
    forall i, j :: 0 <= i < j < |xs| ==> !Nearer(key(xs[j]), key(xs[i]), target)
  }

  lemma SortedByNearness<T(!new)>(key: T -> NodeId, target: NodeId, xs: seq<T>)
    requires IsSorted(key, target, xs)
    ensures ByNearness(key, target, xs)
  {
    forall i, j | 0 <= i < j < |xs| ensures !Nearer(key(xs[j]), key(xs[i]), target) {
      NotAfterIsNearness(key(xs[i]), key(xs[j]), target);
    }
  }

  // ----- stable sort by distance -----

  /** `x` goes behind everything that is not farther. */
  function InsertBy<T>(key: T -> NodeId, target: NodeId, xs: seq<T>, x: T): seq<T> {
    if |xs| == 0 || NotAfter(key(xs[|xs| - 1]), key(x), target) then xs + [x]
    else InsertBy(key, target, xs[..|xs| - 1], x) + [xs[|xs| - 1]]
  }

  function SortBy<T>(key: T -> NodeId, target: NodeId, xs: seq<T>): seq<T> {
    if |xs| == 0 then [] else InsertBy(key, target, SortBy(key, target, xs[..|xs| - 1]), xs[|xs| - 1])
  }

  ghost predicate IsSorted<T(!new)>(key: T -> NodeId, target: NodeId, xs: seq<T>) {
    forall i, j :: 0 <= i < j < |xs| ==> NotAfter(key(xs[i]), key(xs[j]), target)
  }

  lemma {:induction false} InsertContents<T>(key: T -> NodeId, target: NodeId, xs: seq<T>, x: T)
    ensures multiset(InsertBy(key, target, xs, x)) == multiset(xs) + multiset{x}
  {
    if !(|xs| == 0 || NotAfter(key(xs[|xs| - 1]), key(x), target)) {
      InsertContents(key, target, xs[..|xs| - 1], x);
      assert xs == xs[..|xs| - 1] + [xs[|xs| - 1]];
    }
  }

  lemma {:induction false} InsertSorted<T(!new)>(key: T -> NodeId, target: NodeId, xs: seq<T>, x: T)
    requires IsSorted(key, target, xs)
    ensures IsSorted(key, target, InsertBy(key, target, xs, x))
  {
    if |xs| > 0 {
      var front, last := xs[..|xs| - 1], xs[|xs| - 1];
      var r := InsertBy(key, target, xs, x);
      if NotAfter(key(last), key(x), target) {
        forall i, j | 0 <= i < j < |r| ensures NotAfter(key(r[i]), key(r[j]), target) {
          if j == |xs| && i < |xs| - 1 {
            NotAfterTransitive(key(xs[i]), key(last), key(x), target);
          }
        }
      } else {
        NotAfterTotal(key(last), key(x), target);
        InsertSorted(key, target, front, x);
        InsertContents(key, target, front, x);
        var inner := InsertBy(key, target, front, x);
        forall i | 0 <= i < |inner| ensures NotAfter(key(inner[i]), key(last), target) {
          assert inner[i] in multiset(inner);
          assert inner[i] in multiset(front) || inner[i] == x;
          if inner[i] != x {
            var m :| 0 <= m < |front| && front[m] == inner[i];
            assert NotAfter(key(xs[m]), key(xs[|xs| - 1]), target);
          }
        }
      }
    }
  }

  /** The same elements, nearest first. */
  lemma SortNearestFirst<T(!new)>(key: T -> NodeId, target: NodeId, xs: seq<T>)
    ensures ByNearness(key, target, SortBy(key, target, xs)) && multiset(SortBy(key, target, xs)) == multiset(xs)
  {
    SortSound(key, target, xs);
    SortedByNearness(key, target, SortBy(key, target, xs));
  }

  /** A sorted arrangement of the same elements. */
  lemma {:induction false} SortSound<T(!new)>(key: T -> NodeId, target: NodeId, xs: seq<T>)
    ensures IsSorted(key, target, SortBy(key, target, xs)) && multiset(SortBy(key, target, xs)) == multiset(xs)
  {
    if |xs| > 0 {
      var front := xs[..|xs| - 1];
      SortSound(key, target, front);
      InsertSorted(key, target, SortBy(key, target, front), xs[|xs| - 1]);
      InsertContents(key, target, SortBy(key, target, front), xs[|xs| - 1]);
      assert xs == front + [xs[|xs| - 1]];
    }
  }

  /** The elements at one distance, in order. */
  function WithKey<T>(key: T -> NodeId, id: NodeId, xs: seq<T>): seq<T> {
    if |xs| == 0 then []
    else WithKey(key, id, xs[..|xs| - 1]) + if key(xs[|xs| - 1]) == id then [xs[|xs| - 1]] else []
  }

  lemma {:induction false} InsertStable<T>(key: T -> NodeId, target: NodeId, xs: seq<T>, x: T, id: NodeId)
    ensures WithKey(key, id, InsertBy(key, target, xs, x)) == WithKey(key, id, xs) + if key(x) == id then [x] else []
  {
    var r := InsertBy(key, target, xs, x);
    if |xs| == 0 || NotAfter(key(xs[|xs| - 1]), key(x), target) {
      assert r[..|r| - 1] == xs;
    } else {
      var front, last := xs[..|xs| - 1], xs[|xs| - 1];
      InsertStable(key, target, front, x, id);
      assert r[..|r| - 1] == InsertBy(key, target, front, x);
      LessTotal(Xor(key(x), target), Xor(key(x), target));
      assert key(last) != key(x);
    }
  }

  /** Equal distances keep their order; with `SortSound` this fixes the result. */
  lemma {:induction false} SortStable<T>(key: T -> NodeId, target: NodeId, xs: seq<T>, id: NodeId)
    ensures WithKey(key, id, SortBy(key, target, xs)) == WithKey(key, id, xs)
  {
    if |xs| > 0 {
      var front := xs[..|xs| - 1];
      SortStable(key, target, front, id);
      InsertStable(key, target, SortBy(key, target, front), xs[|xs| - 1], id);
    }
  }

  /** `x` is no closer than anything in `xs`. */
  ghost predicate Beyond<T(!new)>(key: T -> NodeId, target: NodeId, xs: seq<T>, x: T) {
    forall i :: 0 <= i < |xs| ==> NotAfter(key(xs[i]), key(x), target)
  }

  /** Cutting a sorted sequence keeps the closest: its front is sorted, and what
      is cut off is no closer than anything kept. */
  lemma CutKeepsClosest<T(!new)>(key: T -> NodeId, target: NodeId, all: seq<T>, n: nat)
    requires n <= |all| && IsSorted(key, target, all)
    ensures IsSorted(key, target, all[..n]) && multiset(all) == multiset(all[..n]) + multiset(all[n..])
    ensures forall x :: x in multiset(all[n..]) ==> Beyond(key, target, all[..n], x)
  {
    assert all == all[..n] + all[n..];
    forall x | x in multiset(all[n..]) ensures Beyond(key, target, all[..n], x) {
      var i :| 0 <= i < |all[n..]| && all[n..][i] == x;
      assert all[n + i] == x;
    }
  }
}
