/** The DHT routing table (src/net/dht/routing.rs; section "Routing Table" of BEP 5). */
module Routing {
  import opened Common
  import opened NodeIds

  const BUCKET_SIZE: nat := 8

  type Addr = nat
  datatype Contact = Contact(id: NodeId, addr: Addr)
  datatype Bucket = Bucket(prefix: nat, nodes: seq<Contact>)
  datatype Table = Table(local: NodeId, buckets: seq<Bucket>)

  // ----- one bucket -----

  predicate HasId(nodes: seq<Contact>, id: NodeId) { exists i :: 0 <= i < |nodes| && nodes[i].id == id }

  /** Position of the first contact with this id, or the length. */
  function Position(nodes: seq<Contact>, id: NodeId): (i: nat)
    ensures i <= |nodes| && (i < |nodes| ==> nodes[i].id == id)
    ensures forall j :: 0 <= j < i ==> nodes[j].id != id
  {
    if |nodes| == 0 || nodes[0].id == id then 0
    else
      var rest := Position(nodes[1..], id);
      assert forall j :: 1 <= j < 1 + rest ==> nodes[j] == nodes[1..][j - 1];
      1 + rest
  }

  /** `KBucket::insert`: a known id moves to the tail with the new address, a new one needs room. */
  function Put(nodes: seq<Contact>, c: Contact): (r: Option<seq<Contact>>) {
    var i := Position(nodes, c.id);
    if i < |nodes| then Some(nodes[..i] + nodes[i + 1..] + [c])
    else if |nodes| < BUCKET_SIZE then Some(nodes + [c])
    else None
  }

  predicate Distinct(nodes: seq<Contact>) {
    forall i, j :: 0 <= i < j < |nodes| ==> nodes[i].id != nodes[j].id
  }

  /** What a bucket of a table with this local id may hold. */
  predicate BucketOk(local: NodeId, nodes: seq<Contact>) {
    && |nodes| <= BUCKET_SIZE && Distinct(nodes)
    && forall i :: 0 <= i < |nodes| ==> nodes[i].id != local
  }

  lemma PutOk(local: NodeId, nodes: seq<Contact>, c: Contact)
    requires BucketOk(local, nodes) && c.id != local
    ensures Put(nodes, c).None? <==> |nodes| == BUCKET_SIZE && !HasId(nodes, c.id)
    ensures Put(nodes, c).Some? ==> BucketOk(local, Put(nodes, c).value) && HasId(Put(nodes, c).value, c.id)
  {
    var i := Position(nodes, c.id);
    if i < |nodes| {
      var r := nodes[..i] + nodes[i + 1..] + [c];
      assert forall j :: 0 <= j < |r| - 1 ==> r[j] == nodes[if j < i then j else j + 1];
      assert r[|r| - 1] == c;
    } else if |nodes| < BUCKET_SIZE {
      assert (nodes + [c])[|nodes|] == c;
    }
  }

  /** How the stored contacts change: `was` is the one replaced, if any. */
  ghost predicate Replaces(before: multiset<Contact>, after: multiset<Contact>, c: Contact) {
    || after == before + multiset{c}
    || exists was: Contact :: was in before && was.id == c.id && after == before - multiset{was} + multiset{c}
  }

  lemma TakenOut(nodes: seq<Contact>, i: nat)
    requires i < |nodes|
    ensures nodes[i] in nodes && multiset(nodes[..i] + nodes[i + 1..]) == multiset(nodes) - multiset{nodes[i]}
  {
    assert nodes == nodes[..i] + [nodes[i]] + nodes[i + 1..];
  }

  lemma SwapReplaces(nodes: seq<Contact>, i: nat, c: Contact, after: seq<Contact>)
    requires i < |nodes| && nodes[i].id == c.id && after == nodes[..i] + nodes[i + 1..] + [c]
    ensures Replaces(multiset(nodes), multiset(after), c)
  {
    TakenOut(nodes, i);
    assert multiset(after) == multiset(nodes) - multiset{nodes[i]} + multiset{c};
  }

  lemma PutContents(nodes: seq<Contact>, c: Contact)
    requires Put(nodes, c).Some?
    ensures Replaces(multiset(nodes), multiset(Put(nodes, c).value), c)
  {
    var i := Position(nodes, c.id);
    if i < |nodes| {
      SwapReplaces(nodes, i, c, Put(nodes, c).value);
    }
  }

  /** The contacts with another id, in order. */
  function Without(nodes: seq<Contact>, id: NodeId): seq<Contact> {
    if |nodes| == 0 then []
    else
      var front := Without(nodes[..|nodes| - 1], id);
      if nodes[|nodes| - 1].id == id then front else front + [nodes[|nodes| - 1]]
  }

  lemma {:induction false} WithoutNone(nodes: seq<Contact>, id: NodeId)
    requires forall j :: 0 <= j < |nodes| ==> nodes[j].id != id
    ensures Without(nodes, id) == nodes
  {
    if |nodes| > 0 {
      WithoutNone(nodes[..|nodes| - 1], id);
    }
  }

  lemma {:induction false} WithoutOne(nodes: seq<Contact>, id: NodeId, i: nat)
    requires i < |nodes| && nodes[i].id == id && forall j :: 0 <= j < |nodes| && j != i ==> nodes[j].id != id
    ensures Without(nodes, id) == nodes[..i] + nodes[i + 1..]
  {
    var n := |nodes| - 1;
    if i == n {
      WithoutNone(nodes[..n], id);
    } else {
      WithoutOne(nodes[..n], id, i);
      assert nodes[..n][..i] == nodes[..i] && nodes[i + 1..] == nodes[..n][i + 1..] + [nodes[n]];
    }
  }

  /** Most recently seen last: the contact goes behind all others, which keep their
      order; a known id takes the new address. */
  lemma PutLast(nodes: seq<Contact>, c: Contact)
    requires Distinct(nodes)
    ensures Put(nodes, c)
            == if HasId(nodes, c.id) || |nodes| < BUCKET_SIZE then Some(Without(nodes, c.id) + [c]) else None
  {
    var i := Position(nodes, c.id);
    if i < |nodes| {
      WithoutOne(nodes, c.id, i);
    } else {
      WithoutNone(nodes, c.id);
    }
  }

  // ----- the table -----

  /** Prefix lengths are 0 alone, or 1, 2, …, n-1, n-1. */
  function PrefixAt(n: nat, i: nat): nat
    requires i < n
  {
    if i + 1 < n then i + 1 else n - 1
  }

  ghost predicate Inv(t: Table) {
    && 1 <= |t.buckets| <= ID_BITS + 1
    && (forall i :: 0 <= i < |t.buckets| ==>
         t.buckets[i].prefix == PrefixAt(|t.buckets|, i) && BucketOk(t.local, t.buckets[i].nodes))
    && var last := t.buckets[|t.buckets| - 1].nodes;
       forall j :: 0 <= j < |last| ==> Shared(t.local, last[j].id) >= |t.buckets| - 1
  }

  function Fresh(local: NodeId): Table { Table(local, [Bucket(0, [])]) }

  lemma FreshInv(local: NodeId)
    ensures Inv(Fresh(local))
  {
  }

  /** `bucket_index`: the last bucket whose prefix length is within the shared length, or the first. */
  function IndexFrom(buckets: seq<Bucket>, zeros: nat, n: nat): (i: nat)
    requires n <= |buckets|
    ensures i <= n && (n > 0 ==> i < n)
    ensures forall j :: i < j < n ==> zeros < buckets[j].prefix
    ensures i > 0 ==> buckets[i].prefix <= zeros
  {
    if n == 0 then 0 else if zeros >= buckets[n - 1].prefix then n - 1 else IndexFrom(buckets, zeros, n - 1)
  }

  function BucketIndex(t: Table, id: NodeId): nat { IndexFrom(t.buckets, Shared(t.local, id), |t.buckets|) }

  /** Where an id is looked for, in terms of the bits it shares with the local id. */
  lemma BucketIndexExact(t: Table, id: NodeId)
    requires Inv(t)
    ensures var n := |t.buckets|; var z := Shared(t.local, id);
            BucketIndex(t, id) == if z >= n - 1 then n - 1 else if z == 0 then 0 else z - 1
  {
    var n, z, i := |t.buckets|, Shared(t.local, id), BucketIndex(t, id);
    if z >= n - 1 {
      assert t.buckets[n - 1].prefix <= z;
    } else if z > 0 {
      assert t.buckets[z - 1].prefix == z;
      assert i >= z - 1;
    }
  }

  /** The contacts whose bit at `bit` is, or is not, the local one. */
  function WithBit(local: NodeId, bit: nat, nodes: seq<Contact>, same: bool): seq<Contact> {
    if |nodes| == 0 then []
    else
      var front, last := WithBit(local, bit, nodes[..|nodes| - 1], same), nodes[|nodes| - 1];
      if (BitAt(last.id, bit) == BitAt(local, bit)) == same then front + [last] else front
  }

  /** `split_bucket` of the last bucket. */
  function Split(t: Table): Table
    requires |t.buckets| > 0
  {
    var n := |t.buckets|;
    var b := t.buckets[n - 1];
    Table(t.local, t.buckets[n - 1 := Bucket(b.prefix + 1, WithBit(t.local, b.prefix, b.nodes, false))]
                   + [Bucket(b.prefix + 1, WithBit(t.local, b.prefix, b.nodes, true))])
  }

  lemma {:induction false} WithBitFrom(local: NodeId, bit: nat, nodes: seq<Contact>, same: bool, i: nat)
    returns (k: nat)
    requires i < |WithBit(local, bit, nodes, same)|
    ensures k < |nodes| && nodes[k] == WithBit(local, bit, nodes, same)[i]
    ensures (BitAt(nodes[k].id, bit) == BitAt(local, bit)) == same
  {
    var front := nodes[..|nodes| - 1];
    if i < |WithBit(local, bit, front, same)| {
      k := WithBitFrom(local, bit, front, same, i);
    } else {
      k := |nodes| - 1;
    }
  }

  lemma {:induction false} WithBitOk(local: NodeId, bit: nat, nodes: seq<Contact>, same: bool)
    requires BucketOk(local, nodes)
    ensures BucketOk(local, WithBit(local, bit, nodes, same)) && |WithBit(local, bit, nodes, same)| <= |nodes|
  {
    if |nodes| > 0 {
      var front, last := nodes[..|nodes| - 1], nodes[|nodes| - 1];
      WithBitOk(local, bit, front, same);
      var kept := WithBit(local, bit, front, same);
      forall i | 0 <= i < |kept| ensures kept[i].id != last.id {
        var k := WithBitFrom(local, bit, front, same, i);
      }
    }
  }

  lemma JoinedUp(a: multiset<Contact>, b: multiset<Contact>, c: Contact, all: multiset<Contact>)
    requires a + b == all
    ensures a + multiset{c} + b == all + multiset{c} && a + (b + multiset{c}) == all + multiset{c}
  {
  }

  lemma {:induction false} WithBitContents(local: NodeId, bit: nat, nodes: seq<Contact>)
    ensures multiset(WithBit(local, bit, nodes, false)) + multiset(WithBit(local, bit, nodes, true)) == multiset(nodes)
  {
    if |nodes| > 0 {
      var front, last := nodes[..|nodes| - 1], nodes[|nodes| - 1];
      WithBitContents(local, bit, front);
      assert nodes == front + [last];
      JoinedUp(multiset(WithBit(local, bit, front, false)), multiset(WithBit(local, bit, front, true)), last,
               multiset(front));
    }
  }

  /** What a split moves on shares one more bit. */
  lemma MovedShare(t: Table, n: nat, b: Bucket, j: nat)
    requires Inv(t) && n == |t.buckets| && b == t.buckets[n - 1] && b.prefix < ID_BITS
    requires j < |WithBit(t.local, b.prefix, b.nodes, true)|
    ensures Shared(t.local, WithBit(t.local, b.prefix, b.nodes, true)[j].id) >= n
  {
    var k := WithBitFrom(t.local, b.prefix, b.nodes, true, j);
    SharedBit(t.local, b.nodes[k].id, n - 1);
  }

  /** A split is only made while the last prefix is below 160, and keeps the invariant. */
  lemma SplitInv(t: Table)
    requires Inv(t) && t.buckets[|t.buckets| - 1].prefix < ID_BITS
    ensures Inv(Split(t)) && |Split(t).buckets| == |t.buckets| + 1
  {
    var n := |t.buckets|;
    var b := t.buckets[n - 1];
    WithBitOk(t.local, b.prefix, b.nodes, false);
    WithBitOk(t.local, b.prefix, b.nodes, true);
    forall j: nat | j < |WithBit(t.local, b.prefix, b.nodes, true)|
      ensures Shared(t.local, WithBit(t.local, b.prefix, b.nodes, true)[j].id) >= n
    {
      MovedShare(t, n, b, j);
    }
  }

  /** All stored contacts, with multiplicity. */
  function Contents(buckets: seq<Bucket>): multiset<Contact> {
    if |buckets| == 0 then multiset{} else Contents(buckets[..|buckets| - 1]) + multiset(buckets[|buckets| - 1].nodes)
  }

  lemma Rearranged(a: multiset<Contact>, b: multiset<Contact>, c: multiset<Contact>, d: multiset<Contact>,
                   e: multiset<Contact>)
    requires a + b == c + d
    ensures a + e + b == c + e + d
  {
    assert a + e + b == (a + b) + e && c + e + d == (c + d) + e;
  }

  lemma {:induction false} ContentsUpdate(buckets: seq<Bucket>, i: nat, b: Bucket)
    requires i < |buckets|
    ensures Contents(buckets[i := b]) + multiset(buckets[i].nodes) == Contents(buckets) + multiset(b.nodes)
  {
    var n := |buckets|;
    if i < n - 1 {
      ContentsUpdate(buckets[..n - 1], i, b);
      assert buckets[i := b][..n - 1] == buckets[..n - 1][i := b];
      Rearranged(Contents(buckets[..n - 1][i := b]), multiset(buckets[i].nodes), Contents(buckets[..n - 1]),
                 multiset(b.nodes), multiset(buckets[n - 1].nodes));
    } else {
      assert buckets[i := b][..n - 1] == buckets[..n - 1];
    }
  }

  /** Splitting moves contacts and neither adds nor drops one. */
  lemma SplitContents(t: Table)
    requires |t.buckets| > 0
    ensures Contents(Split(t).buckets) == Contents(t.buckets)
  {
    var n := |t.buckets|;
    var b := t.buckets[n - 1];
    WithBitContents(t.local, b.prefix, b.nodes);
    var s := Split(t).buckets;
    assert s[..n] == t.buckets[n - 1 := s[n - 1]];
    ContentsUpdate(t.buckets, n - 1, s[n - 1]);
  }

  /** `RoutingTable::insert` from the choice of the bucket on. */
  ghost function Place(t: Table, c: Contact): (r: Table)
    requires Inv(t)
    decreases ID_BITS + 1 - |t.buckets|
  {
    var i := BucketIndex(t, c.id);
    var n := |t.buckets|;
    match Put(t.buckets[i].nodes, c)
    case Some(nodes) => Table(t.local, t.buckets[i := Bucket(t.buckets[i].prefix, nodes)])
    case None =>
      if i == n - 1 && t.buckets[i].prefix < ID_BITS then
        SplitInv(t);
        Place(Split(t), c)
      else t
  }

  ghost function Insert(t: Table, c: Contact): Table
    requires Inv(t)
  {
    if c.id == t.local then t else Place(t, c)
  }

  /** The bucket chosen for `c` is full of others and may not be split. */
  ghost predicate Refuses(t: Table, c: Contact)
    requires Inv(t)
  {
    var i := BucketIndex(t, c.id);
    && |t.buckets[i].nodes| == BUCKET_SIZE && !HasId(t.buckets[i].nodes, c.id)
    && (i == |t.buckets| - 1 ==> t.buckets[i].prefix == ID_BITS)
  }

  lemma {:induction false} PlaceSafe(t: Table, c: Contact)
    requires Inv(t) && c.id != t.local
    ensures Inv(Place(t, c)) && Place(t, c).local == t.local
    ensures || Replaces(Contents(t.buckets), Contents(Place(t, c).buckets), c)
            || (Refuses(Place(t, c), c) && Contents(Place(t, c).buckets) == Contents(t.buckets))
    decreases ID_BITS + 1 - |t.buckets|
  {
    var i, n := BucketIndex(t, c.id), |t.buckets|;
    var nodes := t.buckets[i].nodes;
    PutOk(t.local, nodes, c);
    if Put(nodes, c).Some? {
      PutInv(t, c, i, Put(nodes, c).value);
      PutInTable(t, c, i, Put(nodes, c).value);
    } else if i == n - 1 && t.buckets[i].prefix < ID_BITS {
      SplitInv(t);
      SplitContents(t);
      PlaceSafe(Split(t), c);
    }
  }

  /** Every insert ends, keeps the shape of the table, and conserves its contacts:
      the new one is added or replaces one of its own id, unless it is our own
      id or its bucket is full and may not be split. */
  lemma InsertSafe(t: Table, c: Contact)
    requires Inv(t)
    ensures Inv(Insert(t, c)) && Insert(t, c).local == t.local
    ensures c.id == t.local ==> Insert(t, c) == t
    ensures c.id != t.local ==>
              || Replaces(Contents(t.buckets), Contents(Insert(t, c).buckets), c)
              || (Refuses(Insert(t, c), c) && Contents(Insert(t, c).buckets) == Contents(t.buckets))
  {
    if c.id != t.local {
      PlaceSafe(t, c);
    }
  }

  ghost predicate Stored(t: Table, id: NodeId) { exists c: Contact :: c in Contents(t.buckets) && c.id == id }

  /** No stored id is ever dropped, and none but the inserted one appears. */
  lemma IdsKept(t: Table, c: Contact, id: NodeId)
    requires Inv(t)
    ensures Stored(t, id) ==> Stored(Insert(t, c), id)
    ensures Stored(Insert(t, c), id) ==> Stored(t, id) || id == c.id
  {
    InsertSafe(t, c);
    if c.id != t.local && Contents(Insert(t, c).buckets) != Contents(t.buckets) {
      ReplacesIds(Contents(t.buckets), Contents(Insert(t, c).buckets), c, id);
    }
  }

  lemma ReplacesIds(before: multiset<Contact>, after: multiset<Contact>, c: Contact, id: NodeId)
    requires Replaces(before, after, c)
    ensures (exists x: Contact :: x in before && x.id == id) ==> exists x: Contact :: x in after && x.id == id
    ensures (exists x: Contact :: x in after && x.id == id) ==>
              id == c.id || exists x: Contact :: x in before && x.id == id
  {
    assert c in after;
    if x: Contact :| x in before && x.id == id {
      assert id == c.id || x in after;
    }
    if x: Contact :| x in after && x.id == id {
      assert x == c || x in before;
    }
  }

  ghost function InsertAll(t: Table, cs: seq<Contact>): (r: Table)
    requires Inv(t)
    ensures Inv(r)
  {
    if |cs| == 0 then t
    else
      InsertSafe(InsertAll(t, cs[..|cs| - 1]), cs[|cs| - 1]);
      Insert(InsertAll(t, cs[..|cs| - 1]), cs[|cs| - 1])
  }

  /** Over any run of inserts: the shape holds, and an id once stored stays stored. */
  lemma {:induction false} RunKeeps(t: Table, cs: seq<Contact>, k: nat, id: NodeId)
    requires Inv(t) && k <= |cs| && Stored(InsertAll(t, cs[..k]), id)
    ensures Inv(InsertAll(t, cs)) && Stored(InsertAll(t, cs), id)
  {
    if k < |cs| {
      var front := cs[..|cs| - 1];
      assert front[..k] == cs[..k];
      RunKeeps(t, front, k, id);
      IdsKept(InsertAll(t, front), cs[|cs| - 1], id);
    } else {
      assert cs[..k] == cs;
    }
  }

  lemma PutInv(t: Table, c: Contact, i: nat, nodes: seq<Contact>)
    requires Inv(t) && c.id != t.local && i == BucketIndex(t, c.id) && Put(t.buckets[i].nodes, c) == Some(nodes)
    ensures Inv(Table(t.local, t.buckets[i := Bucket(t.buckets[i].prefix, nodes)]))
  {
    var n := |t.buckets|;
    PutOk(t.local, t.buckets[i].nodes, c);
    BucketIndexExact(t, c.id);
    if i == n - 1 {
      forall j | 0 <= j < |nodes| ensures Shared(t.local, nodes[j].id) >= n - 1 {
        PutFrom(t.buckets[i].nodes, c, j);
      }
    }
  }

  lemma PutFrom(nodes: seq<Contact>, c: Contact, j: nat)
    requires Put(nodes, c).Some? && j < |Put(nodes, c).value|
    ensures Put(nodes, c).value[j] == c || Put(nodes, c).value[j] in nodes
  {
  }

  lemma PutInTable(t: Table, c: Contact, i: nat, nodes: seq<Contact>)
    requires i < |t.buckets| && Put(t.buckets[i].nodes, c) == Some(nodes)
    ensures Replaces(Contents(t.buckets), Contents(t.buckets[i := Bucket(t.buckets[i].prefix, nodes)]), c)
  {
    var b := Bucket(t.buckets[i].prefix, nodes);
    ContentsUpdate(t.buckets, i, b);
    ContentsHas(t.buckets, i);
    PutContents(t.buckets[i].nodes, c);
    ReplacesWithin(multiset(t.buckets[i].nodes), multiset(nodes), Contents(t.buckets), Contents(t.buckets[i := b]), c);
  }

  lemma AddedWithin(was: multiset<Contact>, before: multiset<Contact>, after: multiset<Contact>, c: Contact)
    requires after + was == before + (was + multiset{c})
    ensures after == before + multiset{c}
  {
    forall x: Contact ensures after[x] == (before + multiset{c})[x] {
      assert (after + was)[x] == before[x] + (was + multiset{c})[x];
    }
  }

  lemma SwappedWithin(was: multiset<Contact>, before: multiset<Contact>, after: multiset<Contact>, gone: Contact,
                      c: Contact)
    requires gone in was && was <= before && after + was == before + (was - multiset{gone} + multiset{c})
    ensures gone in before && after == before - multiset{gone} + multiset{c}
  {
    assert before[gone] >= was[gone] > 0;
    forall x: Contact ensures after[x] == (before - multiset{gone} + multiset{c})[x] {
      assert (after + was)[x] == before[x] + (was - multiset{gone} + multiset{c})[x];
    }
  }

  lemma ReplacesWithin(was: multiset<Contact>, now: multiset<Contact>, before: multiset<Contact>,
                       after: multiset<Contact>, c: Contact)
    requires after + was == before + now && was <= before && Replaces(was, now, c)
    ensures Replaces(before, after, c)
  {
    if now == was + multiset{c} {
      AddedWithin(was, before, after, c);
    } else {
      var gone :| gone in was && gone.id == c.id && now == was - multiset{gone} + multiset{c};
      SwappedWithin(was, before, after, gone, c);
    }
  }

  lemma {:induction false} ContentsHas(buckets: seq<Bucket>, i: nat)
    requires i < |buckets|
    ensures multiset(buckets[i].nodes) <= Contents(buckets)
  {
    if i < |buckets| - 1 {
      ContentsHas(buckets[..|buckets| - 1], i);
    }
  }

  // ----- the closest contacts -----

  function IdOf(c: Contact): NodeId { c.id }

  /** The kept contacts, bucket by bucket. */
  function Kept(nodes: seq<Contact>, keep: Contact -> bool): (r: seq<Contact>)
    ensures forall c :: c in r ==> c in nodes && keep(c)
    ensures forall c :: c in nodes && keep(c) ==> c in r
  {
    if |nodes| == 0 then []
    else
      var rest := Kept(nodes[..|nodes| - 1], keep);
      if keep(nodes[|nodes| - 1]) then rest + [nodes[|nodes| - 1]] else rest
  }

  function AllKept(buckets: seq<Bucket>, keep: Contact -> bool): seq<Contact> {
    if |buckets| == 0 then [] else AllKept(buckets[..|buckets| - 1], keep) + Kept(buckets[|buckets| - 1].nodes, keep)
  }

  function Closest(t: Table, target: NodeId, count: nat, keep: Contact -> bool): seq<Contact> {
    var all := SortBy(IdOf, target, AllKept(t.buckets, keep));
    all[..Min(count, |all|)]
  }

  /** `x` is no nearer to the target than anything in `r`. */
  ghost predicate NoNearer(target: NodeId, r: seq<Contact>, x: Contact) {
    forall i :: 0 <= i < |r| ==> !Nearer(x.id, r[i].id, target)
  }

  lemma BeyondIsNotNearer(target: NodeId, r: seq<Contact>, x: Contact)
    requires Beyond(IdOf, target, r, x)
    ensures NoNearer(target, r, x)
  {
    forall i | 0 <= i < |r| ensures !Nearer(x.id, r[i].id, target) {
      NotAfterIsNearness(IdOf(r[i]), IdOf(x), target);
    }
  }

  /** The answer comes nearest first, has as many of the kept contacts as were
      asked for and exist, and no kept contact left out is nearer to the target
      than one in it. */
  lemma ClosestExact(t: Table, target: NodeId, count: nat, keep: Contact -> bool)
    ensures var r := Closest(t, target, count, keep); var kept := AllKept(t.buckets, keep);
            && |r| == Min(count, |kept|) && ByNearness(IdOf, target, r) && multiset(r) <= multiset(kept)
            && forall x :: x in multiset(kept) - multiset(r) ==> NoNearer(target, r, x)
  {
    var kept := AllKept(t.buckets, keep);
    var all := SortBy(IdOf, target, kept);
    SortSound(IdOf, target, kept);
    assert |multiset(all)| == |multiset(kept)|;
    var n := Min(count, |all|);
    CutKeepsClosest(IdOf, target, all, n);
    SortedByNearness(IdOf, target, all[..n]);
    assert multiset(kept) - multiset(all[..n]) == multiset(all[n..]);
    forall x | x in multiset(all[n..]) ensures NoNearer(target, all[..n], x) {
      BeyondIsNotNearer(target, all[..n], x);
    }
  }

  /** `closest_where` looks at exactly the stored contacts that pass the filter. */
  lemma {:induction false} AllKeptExact(buckets: seq<Bucket>, keep: Contact -> bool, c: Contact)
    ensures c in AllKept(buckets, keep) <==> c in Contents(buckets) && keep(c)
  {
    if |buckets| > 0 {
      AllKeptExact(buckets[..|buckets| - 1], keep, c);
    }
  }

  // ----- the table itself -----

  class RoutingTable {
    const localId: NodeId
    var buckets: seq<Bucket>

    ghost function View(): Table
      reads this
    {
      Table(localId, buckets)
    }

    constructor (local: NodeId)
      ensures localId == local && Inv(View()) && View() == Fresh(local)
    {
      localId, buckets := local, [Bucket(0, [])];
    }

    method IndexOf(target: NodeId) returns (index: nat)
      requires Inv(View())
      ensures index == BucketIndex(View(), target) && index < |buckets|
    {
      var zeros := LeadingZeros(Xor(localId, target));
      index := 0;
      for i := 0 to |buckets|
        invariant index == IndexFrom(buckets, zeros, i)
      {
        if zeros >= buckets[i].prefix {
          index := i;
        }
      }
    }

    method SplitLast()
      requires |buckets| > 0
      modifies this
      ensures View() == Split(old(View()))
    {
      var n := |buckets|;
      var b := buckets[n - 1];
      var away, towards := Parted(localId, b.prefix, b.nodes);
      buckets := buckets[n - 1 := Bucket(b.prefix + 1, away)] + [Bucket(b.prefix + 1, towards)];
    }

    method Add(c: Contact)
      requires Inv(View())
      modifies this
      ensures View() == Insert(old(View()), c) && Inv(View())
    {
      InsertSafe(View(), c);
      if c.id == localId {
        return;
      }
      var index := IndexOf(c.id);
      while true
        invariant Inv(View()) && index == BucketIndex(View(), c.id) && index < |buckets|
        invariant Place(View(), c) == Place(old(View()), c)
        decreases ID_BITS + 1 - |buckets|
      {
        var put := PutContact(buckets[index].nodes, c);
        if put.Some? {
          buckets := buckets[index := Bucket(buckets[index].prefix, put.value)];
          return;
        }
        if index == |buckets| - 1 && buckets[index].prefix < ID_BITS {
          SplitInv(View());
          SplitLast();
          index := IndexOf(c.id);
        } else {
          return;
        }
      }
    }

    method ClosestWhere(target: NodeId, count: nat, keep: Contact -> bool) returns (r: seq<Contact>)
      ensures r == Closest(View(), target, count, keep)
    {
      var all := [];
      for i := 0 to |buckets|
        invariant all == AllKept(buckets[..i], keep)
      {
        assert buckets[..i + 1][..i] == buckets[..i];
        all := all + Kept(buckets[i].nodes, keep);
      }
      assert buckets[..|buckets|] == buckets;
      all := SortBy(IdOf, target, all);
      r := all[..Min(count, |all|)];
    }
  }

  /** The contacts that stay and those that move towards the local id. */
  method Parted(local: NodeId, bit: nat, nodes: seq<Contact>) returns (away: seq<Contact>, towards: seq<Contact>)
    ensures away == WithBit(local, bit, nodes, false) && towards == WithBit(local, bit, nodes, true)
  {
    away, towards := [], [];
    for i := 0 to |nodes|
      invariant away == WithBit(local, bit, nodes[..i], false) && towards == WithBit(local, bit, nodes[..i], true)
    {
      assert nodes[..i + 1][..i] == nodes[..i];
      if BitAt(nodes[i].id, bit) == BitAt(local, bit) {
        towards := towards + [nodes[i]];
      } else {
        away := away + [nodes[i]];
      }
    }
    assert nodes[..|nodes|] == nodes;
  }

  method PutContact(nodes: seq<Contact>, c: Contact) returns (r: Option<seq<Contact>>)
    ensures r == Put(nodes, c)
  {
    var i := 0;
    while i < |nodes| && nodes[i].id != c.id
      invariant 0 <= i <= |nodes| && forall j :: 0 <= j < i ==> nodes[j].id != c.id
    {
      i := i + 1;
    }
    assert i == Position(nodes, c.id);
    if i < |nodes| {
      var existing := nodes[i];
      r := Some(nodes[..i] + nodes[i + 1..] + [Contact(existing.id, c.addr)]);
    } else {
      r := if |nodes| < BUCKET_SIZE then Some(nodes + [c]) else None;
    }
  }
}
