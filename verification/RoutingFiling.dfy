/** Where the routing table files a contact and where it looks for it: a split
    can leave a contact in a bucket it is not looked for in, and then a second
    copy may be stored, but never a third. */
module RoutingFiling {
  import opened Common
  import opened NodeIds
  import opened Routing

  /** A contact sharing `z` bits may be in bucket `i`, not the last of `n`. */
  predicate FiledAt(n: nat, i: nat, z: nat) { z == i || (z == i + 1 && z + 2 <= n) }

  ghost predicate BucketFiled(local: NodeId, n: nat, i: nat, nodes: seq<Contact>) {
    forall j :: 0 <= j < |nodes| ==> FiledAt(n, i, Shared(local, nodes[j].id))
  }

  ghost predicate Filed(t: Table) {
    forall i :: 0 <= i < |t.buckets| - 1 ==> BucketFiled(t.local, |t.buckets|, i, t.buckets[i].nodes)
  }

  // ----- every insert keeps contacts filed -----

  /** What a split leaves behind shares exactly the bits of the old prefix. */
  lemma LeftBehind(t: Table)
    requires Inv(t) && t.buckets[|t.buckets| - 1].prefix < ID_BITS
    ensures var n := |t.buckets|; BucketFiled(t.local, n + 1, n - 1, Split(t).buckets[n - 1].nodes)
  {
    var n := |t.buckets|;
    var b := t.buckets[n - 1];
    var kept := WithBit(t.local, b.prefix, b.nodes, false);
    forall j | 0 <= j < |kept| ensures FiledAt(n + 1, n - 1, Shared(t.local, kept[j].id)) {
      var k := WithBitFrom(t.local, b.prefix, b.nodes, false, j);
      SharedBit(t.local, b.nodes[k].id, n - 1);
    }
  }

  lemma SplitFiled(t: Table)
    requires Inv(t) && Filed(t) && t.buckets[|t.buckets| - 1].prefix < ID_BITS
    ensures Filed(Split(t))
  {
    var n, s := |t.buckets|, Split(t);
    LeftBehind(t);
    forall i | 0 <= i < n ensures BucketFiled(t.local, n + 1, i, s.buckets[i].nodes) {
      if i < n - 1 {
        assert s.buckets[i] == t.buckets[i] && BucketFiled(t.local, n, i, t.buckets[i].nodes);
      }
    }
  }

  lemma PutFiled(t: Table, c: Contact, i: nat, nodes: seq<Contact>)
    requires Inv(t) && Filed(t) && i == BucketIndex(t, c.id) && Put(t.buckets[i].nodes, c) == Some(nodes)
    ensures Filed(Table(t.local, t.buckets[i := Bucket(t.buckets[i].prefix, nodes)]))
  {
    var n := |t.buckets|;
    BucketIndexExact(t, c.id);
    if i < n - 1 {
      assert BucketFiled(t.local, n, i, t.buckets[i].nodes);
      forall j | 0 <= j < |nodes| ensures FiledAt(n, i, Shared(t.local, nodes[j].id)) {
        PutFrom(t.buckets[i].nodes, c, j);
      }
    }
  }

  lemma {:induction false} PlaceFiled(t: Table, c: Contact)
    requires Inv(t) && Filed(t) && c.id != t.local
    ensures Filed(Place(t, c))
    decreases ID_BITS + 1 - |t.buckets|
  {
    var i := BucketIndex(t, c.id);
    var nodes := t.buckets[i].nodes;
    if Put(nodes, c).Some? {
      PutFiled(t, c, i, Put(nodes, c).value);
    } else if i == |t.buckets| - 1 && t.buckets[i].prefix < ID_BITS {
      SplitInv(t);
      SplitFiled(t);
      PlaceFiled(Split(t), c);
    }
  }

  /** Every table that inserts can produce is filed. */
  lemma {:induction false} RunFiled(local: NodeId, cs: seq<Contact>)
    ensures Inv(Fresh(local)) && Filed(InsertAll(Fresh(local), cs))
  {
    FreshInv(local);
    if |cs| > 0 {
      RunFiled(local, cs[..|cs| - 1]);
      LocalKept(Fresh(local), cs[..|cs| - 1]);
      var before := InsertAll(Fresh(local), cs[..|cs| - 1]);
      if cs[|cs| - 1].id != before.local {
        PlaceFiled(before, cs[|cs| - 1]);
      }
    }
  }

  lemma {:induction false} LocalKept(t: Table, cs: seq<Contact>)
    requires Inv(t)
    ensures InsertAll(t, cs).local == t.local
  {
    if |cs| > 0 {
      LocalKept(t, cs[..|cs| - 1]);
      InsertSafe(InsertAll(t, cs[..|cs| - 1]), cs[|cs| - 1]);
    }
  }

  // ----- what a split misfiles -----

  /** The bucket a contact of the last bucket is in after a split. */
  function HomeAfterSplit(t: Table, id: NodeId): nat
    requires |t.buckets| > 0
  {
    if Shared(t.local, id) >= |t.buckets| then |t.buckets| else |t.buckets| - 1
  }

  lemma {:induction false} WithBitHas(local: NodeId, bit: nat, nodes: seq<Contact>, same: bool, j: nat)
    requires j < |nodes| && (BitAt(nodes[j].id, bit) == BitAt(local, bit)) == same
    ensures nodes[j] in WithBit(local, bit, nodes, same)
  {
    if j < |nodes| - 1 {
      WithBitHas(local, bit, nodes[..|nodes| - 1], same, j);
    }
  }

  /** The bits at the split tell a contact that moves on from one that stays. */
  lemma Sides(t: Table, c: Contact, j: nat, n: nat, nodes: seq<Contact>, moves: bool)
    requires 0 < n <= ID_BITS && j < |nodes| && c == nodes[j] && Shared(t.local, c.id) >= n - 1
    requires moves == (Shared(t.local, c.id) >= n)
    ensures c in WithBit(t.local, n - 1, nodes, moves)
  {
    SharedBit(t.local, c.id, n - 1);
    WithBitHas(t.local, n - 1, nodes, moves, j);
  }

  lemma SplitSides(t: Table, n: nat, nodes: seq<Contact>)
    requires n == |t.buckets| > 0 && t.buckets[n - 1] == Bucket(n - 1, nodes)
    ensures Split(t).buckets[n].nodes == WithBit(t.local, n - 1, nodes, true)
    ensures Split(t).buckets[n - 1].nodes == WithBit(t.local, n - 1, nodes, false)
  {
  }

  lemma LooksAfterSplit(t: Table, id: NodeId, n: nat, z: nat)
    requires Inv(t) && n == |t.buckets| && t.buckets[n - 1].prefix < ID_BITS && z == Shared(t.local, id) && z >= n - 1
    ensures BucketIndex(Split(t), id) == if z >= n then n else if z == 0 then 0 else n - 2
  {
    SplitInv(t);
    BucketIndexExact(Split(t), id);
  }

  /** A contact of the bucket that is split is looked for afterwards in the
      bucket it is in, except when it shares exactly the old prefix and that is
      not empty. */
  lemma SplitMisfiles(t: Table, j: nat, c: Contact, n: nat, z: nat)
    requires Inv(t) && n == |t.buckets| && t.buckets[n - 1].prefix < ID_BITS
    requires j < |t.buckets[n - 1].nodes| && c == t.buckets[n - 1].nodes[j] && z == Shared(t.local, c.id)
    ensures HomeAfterSplit(t, c.id) <= n && c in Split(t).buckets[HomeAfterSplit(t, c.id)].nodes
    ensures BucketIndex(Split(t), c.id) == HomeAfterSplit(t, c.id) <==> !(0 < z == n - 1)
  {
    var nodes := t.buckets[n - 1].nodes;
    Sides(t, c, j, n, nodes, z >= n);
    SplitSides(t, n, nodes);
    LooksAfterSplit(t, c.id, n, z);
  }

  // ----- how often an id is stored -----

  /** The number of buckets that hold `id`; each holds it at most once. */
  function Copies(buckets: seq<Bucket>, id: NodeId): nat {
    if |buckets| == 0 then 0
    else Copies(buckets[..|buckets| - 1], id) + if HasId(buckets[|buckets| - 1].nodes, id) then 1 else 0
  }

  function Held(buckets: seq<Bucket>, id: NodeId, i: nat): nat {
    if i < |buckets| && HasId(buckets[i].nodes, id) then 1 else 0
  }

  lemma {:induction false} CopiesAmong(buckets: seq<Bucket>, id: NodeId, a: nat, b: nat)
    requires a != b && forall i :: 0 <= i < |buckets| && HasId(buckets[i].nodes, id) ==> i == a || i == b
    ensures Copies(buckets, id) == Held(buckets, id, a) + Held(buckets, id, b)
  {
    var n := |buckets|;
    if n > 0 {
      var front := buckets[..n - 1];
      assert forall i :: 0 <= i < n - 1 ==> front[i] == buckets[i];
      CopiesAmong(front, id, a, b);
      assert Held(front, id, a) == if a < n - 1 then Held(buckets, id, a) else 0;
      assert Held(front, id, b) == if b < n - 1 then Held(buckets, id, b) else 0;
    }
  }

  /** The buckets an id can be in, from the bits it shares with the local id. */
  lemma OnlyThere(t: Table, id: NodeId, z: nat, n: nat, i: nat)
    requires Inv(t) && Filed(t) && z == Shared(t.local, id) && n == |t.buckets| && i < n
    requires HasId(t.buckets[i].nodes, id)
    ensures if z + 1 >= n then i == n - 1 else i == z || i + 1 == z
  {
    var j :| 0 <= j < |t.buckets[i].nodes| && t.buckets[i].nodes[j].id == id;
    if i < n - 1 {
      assert BucketFiled(t.local, n, i, t.buckets[i].nodes);
    }
  }

  /** An id is in its own bucket and the one before it at most; near the local id
      and far from it, in one bucket only. */
  lemma StoredAtMostTwice(t: Table, id: NodeId, z: nat, n: nat)
    requires Inv(t) && Filed(t) && z == Shared(t.local, id) && n == |t.buckets|
    ensures Copies(t.buckets, id)
            == if z + 1 >= n then Held(t.buckets, id, n - 1)
               else Held(t.buckets, id, z) + if z == 0 then 0 else Held(t.buckets, id, z - 1)
    ensures Copies(t.buckets, id) <= 2
  {
    forall i | 0 <= i < n && HasId(t.buckets[i].nodes, id)
      ensures if z + 1 >= n then i == n - 1 else i == z || i + 1 == z
    {
      OnlyThere(t, id, z, n, i);
    }
    if z + 1 >= n {
      CopiesAmong(t.buckets, id, n - 1, n);
    } else {
      CopiesAmong(t.buckets, id, z, if z == 0 then n else z - 1);
    }
  }

  /** No run of inserts stores an id more than twice. */
  lemma RunStoresAtMostTwice(local: NodeId, cs: seq<Contact>, id: NodeId)
    ensures Inv(Fresh(local)) && Copies(InsertAll(Fresh(local), cs).buckets, id) <= 2
  {
    RunFiled(local, cs);
    var t := InsertAll(Fresh(local), cs);
    StoredAtMostTwice(t, id, Shared(t.local, id), |t.buckets|);
  }

  lemma {:induction false} CopiesUpdate(buckets: seq<Bucket>, id: NodeId, i: nat, b: Bucket)
    requires i < |buckets|
    ensures Copies(buckets[i := b], id) + Held(buckets, id, i)
            == Copies(buckets, id) + if HasId(b.nodes, id) then 1 else 0
  {
    var n := |buckets|;
    if i < n - 1 {
      CopiesUpdate(buckets[..n - 1], id, i, b);
      assert buckets[i := b][..n - 1] == buckets[..n - 1][i := b];
    } else {
      assert buckets[i := b][..n - 1] == buckets[..n - 1];
    }
  }

  /** Inserting a contact whose bucket has it, or has room, changes that bucket only. */
  lemma PutCopies(t: Table, c: Contact, i: nat)
    requires Inv(t) && c.id != t.local && i == BucketIndex(t, c.id) && i < |t.buckets|
    requires Put(t.buckets[i].nodes, c).Some?
    ensures Copies(Insert(t, c).buckets, c.id) == Copies(t.buckets, c.id) + 1 - Held(t.buckets, c.id, i)
  {
    PutOk(t.local, t.buckets[i].nodes, c);
    CopiesUpdate(t.buckets, c.id, i, Bucket(t.buckets[i].prefix, Put(t.buckets[i].nodes, c).value));
  }

  /** The bucket before the one that holds the id has room and does not hold it. */
  ghost predicate SecondCopyFits(t: Table, id: NodeId) {
    var z := Shared(t.local, id);
    && 0 < z < |t.buckets| - 1 && HasId(t.buckets[z].nodes, id)
    && !HasId(t.buckets[z - 1].nodes, id) && |t.buckets[z - 1].nodes| < BUCKET_SIZE
  }

  /** Inserting an id that is stored adds a second copy exactly when a split has
      left it one bucket behind where it is looked for, and there is room there. */
  lemma StoredAgain(t: Table, c: Contact, z: nat, n: nat)
    requires Inv(t) && Filed(t) && c.id != t.local && Copies(t.buckets, c.id) > 0
    requires z == Shared(t.local, c.id) && n == |t.buckets|
    ensures Copies(Insert(t, c).buckets, c.id) == Copies(t.buckets, c.id) + if SecondCopyFits(t, c.id) then 1 else 0
  {
    var i := BucketIndex(t, c.id);
    BucketIndexExact(t, c.id);
    StoredAtMostTwice(t, c.id, z, n);
    PutOk(t.local, t.buckets[i].nodes, c);
    if Put(t.buckets[i].nodes, c).Some? {
      PutCopies(t, c, i);
    }
  }

  // ----- an id that was not stored -----

  lemma SameIndex(t: Table, t': Table, id: NodeId)
    requires Inv(t) && Inv(t') && t'.local == t.local && |t'.buckets| == |t.buckets|
    ensures BucketIndex(t', id) == BucketIndex(t, id)
  {
    BucketIndexExact(t, id);
    BucketIndexExact(t', id);
  }

  lemma {:induction false} NoCopies(buckets: seq<Bucket>, id: NodeId)
    ensures Copies(buckets, id) == 0 <==> forall i :: 0 <= i < |buckets| ==> !HasId(buckets[i].nodes, id)
  {
    var n := |buckets|;
    if n > 0 {
      NoCopies(buckets[..n - 1], id);
      assert forall i :: 0 <= i < n - 1 ==> buckets[..n - 1][i] == buckets[i];
    }
  }

  lemma SplitNoCopies(t: Table, id: NodeId)
    requires |t.buckets| > 0 && Copies(t.buckets, id) == 0
    ensures Copies(Split(t).buckets, id) == 0
  {
    var n, s := |t.buckets|, Split(t);
    var b := t.buckets[n - 1];
    NoCopies(t.buckets, id);
    NoCopies(s.buckets, id);
    forall same: bool ensures !HasId(WithBit(t.local, b.prefix, b.nodes, same), id) {
      var nodes := WithBit(t.local, b.prefix, b.nodes, same);
      forall j | 0 <= j < |nodes| ensures nodes[j].id != id {
        var k := WithBitFrom(t.local, b.prefix, b.nodes, same, j);
      }
    }
  }

  lemma PutPlaces(t: Table, c: Contact, i: nat)
    requires Inv(t) && c.id != t.local && i == BucketIndex(t, c.id) && i < |t.buckets|
    requires Put(t.buckets[i].nodes, c).Some?
    ensures Inv(Place(t, c)) && !Refuses(Place(t, c), c)
  {
    var nodes := Put(t.buckets[i].nodes, c).value;
    PutOk(t.local, t.buckets[i].nodes, c);
    PutInv(t, c, i, nodes);
    SameIndex(t, Table(t.local, t.buckets[i := Bucket(t.buckets[i].prefix, nodes)]), c.id);
  }

  lemma {:induction false} PlaceNew(t: Table, c: Contact)
    requires Inv(t) && c.id != t.local && Copies(t.buckets, c.id) == 0
    ensures Inv(Place(t, c)) && Copies(Place(t, c).buckets, c.id) == if Refuses(Place(t, c), c) then 0 else 1
    decreases ID_BITS + 1 - |t.buckets|
  {
    var i := BucketIndex(t, c.id);
    NoCopies(t.buckets, c.id);
    PutOk(t.local, t.buckets[i].nodes, c);
    if Put(t.buckets[i].nodes, c).Some? {
      PutCopies(t, c, i);
      PutPlaces(t, c, i);
    } else if i == |t.buckets| - 1 && t.buckets[i].prefix < ID_BITS {
      SplitInv(t);
      SplitNoCopies(t, c.id);
      PlaceNew(Split(t), c);
    }
  }

  /** How the number of copies of the inserted id changes, in every case: a new
      id is stored once unless its bucket refuses it; a stored one gains a copy
      exactly when a second one fits; no id ever has three. */
  lemma InsertCopies(t: Table, c: Contact)
    requires Inv(t) && Filed(t) && c.id != t.local
    ensures Inv(Insert(t, c)) && Filed(Insert(t, c))
    ensures Copies(Insert(t, c).buckets, c.id)
            == if Copies(t.buckets, c.id) > 0 then Copies(t.buckets, c.id) + (if SecondCopyFits(t, c.id) then 1 else 0)
               else if Refuses(Insert(t, c), c) then 0 else 1
    ensures Copies(Insert(t, c).buckets, c.id) <= 2
  {
    InsertSafe(t, c);
    PlaceFiled(t, c);
    if Copies(t.buckets, c.id) > 0 {
      StoredAgain(t, c, Shared(t.local, c.id), |t.buckets|);
    } else {
      PlaceNew(t, c);
    }
    StoredAtMostTwice(Insert(t, c), c.id, Shared(t.local, c.id), |Insert(t, c).buckets|);
  }

  // ----- the other ids, and whole runs -----

  lemma HasIdAt(nodes: seq<Contact>, j: nat)
    requires j < |nodes|
    ensures HasId(nodes, nodes[j].id)
  {
  }

  /** A split hands each id of the bucket to one of its halves. */
  lemma HalvesHold(local: NodeId, bit: nat, nodes: seq<Contact>, id: NodeId)
    ensures var stay, go := WithBit(local, bit, nodes, false), WithBit(local, bit, nodes, true);
            && (HasId(nodes, id) <==> HasId(stay, id) || HasId(go, id))
            && !(HasId(stay, id) && HasId(go, id))
  {
    var stay, go := WithBit(local, bit, nodes, false), WithBit(local, bit, nodes, true);
    if HasId(nodes, id) {
      var j: nat :| j < |nodes| && nodes[j].id == id;
      WithBitHas(local, bit, nodes, BitAt(id, bit) == BitAt(local, bit), j);
    }
    if HasId(stay, id) {
      var i: nat :| i < |stay| && stay[i].id == id;
      var k := WithBitFrom(local, bit, nodes, false, i);
      HasIdAt(nodes, k);
    }
    if HasId(go, id) {
      var i: nat :| i < |go| && go[i].id == id;
      var k := WithBitFrom(local, bit, nodes, true, i);
      HasIdAt(nodes, k);
    }
  }

  lemma SplitCopies(t: Table, id: NodeId)
    requires |t.buckets| > 0
    ensures Copies(Split(t).buckets, id) == Copies(t.buckets, id)
  {
    var n, s := |t.buckets|, Split(t).buckets;
    var b := t.buckets[n - 1];
    HalvesHold(t.local, b.prefix, b.nodes, id);
    assert s[..n] == t.buckets[n - 1 := s[n - 1]];
    CopiesUpdate(t.buckets, id, n - 1, s[n - 1]);
  }

  lemma PutOthers(nodes: seq<Contact>, c: Contact, id: NodeId)
    requires Put(nodes, c).Some? && id != c.id
    ensures HasId(Put(nodes, c).value, id) <==> HasId(nodes, id)
  {
    var i, after := Position(nodes, c.id), Put(nodes, c).value;
    if HasId(nodes, id) {
      var j :| 0 <= j < |nodes| && nodes[j].id == id;
      assert after[if j < i then j else j - 1] == nodes[j];
    }
    if HasId(after, id) {
      var j: nat :| j < |after| && after[j].id == id;
      PutFrom(nodes, c, j);
    }
  }

  /** An insert leaves the copies of every other id as they are. */
  lemma {:induction false} PlaceOthers(t: Table, c: Contact, id: NodeId)
    requires Inv(t) && id != c.id
    ensures Copies(Place(t, c).buckets, id) == Copies(t.buckets, id)
    decreases ID_BITS + 1 - |t.buckets|
  {
    var i := BucketIndex(t, c.id);
    var nodes := t.buckets[i].nodes;
    if Put(nodes, c).Some? {
      PutOthers(nodes, c, id);
      CopiesUpdate(t.buckets, id, i, Bucket(t.buckets[i].prefix, Put(nodes, c).value));
    } else if i == |t.buckets| - 1 && t.buckets[i].prefix < ID_BITS {
      SplitInv(t);
      SplitCopies(t, id);
      PlaceOthers(Split(t), c, id);
    }
  }

  /** The table after the first `k` inserts of a run. */
  ghost function TableAt(local: NodeId, cs: seq<Contact>, k: nat): (t: Table)
    requires k <= |cs| && Inv(Fresh(local))
    ensures Inv(t)
  {
    InsertAll(Fresh(local), cs[..k])
  }

  /** The `k`-th insert of a run adds a second copy. */
  ghost predicate Doubles(local: NodeId, cs: seq<Contact>, k: nat)
    requires k < |cs| && Inv(Fresh(local))
  {
    cs[k].id != local && SecondCopyFits(TableAt(local, cs, k), cs[k].id)
  }

  ghost predicate AllOnce(t: Table) { forall id: NodeId :: Copies(t.buckets, id) <= 1 }

  lemma NextTable(local: NodeId, cs: seq<Contact>, k: nat, t: Table)
    requires k < |cs| && Inv(Fresh(local)) && t == TableAt(local, cs, k)
    ensures Inv(t) && Filed(t) && t.local == local && TableAt(local, cs, k + 1) == Insert(t, cs[k])
  {
    RunFiled(local, cs[..k]);
    LocalKept(Fresh(local), cs[..k]);
    assert cs[..k + 1][..k] == cs[..k] && cs[..k + 1][k] == cs[k];
  }

  lemma StaysOnce(t: Table, c: Contact)
    requires Inv(t) && Filed(t) && AllOnce(t) && (c.id != t.local ==> !SecondCopyFits(t, c.id))
    ensures AllOnce(Insert(t, c))
  {
    if c.id != t.local {
      InsertCopies(t, c);
      forall id: NodeId ensures Copies(Insert(t, c).buckets, id) <= 1 {
        if id != c.id {
          PlaceOthers(t, c, id);
        }
      }
    }
  }

  lemma {:induction false} OnceUntil(local: NodeId, cs: seq<Contact>, k: nat)
    requires k <= |cs| && Inv(Fresh(local)) && forall i: nat :: i < k ==> !Doubles(local, cs, i)
    ensures AllOnce(TableAt(local, cs, k))
  {
    if k == 0 {
      assert Fresh(local).buckets[..0] == [];
    } else {
      OnceUntil(local, cs, k - 1);
      NextTable(local, cs, k - 1, TableAt(local, cs, k - 1));
      assert !Doubles(local, cs, k - 1);
      StaysOnce(TableAt(local, cs, k - 1), cs[k - 1]);
    }
  }

  lemma DoubledThen(local: NodeId, cs: seq<Contact>, k: nat)
    requires k < |cs| && Inv(Fresh(local)) && Doubles(local, cs, k)
    ensures !AllOnce(TableAt(local, cs, k + 1))
  {
    var t, c := TableAt(local, cs, k), cs[k];
    NextTable(local, cs, k, t);
    NoCopies(t.buckets, c.id);
    InsertCopies(t, c);
    assert Copies(Insert(t, c).buckets, c.id) > 1;
  }

  /** Every id is stored at most once throughout a run if and only if no insert of
      the run finds its id one bucket behind, with room where it is looked for. */
  lemma RunStoresOnce(local: NodeId, cs: seq<Contact>)
    ensures Inv(Fresh(local))
    ensures (forall k: nat :: k <= |cs| ==> AllOnce(TableAt(local, cs, k)))
            <==> (forall k: nat :: k < |cs| ==> !Doubles(local, cs, k))
  {
    FreshInv(local);
    if forall k: nat :: k < |cs| ==> !Doubles(local, cs, k) {
      forall k: nat | k <= |cs| ensures AllOnce(TableAt(local, cs, k)) {
        OnceUntil(local, cs, k);
      }
    } else {
      var k: nat :| k < |cs| && Doubles(local, cs, k);
      DoubledThen(local, cs, k);
    }
  }

  // ----- a table with a second copy -----

  ghost predicate Foreign(local: NodeId, cs: seq<Contact>) {
    Routing.Distinct(cs) && forall i :: 0 <= i < |cs| ==> cs[i].id != local
  }

  lemma NewGoesLast(nodes: seq<Contact>, c: Contact)
    requires |nodes| < BUCKET_SIZE && forall i :: 0 <= i < |nodes| ==> nodes[i].id != c.id
    ensures Put(nodes, c) == Some(nodes + [c])
  {
  }

  lemma FullRefuses(nodes: seq<Contact>, c: Contact)
    requires |nodes| == BUCKET_SIZE && forall i :: 0 <= i < |nodes| ==> nodes[i].id != c.id
    ensures Put(nodes, c).None?
  {
  }

  lemma PlaceAt(t: Table, c: Contact, i: nat, nodes: seq<Contact>)
    requires Inv(t) && BucketIndex(t, c.id) == i < |t.buckets| && Put(t.buckets[i].nodes, c) == Some(nodes)
    ensures Place(t, c) == Table(t.local, t.buckets[i := Bucket(t.buckets[i].prefix, nodes)])
  {
  }

  lemma PlaceSplits(t: Table, c: Contact, n: nat)
    requires Inv(t) && n == |t.buckets| && BucketIndex(t, c.id) == n - 1
    requires Put(t.buckets[n - 1].nodes, c).None? && t.buckets[n - 1].prefix < ID_BITS
    ensures Inv(Split(t)) && Place(t, c) == Place(Split(t), c)
  {
    SplitInv(t);
  }

  lemma OneBucketTakes(t: Table, nodes: seq<Contact>, c: Contact)
    requires Inv(t) && t.buckets == [Bucket(0, nodes)] && c.id != t.local
    requires |nodes| < BUCKET_SIZE && forall i :: 0 <= i < |nodes| ==> nodes[i].id != c.id
    ensures Insert(t, c) == Table(t.local, [Bucket(0, nodes + [c])])
  {
    NewGoesLast(nodes, c);
    BucketIndexExact(t, c.id);
    PlaceAt(t, c, 0, nodes + [c]);
  }

  /** Some inserts into an empty table lead to `t`. */
  ghost predicate Reachable(local: NodeId, t: Table) { exists cs :: Builds(local, cs, t) }

  ghost predicate Builds(local: NodeId, cs: seq<Contact>, t: Table) {
    Inv(Fresh(local)) && InsertAll(Fresh(local), cs) == t
  }

  lemma ReachableStart(local: NodeId)
    ensures Reachable(local, Fresh(local))
  {
    FreshInv(local);
    assert Builds(local, [], Fresh(local));
  }

  lemma ReachableNext(local: NodeId, t: Table, c: Contact)
    requires Reachable(local, t)
    ensures Inv(t) && Reachable(local, Insert(t, c))
  {
    var cs :| Builds(local, cs, t);
    var more := cs + [c];
    assert more[..|more| - 1] == cs && more[|more| - 1] == c;
    assert Builds(local, more, Insert(t, c));
  }

  lemma ForeignFront(local: NodeId, front: seq<Contact>, c: Contact, cs: seq<Contact>)
    requires Foreign(local, cs) && cs == front + [c]
    ensures Foreign(local, front) && c.id != local && forall i :: 0 <= i < |front| ==> front[i].id != c.id
  {
    assert cs[|front|] == c && forall i :: 0 <= i < |front| ==> cs[i] == front[i];
  }

  lemma EightNext(local: NodeId, front: seq<Contact>, c: Contact, before: Table, after: Table)
    requires Reachable(local, before) && before == Table(local, [Bucket(0, front)]) && c.id != local
    requires |front| < BUCKET_SIZE && forall i :: 0 <= i < |front| ==> front[i].id != c.id
    requires after == Table(local, [Bucket(0, front + [c])])
    ensures Reachable(local, after)
  {
    ReachableNext(local, before, c);
    OneBucketTakes(before, front, c);
  }

  /** The first eight contacts share the one bucket. */
  lemma {:induction false} FirstEight(local: NodeId, cs: seq<Contact>)
    requires |cs| <= BUCKET_SIZE && Foreign(local, cs)
    ensures Reachable(local, Table(local, [Bucket(0, cs)]))
  {
    if |cs| == 0 {
      ReachableStart(local);
    } else {
      var front, c := cs[..|cs| - 1], cs[|cs| - 1];
      var before := Table(local, [Bucket(0, front)]);
      assert front + [c] == cs;
      ForeignFront(local, front, c, cs);
      FirstEight(local, front);
      EightNext(local, front, c, before, Table(local, [Bucket(0, cs)]));
    }
  }

  lemma {:induction false} AllWithBit(local: NodeId, bit: nat, nodes: seq<Contact>, same: bool)
    requires forall i :: 0 <= i < |nodes| ==> (BitAt(nodes[i].id, bit) == BitAt(local, bit)) == same
    ensures WithBit(local, bit, nodes, same) == nodes && WithBit(local, bit, nodes, !same) == []
  {
    if |nodes| > 0 {
      AllWithBit(local, bit, nodes[..|nodes| - 1], same);
    }
  }

  lemma {:induction false} WithBitConcat(local: NodeId, bit: nat, a: seq<Contact>, b: seq<Contact>, same: bool)
    ensures WithBit(local, bit, a + b, same) == WithBit(local, bit, a, same) + WithBit(local, bit, b, same)
  {
    if |b| == 0 {
      assert a + b == a;
    } else {
      WithBitConcat(local, bit, a, b[..|b| - 1], same);
      assert (a + b)[..|a + b| - 1] == a + b[..|b| - 1];
    }
  }

  /** One contact that shares one bit with the local id, and eight that share more. */
  ghost predicate Crowd(local: NodeId, a: Contact, bs: seq<Contact>) {
    && |bs| == BUCKET_SIZE && Foreign(local, [a] + bs) && Shared(local, a.id) == 1
    && forall i :: 0 <= i < |bs| ==> Shared(local, bs[i].id) >= 2
  }

  lemma CrowdBits(local: NodeId, a: Contact, bs: seq<Contact>)
    requires Crowd(local, a, bs)
    ensures BitAt(a.id, 0) == BitAt(local, 0) && BitAt(a.id, 1) != BitAt(local, 1)
    ensures forall i :: 0 <= i < |bs| ==> BitAt(bs[i].id, 0) == BitAt(local, 0) && BitAt(bs[i].id, 1) == BitAt(local, 1)
  {
    SharedBit(local, a.id, 0);
    SharedBit(local, a.id, 1);
    forall i | 0 <= i < |bs| ensures BitAt(bs[i].id, 0) == BitAt(local, 0) && BitAt(bs[i].id, 1) == BitAt(local, 1) {
      SharedBit(local, bs[i].id, 0);
      SharedBit(local, bs[i].id, 1);
    }
  }

  /** The first split moves everyone on. */
  lemma CrowdMoves(local: NodeId, a: Contact, bs: seq<Contact>, some: seq<Contact>, t: Table)
    requires Crowd(local, a, bs) && some == bs[..7] && t == Table(local, [Bucket(0, [a] + some)])
    ensures Split(t) == Table(local, [Bucket(1, []), Bucket(1, [a] + some)])
  {
    CrowdBits(local, a, bs);
    AllWithBit(local, 0, [a] + some, true);
    assert t.buckets[0 := Bucket(1, [])] == [Bucket(1, [])];
  }

  lemma CrowdDivides(local: NodeId, a: Contact, bs: seq<Contact>, some: seq<Contact>)
    requires Crowd(local, a, bs) && some == bs[..7]
    ensures WithBit(local, 1, [a] + some, false) == [a] && WithBit(local, 1, [a] + some, true) == some
  {
    CrowdBits(local, a, bs);
    AllWithBit(local, 1, [a], false);
    AllWithBit(local, 1, some, true);
    WithBitConcat(local, 1, [a], some, true);
    WithBitConcat(local, 1, [a], some, false);
  }

  /** The second split leaves `a` behind. */
  lemma CrowdParts(local: NodeId, a: Contact, bs: seq<Contact>, some: seq<Contact>, u: Table)
    requires Crowd(local, a, bs) && some == bs[..7] && u == Table(local, [Bucket(1, []), Bucket(1, [a] + some)])
    ensures Split(u) == Table(local, [Bucket(1, []), Bucket(2, [a]), Bucket(2, some)])
  {
    CrowdDivides(local, a, bs, some);
    assert u.buckets[1 := Bucket(2, [a])] == [Bucket(1, []), Bucket(2, [a])];
  }

  lemma CrowdFirst(local: NodeId, a: Contact, bs: seq<Contact>, t: Table)
    requires Crowd(local, a, bs) && t == Table(local, [Bucket(0, [a] + bs[..7])])
    ensures Reachable(local, t)
  {
    var cs := [a] + bs;
    assert [a] + bs[..7] == cs[..8];
    FirstEight(local, cs[..8]);
  }

  lemma NinthSplits(local: NodeId, a: Contact, bs: seq<Contact>, some: seq<Contact>, t: Table, u: Table, v: Table)
    requires Crowd(local, a, bs) && some == bs[..7] && t == Table(local, [Bucket(0, [a] + some)]) && Inv(t)
    requires u == Table(local, [Bucket(1, []), Bucket(1, [a] + some)])
    requires v == Table(local, [Bucket(1, []), Bucket(2, [a]), Bucket(2, some)])
    ensures Inv(v) && Place(t, bs[7]) == Place(v, bs[7])
  {
    var c := bs[7];
    assert ([a] + bs)[8] == c && forall i :: 0 <= i < 8 ==> ([a] + some)[i] == ([a] + bs)[i];
    FullRefuses([a] + some, c);
    CrowdMoves(local, a, bs, some, t);
    BucketIndexExact(t, c.id);
    PlaceSplits(t, c, 1);
    CrowdParts(local, a, bs, some, u);
    BucketIndexExact(u, c.id);
    PlaceSplits(u, c, 2);
  }

  lemma NinthLands(local: NodeId, a: Contact, bs: seq<Contact>, some: seq<Contact>, v: Table)
    requires Crowd(local, a, bs) && some == bs[..7] && Inv(v)
    requires v == Table(local, [Bucket(1, []), Bucket(2, [a]), Bucket(2, some)])
    ensures Place(v, bs[7]) == Table(local, [Bucket(1, []), Bucket(2, [a]), Bucket(2, bs)])
  {
    var c := bs[7];
    assert ([a] + bs)[8] == c && forall i :: 0 <= i < 7 ==> some[i] == ([a] + bs)[i + 1];
    BucketIndexExact(v, c.id);
    NewGoesLast(some, c);
    assert some + [c] == bs;
    PlaceAt(v, c, 2, bs);
  }

  lemma CrowdNinth(local: NodeId, a: Contact, bs: seq<Contact>, t: Table)
    requires Crowd(local, a, bs) && t == Table(local, [Bucket(0, [a] + bs[..7])]) && Inv(t)
    ensures Inv(Insert(t, bs[7])) && Insert(t, bs[7]) == Table(local, [Bucket(1, []), Bucket(2, [a]), Bucket(2, bs)])
  {
    var some := bs[..7];
    var u := Table(local, [Bucket(1, []), Bucket(1, [a] + some)]);
    var v := Table(local, [Bucket(1, []), Bucket(2, [a]), Bucket(2, some)]);
    NinthSplits(local, a, bs, some, t, u, v);
    NinthLands(local, a, bs, some, v);
    assert ([a] + bs)[8] == bs[7];
    InsertSafe(t, bs[7]);
  }

  /** Into an empty table: `a`, then eight closer ones, then `a` again. */
  lemma CrowdStoresTwice(local: NodeId, a: Contact, bs: seq<Contact>, t: Table, w: Table)
    requires Crowd(local, a, bs) && t == Table(local, [Bucket(0, [a] + bs[..7])])
    requires w == Table(local, [Bucket(1, []), Bucket(2, [a]), Bucket(2, bs)])
    ensures Inv(w) && Reachable(local, Insert(w, a)) && Copies(Insert(w, a).buckets, a.id) == 2
  {
    CrowdFirst(local, a, bs, t);
    ReachableNext(local, t, bs[7]);
    CrowdNinth(local, a, bs, t);
    ReachableNext(local, w, a);
    TwiceAtLast(local, a, bs, w);
  }

  lemma TwiceAtLast(local: NodeId, a: Contact, bs: seq<Contact>, w: Table)
    requires Crowd(local, a, bs) && w == Table(local, [Bucket(1, []), Bucket(2, [a]), Bucket(2, bs)]) && Inv(w)
    ensures Copies(Insert(w, a).buckets, a.id) == 2
  {
    assert ([a] + bs)[0] == a;
    BucketIndexExact(w, a.id);
    NewGoesLast([], a);
    PutCopies(w, a, 0);
    assert [a][0] == a;
    assert forall i :: 0 <= i < |bs| ==> ([a] + bs)[i + 1] == bs[i];
    CopiesAmong(w.buckets, a.id, 1, 3);
  }

  // ----- such ids exist -----

  /** The id whose first byte is `x` and whose other bits are zero. */
  function Leading(x: bv8): NodeId { [x] + seq(ID_BYTES - 1, i => 0 as bv8) }

  lemma LeadingShares(x: bv8)
    requires x != 0
    ensures Shared(Leading(0), Leading(x)) == ByteZeros(x)
  {
    XorAt(Leading(0), Leading(x), 0, 0, x);
  }

  const FIRST_BYTES: seq<bv8> := [0x40, 0x20, 0x21, 0x22, 0x23, 0x24, 0x25, 0x26, 0x27]

  function Example(i: nat): Contact
    requires i < 9
  {
    Contact(Leading(FIRST_BYTES[i]), i)
  }

  lemma FirstBytesDiffer(i: nat, j: nat)
    requires i < j < 9
    ensures Example(i).id != Example(j).id
  {
    assert FIRST_BYTES[i] != FIRST_BYTES[j];
    assert Example(i).id[0] == FIRST_BYTES[i] && Example(j).id[0] == FIRST_BYTES[j];
  }

  lemma ExampleShares(i: nat)
    requires i < 9
    ensures Example(i).id != Leading(0) && Shared(Leading(0), Example(i).id) == if i == 0 then 1 else 2
  {
    assert FIRST_BYTES[i] != 0 && ByteZeros(FIRST_BYTES[i]) == if i == 0 then 1 else 2;
    assert Example(i).id[0] == FIRST_BYTES[i] && Leading(0)[0] == 0;
    LeadingShares(FIRST_BYTES[i]);
  }

  lemma ExampleForeign(cs: seq<Contact>)
    requires |cs| == 9 && forall i :: 0 <= i < 9 ==> cs[i] == Example(i)
    ensures Foreign(Leading(0), cs)
  {
    forall i, j | 0 <= i < j < |cs| ensures cs[i].id != cs[j].id {
      FirstBytesDiffer(i, j);
    }
    forall i | 0 <= i < |cs| ensures cs[i].id != Leading(0) {
      ExampleShares(i);
    }
  }

  lemma ExampleCrowds(bs: seq<Contact>)
    requires |bs| == 8 && forall i :: 0 <= i < 8 ==> bs[i] == Example(i + 1)
    ensures Crowd(Leading(0), Example(0), bs)
  {
    var cs := [Example(0)] + bs;
    assert forall i :: 0 <= i < 9 ==> cs[i] == Example(i);
    ExampleForeign(cs);
    ExampleShares(0);
    forall i | 0 <= i < |bs| ensures Shared(Leading(0), bs[i].id) >= 2 {
      ExampleShares(i + 1);
    }
  }

  /** The local id of all zeros, one id beginning 01, eight beginning 001, and
      the first again: its id is then stored twice. */
  lemma SecondCopyReached() returns (t: Table)
    ensures Reachable(Leading(0), t) && Copies(t.buckets, Example(0).id) == 2
  {
    var a := Example(0);
    var bs := seq(8, i requires 0 <= i < 8 => Example(i + 1));
    var w := Table(Leading(0), [Bucket(1, []), Bucket(2, [a]), Bucket(2, bs)]);
    ExampleCrowds(bs);
    CrowdStoresTwice(Leading(0), a, bs, Table(Leading(0), [Bucket(0, [a] + bs[..7])]), w);
    t := Insert(w, a);
  }
}
