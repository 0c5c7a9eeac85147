/** The iterative `get_peers` search and its bounded short list
    (src/net/dht/search.rs; BEP 5). */
module Search {
  import opened Common
  import opened NodeIds
  import Routing

  type Contact = Routing.Contact
  type Addr = Routing.Addr

  const ALPHA: nat := 3
  const MAX_LIST: nat := 50

  datatype NodeState = Unqueried | InFlight | Queried | Failed
  datatype Entry = Entry(contact: Contact, state: NodeState)

  function Id(e: Entry): NodeId { e.contact.id }

  function Ids(list: seq<Entry>): set<NodeId> { set i | 0 <= i < |list| :: Id(list[i]) }

  /** As many ids as entries. */
  ghost predicate Distinct(list: seq<Entry>) { |Ids(list)| == |list| }

  // ----- sets of ids -----

  lemma IdsConcat(a: seq<Entry>, b: seq<Entry>)
    ensures Ids(a + b) == Ids(a) + Ids(b)
  {
    forall i | 0 <= i < |a| ensures Id(a[i]) in Ids(a + b) {
      assert (a + b)[i] == a[i];
    }
    forall i | 0 <= i < |b| ensures Id(b[i]) in Ids(a + b) {
      assert (a + b)[|a| + i] == b[i];
    }
  }

  lemma OneId(e: Entry)
    ensures Ids([e]) == {Id(e)}
  {
    assert [e][0] == e;
  }

  lemma {:induction false} IdsBounded(list: seq<Entry>)
    ensures |Ids(list)| <= |list|
  {
    if |list| > 0 {
      var front, last := list[..|list| - 1], list[|list| - 1];
      IdsBounded(front);
      assert list == front + [last];
      IdsConcat(front, [last]);
      OneId(last);
    }
  }

  lemma UnionSize(a: set<NodeId>, b: set<NodeId>)
    ensures |a + b| <= |a| + |b| && (a !! b ==> |a + b| == |a| + |b|)
    ensures |a + b| == |a| + |b| ==> a !! b
  {
    assert a + b == a + (b - a) && a !! b - a;
    assert b == (b - a) + (a * b);
    assert |b| == |b - a| + |a * b|;
  }

  /** Both parts of a list of distinct ids are distinct, and share none. */
  lemma DistinctParts(a: seq<Entry>, b: seq<Entry>)
    requires Distinct(a + b)
    ensures Distinct(a) && Distinct(b) && Ids(a) !! Ids(b)
  {
    IdsConcat(a, b);
    IdsBounded(a);
    IdsBounded(b);
    UnionSize(Ids(a), Ids(b));
  }

  lemma SameIds(a: seq<Entry>, b: seq<Entry>)
    requires multiset(a) == multiset(b)
    ensures Ids(a) == Ids(b) && |a| == |b|
  {
    assert |multiset(a)| == |multiset(b)|;
    forall i | 0 <= i < |a| ensures Id(a[i]) in Ids(b) {
      assert a[i] in multiset(b);
    }
    forall i | 0 <= i < |b| ensures Id(b[i]) in Ids(a) {
      assert b[i] in multiset(a);
    }
  }

  /** A full list cannot take in a stranger without losing a member. */
  lemma SomeoneLeft(before: seq<Entry>, after: seq<Entry>, x: NodeId) returns (o: NodeId)
    requires Distinct(before) && |after| <= |before| && x in Ids(after) && x !in Ids(before)
    ensures o in Ids(before) && o !in Ids(after)
  {
    IdsBounded(after);
    if Ids(before) <= Ids(after) {
      assert Ids(before) < Ids(after);
      SubsetSize(Ids(before) + {x}, Ids(after));
    }
    o :| o in Ids(before) && o !in Ids(after);
  }

  lemma {:induction false} SubsetSize(a: set<NodeId>, b: set<NodeId>)
    requires a <= b
    ensures |a| <= |b|
  {
    assert b == a + (b - a);
    UnionSize(a, b - a);
  }

  // ----- merging a reply -----

  /** The contacts a reply names are added as unqueried, unless their address is
      not usable or their id is already listed. */
  function AddNew(list: seq<Entry>, found: seq<Contact>, usable: Addr -> bool): seq<Entry> {
    if |found| == 0 then list
    else
      var l := AddNew(list, found[..|found| - 1], usable);
      var c := found[|found| - 1];
      if usable(c.addr) && c.id !in Ids(l) then l + [Entry(c, Unqueried)] else l
  }

  /** The ids a reply offers. */
  function Offered(found: seq<Contact>, usable: Addr -> bool): set<NodeId> {
    set i | 0 <= i < |found| && usable(found[i].addr) :: found[i].id
  }

  lemma OfferedStep(found: seq<Contact>, usable: Addr -> bool)
    requires |found| > 0
    ensures var c := found[|found| - 1];
            Offered(found, usable) == Offered(found[..|found| - 1], usable) + if usable(c.addr) then {c.id} else {}
  {
    var front := found[..|found| - 1];
    forall i | 0 <= i < |front| && usable(front[i].addr) ensures front[i].id in Offered(found, usable) {
      assert found[i] == front[i];
    }
  }

  /** `l` is `list` with unqueried entries appended, under ids not listed before. */
  ghost predicate Extends(list: seq<Entry>, l: seq<Entry>) {
    && |list| <= |l| && (forall i :: 0 <= i < |list| ==> l[i] == list[i])
    && forall i :: |list| <= i < |l| ==> l[i].state == Unqueried && Id(l[i]) !in Ids(list)
  }

  lemma OneMore(l: seq<Entry>, e: Entry)
    requires Distinct(l) && Id(e) !in Ids(l)
    ensures Distinct(l + [e]) && Ids(l + [e]) == Ids(l) + {Id(e)}
  {
    IdsConcat(l, [e]);
    OneId(e);
  }

  lemma ExtendsIds(list: seq<Entry>, l: seq<Entry>)
    requires Extends(list, l)
    ensures Ids(list) <= Ids(l)
  {
    forall i | 0 <= i < |list| ensures Id(list[i]) in Ids(l) {
      assert l[i] == list[i];
    }
  }

  lemma ExtendsOneMore(list: seq<Entry>, l: seq<Entry>, e: Entry)
    requires Extends(list, l) && e.state == Unqueried && Id(e) !in Ids(l)
    ensures Extends(list, l + [e])
  {
    ExtendsIds(list, l);
  }

  lemma {:induction false} AddNewExact(list: seq<Entry>, found: seq<Contact>, usable: Addr -> bool, l: seq<Entry>)
    requires Distinct(list) && l == AddNew(list, found, usable)
    ensures Distinct(l) && Ids(l) == Ids(list) + Offered(found, usable) && Extends(list, l)
  {
    if |found| > 0 {
      var front, c := found[..|found| - 1], found[|found| - 1];
      var before := AddNew(list, front, usable);
      AddNewExact(list, front, usable, before);
      OfferedStep(found, usable);
      if usable(c.addr) && c.id !in Ids(before) {
        OneMore(before, Entry(c, Unqueried));
        ExtendsOneMore(list, before, Entry(c, Unqueried));
      }
    }
  }

  function Cut(list: seq<Entry>): seq<Entry> { list[..Min(MAX_LIST, |list|)] }

  /** `found` merged, sorted by distance and cut to fifty; an empty reply changes nothing. */
  function Merge(target: NodeId, list: seq<Entry>, found: seq<Contact>, usable: Addr -> bool): seq<Entry> {
    if |found| == 0 then list else Cut(SortBy(Id, target, AddNew(list, found, usable)))
  }

  // ----- the search as a state machine -----

  datatype Reply = Lost | NoAnswer | Answer(found: seq<Contact>)

  /** `asked` and `accepted` record the history: ids queried in order, and all ids ever taken from a reply. */
  datatype State = State(list: seq<Entry>, inFlight: multiset<Addr>, asked: seq<NodeId>, accepted: set<NodeId>,
                         joined: nat)

  function FirstUnqueried(list: seq<Entry>): (r: Option<nat>)
    ensures r.Some? ==> r.value < |list| && list[r.value].state == Unqueried
    ensures forall i :: 0 <= i < (if r.Some? then r.value else |list|) ==> list[i].state != Unqueried
  {
    if |list| == 0 then None
    else if list[0].state == Unqueried then Some(0)
    else
      var r := FirstUnqueried(list[1..]);
      assert forall i :: 1 <= i < |list| ==> list[i] == list[1..][i - 1];
      if r.None? then None else Some(r.value + 1)
  }

  function FirstAt(list: seq<Entry>, addr: Addr): (r: Option<nat>)
    ensures r.Some? ==> r.value < |list| && list[r.value].contact.addr == addr
    ensures forall i :: 0 <= i < (if r.Some? then r.value else |list|) ==> list[i].contact.addr != addr
  {
    if |list| == 0 then None
    else if list[0].contact.addr == addr then Some(0)
    else
      var r := FirstAt(list[1..], addr);
      assert forall i :: 1 <= i < |list| ==> list[i] == list[1..][i - 1];
      if r.None? then None else Some(r.value + 1)
  }

  function Marked(list: seq<Entry>, i: nat, state: NodeState): (r: seq<Entry>)
    requires i < |list|
    ensures |r| == |list|
  {
    list[i := list[i].(state := state)]
  }

  /** One query, sent or not; only while fewer than three are in flight. */
  function Query(s: State, i: nat, sent: bool): State
    requires i < |s.list|
  {
    s.(list := Marked(s.list, i, InFlight), asked := s.asked + [Id(s.list[i])],
       inFlight := if sent then s.inFlight + multiset{s.list[i].contact.addr} else s.inFlight)
  }

  function Join(target: NodeId, s: State, addr: Addr, reply: Reply, usable: Addr -> bool): State {
    var s' := s.(inFlight := s.inFlight - multiset{addr}, joined := s.joined + 1);
    var at := FirstAt(s.list, addr);
    if reply.Lost? || at.None? then s'
    else if reply.NoAnswer? then s'.(list := Marked(s.list, at.value, Failed))
    else s'.(list := Merge(target, Marked(s.list, at.value, Queried), reply.found, usable),
             accepted := s.accepted + Offered(reply.found, usable))
  }

  datatype Action = DoQuery(sent: bool) | DoJoin(addr: Addr, reply: Reply)

  ghost predicate Step(target: NodeId, usable: Addr -> bool, s: State, a: Action, s': State) {
    match a
    case DoQuery(sent) =>
      |s.inFlight| < ALPHA && FirstUnqueried(s.list).Some? && s' == Query(s, FirstUnqueried(s.list).value, sent)
    case DoJoin(addr, reply) =>
      addr in s.inFlight && s' == Join(target, s, addr, reply, usable)
  }

  /** `DhtSearch::new` on the contacts it is given. */
  function Start(target: NodeId, initial: seq<Contact>): State {
    var list := SortBy(Id, target, seq(|initial|, i requires 0 <= i < |initial| => Entry(initial[i], Unqueried)));
    State(list, multiset{}, [], Ids(list), 0)
  }

  ghost predicate Farther(target: NodeId, list: seq<Entry>, id: NodeId) {
    forall i :: 0 <= i < |list| ==> NotAfter(Id(list[i]), id, target)
  }

  /** The list is the up to fifty closest of all ids accepted so far. */
  ghost predicate IsClosest(target: NodeId, list: seq<Entry>, accepted: set<NodeId>) {
    && Distinct(list) && IsSorted(Id, target, list) && |list| <= MAX_LIST && Ids(list) <= accepted
    && forall id :: id in accepted && id !in Ids(list) ==> |list| == MAX_LIST && Farther(target, list, id)
  }

  /** The same in terms of nearness: nearest first, and every accepted id that is
      not listed is farther from the target than each of the fifty that are. */
  ghost predicate NearestOfAll(target: NodeId, list: seq<Entry>, accepted: set<NodeId>) {
    && Distinct(list) && ByNearness(Id, target, list) && |list| <= MAX_LIST && Ids(list) <= accepted
    && forall id :: id in accepted && id !in Ids(list) ==> |list| == MAX_LIST && AllNearer(target, list, id)
  }

  ghost predicate AllNearer(target: NodeId, list: seq<Entry>, id: NodeId) {
    forall i :: 0 <= i < |list| ==> Nearer(Id(list[i]), id, target)
  }

  lemma ClosestIsNearest(target: NodeId, list: seq<Entry>, accepted: set<NodeId>)
    requires IsClosest(target, list, accepted)
    ensures NearestOfAll(target, list, accepted)
  {
    SortedByNearness(Id, target, list);
    forall id | id in accepted && id !in Ids(list) ensures AllNearer(target, list, id) {
      forall i | 0 <= i < |list| ensures Nearer(Id(list[i]), id, target) {
        assert Id(list[i]) in Ids(list);
        NotAfterIsNearness(Id(list[i]), id, target);
      }
    }
  }

  ghost predicate NeverTwice(asked: seq<NodeId>) { forall i, j :: 0 <= i < j < |asked| ==> asked[i] != asked[j] }

  ghost predicate UnqueriedUnasked(list: seq<Entry>, asked: seq<NodeId>) {
    forall i :: 0 <= i < |list| && list[i].state == Unqueried ==> Id(list[i]) !in asked
  }

  ghost predicate Inv(target: NodeId, s: State) {
    && IsClosest(target, s.list, s.accepted)
    && NeverTwice(s.asked) && (forall id :: id in s.asked ==> id in s.accepted)
    && UnqueriedUnasked(s.list, s.asked)
    && s.joined + |s.inFlight| <= |s.asked|
  }

  // ----- what a merge does -----

  /** `kept` and `dropped` share out what was listed and offered: the kept are the
      closest, old entries as they were, new ones unqueried. */
  ghost predicate Shares(target: NodeId, list: seq<Entry>, offered: set<NodeId>, kept: seq<Entry>,
                         dropped: seq<Entry>) {
    && Distinct(kept) && IsSorted(Id, target, kept) && |kept| <= MAX_LIST
    && (dropped != [] || |list| == MAX_LIST ==> |kept| == MAX_LIST)
    && Ids(kept) + Ids(dropped) == Ids(list) + offered
    && (forall id :: id in Ids(dropped) ==> Farther(target, kept, id))
    && forall i :: 0 <= i < |kept| ==> kept[i] in list || (kept[i].state == Unqueried && Id(kept[i]) !in Ids(list))
  }

  lemma CutFarther(target: NodeId, all: seq<Entry>, n: nat, id: NodeId)
    requires n <= |all| && IsSorted(Id, target, all) && id in Ids(all[n..])
    ensures Farther(target, all[..n], id)
  {
    var j :| 0 <= j < |all[n..]| && Id(all[n..][j]) == id;
    assert all[n + j] == all[n..][j];
  }

  lemma FromExtended(list: seq<Entry>, l: seq<Entry>, e: Entry)
    requires Extends(list, l) && e in l
    ensures e in list || (e.state == Unqueried && Id(e) !in Ids(list))
  {
    var k :| 0 <= k < |l| && l[k] == e;
    assert k < |list| ==> list[k] == e;
  }

  lemma CutIds(l: seq<Entry>, all: seq<Entry>, kept: seq<Entry>, dropped: seq<Entry>)
    requires Distinct(l) && multiset(all) == multiset(l) && all == kept + dropped
    ensures Distinct(kept) && Ids(kept) + Ids(dropped) == Ids(l) && |kept| + |dropped| == |l|
  {
    SameIds(all, l);
    IdsConcat(kept, dropped);
    DistinctParts(kept, dropped);
  }

  lemma CutShares(target: NodeId, list: seq<Entry>, offered: set<NodeId>, l: seq<Entry>, all: seq<Entry>)
    requires Extends(list, l) && Distinct(l) && Ids(l) == Ids(list) + offered
    requires IsSorted(Id, target, all) && multiset(all) == multiset(l)
    ensures Shares(target, list, offered, Cut(all), all[|Cut(all)|..])
  {
    var n := |Cut(all)|;
    var kept, dropped := all[..n], all[n..];
    CutIds(l, all, kept, dropped) by { assert all == kept + dropped; }
    forall id | id in Ids(dropped) ensures Farther(target, kept, id) {
      CutFarther(target, all, n, id);
    }
    forall i | 0 <= i < |kept| ensures kept[i] in list || (kept[i].state == Unqueried && Id(kept[i]) !in Ids(list)) {
      assert kept[i] == all[i] && all[i] in multiset(l);
      FromExtended(list, l, kept[i]);
    }
  }

  lemma MergeShares(target: NodeId, list: seq<Entry>, found: seq<Contact>, usable: Addr -> bool)
    returns (dropped: seq<Entry>)
    requires Distinct(list) && |found| > 0
    ensures Shares(target, list, Offered(found, usable), Merge(target, list, found, usable), dropped)
  {
    var l := AddNew(list, found, usable);
    AddNewExact(list, found, usable, l);
    SortSound(Id, target, l);
    var all := SortBy(Id, target, l);
    CutShares(target, list, Offered(found, usable), l, all);
    dropped := all[|Cut(all)|..];
  }

  lemma FartherAt(target: NodeId, list: seq<Entry>, o: NodeId, id: NodeId)
    requires Farther(target, list, id) && o in Ids(list)
    ensures NotAfter(o, id, target)
  {
    var i :| 0 <= i < |list| && Id(list[i]) == o;
  }

  /** What was too far for the full list before is too far for it after a merge. */
  lemma StaysFarther(target: NodeId, list: seq<Entry>, offered: set<NodeId>, kept: seq<Entry>, dropped: seq<Entry>,
                     id: NodeId)
    requires Shares(target, list, offered, kept, dropped) && Distinct(list) && |list| == MAX_LIST
    requires Farther(target, list, id)
    ensures Farther(target, kept, id)
  {
    forall i | 0 <= i < |kept| ensures NotAfter(Id(kept[i]), id, target) {
      var y := Id(kept[i]);
      if y in Ids(list) {
        FartherAt(target, list, y, id);
      } else {
        var o := SomeoneLeft(list, kept, y);
        assert o in Ids(dropped);
        FartherAt(target, kept, y, o);
        FartherAt(target, list, o, id);
        NotAfterTransitive(y, o, id, target);
      }
    }
  }

  /** An id that fell off the full list never comes back. */
  lemma NeverBack(target: NodeId, list: seq<Entry>, offered: set<NodeId>, kept: seq<Entry>, dropped: seq<Entry>,
                  id: NodeId)
    requires Shares(target, list, offered, kept, dropped) && Distinct(list) && |list| == MAX_LIST
    requires Farther(target, list, id) && id !in Ids(list)
    ensures id !in Ids(kept)
  {
    if id in Ids(kept) {
      var o := SomeoneLeft(list, kept, id);
      assert o in Ids(dropped);
      FartherAt(target, kept, id, o);
      FartherAt(target, list, o, id);
      NotAfterTotal(o, id, target);
    }
  }

  lemma MergeClosest(target: NodeId, list: seq<Entry>, accepted: set<NodeId>, offered: set<NodeId>, kept: seq<Entry>,
                     dropped: seq<Entry>)
    requires IsClosest(target, list, accepted) && Shares(target, list, offered, kept, dropped)
    ensures IsClosest(target, kept, accepted + offered) && NearestOfAll(target, kept, accepted + offered)
  {
    forall id | id in accepted + offered && id !in Ids(kept) ensures |kept| == MAX_LIST && Farther(target, kept, id) {
      if id in Ids(dropped) {
        assert dropped != [];
      } else {
        assert id in accepted && id !in Ids(list);
        StaysFarther(target, list, offered, kept, dropped, id);
      }
    }
    assert Ids(kept) <= accepted + offered;
    ClosestIsNearest(target, kept, accepted + offered);
  }

  lemma MergeUnasked(target: NodeId, list: seq<Entry>, accepted: set<NodeId>, offered: set<NodeId>, kept: seq<Entry>,
                     dropped: seq<Entry>, asked: seq<NodeId>)
    requires IsClosest(target, list, accepted) && Shares(target, list, offered, kept, dropped)
    requires UnqueriedUnasked(list, asked) && forall id :: id in asked ==> id in accepted
    ensures UnqueriedUnasked(kept, asked)
  {
    forall i | 0 <= i < |kept| && kept[i].state == Unqueried ensures Id(kept[i]) !in asked {
      if kept[i] in list {
        var k :| 0 <= k < |list| && list[k] == kept[i];
      } else if Id(kept[i]) in asked {
        assert Id(kept[i]) in Ids(kept);
        NeverBack(target, list, offered, kept, dropped, Id(kept[i]));
      }
    }
  }

  // ----- every step keeps the invariant -----

  lemma MarkedSame(target: NodeId, list: seq<Entry>, i: nat, state: NodeState, accepted: set<NodeId>)
    requires i < |list| && IsClosest(target, list, accepted)
    ensures IsClosest(target, Marked(list, i, state), accepted) && Ids(Marked(list, i, state)) == Ids(list)
  {
    var m := Marked(list, i, state);
    assert forall j :: 0 <= j < |list| ==> Id(m[j]) == Id(list[j]);
    assert Ids(m) == Ids(list);
    forall id | id in accepted && id !in Ids(m) ensures Farther(target, m, id) {
      assert Farther(target, list, id);
    }
  }

  lemma QueryInv(target: NodeId, s: State, sent: bool)
    requires Inv(target, s) && |s.inFlight| < ALPHA && FirstUnqueried(s.list).Some?
    ensures Inv(target, Query(s, FirstUnqueried(s.list).value, sent))
  {
    var i := FirstUnqueried(s.list).value;
    var s' := Query(s, i, sent);
    MarkedSame(target, s.list, i, InFlight, s.accepted);
    assert Id(s.list[i]) in Ids(s.list);
    forall j | 0 <= j < |s'.list| && s'.list[j].state == Unqueried ensures Id(s'.list[j]) !in s'.asked {
      assert j != i && s'.list[j] == s.list[j];
      DistinctAt(s.list, i, j);
    }
  }

  lemma DistinctAt(list: seq<Entry>, i: nat, j: nat)
    requires Distinct(list) && i < |list| && j < |list| && i != j
    ensures Id(list[i]) != Id(list[j])
  {
    var (a, b) := if i < j then (i, j) else (j, i);
    assert list == list[..b] + list[b..];
    DistinctParts(list[..b], list[b..]);
    assert Id(list[..b][a]) in Ids(list[..b]);
    assert Id(list[b..][0]) in Ids(list[b..]);
  }

  lemma MarkedUnasked(list: seq<Entry>, i: nat, state: NodeState, asked: seq<NodeId>)
    requires i < |list| && state != Unqueried && UnqueriedUnasked(list, asked)
    ensures UnqueriedUnasked(Marked(list, i, state), asked)
  {
  }

  lemma JoinInv(target: NodeId, s: State, addr: Addr, reply: Reply, usable: Addr -> bool)
    requires Inv(target, s) && addr in s.inFlight
    ensures Inv(target, Join(target, s, addr, reply, usable))
  {
    var at := FirstAt(s.list, addr);
    assert |s.inFlight - multiset{addr}| == |s.inFlight| - 1;
    if at.Some? && !reply.Lost? {
      var state := if reply.NoAnswer? then Failed else Queried;
      var m := Marked(s.list, at.value, state);
      MarkedSame(target, s.list, at.value, state, s.accepted);
      MarkedUnasked(s.list, at.value, state, s.asked);
      if reply.Answer? && |reply.found| > 0 {
        var offered := Offered(reply.found, usable);
        var dropped := MergeShares(target, m, reply.found, usable);
        MergeClosest(target, m, s.accepted, offered, Merge(target, m, reply.found, usable), dropped);
        MergeUnasked(target, m, s.accepted, offered, Merge(target, m, reply.found, usable), dropped, s.asked);
      }
    }
  }

  lemma StepInv(target: NodeId, usable: Addr -> bool, s: State, a: Action, s': State)
    requires Inv(target, s) && Step(target, usable, s, a, s')
    ensures Inv(target, s')
  {
    match a
    case DoQuery(sent) => QueryInv(target, s, sent);
    case DoJoin(addr, reply) => JoinInv(target, s, addr, reply, usable);
  }

  lemma StartInv(target: NodeId, initial: seq<Contact>)
    requires |initial| <= MAX_LIST && forall i, j :: 0 <= i < j < |initial| ==> initial[i].id != initial[j].id
    ensures Inv(target, Start(target, initial))
  {
    var list := seq(|initial|, i requires 0 <= i < |initial| => Entry(initial[i], Unqueried));
    SortSound(Id, target, list);
    SameIds(SortBy(Id, target, list), list);
    AllDistinct(list);
  }

  lemma {:induction false} AllDistinct(list: seq<Entry>)
    requires forall i, j :: 0 <= i < j < |list| ==> Id(list[i]) != Id(list[j])
    ensures Distinct(list)
  {
    if |list| > 0 {
      var front, last := list[..|list| - 1], list[|list| - 1];
      AllDistinct(front);
      assert Id(last) !in Ids(front);
      OneMore(front, last);
      assert list == front + [last];
    }
  }

  // ----- whole runs -----

  /** A run: `states[k + 1]` follows `states[k]` by `actions[k]`. */
  ghost predicate IsRun(target: NodeId, usable: Addr -> bool, states: seq<State>, actions: seq<Action>) {
    && |states| == |actions| + 1
    && forall k :: 0 <= k < |actions| ==> Step(target, usable, states[k], actions[k], states[k + 1])
  }

  /** Steps made so far. */
  function Work(s: State): nat { |s.asked| + s.joined }

  lemma StepWorks(target: NodeId, usable: Addr -> bool, s: State, a: Action, s': State)
    requires Step(target, usable, s, a, s')
    ensures Work(s') == Work(s) + 1
  {
  }

  lemma {:induction false} RunInv(target: NodeId, usable: Addr -> bool, states: seq<State>, actions: seq<Action>,
                                  k: nat)
    requires IsRun(target, usable, states, actions) && Inv(target, states[0]) && k < |states|
    ensures Inv(target, states[k]) && Work(states[k]) == Work(states[0]) + k
  {
    if k > 0 {
      RunInv(target, usable, states, actions, k - 1);
      StepInv(target, usable, states[k - 1], actions[k - 1], states[k]);
      StepWorks(target, usable, states[k - 1], actions[k - 1], states[k]);
    }
  }

  lemma {:induction false} AskedBounded(asked: seq<NodeId>, accepted: set<NodeId>)
    requires NeverTwice(asked) && forall id :: id in asked ==> id in accepted
    ensures |asked| <= |accepted|
  {
    if |asked| > 0 {
      var last := asked[|asked| - 1];
      forall id | id in asked[..|asked| - 1] ensures id in accepted - {last} {
        var i :| 0 <= i < |asked| - 1 && asked[i] == id;
      }
      AskedBounded(asked[..|asked| - 1], accepted - {last});
    }
  }

  /** In every run of the search: the short list is the up to fifty nearest ids
      accepted so far, no id is asked twice although the list is cut, and the
      run has at most two steps for each distinct id reported. */
  lemma SearchCorrect(target: NodeId, usable: Addr -> bool, initial: seq<Contact>, states: seq<State>,
                      actions: seq<Action>, k: nat)
    requires |initial| <= MAX_LIST && forall i, j :: 0 <= i < j < |initial| ==> initial[i].id != initial[j].id
    requires IsRun(target, usable, states, actions) && states[0] == Start(target, initial) && k < |states|
    ensures NearestOfAll(target, states[k].list, states[k].accepted)
    ensures NeverTwice(states[k].asked) && |states[k].asked| <= |states[k].accepted|
    ensures k <= 2 * |states[k].accepted|
  {
    StartInv(target, initial);
    RunInv(target, usable, states, actions, k);
    ClosestIsNearest(target, states[k].list, states[k].accepted);
    AskedBounded(states[k].asked, states[k].accepted);
  }

  /** A search that cannot move has nothing in flight and nothing left to ask: it is complete. */
  lemma StuckMeansComplete(target: NodeId, usable: Addr -> bool, s: State)
    ensures (exists a, s' :: Step(target, usable, s, a, s'))
            <==> |s.inFlight| > 0 || exists i :: 0 <= i < |s.list| && s.list[i].state == Unqueried
  {
    if |s.inFlight| > 0 {
      var addr :| addr in s.inFlight;
      assert Step(target, usable, s, DoJoin(addr, Lost), Join(target, s, addr, Lost, usable));
    } else if FirstUnqueried(s.list).Some? {
      assert Step(target, usable, s, DoQuery(true), Query(s, FirstUnqueried(s.list).value, true));
    }
  }

  // ----- everyone who is listed was asked -----

  /** The node at an address has the id that others report for it. */
  ghost predicate Honest(owner: Addr -> NodeId, cs: seq<Contact>) {
    forall i :: 0 <= i < |cs| ==> owner(cs[i].addr) == cs[i].id
  }

  ghost predicate HonestList(owner: Addr -> NodeId, list: seq<Entry>) {
    forall i :: 0 <= i < |list| ==> owner(list[i].contact.addr) == Id(list[i])
  }

  /** An entry is left unqueried or its id was asked. */
  ghost predicate AnsweredAsked(list: seq<Entry>, asked: seq<NodeId>) {
    forall i :: 0 <= i < |list| ==> list[i].state == Unqueried || Id(list[i]) in asked
  }

  ghost predicate AskedInv(owner: Addr -> NodeId, s: State) {
    && HonestList(owner, s.list) && AnsweredAsked(s.list, s.asked)
    && forall addr :: addr in s.inFlight ==> owner(addr) in s.asked
  }

  lemma {:induction false} AddNewHonest(owner: Addr -> NodeId, list: seq<Entry>, found: seq<Contact>,
                                        usable: Addr -> bool)
    requires HonestList(owner, list) && Honest(owner, found)
    ensures HonestList(owner, AddNew(list, found, usable))
    ensures forall e :: e in AddNew(list, found, usable) ==> e in list || e.state == Unqueried
  {
    if |found| > 0 {
      AddNewHonest(owner, list, found[..|found| - 1], usable);
    }
  }

  lemma MergeHonest(owner: Addr -> NodeId, target: NodeId, list: seq<Entry>, found: seq<Contact>, usable: Addr -> bool)
    requires HonestList(owner, list) && Honest(owner, found)
    ensures HonestList(owner, Merge(target, list, found, usable))
    ensures forall e :: e in Merge(target, list, found, usable) ==> e in list || e.state == Unqueried
  {
    if |found| > 0 {
      var l := AddNew(list, found, usable);
      var all := SortBy(Id, target, l);
      AddNewHonest(owner, list, found, usable);
      SortSound(Id, target, l);
      forall i | 0 <= i < |all| ensures all[i] in l {
        assert all[i] in multiset(l);
      }
    }
  }

  lemma MergeAsked(list: seq<Entry>, merged: seq<Entry>, asked: seq<NodeId>)
    requires AnsweredAsked(list, asked) && forall e :: e in merged ==> e in list || e.state == Unqueried
    ensures AnsweredAsked(merged, asked)
  {
    forall i | 0 <= i < |merged| ensures merged[i].state == Unqueried || Id(merged[i]) in asked {
      assert merged[i] in merged;
    }
  }

  lemma JoinAsked(owner: Addr -> NodeId, target: NodeId, s: State, addr: Addr, reply: Reply, usable: Addr -> bool)
    requires AskedInv(owner, s) && addr in s.inFlight && (reply.Answer? ==> Honest(owner, reply.found))
    ensures AskedInv(owner, Join(target, s, addr, reply, usable))
  {
    var at := FirstAt(s.list, addr);
    if at.Some? && !reply.Lost? {
      var state := if reply.NoAnswer? then Failed else Queried;
      var m := Marked(s.list, at.value, state);
      assert Id(s.list[at.value]) == owner(addr);
      assert HonestList(owner, m) && AnsweredAsked(m, s.asked);
      if reply.Answer? {
        MergeHonest(owner, target, m, reply.found, usable);
        MergeAsked(m, Merge(target, m, reply.found, usable), s.asked);
      }
    }
  }

  lemma QueryAsked(owner: Addr -> NodeId, s: State, i: nat, sent: bool)
    requires AskedInv(owner, s) && i < |s.list|
    ensures AskedInv(owner, Query(s, i, sent))
  {
  }

  lemma StartAsked(owner: Addr -> NodeId, target: NodeId, initial: seq<Contact>)
    requires Honest(owner, initial)
    ensures AskedInv(owner, Start(target, initial))
  {
    var list := seq(|initial|, i requires 0 <= i < |initial| => Entry(initial[i], Unqueried));
    SortSound(Id, target, list);
    var all := SortBy(Id, target, list);
    forall i | 0 <= i < |all| ensures owner(all[i].contact.addr) == Id(all[i]) && all[i].state == Unqueried {
      assert all[i] in multiset(list);
    }
  }

  /** While every address belongs to one id, each listed id that is not
      unqueried was asked; so a complete search has asked all of the closest. */
  lemma {:induction false} ListedWereAsked(target: NodeId, usable: Addr -> bool, owner: Addr -> NodeId,
                                           initial: seq<Contact>, states: seq<State>, actions: seq<Action>, k: nat)
    requires IsRun(target, usable, states, actions) && states[0] == Start(target, initial) && k < |states|
    requires Honest(owner, initial)
    requires forall a :: a in actions && a.DoJoin? && a.reply.Answer? ==> Honest(owner, a.reply.found)
    ensures AskedInv(owner, states[k])
  {
    if k == 0 {
      StartAsked(owner, target, initial);
    } else {
      ListedWereAsked(target, usable, owner, initial, states, actions, k - 1);
      var s, a := states[k - 1], actions[k - 1];
      assert a in actions && Step(target, usable, s, a, states[k]);
      match a
      case DoQuery(sent) => QueryAsked(owner, s, FirstUnqueried(s.list).value, sent);
      case DoJoin(addr, reply) => JoinAsked(owner, target, s, addr, reply, usable);
    }
  }

  // ----- the search itself -----

  method Accept(list: seq<Entry>, found: seq<Contact>, usable: Addr -> bool) returns (l: seq<Entry>)
    ensures l == AddNew(list, found, usable)
  {
    l := list;
    for i := 0 to |found|
      invariant l == AddNew(list, found[..i], usable)
    {
      assert found[..i + 1][..i] == found[..i];
      if usable(found[i].addr) && !Listed(l, found[i].id) {
        l := l + [Entry(found[i], Unqueried)];
      }
    }
    assert found[..|found|] == found;
  }

  predicate Listed(list: seq<Entry>, id: NodeId)
    ensures Listed(list, id) <==> id in Ids(list)
  {
    exists i :: 0 <= i < |list| && Id(list[i]) == id
  }

  /** The answers of the network: whether the `n`-th query could be sent, and what the next finished query brings. */
  datatype Network = Network(sent: nat -> bool, next: (nat, multiset<Addr>) -> (Addr, Reply))

  ghost predicate Answers(net: Network, universe: set<NodeId>) {
    forall n: nat, waiting: multiset<Addr> :: |waiting| > 0 ==>
      && net.next(n, waiting).0 in waiting
      && (net.next(n, waiting).1.Answer? ==> forall c :: c in net.next(n, waiting).1.found ==> c.id in universe)
  }

  class DhtSearch {
    const infoHash: NodeId
    const usable: Addr -> bool
    var shortList: seq<Entry>
    var inFlight: multiset<Addr>
    ghost var asked: seq<NodeId>
    ghost var accepted: set<NodeId>
    ghost var joined: nat

    ghost function View(): State
      reads this
    {
      State(shortList, inFlight, asked, accepted, joined)
    }

    constructor (hash: NodeId, valid: Addr -> bool, initial: seq<Contact>)
      ensures infoHash == hash && usable == valid && View() == Start(hash, initial)
    {
      infoHash, usable := hash, valid;
      var list := seq(|initial|, i requires 0 <= i < |initial| => Entry(initial[i], Unqueried));
      shortList := SortBy(Id, hash, list);
      inFlight := multiset{};
      asked, accepted, joined := [], Ids(SortBy(Id, hash, list)), 0;
    }

    /** One turn of the loop that keeps three queries in flight. */
    method QueryNext(sent: bool) returns (more: bool)
      requires |inFlight| < ALPHA
      modifies this
      ensures more == old(FirstUnqueried(shortList).Some?)
      ensures View() == if more then Query(old(View()), old(FirstUnqueried(shortList).value), sent) else old(View())
    {
      var at := FirstUnqueried(shortList);
      more := at.Some?;
      if more {
        var e := shortList[at.value];
        shortList := shortList[at.value := e.(state := InFlight)];
        asked := asked + [Id(e)];
        if sent {
          inFlight := inFlight + multiset{e.contact.addr};
        }
      }
    }

    method Handle(addr: Addr, reply: Reply)
      requires addr in inFlight
      modifies this
      ensures View() == Join(infoHash, old(View()), addr, reply, usable)
    {
      inFlight, joined := inFlight - multiset{addr}, joined + 1;
      var at := FirstAt(shortList, addr);
      if reply.Lost? || at.None? {
        return;
      }
      var e := shortList[at.value];
      if reply.NoAnswer? {
        shortList := shortList[at.value := e.(state := Failed)];
        return;
      }
      var list := shortList[at.value := e.(state := Queried)];
      accepted := accepted + Offered(reply.found, usable);
      if |reply.found| > 0 {
        list := Accept(list, reply.found, usable);
        list := SortBy(Id, infoHash, list);
        list := list[..Min(MAX_LIST, |list|)];
      }
      shortList := list;
    }

    /** The whole search ends for every network, with nothing in flight and nothing unqueried. */
    method Run(net: Network, ghost universe: set<NodeId>)
      requires Inv(infoHash, View()) && accepted <= universe && Answers(net, universe)
      modifies this
      ensures Inv(infoHash, View()) && accepted <= universe
      ensures inFlight == multiset{} && forall i :: 0 <= i < |shortList| ==> shortList[i].state != Unqueried
    {
      var n := 0;
      while true
        invariant Inv(infoHash, View()) && accepted <= universe
        decreases 2 * |universe| - Work(View())
      {
        n := Fill(net, n);
        if |inFlight| == 0 {
          return;
        }
        var (addr, reply) := net.next(n, inFlight);
        n := n + 1;
        JoinWorks(infoHash, View(), addr, reply, usable, universe);
        Handle(addr, reply);
      }
    }

    /** Queries are sent until three are in flight or none is left to send. */
    method Fill(net: Network, n: nat) returns (m: nat)
      requires Inv(infoHash, View())
      modifies this
      ensures Inv(infoHash, View()) && accepted == old(accepted) && Work(View()) >= old(Work(View()))
      ensures |inFlight| < ALPHA ==> forall i :: 0 <= i < |shortList| ==> shortList[i].state != Unqueried
    {
      m := n;
      while |inFlight| < ALPHA
        invariant Inv(infoHash, View()) && accepted == old(accepted) && Work(View()) >= old(Work(View()))
        decreases |accepted| - |asked|
      {
        AskedBounded(asked, accepted);
        if FirstUnqueried(shortList).Some? {
          QueryInv(infoHash, View(), net.sent(m));
          AskedBounded(Query(View(), FirstUnqueried(shortList).value, net.sent(m)).asked, accepted);
        }
        var more := QueryNext(net.sent(m));
        m := m + 1;
        if !more {
          break;
        }
      }
    }
  }

  /** A reply from inside the universe stays inside it, and uses up one step. */
  lemma JoinWorks(target: NodeId, s: State, addr: Addr, reply: Reply, usable: Addr -> bool, universe: set<NodeId>)
    requires Inv(target, s) && addr in s.inFlight && s.accepted <= universe
    requires reply.Answer? ==> forall c :: c in reply.found ==> c.id in universe
    ensures var s' := Join(target, s, addr, reply, usable);
            && Inv(target, s') && s'.accepted <= universe && Work(s') == Work(s) + 1 && Work(s') <= 2 * |universe|
  {
    JoinInv(target, s, addr, reply, usable);
    WorkBounded(target, Join(target, s, addr, reply, usable), universe);
  }

  lemma WorkBounded(target: NodeId, s: State, universe: set<NodeId>)
    requires Inv(target, s) && s.accepted <= universe
    ensures Work(s) <= 2 * |universe|
  {
    AskedBounded(s.asked, s.accepted);
    SubsetSize(s.accepted, universe);
  }
}
