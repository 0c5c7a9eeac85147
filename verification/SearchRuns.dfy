/** What a run of the search takes in, whom it asks next, and what it makes of an
    answer. */
module SearchRuns {
  import opened Common
  import opened NodeIds
  import opened Search

  // ----- what is accepted -----

  /** Action `a` in state `s` brings in `id`: a contact of an answer from a listed
      address, at an address that is usable. */
  ghost predicate Brings(usable: Addr -> bool, s: State, a: Action, id: NodeId) {
    && a.DoJoin? && a.reply.Answer? && (exists e :: e in s.list && e.contact.addr == a.addr)
    && exists c :: c in a.reply.found && usable(c.addr) && c.id == id
  }

  lemma OfferedExact(found: seq<Contact>, usable: Addr -> bool, id: NodeId)
    ensures id in Offered(found, usable) <==> exists c :: c in found && usable(c.addr) && c.id == id
  {
  }

  lemma StepAccepts(target: NodeId, usable: Addr -> bool, s: State, a: Action, s': State, id: NodeId)
    requires Step(target, usable, s, a, s')
    ensures id in s'.accepted <==> id in s.accepted || Brings(usable, s, a, id)
  {
    if a.DoJoin? {
      var at := FirstAt(s.list, a.addr);
      if at.Some? {
        assert s.list[at.value] in s.list;
      }
      if a.reply.Answer? {
        OfferedExact(a.reply.found, usable, id);
      }
    }
  }

  /** Some action before `k` brings in `id`. */
  ghost predicate Brought(usable: Addr -> bool, states: seq<State>, actions: seq<Action>, k: nat, id: NodeId) {
    exists i :: 0 <= i < k && i < |states| && i < |actions| && Brings(usable, states[i], actions[i], id)
  }

  /** The accepted ids of a run are those it started with and those its answers brought. */
  lemma {:induction false} AcceptedExact(target: NodeId, usable: Addr -> bool, states: seq<State>, actions: seq<Action>,
                                         k: nat, id: NodeId)
    requires IsRun(target, usable, states, actions) && k < |states|
    ensures id in states[k].accepted <==> id in states[0].accepted || Brought(usable, states, actions, k, id)
  {
    if k > 0 {
      AcceptedExact(target, usable, states, actions, k - 1, id);
      assert Step(target, usable, states[k - 1], actions[k - 1], states[k]);
      StepAccepts(target, usable, states[k - 1], actions[k - 1], states[k], id);
      if Brought(usable, states, actions, k, id) && !Brought(usable, states, actions, k - 1, id) {
        assert Brings(usable, states[k - 1], actions[k - 1], id);
      }
    }
  }

  /** It starts with exactly the ids of the contacts it is given. */
  lemma StartAccepts(target: NodeId, initial: seq<Contact>, id: NodeId)
    ensures id in Start(target, initial).accepted <==> exists c :: c in initial && c.id == id
  {
    var list := seq(|initial|, i requires 0 <= i < |initial| => Entry(initial[i], Unqueried));
    SortSound(Id, target, list);
    SameIds(SortBy(Id, target, list), list);
    if exists c :: c in initial && c.id == id {
      var i :| 0 <= i < |initial| && initial[i].id == id;
      assert Id(list[i]) == id;
    }
  }

  // ----- whom it asks -----

  /** The id asked next is the nearest that has not been asked. */
  lemma AsksNearest(target: NodeId, usable: Addr -> bool, s: State, sent: bool, s': State)
    requires IsClosest(target, s.list, s.accepted) && Step(target, usable, s, DoQuery(sent), s')
    ensures |s'.asked| == |s.asked| + 1 && s'.asked[..|s.asked|] == s.asked
    ensures var id := s'.asked[|s.asked|];
            && (exists e :: e in s.list && Id(e) == id && e.state == Unqueried)
            && forall i :: 0 <= i < |s.list| && s.list[i].state == Unqueried && Id(s.list[i]) != id ==>
                 Nearer(id, Id(s.list[i]), target)
  {
    var n := FirstUnqueried(s.list).value;
    assert s.list[n] in s.list;
    forall i | 0 <= i < |s.list| && s.list[i].state == Unqueried && Id(s.list[i]) != Id(s.list[n])
      ensures Nearer(Id(s.list[n]), Id(s.list[i]), target)
    {
      NotAfterIsNearness(Id(s.list[n]), Id(s.list[i]), target);
    }
  }

  /** Never more than three queries wait for an answer. */
  lemma {:induction false} ThreeInFlight(target: NodeId, usable: Addr -> bool, states: seq<State>, actions: seq<Action>,
                                         k: nat)
    requires IsRun(target, usable, states, actions) && |states[0].inFlight| <= 3 && k < |states|
    ensures |states[k].inFlight| <= 3
  {
    if k > 0 {
      ThreeInFlight(target, usable, states, actions, k - 1);
      assert Step(target, usable, states[k - 1], actions[k - 1], states[k]);
      if actions[k - 1].DoJoin? {
        var s, addr := states[k - 1], actions[k - 1].addr;
        assert |s.inFlight - multiset{addr}| == |s.inFlight| - 1;
      }
    }
  }

  // ----- what it makes of an answer -----

  /** Without an answer the first entry at the address has failed, and nothing else changes. */
  lemma FailsWithoutAnswer(target: NodeId, s: State, addr: Addr, usable: Addr -> bool, i: nat)
    requires i < |s.list| && s.list[i].contact.addr == addr
    requires forall j :: 0 <= j < i ==> s.list[j].contact.addr != addr
    ensures var s' := Join(target, s, addr, NoAnswer, usable);
            && s'.list == s.list[i := Entry(s.list[i].contact, Failed)]
            && s'.asked == s.asked && s'.accepted == s.accepted
  {
  }

  lemma OneEntry(m: seq<Entry>, i: nat, e: Entry)
    requires Distinct(m) && i < |m| && e in m && Id(e) == Id(m[i])
    ensures e == m[i]
  {
    var j: nat :| j < |m| && m[j] == e;
    if j != i {
      DistinctAt(m, i, j);
    }
  }

  /** An old entry that is kept in a merge is kept as it was. */
  lemma MergeKeepsEntry(target: NodeId, m: seq<Entry>, found: seq<Contact>, usable: Addr -> bool, i: nat, e: Entry)
    requires Distinct(m) && i < |m| && e in Merge(target, m, found, usable) && Id(e) == Id(m[i])
    ensures e == m[i]
  {
    assert Id(m[i]) in Ids(m);
    if |found| > 0 {
      var dropped := MergeShares(target, m, found, usable);
    }
    OneEntry(m, i, e);
  }

  /** With an answer it counts as queried, if it stays among the nearest. */
  lemma AnswersQueried(target: NodeId, s: State, addr: Addr, found: seq<Contact>, usable: Addr -> bool, i: nat,
                       e: Entry)
    requires Distinct(s.list) && i < |s.list| && s.list[i].contact.addr == addr
    requires forall j :: 0 <= j < i ==> s.list[j].contact.addr != addr
    requires e in Join(target, s, addr, Answer(found), usable).list && Id(e) == Id(s.list[i])
    ensures e == Entry(s.list[i].contact, Queried)
  {
    MarkedDistinct(s.list, i, Queried);
    MergeKeepsEntry(target, Marked(s.list, i, Queried), found, usable, i, e);
  }

  lemma MarkedDistinct(list: seq<Entry>, i: nat, state: NodeState)
    requires Distinct(list) && i < |list|
    ensures Distinct(Marked(list, i, state))
  {
    var m := Marked(list, i, state);
    assert forall j :: 0 <= j < |list| ==> Id(m[j]) == Id(list[j]);
    assert Ids(m) == Ids(list);
  }
}
