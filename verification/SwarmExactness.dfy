/** How far availability over-counts: by exactly the HAVEs for pieces that the
    same session already advertised, by HAVE or BITFIELD, as long as no counter
    has saturated; for any number of sessions and through selection changes. */
module SwarmExactness {
  import opened Common
  import opened Swarm
  import opened SwarmSessions
  import opened SwarmAvailability
  import SwarmOwnership
  import M = Manager

  /** What a message does to the counter of `p`, saturation aside. */
  function Change(msg: Msg, p: nat): int {
    match msg
    case PeerBitfield(_, x) => if p in x then 1 else 0
    case PeerHave(_, q) => if p == q then 1 else 0
    case PeerGone(_, x) => if p in x then -1 else 0
    case _ => 0
  }

  /** The counter after the whole queue, saturation aside. */
  function Ends(c: int, q: seq<Msg>, p: nat): int
    decreases |q|
  {
    if q == [] then c else Ends(c + Change(q[0], p), q[1..], p)
  }

  /** No message of the queue takes the counter out of its range. */
  predicate InRange(c: int, q: seq<Msg>, p: nat)
    decreases |q|
  {
    0 <= c <= M.U16_MAX && (q != [] ==> InRange(c + Change(q[0], p), q[1..], p))
  }

  lemma {:induction false} Appended(c: int, q: seq<Msg>, msg: Msg, p: nat)
    ensures Ends(c, q + [msg], p) == Ends(c, q, p) + Change(msg, p)
    ensures InRange(c, q + [msg], p) <==> InRange(c, q, p) && 0 <= Ends(c, q, p) + Change(msg, p) <= M.U16_MAX
    decreases |q|
  {
    if q == [] {
      assert q + [msg] == [msg] && [msg][1..] == [];
    } else {
      assert (q + [msg])[1..] == q[1..] + [msg];
      Appended(c + Change(q[0], p), q[1..], msg, p);
    }
  }

  lemma Counted(avail: seq<nat>, msg: Msg, p: nat)
    requires p < |avail| && 0 <= avail[p] + Change(msg, p) <= M.U16_MAX && avail[p] <= M.U16_MAX
    ensures |TellAvail(avail, msg)| == |avail| && TellAvail(avail, msg)[p] == avail[p] + Change(msg, p)
  {
  }

  lemma {:induction false} DrainsTo(avail: seq<nat>, q: seq<Msg>, p: nat)
    requires p < |avail| && InRange(avail[p], q, p)
    ensures p < |Drained(avail, q)| && Drained(avail, q)[p] == Ends(avail[p], q, p)
    decreases |q|
  {
    if q != [] {
      Counted(avail, q[0], p);
      DrainsTo(TellAvail(avail, q[0]), q[1..], p);
    }
  }

  /** Sessions advertising `p`, plus repeated HAVEs for it. */
  ghost function Sum(s: State, p: nat): nat { |Advertisers(s, p)| + s.repeats[p] }

  /** The counter and its queue lead to the sum, without saturating on the way. */
  ghost predicate Tracks(s: State, p: nat) {
    p < |s.m.avail| && InRange(s.m.avail[p], s.queue, p) && Ends(s.m.avail[p], s.queue, p) == Sum(s, p)
  }

  // ----- steps -----

  lemma AdvertisersUpdate(s: State, sid: nat, x: Session, s': State, p: nat)
    requires sid in s.sessions && s'.sessions == s.sessions[sid := x]
    ensures |Advertisers(s', p)|
            == |Advertisers(s, p)| - (if p in s.sessions[sid].have then 1 else 0) + (if p in x.have then 1 else 0)
    ensures p in s.sessions[sid].have ==> |Advertisers(s, p)| > 0
  {
    var a, b := Advertisers(s, p), Advertisers(s', p);
    if p in s.sessions[sid].have {
      assert sid in a;
    }
    if p in s.sessions[sid].have && p !in x.have {
      assert b == a - {sid};
    } else if p in x.have && p !in s.sessions[sid].have {
      assert b == a + {sid};
    } else {
      assert b == a;
    }
  }

  /** One message appended; the sum changes by what it says. */
  lemma Says(s: State, msg: Msg, s': State, p: nat)
    requires Tracks(s, p) && s'.m == s.m && s'.queue == s.queue + [msg]
    requires Sum(s', p) == Sum(s, p) + Change(msg, p) && Sum(s', p) <= M.U16_MAX
    ensures Tracks(s', p)
  {
    Appended(s.m.avail[p], s.queue, msg, p);
  }

  lemma BitfieldTracks(s: State, sid: nat, pieces: set<nat>, s': State, p: nat)
    requires Tracks(s, p) && Step(s, BitfieldMsg(sid, pieces), s') && Sum(s', p) <= M.U16_MAX && Sum(s, p) <= M.U16_MAX
    ensures Tracks(s', p)
  {
    var x := s.sessions[sid];
    var mid := s;
    AdvertisersUpdate(s, sid, x.(have := pieces), s', p);
    if x.have != {} {
      mid := s.(sessions := s.sessions[sid := x.(have := {})], queue := s.queue + [PeerGone(sid, x.have)]);
      AdvertisersUpdate(s, sid, x.(have := {}), mid, p);
      Says(s, PeerGone(sid, x.have), mid, p);
    }
    assert s'.queue == mid.queue + [PeerBitfield(sid, pieces)];
    Says(mid, PeerBitfield(sid, pieces), s', p);
  }

  lemma EndTracks(s: State, sid: nat, s': State, p: nat)
    requires Tracks(s, p) && Step(s, End(sid), s') && Sum(s', p) <= M.U16_MAX && Sum(s, p) <= M.U16_MAX
    ensures Tracks(s', p)
  {
    var x := s.sessions[sid];
    var mid := s;
    AdvertisersUpdate(s, sid, s'.sessions[sid], s', p);
    if x.job.Some? {
      mid := s.(queue := s.queue + [PieceFailed(x.job.value)]);
      assert Advertisers(mid, p) == Advertisers(s, p);
      Says(s, PieceFailed(x.job.value), mid, p);
    }
    if x.have != {} {
      assert s'.queue == mid.queue + [PeerGone(sid, x.have)];
      Says(mid, PeerGone(sid, x.have), s', p);
    } else {
      assert s'.queue == mid.queue;
    }
  }

  lemma HaveTracks(s: State, sid: nat, q: nat, s': State, p: nat)
    requires Tracks(s, p) && Step(s, HaveMsg(sid, q), s') && Sum(s', p) <= M.U16_MAX
    ensures Tracks(s', p)
  {
    AdvertisersUpdate(s, sid, s'.sessions[sid], s', p);
    Says(s, PeerHave(sid, q), s', p);
  }

  /** The head of the queue is handled; nobody's set changes. */
  lemma PopTracks(s: State, s': State, p: nat)
    requires Tracks(s, p) && s.queue != [] && s'.queue == s.queue[1..] && s'.repeats == s.repeats
    requires s'.m.avail == TellAvail(s.m.avail, s.queue[0])
    requires s'.sessions.Keys == s.sessions.Keys
    requires forall sid :: sid in s.sessions ==> s'.sessions[sid].have == s.sessions[sid].have
    ensures Tracks(s', p)
  {
    assert InRange(s.m.avail[p] + Change(s.queue[0], p), s.queue[1..], p);
    Counted(s.m.avail, s.queue[0], p);
    assert Advertisers(s', p) == Advertisers(s, p);
  }

  lemma HandleTracks(s: State, written: bool, s': State, p: nat)
    requires Tracks(s, p) && M.Inv(s.m) && HandleStep(s, written, s')
    ensures Tracks(s', p)
  {
    if s.queue[0].RequestWork? {
      var sid := s.queue[0].sid;
      var m', r :| Answers(s, sid, m', r) && s' == Answered(s, sid, m', r);
      if s.downloading && !s.paused {
        SwarmOwnership.NextWorkHolders(s.m, s.sessions[sid].have, m', r);
      }
    }
    PopTracks(s, s', p);
  }

  /** A step of one session that appends at most a message about no peer. */
  lemma QuietTracks(s: State, sid: nat, x: Session, msgs: seq<Msg>, s': State, p: nat)
    requires Tracks(s, p) && Sum(s, p) <= M.U16_MAX && sid in s.sessions && x.have == s.sessions[sid].have
    requires |msgs| <= 1
    requires forall k :: 0 <= k < |msgs| ==> Change(msgs[k], p) == 0
    requires SessionStep(s, sid, x, msgs, s')
    ensures Tracks(s', p)
  {
    AdvertisersUpdate(s, sid, x, s', p);
    if msgs == [] {
      assert s'.queue == s.queue;
    } else {
      assert msgs == [msgs[0]];
      Says(s, msgs[0], s', p);
    }
  }

  lemma SessionTracks(s: State, a: Action, s': State, p: nat)
    requires Tracks(s, p) && Sum(s, p) <= M.U16_MAX && Step(s, a, s')
    requires a.Ask? || a.TakeReply? || a.FinishJob? || a.DropJob?
    ensures Tracks(s', p)
  {
    var msgs := s'.queue[|s.queue|..];
    assert s'.queue == s.queue + msgs;
    QuietTracks(s, a.sid, s'.sessions[a.sid], msgs, s', p);
  }

  /** Whatever leaves the counters, the queue and the advertised sets alone. */
  lemma UntouchedTracks(s: State, s': State, p: nat)
    requires Tracks(s, p) && s'.m.avail == s.m.avail && s'.queue == s.queue && s'.repeats == s.repeats
    requires Advertisers(s', p) == Advertisers(s, p)
    ensures Tracks(s', p)
  {
  }

  lemma ComingTracks(s: State, a: Action, s': State, p: nat)
    requires Tracks(s, p) && SessionsOk(s) && Step(s, a, s') && (a.Join? || a.Leave?)
    ensures Tracks(s', p)
  {
    assert Advertisers(s', p) == Advertisers(s, p);
    UntouchedTracks(s, s', p);
  }

  lemma LocalTracks(s: State, a: Action, s': State, p: nat)
    requires Tracks(s, p) && Step(s, a, s') && (a.CheckPiece? || a.StartDownload? || a.SetPaused? || a.SetSelection?)
    ensures Tracks(s', p)
  {
    UntouchedTracks(s, s', p);
  }

  lemma StepTracks(s: State, a: Action, s': State, p: nat)
    requires Tracks(s, p) && M.Inv(s.m) && SessionsOk(s) && Step(s, a, s')
    requires Sum(s, p) <= M.U16_MAX && Sum(s', p) <= M.U16_MAX
    ensures Tracks(s', p)
  {
    if a.Handle? {
      HandleTracks(s, a.written, s', p);
    } else if a.HaveMsg? {
      HaveTracks(s, a.sid, a.piece, s', p);
    } else if a.BitfieldMsg? {
      BitfieldTracks(s, a.sid, a.pieces, s', p);
    } else if a.End? {
      EndTracks(s, a.sid, s', p);
    } else if a.Ask? || a.TakeReply? || a.FinishJob? || a.DropJob? {
      SessionTracks(s, a, s', p);
    } else if a.Join? || a.Leave? {
      ComingTracks(s, a, s', p);
    } else {
      LocalTracks(s, a, s', p);
    }
  }

  // ----- whole runs -----

  lemma NextTracks(s: State, s': State, p: nat)
    requires Tracks(s, p) && BaseInv(s) && Next(s, s')
    requires Sum(s, p) <= M.U16_MAX && Sum(s', p) <= M.U16_MAX
    ensures Tracks(s', p)
  {
    var a :| Step(s, a, s');
    StepTracks(s, a, s', p);
  }

  lemma StartTracks(s: State, p: nat)
    requires Init(s) && p < s.m.total
    ensures Tracks(s, p)
  {
    assert Advertisers(s, p) == {};
  }

  lemma {:induction false} RunTracks(states: seq<State>, k: nat, p: nat)
    requires IsRun(states) && k < |states| && p < states[0].m.total
    requires forall i :: 0 <= i <= k ==> Sum(states[i], p) <= M.U16_MAX
    ensures Tracks(states[k], p)
  {
    if k == 0 {
      StartTracks(states[0], p);
    } else {
      RunTracks(states, k - 1, p);
      RunBase(states, k - 1);
      NextTracks(states[k - 1], states[k], p);
    }
  }

  /** The counter of `p` once the queue has been handled. */
  function Final(s: State, p: nat): nat {
    var final := Drained(s.m.avail, s.queue);
    if p < |final| then final[p] else 0
  }

  lemma {:induction false} DrainedBounded(avail: seq<nat>, q: seq<Msg>, p: nat)
    requires p < |avail| ==> avail[p] <= M.U16_MAX
    ensures p < |Drained(avail, q)| ==> Drained(avail, q)[p] <= M.U16_MAX
    decreases |q|
  {
    if q != [] {
      DrainedBounded(TellAvail(avail, q[0]), q[1..], p);
    }
  }

  lemma FinalBounded(states: seq<State>, k: nat, p: nat)
    requires IsRun(states) && k < |states|
    ensures Final(states[k], p) <= M.U16_MAX
  {
    RunBase(states, k);
    DrainedBounded(states[k].m.avail, states[k].queue, p);
  }

  lemma SumReached(states: seq<State>, k: nat, p: nat)
    requires IsRun(states) && k < |states| && p < states[0].m.total
    requires forall i :: 0 <= i <= k ==> Sum(states[i], p) <= M.U16_MAX
    ensures Final(states[k], p) == Sum(states[k], p)
  {
    RunTracks(states, k, p);
    DrainsTo(states[k].m.avail, states[k].queue, p);
  }

  /** The exact count. Throughout a run the counter of `p` comes to the number of
      sessions advertising it plus the number of repeated HAVEs for it, if and
      only if that sum has stayed within the counter's range; and then it is the
      number of sessions exactly when no HAVE for `p` was repeated, by anyone,
      connected or gone. */
  lemma AvailabilityExact(states: seq<State>, k: nat, p: nat)
    requires IsRun(states) && k < |states| && p < states[0].m.total
    ensures (forall i :: 0 <= i <= k ==> Final(states[i], p) == Sum(states[i], p))
            <==> (forall i :: 0 <= i <= k ==> Sum(states[i], p) <= M.U16_MAX)
    ensures (forall i :: 0 <= i <= k ==> Sum(states[i], p) <= M.U16_MAX) ==>
              (Final(states[k], p) == |Advertisers(states[k], p)| <==> states[k].repeats[p] == 0)
  {
    forall i | 0 <= i <= k ensures Final(states[i], p) <= M.U16_MAX {
      FinalBounded(states, i, p);
    }
    if forall i :: 0 <= i <= k ==> Sum(states[i], p) <= M.U16_MAX {
      forall i | 0 <= i <= k ensures Final(states[i], p) == Sum(states[i], p) {
        SumReached(states, i, p);
      }
    }
  }

  // ----- a repeated HAVE -----

  /** One peer at most, one piece, files still being checked. */
  function Moment(sessions: map<nat, Session>, queue: seq<Msg>, avail: nat, seen: map<nat, set<nat>>,
                  repeats: multiset<nat>): State {
    State(false, false, M.WithSelection(1, {}, M.Sel({0}, {})).(avail := [avail]), sessions, queue, {}, seen, repeats)
  }

  function Peer(have: set<nat>, ended: bool): map<nat, Session> { map[0 := Session(None, false, None, have, ended)] }

  function Example(k: nat): State {
    match k
    case 0 => Moment(map[], [], 0, map[], multiset{})
    case 1 => Moment(Peer({}, false), [], 0, map[0 := {}], multiset{})
    case 2 => Moment(Peer({0}, false), [PeerHave(0, 0)], 0, map[0 := {}], multiset{})
    case 3 => Moment(Peer({0}, false), [PeerHave(0, 0), PeerHave(0, 0)], 0, map[0 := {}], multiset{0})
    case 4 => Moment(Peer({0}, false), [PeerHave(0, 0)], 1, map[0 := {0}], multiset{0})
    case 5 => Moment(Peer({0}, false), [], 2, map[0 := {0}], multiset{0})
    case 6 => Moment(Peer({}, true), [PeerGone(0, {0})], 2, map[0 := {0}], multiset{0})
    case _ => Moment(Peer({}, true), [], 1, map[0 := {}], multiset{0})
  }

  lemma By(s: State, a: Action, s': State)
    requires Step(s, a, s')
    ensures Next(s, s')
  {
  }

  lemma ExampleJoins()
    ensures Next(Example(0), Example(1))
  {
    By(Example(0), Join(0), Example(1));
  }

  lemma ExampleTells()
    ensures Next(Example(1), Example(2))
  {
    By(Example(1), HaveMsg(0, 0), Example(2));
  }

  lemma ExampleRepeats()
    ensures Next(Example(2), Example(3))
  {
    By(Example(2), HaveMsg(0, 0), Example(3));
  }

  lemma ByUpdate(s: State, s': State)
    requires s.queue != [] && (s.queue[0].PeerHave? || s.queue[0].PeerGone?) && s' == PeerUpdate(s, s.queue[1..])
    ensures Next(s, s')
  {
    By(s, Handle(true), s');
  }

  lemma ExampleCounts()
    ensures Next(Example(3), Example(4)) && Next(Example(4), Example(5))
  {
    ByUpdate(Example(3), Example(4));
    ByUpdate(Example(4), Example(5));
  }

  lemma ExampleEnds()
    ensures Next(Example(5), Example(6))
  {
    By(Example(5), End(0), Example(6));
  }

  lemma ExampleWithdraws()
    ensures Next(Example(6), Example(7))
  {
    ByUpdate(Example(6), Example(7));
  }

  /** Some run ends in `s`. */
  ghost predicate Reachable(s: State) {
    exists states :: IsRun(states) && states[|states| - 1] == s
  }

  lemma RunExtends(states: seq<State>, s': State, longer: seq<State>)
    requires IsRun(states) && Next(states[|states| - 1], s') && longer == states + [s']
    ensures IsRun(longer)
  {
    assert longer[0] == states[0];
    forall k, n | 0 <= k && n == k + 1 && n < |longer| ensures Next(longer[k], longer[n]) {
      if n < |states| {
        assert Next(states[k], states[n]);
      }
    }
  }

  lemma ReachesNext(s: State, s': State)
    requires Reachable(s) && Next(s, s')
    ensures Reachable(s')
  {
    var states :| IsRun(states) && states[|states| - 1] == s;
    var longer := states + [s'];
    RunExtends(states, s', longer);
    assert longer[|longer| - 1] == s';
  }

  lemma ExampleStart()
    ensures Reachable(Example(0))
  {
    assert Example(0).m == M.WithSelection(1, {}, M.Sel({0}, {}));
    assert IsRun([Example(0)]);
    assert [Example(0)][0] == Example(0);
  }

  lemma ExampleReached()
    ensures Reachable(Example(5)) && Reachable(Example(7))
  {
    ExampleStart();
    ExampleJoins();
    ReachesNext(Example(0), Example(1));
    ExampleTells();
    ReachesNext(Example(1), Example(2));
    ExampleRepeats();
    ReachesNext(Example(2), Example(3));
    ExampleCounts();
    ReachesNext(Example(3), Example(4));
    ReachesNext(Example(4), Example(5));
    ExampleEnds();
    ReachesNext(Example(5), Example(6));
    ExampleWithdraws();
    ReachesNext(Example(6), Example(7));
  }

  /** `n` counted for `sessions` that advertise piece 0, and nothing left to handle. */
  ghost predicate Settled(s: State, n: nat, sessions: nat) {
    s.queue == [] && s.m.avail == [n] && |Advertisers(s, 0)| == sessions
  }

  lemma ExampleTold()
    ensures Settled(Example(5), 2, 1)
  {
    assert Advertisers(Example(5), 0) == {0};
  }

  lemma ExampleGone()
    ensures Settled(Example(7), 1, 0)
  {
    assert Advertisers(Example(7), 0) == {};
  }

  /** One peer sends HAVE for piece 0 twice and disconnects: two are counted for
      one session that advertises it, and one stays counted when it has gone. */
  lemma RepeatedHaveOvercounts()
    ensures exists told :: Reachable(told) && Settled(told, 2, 1)
    ensures exists gone :: Reachable(gone) && Settled(gone, 1, 0)
  {
    ExampleReached();
    ExampleTold();
    ExampleGone();
  }
}
