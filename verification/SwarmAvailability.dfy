/** Availability accounting: what the coordinator counts for rarest-first never
    falls below the number of sessions advertising a piece, through bitfield
    replacement, disconnects and u16 saturation. */
module SwarmAvailability {
  import opened Common
  import opened Swarm
  import opened SwarmSessions
  import SwarmOwnership
  import M = Manager

  /** The number of sessions a 16-bit counter can count. */
  const MAX_SESSIONS: nat := 65535

  /** What the message says agrees with what was said before; a HAVE may repeat. */
  predicate Fits(have: set<nat>, msg: Msg) {
    match msg
    case PeerBitfield(_, _) => have == {}
    case PeerGone(_, x) => x == have
    case _ => true
  }

  predicate About(msg: Msg, sid: nat) {
    (msg.PeerBitfield? || msg.PeerHave? || msg.PeerGone?) && msg.sid == sid
  }

  /** The have-set of `sid` after all of `q`, starting from `have`. */
  function Replay(have: set<nat>, q: seq<Msg>, sid: nat): set<nat>
    decreases |q|
  {
    if q == [] then have
    else Replay(if About(q[0], sid) then TellHave(have, q[0]) else have, q[1..], sid)
  }

  predicate Consistent(have: set<nat>, q: seq<Msg>, sid: nat)
    decreases |q|
  {
    q == [] ||
    if About(q[0], sid) then Fits(have, q[0]) && Consistent(TellHave(have, q[0]), q[1..], sid)
    else Consistent(have, q[1..], sid)
  }

  lemma {:induction false} ReplayAppend(have: set<nat>, q: seq<Msg>, msg: Msg, sid: nat)
    ensures Replay(have, q + [msg], sid)
            == if About(msg, sid) then TellHave(Replay(have, q, sid), msg) else Replay(have, q, sid)
    ensures Consistent(have, q + [msg], sid)
            <==> Consistent(have, q, sid) && (About(msg, sid) ==> Fits(Replay(have, q, sid), msg))
    decreases |q|
  {
    if q == [] {
      assert q + [msg] == [msg];
      assert [msg][1..] == [];
    } else {
      assert (q + [msg])[1..] == q[1..] + [msg];
      ReplayAppend(if About(q[0], sid) then TellHave(have, q[0]) else have, q[1..], msg, sid);
    }
  }

  ghost function Viewers(seen: map<nat, set<nat>>, p: nat): set<nat> { set sid | sid in seen && p in seen[sid] }

  /** The count is never too low. */
  ghost predicate Counts(avail: seq<nat>, seen: map<nat, set<nat>>) {
    forall p :: 0 <= p < |avail| ==>
      |Viewers(seen, p)| <= avail[p] <= M.U16_MAX
  }

  ghost predicate AvailOk(avail: seq<nat>, seen: map<nat, set<nat>>, q: seq<Msg>) {
    && |seen| <= MAX_SESSIONS
    && Counts(avail, seen)
    && (forall sid :: sid in seen ==> Consistent(seen[sid], q, sid))
    && (forall k :: 0 <= k < |q| && (q[k].PeerBitfield? || q[k].PeerHave? || q[k].PeerGone?) ==> q[k].sid in seen)
  }

  lemma ViewersBound(seen: map<nat, set<nat>>, p: nat, sid: nat)
    requires sid in seen && p !in seen[sid]
    ensures |Viewers(seen, p)| < |seen|
  {
    assert Viewers(seen, p) <= seen.Keys - {sid};
    M.SubsetSize(Viewers(seen, p), seen.Keys - {sid});
  }

  lemma ViewersUpdate(seen: map<nat, set<nat>>, sid: nat, have: set<nat>, p: nat)
    requires sid in seen
    ensures |Viewers(seen[sid := have], p)|
            == |Viewers(seen, p)| - (if p in seen[sid] then 1 else 0) + (if p in have then 1 else 0)
  {
    var a, b := Viewers(seen, p), Viewers(seen[sid := have], p);
    if p in seen[sid] && p !in have {
      assert b == a - {sid};
    } else if p in have && p !in seen[sid] {
      assert b == a + {sid};
    } else {
      assert b == a;
    }
  }

  /** Handling one peer message keeps the counts right for the new view. */
  lemma CountsAfter(avail: seq<nat>, seen: map<nat, set<nat>>, msg: Msg)
    requires |seen| <= MAX_SESSIONS && Counts(avail, seen)
    requires msg.PeerBitfield? || msg.PeerHave? || msg.PeerGone?
    requires msg.sid in seen && Fits(seen[msg.sid], msg)
    ensures |TellAvail(avail, msg)| == |avail|
    ensures Counts(TellAvail(avail, msg), TellSeen(seen, msg))
  {
    forall p | 0 <= p < |avail|
      ensures var v := |Viewers(TellSeen(seen, msg), p)|;
              v <= TellAvail(avail, msg)[p] <= M.U16_MAX
    {
      ViewersUpdate(seen, msg.sid, TellHave(seen[msg.sid], msg), p);
      if p !in seen[msg.sid] {
        ViewersBound(seen, p, msg.sid);
      }
    }
  }

  /** Taking the first message off the queue. */
  lemma AvailHead(avail: seq<nat>, seen: map<nat, set<nat>>, q: seq<Msg>)
    requires AvailOk(avail, seen, q) && q != []
    ensures |TellAvail(avail, q[0])| == |avail| && TellSeen(seen, q[0]).Keys == seen.Keys
    ensures AvailOk(TellAvail(avail, q[0]), TellSeen(seen, q[0]), q[1..])
    ensures forall sid :: sid in seen ==> Replay(TellSeen(seen, q[0])[sid], q[1..], sid) == Replay(seen[sid], q, sid)
  {
    var msg, next := q[0], TellSeen(seen, q[0]);
    if msg.PeerBitfield? || msg.PeerHave? || msg.PeerGone? {
      assert Consistent(seen[msg.sid], q, msg.sid);
      CountsAfter(avail, seen, msg);
    }
    assert next.Keys == seen.Keys;
    assert |next| == |next.Keys| == |seen.Keys| == |seen|;
    forall sid | sid in seen
      ensures Consistent(next[sid], q[1..], sid) && Replay(next[sid], q[1..], sid) == Replay(seen[sid], q, sid)
    {
      assert Consistent(seen[sid], q, sid);
    }
    forall k | 0 <= k < |q[1..]| && (q[1..][k].PeerBitfield? || q[1..][k].PeerHave? || q[1..][k].PeerGone?)
      ensures q[1..][k].sid in next
    {
      assert q[1..][k] == q[k + 1];
    }
  }

  // ----- the swarm -----

  ghost predicate AvInv(s: State) {
    && s.seen.Keys == s.sessions.Keys
    && |s.m.avail| == s.m.total
    && AvailOk(s.m.avail, s.seen, s.queue)
    && (forall sid :: sid in s.sessions ==> Replay(s.seen[sid], s.queue, sid) == s.sessions[sid].have)
  }

  /** A message about `sid` is appended and the session's own set follows it. */
  lemma Tell(s: State, sid: nat, x: Session, msg: Msg, s': State)
    requires AvInv(s) && sid in s.sessions && About(msg, sid)
    requires Fits(s.sessions[sid].have, msg) && x.have == TellHave(s.sessions[sid].have, msg)
    requires s' == s.(sessions := s.sessions[sid := x], queue := s.queue + [msg], repeats := s'.repeats)
    ensures AvInv(s')
  {
    forall t | t in s'.sessions
      ensures Consistent(s'.seen[t], s'.queue, t) && Replay(s'.seen[t], s'.queue, t) == s'.sessions[t].have
    {
      ReplayAppend(s.seen[t], s.queue, msg, t);
    }
  }

  /** A message about no peer is appended; the session keeps its set. */
  lemma Quiet(s: State, sid: nat, x: Session, msg: Msg, s': State)
    requires AvInv(s) && sid in s.sessions && x.have == s.sessions[sid].have
    requires msg.RequestWork? || msg.PieceFailed? || msg.PieceDownloaded?
    requires s' == s.(sessions := s.sessions[sid := x], queue := s.queue + [msg])
    ensures AvInv(s')
  {
    forall t | t in s'.sessions
      ensures Consistent(s'.seen[t], s'.queue, t) && Replay(s'.seen[t], s'.queue, t) == s'.sessions[t].have
    {
      ReplayAppend(s.seen[t], s.queue, msg, t);
    }
  }

  /** Only the session's other fields change. */
  lemma NoMsg(s: State, sid: nat, x: Session, s': State)
    requires AvInv(s) && sid in s.sessions && x.have == s.sessions[sid].have
    requires s' == s.(sessions := s.sessions[sid := x])
    ensures AvInv(s')
  {
  }

  lemma {:induction false} NotMentioned(have: set<nat>, q: seq<Msg>, sid: nat)
    requires forall k :: 0 <= k < |q| ==> !Mentions(q[k], sid)
    ensures Replay(have, q, sid) == have && Consistent(have, q, sid)
    decreases |q|
  {
    if q != [] {
      assert !Mentions(q[0], sid);
      forall k | 0 <= k < |q[1..]| ensures !Mentions(q[1..][k], sid) {
        assert q[1..][k] == q[k + 1];
      }
      NotMentioned(have, q[1..], sid);
    }
  }

  lemma AvailJoin(avail: seq<nat>, seen: map<nat, set<nat>>, q: seq<Msg>, sid: nat)
    requires AvailOk(avail, seen, q) && |seen| < MAX_SESSIONS && sid !in seen
    requires forall k :: 0 <= k < |q| ==> !Mentions(q[k], sid)
    ensures AvailOk(avail, seen[sid := {}], q) && Replay({}, q, sid) == {}
  {
    NotMentioned({}, q, sid);
    forall p ensures Viewers(seen[sid := {}], p) == Viewers(seen, p) {
    }
  }

  lemma JoinInv(s: State, sid: nat, s': State)
    requires AvInv(s) && Step(s, Join(sid), s') && |s'.sessions| <= MAX_SESSIONS
    ensures AvInv(s')
  {
    assert |s.seen| == |s.seen.Keys| == |s.sessions.Keys| == |s.sessions|;
    AvailJoin(s.m.avail, s.seen, s.queue, sid);
  }

  lemma LeaveInv(s: State, sid: nat, s': State)
    requires AvInv(s) && SessionsOk(s) && Step(s, Leave(sid), s')
    ensures AvInv(s')
  {
    NotMentioned(s.seen[sid], s.queue, sid);
    assert s.seen[sid] == {};
    forall p ensures Viewers(s'.seen, p) == Viewers(s.seen, p) {
    }
    assert s'.seen.Keys == s.seen.Keys - {sid};
    M.SubsetSize(s'.seen.Keys, s.seen.Keys);
    assert |s'.seen| == |s'.seen.Keys| && |s.seen| == |s.seen.Keys|;
    forall k | 0 <= k < |s'.queue| && (s'.queue[k].PeerBitfield? || s'.queue[k].PeerHave? || s'.queue[k].PeerGone?)
      ensures s'.queue[k].sid in s'.seen
    {
      assert !Mentions(s.queue[k], sid);
    }
  }

  lemma TakeReplyInv(s: State, sid: nat, valid: bool, s': State)
    requires AvInv(s) && Step(s, TakeReply(sid, valid), s')
    ensures AvInv(s')
  {
    var got := s.sessions[sid].reply.value;
    if got.Some? && !valid {
      Quiet(s, sid, s'.sessions[sid], PieceFailed(got.value), s');
    } else {
      assert s.queue + [] == s.queue;
      NoMsg(s, sid, s'.sessions[sid], s');
    }
  }

  lemma EndInv(s: State, sid: nat, s': State)
    requires AvInv(s) && Step(s, End(sid), s')
    ensures AvInv(s')
  {
    var x := s.sessions[sid];
    var mid := s;
    if x.job.Some? {
      mid := s.(sessions := s.sessions[sid := x.(job := None)], queue := s.queue + [PieceFailed(x.job.value)]);
      Quiet(s, sid, x.(job := None), PieceFailed(x.job.value), mid);
    }
    assert mid.sessions[sid := s'.sessions[sid]] == s'.sessions;
    if x.have != {} {
      assert s'.queue == mid.queue + [PeerGone(sid, x.have)];
      Tell(mid, sid, s'.sessions[sid], PeerGone(sid, x.have), s');
    } else {
      assert s'.queue == mid.queue;
      NoMsg(mid, sid, s'.sessions[sid], s');
    }
  }

  lemma BitfieldInv(s: State, sid: nat, pieces: set<nat>, s': State)
    requires AvInv(s) && Step(s, BitfieldMsg(sid, pieces), s')
    ensures AvInv(s')
  {
    var x := s.sessions[sid];
    var mid := s;
    if x.have != {} {
      mid := s.(sessions := s.sessions[sid := x.(have := {})], queue := s.queue + [PeerGone(sid, x.have)]);
      Tell(s, sid, x.(have := {}), PeerGone(sid, x.have), mid);
    }
    assert mid.sessions[sid := s'.sessions[sid]] == s'.sessions;
    assert s'.queue == mid.queue + [PeerBitfield(sid, pieces)];
    Tell(mid, sid, s'.sessions[sid], PeerBitfield(sid, pieces), s');
  }

  /** Any handled message: the counts follow the view, whatever else happens. */
  lemma PopInv(s: State, s': State)
    requires AvInv(s) && s.queue != [] && s'.queue == s.queue[1..]
    requires s'.m.avail == TellAvail(s.m.avail, s.queue[0]) && s'.m.total == s.m.total
    requires s'.seen == TellSeen(s.seen, s.queue[0])
    requires s'.sessions.Keys == s.sessions.Keys
    requires forall sid :: sid in s.sessions ==> s'.sessions[sid].have == s.sessions[sid].have
    ensures AvInv(s')
  {
    AvailHead(s.m.avail, s.seen, s.queue);
  }

  lemma RequestInv(s: State, written: bool, s': State)
    requires AvInv(s) && M.Inv(s.m) && HandleStep(s, written, s') && s.queue[0].RequestWork?
    ensures AvInv(s')
  {
    var sid := s.queue[0].sid;
    var m', r :| Answers(s, sid, m', r) && s' == Answered(s, sid, m', r);
    if s.downloading && !s.paused {
      SwarmOwnership.NextWorkHolders(s.m, s.sessions[sid].have, m', r);
    }
    PopInv(s, s');
  }

  lemma ReturnKeepsAvail(m: M.State, p: nat)
    ensures M.ReturnWork(m, p).avail == m.avail && M.ReturnWork(m, p).total == m.total
  {
  }

  lemma MarkKeepsAvail(m: M.State, p: nat)
    ensures M.MarkCompleted(m, p).avail == m.avail && M.MarkCompleted(m, p).total == m.total
  {
  }

  /** A result that is handled changes the scheduler and not what peers advertise. */
  lemma ResultKeeps(s: State, written: bool, s': State)
    requires HandleStep(s, written, s') && (s.queue[0].PieceFailed? || s.queue[0].PieceDownloaded?)
    ensures s'.m.avail == s.m.avail && s'.m.total == s.m.total
    ensures s'.queue == s.queue[1..] && s'.sessions == s.sessions && s'.seen == s.seen
  {
    var p := s.queue[0].piece;
    ReturnKeepsAvail(s.m, p);
    MarkKeepsAvail(s.m, p);
  }

  lemma ResultInv(s: State, written: bool, s': State)
    requires AvInv(s) && HandleStep(s, written, s') && (s.queue[0].PieceFailed? || s.queue[0].PieceDownloaded?)
    ensures AvInv(s')
  {
    ResultKeeps(s, written, s');
    PopInv(s, s');
  }

  lemma HandleInv(s: State, written: bool, s': State)
    requires AvInv(s) && M.Inv(s.m) && HandleStep(s, written, s')
    ensures AvInv(s')
  {
    match s.queue[0]
    case RequestWork(_) => RequestInv(s, written, s');
    case PieceFailed(_) => ResultInv(s, written, s');
    case PieceDownloaded(_) => ResultInv(s, written, s');
    case _ => PopInv(s, s');
  }

  /** Steps of one session that tell the coordinator nothing about its pieces. */
  lemma SessionInv(s: State, a: Action, s': State)
    requires AvInv(s) && Step(s, a, s') && (a.Ask? || a.FinishJob? || a.DropJob?)
    ensures AvInv(s')
  {
    match a
    case Ask(sid) => Quiet(s, sid, s'.sessions[sid], RequestWork(sid), s');
    case FinishJob(sid, verified) => Quiet(s, sid, s'.sessions[sid], s'.queue[|s.queue|], s');
    case DropJob(sid, p) =>
      assert s.queue + [] == s.queue;
      NoMsg(s, sid, s'.sessions[sid], s');
  }

  /** Steps of the coordinator that touch neither the counters nor the queue. */
  lemma LocalInv(s: State, a: Action, s': State)
    requires AvInv(s) && Step(s, a, s') && (a.CheckPiece? || a.StartDownload? || a.SetPaused? || a.SetSelection?)
    ensures AvInv(s')
  {
    assert s'.m.avail == s.m.avail && s'.m.total == s.m.total && s'.queue == s.queue && s'.sessions == s.sessions;
  }

  /** Steps by which a session comes, goes or changes what it advertises. */
  lemma PeerInv(s: State, a: Action, s': State)
    requires AvInv(s) && SessionsOk(s) && Step(s, a, s') && |s'.sessions| <= MAX_SESSIONS
    requires a.Join? || a.Leave? || a.End? || a.HaveMsg? || a.BitfieldMsg?
    ensures AvInv(s')
  {
    match a
    case Join(sid) => JoinInv(s, sid, s');
    case Leave(sid) => LeaveInv(s, sid, s');
    case End(sid) => EndInv(s, sid, s');
    case HaveMsg(sid, p) => Tell(s, sid, s'.sessions[sid], PeerHave(sid, p), s');
    case BitfieldMsg(sid, pieces) => BitfieldInv(s, sid, pieces, s');
  }

  lemma StepInv(s: State, a: Action, s': State)
    requires AvInv(s) && BaseInv(s) && Step(s, a, s') && |s'.sessions| <= MAX_SESSIONS
    ensures AvInv(s')
  {
    if a.Join? || a.Leave? || a.End? || a.HaveMsg? || a.BitfieldMsg? {
      PeerInv(s, a, s');
    } else if a.Handle? {
      HandleInv(s, a.written, s');
    } else if a.TakeReply? {
      TakeReplyInv(s, a.sid, a.valid, s');
    } else if a.Ask? || a.FinishJob? || a.DropJob? {
      SessionInv(s, a, s');
    } else {
      LocalInv(s, a, s');
    }
  }

  lemma InitInv(s: State)
    requires Init(s)
    ensures AvInv(s)
  {
    assert forall p :: Viewers(s.seen, p) == {};
  }

  lemma NextInv(s: State, s': State)
    requires AvInv(s) && BaseInv(s) && Next(s, s') && |s'.sessions| <= MAX_SESSIONS
    ensures AvInv(s')
  {
    var a :| Step(s, a, s');
    StepInv(s, a, s');
  }

  lemma {:induction false} RunInv(states: seq<State>, k: nat)
    requires IsRun(states) && k < |states| && forall i :: 0 <= i <= k ==> |states[i].sessions| <= MAX_SESSIONS
    ensures AvInv(states[k])
  {
    if k == 0 {
      InitInv(states[0]);
    } else {
      RunInv(states, k - 1);
      RunBase(states, k - 1);
      NextInv(states[k - 1], states[k]);
    }
  }

  /** The counters once every queued message has been handled. */
  function Drained(avail: seq<nat>, q: seq<Msg>): seq<nat>
    decreases |q|
  {
    if q == [] then avail else Drained(TellAvail(avail, q[0]), q[1..])
  }

  lemma {:induction false} DrainCounts(avail: seq<nat>, seen: map<nat, set<nat>>, q: seq<Msg>,
                                       final: map<nat, set<nat>>)
    requires AvailOk(avail, seen, q)
    requires final.Keys == seen.Keys && forall sid :: sid in seen ==> final[sid] == Replay(seen[sid], q, sid)
    ensures |Drained(avail, q)| == |avail| && Counts(Drained(avail, q), final)
    decreases |q|
  {
    if q == [] {
      assert final == seen;
    } else {
      AvailHead(avail, seen, q);
      DrainCounts(TellAvail(avail, q[0]), TellSeen(seen, q[0]), q[1..], final);
    }
  }

  ghost function Advertisers(s: State, p: nat): set<nat> { set sid | sid in s.sessions && p in s.sessions[sid].have }

  /** In every run, through selection changes too, as long as a 16-bit counter can
      count the sessions: the availability of a piece together with the queued
      updates never under-counts the sessions that advertise it. */
  lemma AvailabilityNeverUndercounts(states: seq<State>, k: nat, p: nat)
    requires IsRun(states) && k < |states| && p < states[k].m.total
    requires forall i :: 0 <= i <= k ==> |states[i].sessions| <= MAX_SESSIONS
    ensures var final := Drained(states[k].m.avail, states[k].queue);
            |final| == states[k].m.total && |Advertisers(states[k], p)| <= final[p] <= M.U16_MAX
  {
    RunInv(states, k);
    var s := states[k];
    var final := map sid | sid in s.sessions :: s.sessions[sid].have;
    DrainCounts(s.m.avail, s.seen, s.queue, final);
    assert Viewers(final, p) == Advertisers(s, p);
  }
}
