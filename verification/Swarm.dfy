/** The coordinator and any number of peer sessions exchanging messages
    (src/core/coordinator.rs, src/net/session.rs): who holds which piece, and
    how many peers advertise it. Runs contain no task abort. Session numbers on
    the peer messages are bookkeeping of the model. */
module Swarm {
  import opened Common
  import M = Manager

  datatype Msg =
    | RequestWork(sid: nat)
    | PieceDownloaded(piece: nat)
    | PieceFailed(piece: nat)
    | PeerBitfield(sid: nat, pieces: set<nat>)
    | PeerHave(sid: nat, piece: nat)
    | PeerGone(sid: nat, pieces: set<nat>)

  /** `reply` is an answer to `RequestWork` that the session has not taken yet. */
  datatype Session = Session(job: Option<nat>, asking: bool, reply: Option<Option<nat>>, have: set<nat>, ended: bool)

  datatype State = State(
    downloading: bool,
    paused: bool,
    m: M.State,
    sessions: map<nat, Session>,
    queue: seq<Msg>,
    announced: set<nat>,          // pieces broadcast as completed so far
    seen: map<nat, set<nat>>,     // each session's have-set as the coordinator has been told
    repeats: multiset<nat>)       // pieces for which a peer has repeated a HAVE, once for each repetition

  /** The session is in its message loop, not waiting for the coordinator. */
  predicate Active(s: State, sid: nat) {
    sid in s.sessions && !s.sessions[sid].ended && !s.sessions[sid].asking && s.sessions[sid].reply.None?
  }

  predicate Mentions(m: Msg, sid: nat) {
    match m
    case RequestWork(t) => t == sid
    case PeerBitfield(t, _) => t == sid
    case PeerHave(t, _) => t == sid
    case PeerGone(t, _) => t == sid
    case _ => false
  }

  datatype Action =
    | Join(sid: nat)
    | Leave(sid: nat)
    | Ask(sid: nat)
    | TakeReply(sid: nat, valid: bool)
    | FinishJob(sid: nat, verified: bool)
    | DropJob(sid: nat, piece: nat)
    | End(sid: nat)
    | HaveMsg(sid: nat, piece: nat)
    | BitfieldMsg(sid: nat, pieces: set<nat>)
    | Handle(written: bool)
    | CheckPiece(piece: nat)
    | StartDownload
    | SetPaused(value: bool)
    | SetSelection(sel: M.Sel, refetch: set<nat>)

  ghost predicate SessionStep(s: State, sid: nat, session: Session, msgs: seq<Msg>, s': State) {
    s' == s.(sessions := s.sessions[sid := session], queue := s.queue + msgs)
  }

  function EndMsgs(sid: nat, x: Session): seq<Msg> {
    (if x.job.Some? then [PieceFailed(x.job.value)] else []) + (if x.have != {} then [PeerGone(sid, x.have)] else [])
  }

  /** The answer to a work request: nothing while checking files or paused. */
  ghost predicate Answers(s: State, sid: nat, m': M.State, r: Option<nat>)
    requires sid in s.sessions
  {
    if s.downloading && !s.paused then M.NextWork(s.m, s.sessions[sid].have, m', r) else m' == s.m && r == None
  }

  function Answered(s: State, sid: nat, m': M.State, r: Option<nat>): State
    requires s.queue != [] && sid in s.sessions
  {
    s.(m := m', queue := s.queue[1..],
       sessions := s.sessions[sid := s.sessions[sid].(asking := false, reply := Some(r))])
  }

  /** One message taken from the coordinator's queue. */
  ghost predicate HandleStep(s: State, written: bool, s': State) {
    && s.queue != []
    && var rest := s.queue[1..];
       match s.queue[0]
       case RequestWork(sid) =>
         sid in s.sessions && exists m', r :: Answers(s, sid, m', r) && s' == Answered(s, sid, m', r)
       case PieceFailed(p) =>
         s' == s.(queue := rest, m := if s.downloading then M.ReturnWork(s.m, p) else s.m)
       case PieceDownloaded(p) =>
         if !s.downloading || p in s.m.completed then s' == s.(queue := rest)
         else if !written then s' == s.(queue := rest, m := M.ReturnWork(s.m, p))
         else
           var m' := M.MarkCompleted(s.m, p);
           s' == s.(queue := rest, m := m', announced := s.announced + if M.IsServable(m', p) then {p} else {})
       case PeerBitfield(_, _) => s' == PeerUpdate(s, rest)
       case PeerHave(_, _) => s' == PeerUpdate(s, rest)
       case PeerGone(_, _) => s' == PeerUpdate(s, rest)
  }

  function PeerUpdate(s: State, rest: seq<Msg>): State
    requires s.queue != []
  {
    s.(queue := rest, m := s.m.(avail := TellAvail(s.m.avail, s.queue[0])), seen := TellSeen(s.seen, s.queue[0]))
  }

  function TellAvail(avail: seq<nat>, msg: Msg): seq<nat> {
    match msg
    case PeerBitfield(_, x) => M.AddAvail(avail, x)
    case PeerHave(_, p) => M.AddAvail(avail, {p})
    case PeerGone(_, x) => M.SubAvail(avail, x)
    case _ => avail
  }

  /** A session's have-set after one more message about it. */
  function TellHave(have: set<nat>, msg: Msg): set<nat> {
    match msg
    case PeerBitfield(_, x) => x
    case PeerHave(_, p) => have + {p}
    case PeerGone(_, _) => {}
    case _ => have
  }

  function TellSeen(seen: map<nat, set<nat>>, msg: Msg): map<nat, set<nat>> {
    if (msg.PeerBitfield? || msg.PeerHave? || msg.PeerGone?) && msg.sid in seen
    then seen[msg.sid := TellHave(seen[msg.sid], msg)] else seen
  }

  ghost predicate Step(s: State, a: Action, s': State) {
    match a
    case Join(sid) =>
      && sid !in s.sessions
      && (forall k :: 0 <= k < |s.queue| ==> !Mentions(s.queue[k], sid))
      && s' == s.(sessions := s.sessions[sid := Session(None, false, None, {}, false)], seen := s.seen[sid := {}])
    case Leave(sid) =>
      && sid in s.sessions && s.sessions[sid].ended && (forall k :: 0 <= k < |s.queue| ==> !Mentions(s.queue[k], sid))
      && s' == s.(sessions := s.sessions - {sid}, seen := s.seen - {sid})
    case Ask(sid) =>
      && Active(s, sid) && s.sessions[sid].job.None?
      && SessionStep(s, sid, s.sessions[sid].(asking := true), [RequestWork(sid)], s')
    case TakeReply(sid, valid) =>
      && sid in s.sessions && s.sessions[sid].reply.Some?
      && var x := s.sessions[sid];
         var got := x.reply.value;
         if got.None? then SessionStep(s, sid, x.(reply := None), [], s')
         else if valid then SessionStep(s, sid, x.(reply := None, job := got), [], s')
         else SessionStep(s, sid, x.(reply := None), [PieceFailed(got.value)], s')
    case FinishJob(sid, verified) =>
      && Active(s, sid) && s.sessions[sid].job.Some?
      && var x := s.sessions[sid];
         var result := if verified then PieceDownloaded(x.job.value) else PieceFailed(x.job.value);
         SessionStep(s, sid, x.(job := None), [result], s')
    case DropJob(sid, p) =>
      && Active(s, sid) && p in s.announced && s.sessions[sid].job == Some(p)
      && SessionStep(s, sid, s.sessions[sid].(job := None), [], s')
    case End(sid) =>
      && Active(s, sid)
      && var x := s.sessions[sid];
         SessionStep(s, sid, x.(job := None, have := {}, ended := true), EndMsgs(sid, x), s')
    case HaveMsg(sid, p) =>
      && Active(s, sid) && p < s.m.total
      && var x := s.sessions[sid];
         s' == s.(sessions := s.sessions[sid := x.(have := x.have + {p})], queue := s.queue + [PeerHave(sid, p)],
                  repeats := if p in x.have then s.repeats + multiset{p} else s.repeats)
    case BitfieldMsg(sid, pieces) =>
      && Active(s, sid)
      && var x := s.sessions[sid];
         SessionStep(s, sid, x.(have := pieces),
                     (if x.have != {} then [PeerGone(sid, x.have)] else []) + [PeerBitfield(sid, pieces)], s')
    case Handle(written) => HandleStep(s, written, s')
    case CheckPiece(p) =>
      && !s.downloading && p < s.m.total
      && var m' := M.MarkCompleted(s.m, p);
         s' == s.(m := m', announced := s.announced + if M.IsServable(m', p) then {p} else {})
    case StartDownload => !s.downloading && s' == s.(downloading := true)
    case SetPaused(value) => s.downloading && s' == s.(paused := value)
    case SetSelection(sel, refetch) => s' == s.(m := M.ApplySelection(s.m, sel, refetch))
  }

  ghost predicate Init(s: State) {
    && (exists total, done, sel :: s.m == M.WithSelection(total, done, sel))
    && s.sessions == map[] && s.seen == map[] && s.queue == [] && s.announced == {} && s.repeats == multiset{}
  }

  ghost predicate Next(s: State, s': State) { exists a :: Step(s, a, s') }

  /** Any run: sessions come and go in any number, and the selection may change. */
  ghost predicate IsRun(states: seq<State>) {
    && |states| > 0 && Init(states[0])
    && forall k, n :: 0 <= k && n == k + 1 && n < |states| ==> Next(states[k], states[n])
  }

  // ----- ownership -----

  predicate Claims(x: Session, p: nat) { x.job == Some(p) || x.reply == Some(Some(p)) }

  ghost function Claimants(sessions: map<nat, Session>, p: nat): set<nat> {
    set sid | sid in sessions && Claims(sessions[sid], p)
  }

  /** Messages in the queue that still speak for a holder of `p`. */
  ghost function Pending(queue: seq<Msg>, p: nat): nat {
    multiset(queue)[PieceFailed(p)] + multiset(queue)[PieceDownloaded(p)]
  }

  function Holders(m: M.State, p: nat): nat { if p in m.inProgress then m.inProgress[p] else 0 }

  ghost predicate SessionsOk(s: State) {
    && (forall sid :: sid in s.sessions ==>
          && (s.sessions[sid].asking || s.sessions[sid].reply.Some? || s.sessions[sid].ended ==>
               s.sessions[sid].job.None?)
          && (s.sessions[sid].ended ==>
               !s.sessions[sid].asking && s.sessions[sid].reply.None? && s.sessions[sid].have == {}))
    && (forall k :: 0 <= k < |s.queue| && s.queue[k].RequestWork? ==>
          s.queue[k].sid in s.sessions && s.sessions[s.queue[k].sid].asking)
    && (forall sid :: sid in s.sessions && s.sessions[sid].asking ==>
          s.sessions[sid].reply.None? && multiset(s.queue)[RequestWork(sid)] == 1)
  }

  ghost predicate OwnershipOk(s: State) {
    && (forall p :: p !in s.m.completed ==> Holders(s.m, p) == |Claimants(s.sessions, p)| + Pending(s.queue, p))
    && (!s.downloading ==> s.m.inProgress == map[])
    && s.announced <= s.m.completed
  }

  ghost predicate OwnInv(s: State) { M.Inv(s.m) && SessionsOk(s) && OwnershipOk(s) }

  lemma ClaimantsUpdate(sessions: map<nat, Session>, sid: nat, x: Session, p: nat)
    requires sid in sessions
    ensures |Claimants(sessions[sid := x], p)|
            == |Claimants(sessions, p)| - (if Claims(sessions[sid], p) then 1 else 0) + (if Claims(x, p) then 1 else 0)
  {
    var a, b := Claimants(sessions, p), Claimants(sessions[sid := x], p);
    var was, now := Claims(sessions[sid], p), Claims(x, p);
    if was && !now {
      assert b == a - {sid};
    } else if now && !was {
      assert b == a + {sid};
    } else {
      assert b == a;
    }
  }

  /** What a session step must balance: claims given up reappear as messages. */
  lemma SessionBalance(s: State, sid: nat, x: Session, msgs: seq<Msg>, s': State)
    requires OwnershipOk(s) && sid in s.sessions
    requires s'.m == s.m && s'.downloading == s.downloading && s'.announced == s.announced
    requires s'.sessions == s.sessions[sid := x] && s'.queue == s.queue + msgs
    requires forall p :: p !in s.m.completed ==>
               (if Claims(s.sessions[sid], p) then 1 else 0) == (if Claims(x, p) then 1 else 0) + Pending(msgs, p)
    ensures OwnershipOk(s')
  {
    forall p | p !in s.m.completed
      ensures Holders(s'.m, p) == |Claimants(s'.sessions, p)| + Pending(s'.queue, p)
    {
      ClaimantsUpdate(s.sessions, sid, x, p);
      assert multiset(s.queue + msgs) == multiset(s.queue) + multiset(msgs);
    }
  }
}
