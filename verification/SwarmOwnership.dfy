/** Exact ownership accounting: in every run without a selection change, for any
    number of sessions, the holder count of an unfinished piece equals the
    sessions, replies and messages that stand for it. */
module SwarmOwnership {
  import opened Common
  import opened Swarm
  import opened SwarmSessions
  import M = Manager

  lemma AskInv(s: State, sid: nat, s': State)
    requires OwnInv(s) && Step(s, Ask(sid), s')
    ensures OwnInv(s')
  {
    AskSessions(s, sid, s');
    SessionBalance(s, sid, s'.sessions[sid], [RequestWork(sid)], s');
  }

  lemma TakeReplyInv(s: State, sid: nat, valid: bool, s': State)
    requires OwnInv(s) && Step(s, TakeReply(sid, valid), s')
    ensures OwnInv(s')
  {
    var got := s.sessions[sid].reply.value;
    SpeechSessions(s, TakeReply(sid, valid), s');
    SessionBalance(s, sid, s'.sessions[sid], if got.Some? && !valid then [PieceFailed(got.value)] else [], s');
  }

  lemma FinishJobInv(s: State, sid: nat, verified: bool, s': State)
    requires OwnInv(s) && Step(s, FinishJob(sid, verified), s')
    ensures OwnInv(s')
  {
    var p := s.sessions[sid].job.value;
    SpeechSessions(s, FinishJob(sid, verified), s');
    SessionBalance(s, sid, s'.sessions[sid], [if verified then PieceDownloaded(p) else PieceFailed(p)], s');
  }

  lemma DropJobInv(s: State, sid: nat, p: nat, s': State)
    requires OwnInv(s) && Step(s, DropJob(sid, p), s')
    ensures OwnInv(s')
  {
    SpeechSessions(s, DropJob(sid, p), s');
    SessionBalance(s, sid, s'.sessions[sid], [], s');
  }

  lemma EndMsgsSpeak(sid: nat, x: Session, msgs: seq<Msg>)
    requires msgs == EndMsgs(sid, x)
    ensures forall p: nat :: Pending(msgs, p) == if x.job == Some(p) then 1 else 0
  {
    var a: seq<Msg> := if x.job.Some? then [PieceFailed(x.job.value)] else [];
    var b: seq<Msg> := if x.have != {} then [PeerGone(sid, x.have)] else [];
    assert msgs == a + b && multiset(a + b) == multiset(a) + multiset(b);
  }

  lemma EndInv(s: State, sid: nat, s': State)
    requires OwnInv(s) && Step(s, End(sid), s')
    ensures OwnInv(s')
  {
    var x, msgs := s.sessions[sid], EndMsgs(sid, s.sessions[sid]);
    EndMsgsSpeak(sid, x, msgs);
    SpeechSessions(s, End(sid), s');
    SessionBalance(s, sid, s'.sessions[sid], msgs, s');
  }

  lemma HaveInv(s: State, sid: nat, p: nat, s': State)
    requires OwnInv(s) && Step(s, HaveMsg(sid, p), s')
    ensures OwnInv(s')
  {
    SpeechSessions(s, HaveMsg(sid, p), s');
    SessionBalance(s, sid, s'.sessions[sid], [PeerHave(sid, p)], s');
  }

  lemma BitfieldInv(s: State, sid: nat, pieces: set<nat>, s': State)
    requires OwnInv(s) && Step(s, BitfieldMsg(sid, pieces), s')
    ensures OwnInv(s')
  {
    var x := s.sessions[sid];
    var a: seq<Msg> := if x.have != {} then [PeerGone(sid, x.have)] else [];
    var b := [PeerBitfield(sid, pieces)];
    assert multiset(a + b) == multiset(a) + multiset(b);
    SpeechSessions(s, BitfieldMsg(sid, pieces), s');
    SessionBalance(s, sid, s'.sessions[sid], a + b, s');
  }

  lemma JoinInv(s: State, sid: nat, s': State)
    requires OwnInv(s) && Step(s, Join(sid), s')
    ensures OwnInv(s')
  {
    forall p ensures Claimants(s'.sessions, p) == Claimants(s.sessions, p) {
    }
  }

  lemma LeaveInv(s: State, sid: nat, s': State)
    requires OwnInv(s) && Step(s, Leave(sid), s')
    ensures OwnInv(s')
  {
    forall p ensures Claimants(s'.sessions, p) == Claimants(s.sessions, p) {
    }
    LeaveSessions(s, sid, s');
  }

  // ----- the coordinator's side -----

  /** Handing out work adds one holder, of the piece handed out. */
  lemma NextWorkHolders(m: M.State, has: set<nat>, m': M.State, r: Option<nat>)
    requires M.Inv(m) && M.NextWork(m, has, m', r)
    ensures m'.completed == m.completed && m'.avail == m.avail && m'.total == m.total
    ensures forall p: nat :: Holders(m', p) == Holders(m, p) + if r == Some(p) then 1 else 0
    ensures r.Some? ==> r.value !in m.completed
  {
    M.CleanedInv(m);
    var c := M.Cleaned(m);
    if M.Assigns(c, has, m', r) {
      var i: nat :| M.Rarest(c, has, i) && r == Some(c.missing[i])
                     && m' == c.(missing := M.RemoveAt(c.missing, i), inProgress := c.inProgress[c.missing[i] := 1]);
      assert c.missing[i] in c.missing;
    }
  }

  lemma RequestInv(s: State, written: bool, s': State)
    requires OwnInv(s) && HandleStep(s, written, s') && s.queue[0].RequestWork?
    ensures OwnInv(s')
  {
    var sid := s.queue[0].sid;
    var m', r :| Answers(s, sid, m', r) && s' == Answered(s, sid, m', r);
    RequestSessions(s, sid, r, s');
    HeadOf(s.queue);
    if s.downloading && !s.paused {
      M.NextWorkInv(s.m, s.sessions[sid].have, m', r);
      NextWorkHolders(s.m, s.sessions[sid].have, m', r);
    }
    assert s.sessions[sid].asking && s.sessions[sid].job.None? && s.sessions[sid].reply.None?;
    forall p | p !in s'.m.completed
      ensures Holders(s'.m, p) == |Claimants(s'.sessions, p)| + Pending(s'.queue, p)
    {
      ClaimantsUpdate(s.sessions, sid, s'.sessions[sid], p);
      assert !Claims(s.sessions[sid], p);
    }
  }

  lemma ReturnHolders(m: M.State, p: nat)
    requires M.Inv(m)
    ensures M.ReturnWork(m, p).completed == m.completed && M.ReturnWork(m, p).avail == m.avail
    ensures forall q: nat ::
              Holders(M.ReturnWork(m, p), q) == Holders(m, q) - if q == p && Holders(m, p) > 0 then 1 else 0
  {
  }

  lemma FailedInv(s: State, p: nat, s': State)
    requires OwnInv(s) && s.queue != [] && (s.queue[0] == PieceFailed(p) || s.queue[0] == PieceDownloaded(p))
    requires s' == s.(queue := s.queue[1..], m := if s.downloading then M.ReturnWork(s.m, p) else s.m)
    ensures OwnInv(s')
  {
    SessionsAfterPop(s, s');
    HeadOf(s.queue);
    M.ReturnWorkInv(s.m, p);
    ReturnHolders(s.m, p);
    assert Pending(s.queue, p) == Pending(s'.queue, p) + 1;
    assert forall q :: q != p ==> Pending(s.queue, q) == Pending(s'.queue, q);
    if !s.downloading {
      assert Holders(s.m, p) == 0;
    }
  }

  lemma DownloadedInv(s: State, written: bool, s': State)
    requires OwnInv(s) && HandleStep(s, written, s') && s.queue[0].PieceDownloaded?
    ensures OwnInv(s')
  {
    var p := s.queue[0].piece;
    HeadOf(s.queue);
    if s.downloading && p !in s.m.completed && !written {
      FailedInv(s, p, s');
    } else {
      SessionsAfterPop(s, s');
      assert forall q :: q != p ==> Pending(s.queue, q) == Pending(s'.queue, q);
      if s.downloading && p !in s.m.completed {
        HeldIsReal(s, p);
        M.MarkCompletedInv(s.m, p);
      } else if !s.downloading && p !in s.m.completed {
        FailedInv(s, p, s');
      }
    }
  }

  /** A piece with a pending message has a holder, so it is a piece of the torrent. */
  lemma HeldIsReal(s: State, p: nat)
    requires OwnInv(s) && p !in s.m.completed && Pending(s.queue, p) > 0
    ensures p in s.m.inProgress && p < s.m.total
  {
    assert Holders(s.m, p) > 0;
  }

  lemma PeerMsgInv(s: State, written: bool, s': State)
    requires OwnInv(s) && HandleStep(s, written, s')
    requires s.queue[0].PeerBitfield? || s.queue[0].PeerHave? || s.queue[0].PeerGone?
    ensures OwnInv(s')
  {
    SessionsAfterPop(s, s');
    HeadOf(s.queue);
    assert s'.m == s.m.(avail := s'.m.avail);
    assert forall q :: Pending(s.queue, q) == Pending(s'.queue, q);
  }

  lemma CheckInv(s: State, p: nat, s': State)
    requires OwnInv(s) && Step(s, CheckPiece(p), s')
    ensures OwnInv(s')
  {
    M.MarkCompletedInv(s.m, p);
    assert s'.sessions == s.sessions && s'.queue == s.queue;
    assert forall q :: q !in s'.m.completed ==> q !in s.m.completed && Holders(s'.m, q) == Holders(s.m, q);
  }

  lemma HandleInv(s: State, written: bool, s': State)
    requires OwnInv(s) && HandleStep(s, written, s')
    ensures OwnInv(s')
  {
    match s.queue[0]
    case RequestWork(_) => RequestInv(s, written, s');
    case PieceFailed(p) => FailedInv(s, p, s');
    case PieceDownloaded(_) => DownloadedInv(s, written, s');
    case _ => PeerMsgInv(s, written, s');
  }

  lemma StepInv(s: State, a: Action, s': State)
    requires OwnInv(s) && Step(s, a, s') && !a.SetSelection?
    ensures OwnInv(s')
  {
    match a
    case Join(sid) => JoinInv(s, sid, s');
    case Leave(sid) => LeaveInv(s, sid, s');
    case Ask(sid) => AskInv(s, sid, s');
    case TakeReply(sid, valid) => TakeReplyInv(s, sid, valid, s');
    case FinishJob(sid, verified) => FinishJobInv(s, sid, verified, s');
    case DropJob(sid, p) => DropJobInv(s, sid, p, s');
    case End(sid) => EndInv(s, sid, s');
    case HaveMsg(sid, p) => HaveInv(s, sid, p, s');
    case BitfieldMsg(sid, pieces) => BitfieldInv(s, sid, pieces, s');
    case Handle(written) => HandleInv(s, written, s');
    case CheckPiece(p) => CheckInv(s, p, s');
    case StartDownload =>
    case SetPaused(_) =>
  }

  ghost predicate NextFixed(s: State, s': State) { exists a :: Step(s, a, s') && !a.SetSelection? }

  /** A run in which the selection does not change. */
  ghost predicate IsFixedRun(states: seq<State>) {
    && |states| > 0 && Init(states[0])
    && forall k, n :: 0 <= k && n == k + 1 && n < |states| ==> NextFixed(states[k], states[n])
  }

  lemma NextInv(s: State, s': State)
    requires OwnInv(s) && NextFixed(s, s')
    ensures OwnInv(s')
  {
    var a :| Step(s, a, s') && !a.SetSelection?;
    StepInv(s, a, s');
  }

  lemma InitInv(s: State)
    requires Init(s)
    ensures OwnInv(s)
  {
    InitBase(s);
    assert forall p :: Claimants(s.sessions, p) == {};
  }

  lemma {:induction false} RunInv(states: seq<State>, k: nat)
    requires IsFixedRun(states) && k < |states|
    ensures OwnInv(states[k])
  {
    if k == 0 {
      InitInv(states[0]);
    } else {
      RunInv(states, k - 1);
      NextInv(states[k - 1], states[k]);
    }
  }

  ghost function JobsOn(s: State, p: nat): set<nat> {
    set sid | sid in s.sessions && s.sessions[sid].job == Some(p)
  }

  ghost function RepliesOf(s: State, p: nat): set<nat> {
    set sid | sid in s.sessions && s.sessions[sid].reply == Some(Some(p))
  }

  lemma ClaimsAreJobsAndReplies(s: State, p: nat)
    requires OwnInv(s)
    ensures |Claimants(s.sessions, p)| == |JobsOn(s, p)| + |RepliesOf(s, p)|
  {
    assert Claimants(s.sessions, p) == JobsOn(s, p) + RepliesOf(s, p);
    assert JobsOn(s, p) !! RepliesOf(s, p);
  }

  /** Exact ownership. In every state of such a run, whatever the number of
      sessions, the scheduler's holder count of an unfinished piece is the number
      of sessions working on it, plus replies on their way to a session, plus
      results on their way back; it never exceeds three; and a wanted piece that
      nobody holds is queued. */
  lemma ExactOwnership(states: seq<State>, k: nat, p: nat)
    requires IsFixedRun(states) && k < |states| && p !in states[k].m.completed
    ensures Holders(states[k].m, p)
            == |JobsOn(states[k], p)| + |RepliesOf(states[k], p)| + Pending(states[k].queue, p) <= M.MAX_ENDGAME_HOLDERS
    ensures p in states[k].m.sel.wanted && p < states[k].m.total ==>
              (p in states[k].m.missing <==> Holders(states[k].m, p) == 0)
  {
    RunInv(states, k);
    ClaimsAreJobsAndReplies(states[k], p);
  }

  /** Once every session has ended and the queue is empty, no piece is held and
      every wanted unfinished piece can be handed out again. */
  lemma NothingIsOrphaned(states: seq<State>, k: nat, p: nat)
    requires IsFixedRun(states) && k < |states|
    requires states[k].sessions == map[] && states[k].queue == []
    requires p in states[k].m.sel.wanted && p < states[k].m.total && p !in states[k].m.completed
    ensures p in states[k].m.missing
  {
    ExactOwnership(states, k, p);
    assert JobsOn(states[k], p) == {} && RepliesOf(states[k], p) == {};
  }
}
