/** What every step of the swarm keeps, whatever the selection does: the
    scheduler's invariant, and the bookkeeping of requests and replies. */
module SwarmSessions {
  import opened Common
  import opened Swarm
  import M = Manager

  ghost predicate BaseInv(s: State) { M.Inv(s.m) && SessionsOk(s) }

  lemma HeadOf(queue: seq<Msg>)
    requires queue != []
    ensures multiset(queue) == multiset{queue[0]} + multiset(queue[1..])
  {
    assert queue == [queue[0]] + queue[1..];
  }

  /** A session step that neither asks nor answers keeps the request bookkeeping. */
  lemma SessionsKept(s: State, sid: nat, x: Session, msgs: seq<Msg>, s': State)
    requires SessionsOk(s) && sid in s.sessions
    requires s'.sessions == s.sessions[sid := x] && s'.queue == s.queue + msgs
    requires !s.sessions[sid].asking && !x.asking
    requires x.reply.Some? || x.ended ==> x.job.None?
    requires x.ended ==> x.reply.None? && x.have == {}
    requires forall k :: 0 <= k < |msgs| ==> !msgs[k].RequestWork?
    ensures SessionsOk(s')
  {
    forall t | t in s'.sessions && s'.sessions[t].asking
      ensures multiset(s'.queue)[RequestWork(t)] == 1
    {
      assert multiset(s.queue + msgs) == multiset(s.queue) + multiset(msgs);
      assert RequestWork(t) !in msgs;
      assert RequestWork(t) !in multiset(msgs);
    }
  }

  /** Taking a message that is not a request off the queue. */
  lemma SessionsAfterPop(s: State, s': State)
    requires SessionsOk(s) && s.queue != [] && !s.queue[0].RequestWork?
    requires s'.sessions == s.sessions && s'.queue == s.queue[1..]
    ensures SessionsOk(s')
  {
    HeadOf(s.queue);
  }

  lemma RequestSessions(s: State, sid: nat, r: Option<nat>, s': State)
    requires SessionsOk(s) && s.queue != [] && s.queue[0] == RequestWork(sid) && sid in s.sessions
    requires s'.queue == s.queue[1..]
    requires s'.sessions == s.sessions[sid := s.sessions[sid].(asking := false, reply := Some(r))]
    ensures SessionsOk(s')
  {
    HeadOf(s.queue);
    assert s.sessions[sid].asking;
    assert RequestWork(sid) !in multiset(s'.queue);
    forall k | 0 <= k < |s'.queue| && s'.queue[k].RequestWork?
      ensures s'.queue[k].sid in s'.sessions && s'.sessions[s'.queue[k].sid].asking
    {
      assert s'.queue[k] == s.queue[k + 1];
      assert s'.queue[k] in multiset(s'.queue);
    }
  }

  // ----- requests and replies -----

  lemma AskSessions(s: State, sid: nat, s': State)
    requires SessionsOk(s) && Step(s, Ask(sid), s')
    ensures SessionsOk(s')
  {
    var msgs := [RequestWork(sid)];
    assert multiset(s.queue + msgs) == multiset(s.queue) + multiset(msgs);
    assert RequestWork(sid) !in s.queue;
  }

  lemma LeaveSessions(s: State, sid: nat, s': State)
    requires SessionsOk(s) && Step(s, Leave(sid), s')
    ensures SessionsOk(s')
  {
    forall k | 0 <= k < |s'.queue| && s'.queue[k].RequestWork? ensures s'.queue[k].sid in s'.sessions {
      assert !Mentions(s.queue[k], sid);
    }
  }

  predicate IsSpeech(a: Action) {
    a.TakeReply? || a.FinishJob? || a.DropJob? || a.End? || a.HaveMsg? || a.BitfieldMsg?
  }

  /** Steps of one session that ask for nothing. */
  lemma SpeechSessions(s: State, a: Action, s': State)
    requires SessionsOk(s) && Step(s, a, s') && IsSpeech(a)
    ensures SessionsOk(s')
  {
    var msgs := s'.queue[|s.queue|..];
    assert s'.queue == s.queue + msgs;
    SessionsKept(s, a.sid, s'.sessions[a.sid], msgs, s');
  }

  lemma HandleSessions(s: State, written: bool, s': State)
    requires SessionsOk(s) && HandleStep(s, written, s')
    ensures SessionsOk(s')
  {
    if s.queue[0].RequestWork? {
      var sid := s.queue[0].sid;
      var m', r :| Answers(s, sid, m', r) && s' == Answered(s, sid, m', r);
      RequestSessions(s, sid, r, s');
    } else {
      SessionsAfterPop(s, s');
    }
  }

  lemma StepSessions(s: State, a: Action, s': State)
    requires SessionsOk(s) && Step(s, a, s')
    ensures SessionsOk(s')
  {
    if a.Ask? {
      AskSessions(s, a.sid, s');
    } else if a.Leave? {
      LeaveSessions(s, a.sid, s');
    } else if IsSpeech(a) {
      SpeechSessions(s, a, s');
    } else if a.Handle? {
      HandleSessions(s, a.written, s');
    }
  }

  // ----- the scheduler -----

  lemma TellAvailInv(m: M.State, msg: Msg)
    requires M.Inv(m)
    ensures M.Inv(m.(avail := TellAvail(m.avail, msg)))
  {
  }

  lemma HandleManager(s: State, written: bool, s': State)
    requires M.Inv(s.m) && HandleStep(s, written, s')
    ensures M.Inv(s'.m)
  {
    var msg := s.queue[0];
    if msg.RequestWork? {
      var m', r :| Answers(s, msg.sid, m', r) && s' == Answered(s, msg.sid, m', r);
      if s.downloading && !s.paused {
        M.NextWorkInv(s.m, s.sessions[msg.sid].have, m', r);
      }
    } else if msg.PieceFailed? || msg.PieceDownloaded? {
      M.ReturnWorkInv(s.m, msg.piece);
      M.MarkCompletedInv(s.m, msg.piece);
    } else {
      TellAvailInv(s.m, msg);
    }
  }

  lemma StepManager(s: State, a: Action, s': State)
    requires M.Inv(s.m) && Step(s, a, s')
    ensures M.Inv(s'.m)
  {
    if a.Handle? {
      HandleManager(s, a.written, s');
    } else if a.CheckPiece? {
      M.MarkCompletedInv(s.m, a.piece);
    } else if a.SetSelection? {
      M.ApplySelectionInv(s.m, a.sel, a.refetch);
    } else {
      assert s'.m == s.m;
    }
  }

  // ----- whole runs -----

  lemma NextBase(s: State, s': State)
    requires BaseInv(s) && Next(s, s')
    ensures BaseInv(s')
  {
    var a :| Step(s, a, s');
    StepSessions(s, a, s');
    StepManager(s, a, s');
  }

  lemma InitBase(s: State)
    requires Init(s)
    ensures BaseInv(s)
  {
    var total, done, sel :| s.m == M.WithSelection(total, done, sel);
    M.InitInv(total, done, sel);
  }

  lemma {:induction false} RunBase(states: seq<State>, k: nat)
    requires IsRun(states) && k < |states|
    ensures BaseInv(states[k])
  {
    if k == 0 {
      InitBase(states[0]);
    } else {
      RunBase(states, k - 1);
      NextBase(states[k - 1], states[k]);
    }
  }
}
