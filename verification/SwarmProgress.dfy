/** What the swarm's steps record: which pieces become completed and are
    announced, that they stay so, and who is given work. */
module SwarmProgress {
  import opened Common
  import opened Swarm
  import M = Manager

  /** The pieces an action finishes: the one of a result that was written while
      downloading, or one found intact by the file check. */
  ghost function Finished(s: State, a: Action): set<nat> {
    if && a.Handle? && a.written && s.downloading && s.queue != [] && s.queue[0].PieceDownloaded?
       && s.queue[0].piece < s.m.total
    then {s.queue[0].piece}
    else if a.CheckPiece? then {a.piece}
    else {}
  }

  function Refetched(a: Action): set<nat> { if a.SetSelection? then a.refetch else {} }

  lemma RequestCompletesNothing(s: State, written: bool, s': State)
    requires HandleStep(s, written, s') && s.queue[0].RequestWork?
    ensures s'.m.completed == s.m.completed
  {
    var sid := s.queue[0].sid;
    var m', r :| Answers(s, sid, m', r) && s' == Answered(s, sid, m', r);
    if s.downloading && !s.paused {
      NextWorkKeeps(s.m, s.sessions[sid].have, m', r);
    }
  }

  lemma HandleCompletes(s: State, written: bool, s': State)
    requires HandleStep(s, written, s')
    ensures s'.m.completed == s.m.completed + Finished(s, Handle(written))
  {
    if s.queue[0].RequestWork? {
      RequestCompletesNothing(s, written, s');
    } else if s.queue[0].PieceDownloaded? {
      M.MarkCompletedExact(s.m, s.queue[0].piece);
    }
  }

  lemma NextWorkKeeps(m: M.State, has: set<nat>, m': M.State, r: Option<nat>)
    requires M.NextWork(m, has, m', r)
    ensures m'.completed == m.completed && m'.sel == m.sel && m'.total == m.total
  {
    var c := M.Cleaned(m);
    if M.Assigns(c, has, m', r) {
      var i: nat :| M.Rarest(c, has, i) && r == Some(c.missing[i])
                     && m' == c.(missing := M.RemoveAt(c.missing, i), inProgress := c.inProgress[c.missing[i] := 1]);
    }
  }

  /** Each step changes the completed pieces by exactly what it finishes and what is
      to be fetched again. */
  lemma StepCompletes(s: State, a: Action, s': State)
    requires Step(s, a, s')
    ensures s'.m.completed == s.m.completed + Finished(s, a) - Refetched(a)
  {
    if a.Handle? {
      HandleCompletes(s, a.written, s');
    } else if a.CheckPiece? {
      M.MarkCompletedExact(s.m, a.piece);
    } else if a.SetSelection? {
      M.ApplySelectionExact(s.m, a.sel, a.refetch);
    }
  }

  /** A piece is announced exactly when it is finished, was not completed before it
      was downloaded, and lies in no unselected file. */
  lemma StepAnnounces(s: State, a: Action, s': State)
    requires Step(s, a, s')
    ensures forall p :: p in s'.announced <==>
              || p in s.announced
              || (p in Finished(s, a) && p !in s.m.sel.unservable && (a.CheckPiece? || p !in s.m.completed))
  {
    if a.CheckPiece? {
      M.MarkCompletedExact(s.m, a.piece);
    } else if a.Handle? && s.queue[0].PieceDownloaded? {
      M.MarkCompletedExact(s.m, s.queue[0].piece);
    }
  }

  // ----- over runs -----

  /** A run, from any state on, with the actions that were taken. */
  ghost predicate IsRunBy(states: seq<State>, actions: seq<Action>) {
    && |states| == |actions| + 1
    && forall k, n {:trigger Successive(k, n)} ::
         Successive(k, n) && n < |states| ==> Step(states[k], actions[k], states[n])
  }

  /** Step `k` of a run, from `s` to `s'` by `a`. */
  ghost predicate IsStep(states: seq<State>, actions: seq<Action>, k: nat, s: State, a: Action, s': State) {
    IsRunBy(states, actions) && k < |actions| && states[k] == s && actions[k] == a && states[k + 1] == s'
  }

  lemma StepAt(states: seq<State>, actions: seq<Action>, k: nat, s: State, a: Action, s': State)
    requires IsStep(states, actions, k, s, a, s')
    ensures Step(s, a, s')
  {
    assert Successive(k, k + 1);
  }

  lemma CompletesAt(states: seq<State>, actions: seq<Action>, k: nat, s: State, a: Action, s': State)
    requires IsStep(states, actions, k, s, a, s')
    ensures s'.m.completed == s.m.completed + Finished(s, a) - Refetched(a)
  {
    StepAt(states, actions, k, s, a, s');
    StepCompletes(s, a, s');
  }

  /** A completed piece stays completed until a selection change asks for it again. */
  lemma {:induction false} CompletedStays(states: seq<State>, actions: seq<Action>, i: nat, k: nat, p: nat)
    requires IsRunBy(states, actions) && i <= k < |states| && p in states[i].m.completed
    requires forall n :: i <= n < k ==> p !in Refetched(actions[n])
    ensures p in states[k].m.completed
  {
    if i < k {
      CompletedStays(states, actions, i, k - 1, p);
      CompletesAt(states, actions, k - 1, states[k - 1], actions[k - 1], states[k]);
    }
  }

  /** In every run: a result that is handled and written leaves its piece completed
      from then on, until a selection change asks for it again. */
  lemma DownloadIsRecorded(states: seq<State>, actions: seq<Action>, i: nat, k: nat, p: nat)
    requires IsRunBy(states, actions) && i < k < |states| && actions[i] == Handle(true)
    requires states[i].downloading && states[i].queue != [] && states[i].queue[0] == PieceDownloaded(p)
    requires p < states[i].m.total && forall n :: i < n < k ==> p !in Refetched(actions[n])
    ensures p in states[k].m.completed
  {
    CompletesAt(states, actions, i, states[i], actions[i], states[i + 1]);
    CompletedStays(states, actions, i + 1, k, p);
  }

  // ----- work -----

  /** A work request is answered with nothing while files are checked or the torrent
      is paused, and otherwise by the scheduler's choice for what the peer has. */
  lemma RequestAnswered(s: State, written: bool, s': State, sid: nat)
    requires HandleStep(s, written, s') && s.queue[0] == RequestWork(sid)
    ensures sid in s.sessions && sid in s'.sessions && s'.sessions[sid].reply.Some? && !s'.sessions[sid].asking
    ensures !s.downloading || s.paused ==> s'.sessions[sid].reply == Some(None) && s'.m == s.m
    ensures s.downloading && !s.paused ==>
              M.NextWork(s.m, s.sessions[sid].have, s'.m, s'.sessions[sid].reply.value)
  {
    var m', r :| Answers(s, sid, m', r) && s' == Answered(s, sid, m', r);
  }
}
