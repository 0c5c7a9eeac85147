/** From hand-out to completion: a piece given to a session is the one it reports,
    the report reaches the coordinator in its turn, and then the piece is completed. */
module SwarmDelivery {
  import opened Common
  import opened Swarm
  import opened SwarmSessions
  import opened SwarmProgress

  /** Messages handled in the actions from `i` up to `k`. */
  function Handled(actions: seq<Action>, i: nat, k: nat): nat
    requires i <= k <= |actions|
    decreases k
  {
    if i == k then 0 else Handled(actions, i, k - 1) + if actions[k - 1].Handle? then 1 else 0
  }

  /** The queue loses its head when a message is handled, and is only appended to otherwise. */
  lemma QueueMoves(s: State, a: Action, s': State)
    requires Step(s, a, s')
    ensures a.Handle? ==> s.queue != [] && s'.queue == s.queue[1..]
    ensures !a.Handle? ==> s.queue <= s'.queue
  {
  }

  lemma QueueAt(states: seq<State>, actions: seq<Action>, k: nat, s: State, a: Action, s': State)
    requires IsStep(states, actions, k, s, a, s')
    ensures a.Handle? ==> s.queue != [] && s'.queue == s.queue[1..]
    ensures !a.Handle? ==> s.queue <= s'.queue
  {
    StepAt(states, actions, k, s, a, s');
    QueueMoves(s, a, s');
  }

  /** A message moves up by one with each message handled and is never lost before its turn. */
  lemma {:induction false} MessageWaits(states: seq<State>, actions: seq<Action>, i: nat, k: nat, at: nat, msg: Msg)
    requires IsRunBy(states, actions) && i <= k < |states|
    requires at < |states[i].queue| && states[i].queue[at] == msg && Handled(actions, i, k) <= at
    ensures var d := at - Handled(actions, i, k); d < |states[k].queue| && states[k].queue[d] == msg
  {
    if i < k {
      MessageWaits(states, actions, i, k - 1, at, msg);
      QueueAt(states, actions, k - 1, states[k - 1], actions[k - 1], states[k]);
    }
  }

  /** The report of a verified piece is the last message of the queue. */
  lemma ReportQueued(states: seq<State>, actions: seq<Action>, k: nat, s: State, sid: nat, s': State, p: nat)
    requires IsStep(states, actions, k, s, FinishJob(sid, true), s')
    requires sid in s.sessions && s.sessions[sid].job == Some(p)
    ensures s'.queue == s.queue + [PieceDownloaded(p)]
  {
    StepAt(states, actions, k, s, FinishJob(sid, true), s');
  }

  /** In every run: when the coordinator has handled what was queued before a verified
      piece was reported, and then handles the report and writes the piece, the piece
      is completed until a selection change asks for it again. */
  lemma VerifiedIsCompleted(states: seq<State>, actions: seq<Action>, i: nat, k: nat, n: nat, sid: nat, p: nat)
    requires IsRunBy(states, actions) && i < k < n < |states|
    requires actions[i] == FinishJob(sid, true) && sid in states[i].sessions && states[i].sessions[sid].job == Some(p)
    requires Handled(actions, i + 1, k) == |states[i].queue| && actions[k] == Handle(true)
    requires states[k].downloading && p < states[k].m.total
    requires forall j :: k < j < n ==> p !in Refetched(actions[j])
    ensures p in states[n].m.completed
  {
    ReportQueued(states, actions, i, states[i], sid, states[i + 1], p);
    MessageWaits(states, actions, i + 1, k, |states[i].queue|, PieceDownloaded(p));
    DownloadIsRecorded(states, actions, k, n, p);
  }

  // ----- the session's job -----

  predicate EndsJob(a: Action, sid: nat) {
    (a.FinishJob? || a.DropJob? || a.End?) && a.sid == sid
  }

  ghost predicate Works(s: State, sid: nat, p: nat) { sid in s.sessions && s.sessions[sid].job == Some(p) }

  lemma JobKept(s: State, a: Action, s': State, sid: nat, p: nat)
    requires SessionsOk(s) && Step(s, a, s') && Works(s, sid, p) && !EndsJob(a, sid)
    ensures Works(s', sid, p)
  {
  }

  lemma RunByIsRun(states: seq<State>, actions: seq<Action>)
    requires IsRunBy(states, actions) && Init(states[0])
    ensures IsRun(states)
  {
    forall k, n | 0 <= k && n == k + 1 && n < |states| ensures Next(states[k], states[n]) {
      StepAt(states, actions, k, states[k], actions[k], states[n]);
    }
  }

  lemma JobKeptAt(states: seq<State>, actions: seq<Action>, k: nat, s: State, a: Action, s': State, sid: nat, p: nat)
    requires IsStep(states, actions, k, s, a, s') && Init(states[0]) && Works(s, sid, p) && !EndsJob(a, sid)
    ensures Works(s', sid, p)
  {
    RunByIsRun(states, actions);
    RunBase(states, k);
    StepAt(states, actions, k, s, a, s');
    JobKept(s, a, s', sid, p);
  }

  /** A session that takes a valid piece works on that piece until it finishes it,
      hears that it is completed, or ends. */
  lemma {:induction false} JobStays(states: seq<State>, actions: seq<Action>, h: nat, k: nat, sid: nat, p: nat)
    requires IsRunBy(states, actions) && Init(states[0]) && h < k < |states|
    requires actions[h] == TakeReply(sid, true)
    requires sid in states[h].sessions && states[h].sessions[sid].reply == Some(Some(p))
    requires forall j :: h < j < k ==> !EndsJob(actions[j], sid)
    ensures Works(states[k], sid, p)
  {
    if k == h + 1 {
      ReplyTaken(states, actions, h, states[h], sid, states[k], p);
    } else {
      JobStays(states, actions, h, k - 1, sid, p);
      JobKeptAt(states, actions, k - 1, states[k - 1], actions[k - 1], states[k], sid, p);
    }
  }

  lemma ReplyTaken(states: seq<State>, actions: seq<Action>, k: nat, s: State, sid: nat, s': State, p: nat)
    requires IsStep(states, actions, k, s, TakeReply(sid, true), s')
    requires sid in s.sessions && s.sessions[sid].reply == Some(Some(p))
    ensures Works(s', sid, p)
  {
    StepAt(states, actions, k, s, TakeReply(sid, true), s');
  }

  /** In every run: a piece handed to a session that verifies it is completed once the
      session's report had its turn and the piece was written. */
  lemma HandedOutIsCompleted(states: seq<State>, actions: seq<Action>, h: nat, i: nat, k: nat, n: nat, sid: nat, p: nat)
    requires IsRunBy(states, actions) && Init(states[0]) && h < i < k < n < |states|
    requires actions[h] == TakeReply(sid, true)
    requires sid in states[h].sessions && states[h].sessions[sid].reply == Some(Some(p))
    requires actions[i] == FinishJob(sid, true) && forall j :: h < j < i ==> !EndsJob(actions[j], sid)
    requires Handled(actions, i + 1, k) == |states[i].queue| && actions[k] == Handle(true)
    requires states[k].downloading && p < states[k].m.total
    requires forall j :: k < j < n ==> p !in Refetched(actions[j])
    ensures p in states[n].m.completed
  {
    JobStays(states, actions, h, i, sid, p);
    VerifiedIsCompleted(states, actions, i, k, n, sid, p);
  }
}
