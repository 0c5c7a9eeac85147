/** What the pipeline's steps record: which pieces become completed and stay so, and
    that a resume record lists exactly what was completed when its save began. */
module PipelineProgress {
  import opened Common
  import opened Fsutil
  import opened Pipeline
  import opened PipelineSafety
  import M = Manager
  import Resume

  // ----- completed pieces -----

  /** The pieces an action finishes: one found intact by the file check, or one written to its end. */
  ghost function Finished(s: State, a: Action): set<nat> {
    if a.CheckPiece? && a.verified && s.checking.Some? then {s.checking.value}
    else if a.EndWrite? && s.pc.Writing? then {s.pc.piece}
    else {}
  }

  function Refetched(a: Action): set<nat> { if a.EndSwitch? then a.refetch else {} }

  /** What a step needs in order to complete no piece out of range. */
  ghost predicate PieceExists(t: Torrent, s: State) {
    && M.Inv(s.m) && s.m.total == Total(t)
    && (s.pc.Writing? ==> s.pc.piece < Total(t))
  }

  lemma SchedulerCompletesNothing(t: Torrent, s: State, op: M.Op, s': State)
    requires M.Inv(s.m) && Step(t, s, SchedulerOp(op), s')
    ensures s'.m.completed == s.m.completed
  {
    SchedulerKeeps(s.m, op, s'.m);
  }

  lemma OtherStepCompletesNothing(t: Torrent, s: State, a: Action, s': State)
    requires M.Inv(s.m) && Step(t, s, a, s') && !a.CheckPiece? && !a.EndWrite? && !a.EndSwitch?
    ensures s'.m.completed == s.m.completed
  {
    if a.SchedulerOp? {
      SchedulerCompletesNothing(t, s, a.op, s');
    } else if a.WriteError? {
      M.ReturnWorkExact(s.m, s.pc.piece);
    }
  }

  lemma SwitchCompletes(t: Torrent, s: State, sel: M.Sel, refetch: set<nat>, s': State)
    requires EndSwitchStep(t, s, sel, refetch, s')
    ensures s'.m.completed == s.m.completed - refetch
  {
    M.ApplySelectionExact(s.m, sel, refetch);
  }

  lemma EndWriteCompletes(t: Torrent, s: State, s': State)
    requires EndWriteStep(t, s, s') && s.pc.piece < s.m.total
    ensures s'.m.completed == s.m.completed + {s.pc.piece}
  {
    M.MarkCompletedExact(s.m, s.pc.piece);
  }

  lemma CheckCompletes(t: Torrent, s: State, verified: bool, s': State)
    requires CheckStep(t, s, verified, s') && s.m.total == Total(t)
    ensures s'.m.completed == s.m.completed + if verified then {s.checking.value} else {}
  {
    M.MarkCompletedExact(s.m, s.checking.value);
  }

  /** Each step changes the completed pieces by exactly what it finishes and what is
      to be fetched again. */
  lemma StepCompletes(t: Torrent, s: State, a: Action, s': State)
    requires PieceExists(t, s) && Step(t, s, a, s')
    ensures s'.m.completed == s.m.completed + Finished(s, a) - Refetched(a)
  {
    if a.CheckPiece? {
      CheckCompletes(t, s, a.verified, s');
    } else if a.EndWrite? {
      EndWriteCompletes(t, s, s');
    } else if a.EndSwitch? {
      SwitchCompletes(t, s, a.sel, a.refetch, s');
    } else {
      OtherStepCompletesNothing(t, s, a, s');
    }
  }

  /** When the last wanted piece is written, its data is flushed and a save follows. */
  lemma DoneIsFlushed(t: Torrent, s: State, s': State)
    requires Inv(t, s) && Step(t, s, EndWrite, s')
    requires forall p :: p in s.m.sel.wanted && p < Total(t) ==> p in s.m.completed || p == s.pc.piece
    ensures s'.pc.Flushing?
  {
    var m' := M.MarkCompleted(s.m, s.pc.piece);
    M.MarkCompletedExact(s.m, s.pc.piece);
    M.MarkCompletedInv(s.m, s.pc.piece);
    M.DoneMeansAllCompleted(m');
  }

  /** A piece whose write failed is queued again once nobody else fetches it. */
  lemma WriteErrorRequeues(t: Torrent, s: State, f: nat, upTo: nat, s': State, p: nat)
    requires Inv(t, s) && Step(t, s, WriteError(f, upTo), s') && s.pc.piece == p
    requires p in s.m.sel.wanted && p !in s.m.completed
    ensures p in s'.m.inProgress <==> p in s.m.inProgress && s.m.inProgress[p] > 1
    ensures p in s'.m.missing <==> p !in s'.m.inProgress
  {
    M.ReturnWorkExact(s.m, p);
    M.ExactlyOnePlace(s.m, p);
  }

  /** A finished selection change queues exactly the wanted pieces that are neither
      completed nor in flight, and is followed by a flush and a save unless files are
      still being checked. */
  lemma SwitchTakesEffect(t: Torrent, s: State, sel: M.Sel, refetch: set<nat>, s': State)
    requires EndSwitchStep(t, s, sel, refetch, s')
    ensures s'.m.sel == sel && (s'.pc.Flushing? <==> s.checking.None?)
    ensures forall p :: p in s'.m.missing <==>
              p < s.m.total && p in sel.wanted && (p !in s.m.completed || p in refetch) && p !in s.m.inProgress
  {
    M.ApplySelectionExact(s.m, sel, refetch);
  }

  // ----- runs with their actions -----

  /** `None` stands for a crash and a restart. */
  ghost predicate Took(t: Torrent, s: State, a: Option<Action>, s': State) {
    if a.None? then Restart(t, s, s') else Step(t, s, a.value, s')
  }

  ghost predicate IsRunBy(t: Torrent, states: seq<State>, actions: seq<Option<Action>>) {
    && |states| == |actions| + 1 && Init(t, states[0])
    && forall k, n {:trigger Successive(k, n)} ::
         Successive(k, n) && n < |states| ==> Took(t, states[k], actions[k], states[n])
  }

  lemma TookNext(t: Torrent, s: State, a: Option<Action>, s': State)
    requires Took(t, s, a, s')
    ensures Next(t, s, s')
  {
  }

  lemma RunByIsRun(t: Torrent, states: seq<State>, actions: seq<Option<Action>>)
    requires IsRunBy(t, states, actions)
    ensures IsRun(t, states)
  {
    forall k, n | 0 <= k && n == k + 1 && n < |states| ensures Next(t, states[k], states[n]) {
      assert Successive(k, n);
      TookNext(t, states[k], actions[k], states[n]);
    }
  }

  /** Every state of a run satisfies the invariant. */
  lemma InvAt(t: Torrent, states: seq<State>, actions: seq<Option<Action>>, k: nat, s: State)
    requires IsRunBy(t, states, actions) && k < |states| && states[k] == s
    ensures Inv(t, s)
  {
    RunByIsRun(t, states, actions);
    RunInv(t, states, k);
  }

  lemma TookAt(t: Torrent, states: seq<State>, actions: seq<Option<Action>>, k: nat)
    requires IsRunBy(t, states, actions) && k < |actions|
    ensures Took(t, states[k], actions[k], states[k + 1])
  {
    assert Successive(k, k + 1);
  }

  lemma TookCompletes(t: Torrent, states: seq<State>, actions: seq<Option<Action>>, k: nat, s: State, a: Action,
                      s': State)
    requires IsRunBy(t, states, actions) && k < |actions|
    requires states[k] == s && actions[k] == Some(a) && states[k + 1] == s'
    ensures s'.m.completed == s.m.completed + Finished(s, a) - Refetched(a)
  {
    TookAt(t, states, actions, k);
    InvAt(t, states, actions, k, s);
    StepCompletes(t, s, a, s');
  }

  /** No crash, and no selection change that asks for `p` again. */
  predicate Undisturbed(a: Option<Action>, p: nat) { a.Some? && p !in Refetched(a.value) }

  /** A completed piece stays completed until a selection change asks for it again. */
  lemma {:induction false} CompletedStays(t: Torrent, states: seq<State>, actions: seq<Option<Action>>, i: nat, k: nat,
                                          p: nat)
    requires IsRunBy(t, states, actions) && i <= k < |states| && p in states[i].m.completed
    requires forall n :: i <= n < k ==> Undisturbed(actions[n], p)
    ensures p in states[k].m.completed
  {
    if i < k {
      CompletedStays(t, states, actions, i, k - 1, p);
      assert Undisturbed(actions[k - 1], p);
      TookCompletes(t, states, actions, k - 1, states[k - 1], actions[k - 1].value, states[k]);
    }
  }

  /** In every run: a piece written to its end is completed from then on, until a
      selection change asks for it again. */
  lemma WriteIsRecorded(t: Torrent, states: seq<State>, actions: seq<Option<Action>>, i: nat, k: nat, p: nat)
    requires IsRunBy(t, states, actions) && i < k < |states| && actions[i] == Some(EndWrite)
    requires states[i].pc.Writing? && states[i].pc.piece == p
    requires forall n :: i < n < k ==> Undisturbed(actions[n], p)
    ensures p in states[k].m.completed
  {
    TookCompletes(t, states, actions, i, states[i], EndWrite, states[i + 1]);
    CompletedStays(t, states, actions, i + 1, k, p);
  }

  // ----- resume records -----

  /** Record `r` tells exactly what was completed, and selected, in `s`. */
  ghost predicate Tells(t: Torrent, s: State, r: Record) {
    && r.flags == s.open && Resume.Decode(r.image).Binary?
    && Resume.Decode(r.image).state.totalPieces == t.pieces
    && forall p :: p in Resume.Decode(r.image).state.completed <==> p in s.m.completed
  }

  /** The record of a save is made from the state in which the save begins, when no
      file is dirty. */
  lemma BeginSaveTells(t: Torrent, s: State, s': State)
    requires Inv(t, s) && Step(t, s, BeginSave, s')
    ensures s'.pc.Saving? && Tells(t, s, s'.pc.record)
  {
    Resume.DecodeImage(t.pieces, s.m.completed);
  }

  /** The save of `r` ends with the rename: `r` joins the history and is what the target shows. */
  ghost predicate Renames(s: State, s': State, r: Record) {
    s.pc.Saving? && s.pc.record == r && s'.saved == s.saved + [r] && Contents(s'.fs, s'.fs.path) == Some(r.image)
  }

  /** A save that is under way keeps its record, and the history grows with a rename alone. */
  ghost predicate SavesOn(s: State, a: Option<Action>, s': State) {
    && (s'.pc.Saving? ==> (s.pc.Saving? && s'.pc.record == s.pc.record) || a == Some(BeginSave))
    && (s'.saved == s.saved || (s.pc.Saving? && Renames(s, s', s.pc.record)))
  }

  lemma SaveEffectSaves(t: Torrent, s: State, s': State)
    requires s.pc.Saving? && PhaseInv(s.fs, s.pc.phase, s.pc.record.image) && SaveEffectStep(t, s, s')
    ensures SavesOn(s, Some(SaveEffect), s')
  {
    var fs', ph' :| (SaveStep(s.fs, s.pc.phase, s.pc.record.image, fs', ph') || FailStep(s.fs, s.pc.phase, fs', ph'))
      && s' == s.(fs := fs',
                  saved := if ph'.Renamed? then s.saved + [s.pc.record] else s.saved,
                  pc := if ph'.Renamed? || ph'.Failed? then Idle else Saving(ph', s.pc.record));
    SaveStepSafe(s.fs, s.pc.phase, s.pc.record.image, fs', ph');
  }

  lemma StepSaves(t: Torrent, s: State, a: Action, s': State)
    requires s.pc.Saving? ==> PhaseInv(s.fs, s.pc.phase, s.pc.record.image)
    requires Step(t, s, a, s')
    ensures SavesOn(s, Some(a), s')
  {
    if a.SaveEffect? {
      SaveEffectSaves(t, s, s');
    }
  }

  lemma TookSaves(t: Torrent, states: seq<State>, actions: seq<Option<Action>>, k: nat, s: State, a: Option<Action>,
                  s': State)
    requires IsRunBy(t, states, actions) && k < |actions|
    requires states[k] == s && actions[k] == a && states[k + 1] == s'
    ensures SavesOn(s, a, s')
    ensures a == Some(BeginSave) ==> s'.pc.Saving? && Tells(t, s, s'.pc.record)
  {
    TookAt(t, states, actions, k);
    if a.Some? {
      InvAt(t, states, actions, k, s);
      StepSaves(t, s, a.value, s');
      if a.value.BeginSave? {
        BeginSaveTells(t, s, s');
      }
    }
  }

  /** The save of `r` was begun in state `i` and is still under way in state `k`. */
  ghost predicate SavingSince(t: Torrent, states: seq<State>, actions: seq<Option<Action>>, i: nat, k: nat, r: Record) {
    && i < k < |states| && i < |actions| && actions[i] == Some(BeginSave) && Tells(t, states[i], r)
    && forall n :: i < n <= k ==> states[n].pc.Saving? && states[n].pc.record == r
  }

  lemma SavingGoesOn(t: Torrent, states: seq<State>, actions: seq<Option<Action>>, i: nat, k: nat, r: Record)
    requires SavingSince(t, states, actions, i, k, r) && k + 1 < |states|
    requires states[k + 1].pc.Saving? && states[k + 1].pc.record == r
    ensures SavingSince(t, states, actions, i, k + 1, r)
  {
  }

  /** A record being saved tells what was completed when its save began. */
  lemma {:induction false} RecordBegun(t: Torrent, states: seq<State>, actions: seq<Option<Action>>, k: nat)
    returns (i: nat)
    requires IsRunBy(t, states, actions) && k < |states| && states[k].pc.Saving?
    ensures SavingSince(t, states, actions, i, k, states[k].pc.record)
  {
    assert k > 0;
    TookSaves(t, states, actions, k - 1, states[k - 1], actions[k - 1], states[k]);
    if actions[k - 1] == Some(BeginSave) {
      i := k - 1;
    } else {
      i := RecordBegun(t, states, actions, k - 1);
      SavingGoesOn(t, states, actions, i, k - 1, states[k].pc.record);
    }
  }

  /** A save of `r` that was begun when exactly the pieces of `r` were completed ended before state `k`. */
  ghost predicate SavedBefore(t: Torrent, states: seq<State>, actions: seq<Option<Action>>, k: nat, r: Record) {
    exists i: nat, m: nat, n: nat ::
      && m < k && n == m + 1 && n < |states|
      && SavingSince(t, states, actions, i, m, r) && Renames(states[m], states[n], r)
  }

  /** Whenever the history grows, the target now shows the record of a save that lists
      exactly what was completed when it began. */
  lemma RenameTells(t: Torrent, states: seq<State>, actions: seq<Option<Action>>, k: nat)
    requires IsRunBy(t, states, actions) && k < |actions| && states[k + 1].saved != states[k].saved
    ensures states[k].pc.Saving? && Renames(states[k], states[k + 1], states[k].pc.record)
    ensures SavedBefore(t, states, actions, k + 1, states[k].pc.record)
  {
    var n := k + 1;
    TookSaves(t, states, actions, k, states[k], actions[k], states[n]);
    var i := RecordBegun(t, states, actions, k);
    var r := states[k].pc.record;
    assert SavingSince(t, states, actions, i, k, r) && Renames(states[k], states[n], r);
  }

  ghost predicate AllSavedBefore(t: Torrent, states: seq<State>, actions: seq<Option<Action>>, k: nat,
                                 saved: seq<Record>, from: nat) {
    forall j :: from <= j < |saved| ==> SavedBefore(t, states, actions, k, saved[j])
  }

  lemma SavedStays(t: Torrent, states: seq<State>, actions: seq<Option<Action>>, k: nat, saved: seq<Record>, from: nat)
    requires AllSavedBefore(t, states, actions, k, saved, from)
    ensures AllSavedBefore(t, states, actions, k + 1, saved, from)
  {
    forall j | from <= j < |saved| ensures SavedBefore(t, states, actions, k + 1, saved[j]) {
      assert SavedBefore(t, states, actions, k, saved[j]);
    }
  }

  lemma SavedGrows(t: Torrent, states: seq<State>, actions: seq<Option<Action>>, k: nat, saved: seq<Record>, from: nat,
                   r: Record, saved': seq<Record>)
    requires AllSavedBefore(t, states, actions, k, saved, from) && SavedBefore(t, states, actions, k, r)
    requires saved' == saved + [r]
    ensures AllSavedBefore(t, states, actions, k, saved', from)
  {
    forall j | from <= j < |saved'| ensures SavedBefore(t, states, actions, k, saved'[j]) {
      if j < |saved| {
        assert SavedBefore(t, states, actions, k, saved[j]);
      }
    }
  }

  /** Every record saved in a run lists exactly the pieces that were completed in the
      state in which its save was begun, with the files selected then. */
  lemma {:induction false} RecordsTellExactly(t: Torrent, states: seq<State>, actions: seq<Option<Action>>, k: nat)
    requires IsRunBy(t, states, actions) && k < |states|
    ensures states[0].saved <= states[k].saved
    ensures AllSavedBefore(t, states, actions, k, states[k].saved, |states[0].saved|)
  {
    if k > 0 {
      RecordsTellExactly(t, states, actions, k - 1);
      RecordsStep(t, states, actions, k - 1, states[0].saved, states[k - 1], states[k]);
    }
  }

  lemma RecordsStep(t: Torrent, states: seq<State>, actions: seq<Option<Action>>, k: nat, first: seq<Record>, s: State,
                    s': State)
    requires IsRunBy(t, states, actions) && k < |actions| && states[k] == s && states[k + 1] == s'
    requires first <= s.saved && AllSavedBefore(t, states, actions, k, s.saved, |first|)
    ensures first <= s'.saved && AllSavedBefore(t, states, actions, k + 1, s'.saved, |first|)
  {
    SavedStays(t, states, actions, k, s.saved, |first|);
    if s'.saved != s.saved {
      RenameTells(t, states, actions, k);
      SavedGrows(t, states, actions, k + 1, s.saved, |first|, s.pc.record, s'.saved);
    }
  }

  /** A restart completes exactly the pieces that the file found lists. */
  lemma RestartRestores(t: Torrent, s: State, s': State)
    requires Inv(t, s) && Restart(t, s, s')
    ensures CrashView(s.fs).None? ==> s'.m.completed == {}
    ensures CrashView(s.fs).Some? ==>
              && Resume.Decode(CrashView(s.fs).value).Binary?
              && forall p :: p in s'.m.completed <==> p in Resume.Decode(CrashView(s.fs).value).state.completed
  {
    var done :| Reopens(t, s, s', done) && Vouched(t, s, s'.open, done);
    var sel :| s'.m == M.WithSelection(Total(t), done, sel);
    M.InitExact(Total(t), done, sel);
    ListedExist(t, s, done);
  }
}
