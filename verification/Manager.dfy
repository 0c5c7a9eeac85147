/** The piece scheduler (src/core/manager.rs). `State` and its transitions are
    the specification; the class below carries the program's own fields and is
    proved against them. Peer and selection bitfields appear as the sets of
    their members, which is what `Bitfields.Has` decides. */
module Manager {
  import opened Common

  const MAX_ENDGAME_HOLDERS: nat := 3
  const U16_MAX: nat := 65535

  datatype Sel = Sel(wanted: set<nat>, unservable: set<nat>)

  datatype State = State(
    total: nat,
    missing: seq<nat>,
    inProgress: map<nat, nat>,
    completed: set<nat>,
    avail: seq<nat>,
    dirty: bool,
    sel: Sel,
    wantedTotal: nat,
    wantedCompleted: nat)

  /** Pieces of `s` that exist in a torrent of `total` pieces. */
  function Existing(s: set<nat>, total: nat): set<nat> { set p | p in s && p < total }

  predicate IsServable(m: State, p: nat) { p in m.completed && p !in m.sel.unservable }

  predicate IsDone(m: State) { m.wantedCompleted == m.wantedTotal }

  // ----- the scheduler invariant -----

  ghost predicate Distinct(s: seq<nat>) {
    forall i, j :: 0 <= i < j < |s| ==> s[i] != s[j]
  }

  ghost predicate QueueOk(m: State) {
    && Distinct(m.missing)
    && (forall p :: p in m.missing ==> p < m.total && p in m.sel.wanted && p !in m.inProgress)
    && (!m.dirty ==> forall p :: p in m.missing ==> p !in m.completed)
  }

  ghost predicate HoldersOk(m: State) {
    forall p :: p in m.inProgress ==>
      p < m.total && p !in m.completed && 1 <= m.inProgress[p] <= MAX_ENDGAME_HOLDERS
  }

  /** No wanted piece is lost: it is done, queued or in flight. */
  ghost predicate Covered(m: State) {
    forall p :: p in m.sel.wanted && p < m.total && p !in m.completed ==> p in m.missing || p in m.inProgress
  }

  ghost predicate CountersOk(m: State) {
    && m.wantedTotal == |Existing(m.sel.wanted, m.total)|
    && m.wantedCompleted == |m.completed * m.sel.wanted|
  }

  ghost predicate Inv(m: State) {
    && QueueOk(m) && HoldersOk(m) && Covered(m) && CountersOk(m)
    && (forall p :: p in m.completed ==> p < m.total)
    && |m.avail| == m.total
    && (forall i :: 0 <= i < |m.avail| ==> m.avail[i] <= U16_MAX)
  }

  lemma {:induction false} SubsetSize(a: set<nat>, b: set<nat>)
    requires a <= b
    ensures |a| <= |b| && (|a| == |b| ==> a == b)
  {
    if a != {} {
      var x :| x in a;
      SubsetSize(a - {x}, b - {x});
    }
  }

  /** `is_done` compares two counters; it holds exactly when nothing wanted is left. */
  lemma DoneMeansAllCompleted(m: State)
    requires Inv(m)
    ensures IsDone(m) <==> forall p :: p in m.sel.wanted && p < m.total ==> p in m.completed
    ensures m.wantedCompleted <= m.wantedTotal
  {
    var want, done := Existing(m.sel.wanted, m.total), m.completed * m.sel.wanted;
    SubsetSize(done, want);
    if IsDone(m) {
      forall p | p in m.sel.wanted && p < m.total ensures p in m.completed {
        assert p in want;
      }
    }
    if forall p :: p in m.sel.wanted && p < m.total ==> p in m.completed {
      assert done == want;
    }
  }

  /** Each wanted unfinished piece sits in exactly one place, the queue holding it once. */
  lemma ExactlyOnePlace(m: State, p: nat)
    requires Inv(m) && p in m.sel.wanted && p < m.total && p !in m.completed
    ensures (p in m.missing) != (p in m.inProgress)
    ensures forall i, j :: 0 <= i < |m.missing| && 0 <= j < |m.missing| && m.missing[i] == p && m.missing[j] == p ==>
              i == j
  {
  }

  // ----- transitions -----

  /** `missing.retain(|p| !completed.contains(p))` */
  function Retain(missing: seq<nat>, completed: set<nat>): (r: seq<nat>)
    ensures forall p :: p in r <==> p in missing && p !in completed
  {
    if |missing| == 0 then []
    else
      var front := Retain(missing[..|missing| - 1], completed);
      var last := missing[|missing| - 1];
      assert missing == missing[..|missing| - 1] + [last];
      if last in completed then front else front + [last]
  }

  lemma {:induction false} RetainDistinct(missing: seq<nat>, completed: set<nat>)
    requires Distinct(missing)
    ensures Distinct(Retain(missing, completed))
  {
    if |missing| > 0 {
      var init := missing[..|missing| - 1];
      RetainDistinct(init, completed);
      assert missing[|missing| - 1] !in init;
    }
  }

  function Cleaned(m: State): State {
    if m.dirty then m.(missing := Retain(m.missing, m.completed), dirty := false) else m
  }

  function RemoveAt(s: seq<nat>, i: nat): seq<nat>
    requires i < |s|
  {
    s[..i] + s[i + 1..]
  }

  /** A queued piece the peer has, rarest among those. */
  ghost predicate Rarest(m: State, has: set<nat>, i: nat) {
    && i < |m.missing| && m.missing[i] in has && m.missing[i] < |m.avail|
    && forall q :: q in m.missing && q in has && q < |m.avail| ==> m.avail[m.missing[i]] <= m.avail[q]
  }

  predicate Shareable(m: State, has: set<nat>, p: nat) {
    p in m.inProgress && m.inProgress[p] < MAX_ENDGAME_HOLDERS && p in has
  }

  /** A piece in flight that another peer may join: fewest holders, then lowest index. */
  ghost predicate BestShared(m: State, has: set<nat>, p: nat) {
    && Shareable(m, has, p)
    && forall q :: Shareable(m, has, q) ==>
         m.inProgress[p] < m.inProgress[q] || (m.inProgress[p] == m.inProgress[q] && p <= q)
  }

  /** A queued piece is handed out. */
  ghost predicate Assigns(c: State, has: set<nat>, m': State, r: Option<nat>) {
    exists i: nat :: Rarest(c, has, i) && r == Some(c.missing[i])
      && m' == c.(missing := RemoveAt(c.missing, i), inProgress := c.inProgress[c.missing[i] := 1])
  }

  /** Endgame: nothing is queued, so one more peer joins a piece in flight. */
  ghost predicate Shares(c: State, has: set<nat>, m': State, r: Option<nat>) {
    && c.missing == [] && r.Some? && BestShared(c, has, r.value)
    && m' == c.(inProgress := c.inProgress[r.value := c.inProgress[r.value] + 1])
  }

  ghost predicate Idles(c: State, has: set<nat>, m': State, r: Option<nat>) {
    && r == None && m' == c
    && (forall p :: p in c.missing ==> p !in has)
    && (c.missing == [] ==> forall p :: !Shareable(c, has, p))
  }

  /** `next_work_for`, for every outcome of the random tie-break. */
  ghost predicate NextWork(m: State, has: set<nat>, m': State, r: Option<nat>) {
    var c := Cleaned(m);
    Assigns(c, has, m', r) || Shares(c, has, m', r) || Idles(c, has, m', r)
  }

  function ReturnWork(m: State, p: nat): State {
    if p !in m.inProgress then m
    else if m.inProgress[p] != 1 then
      m.(inProgress := m.inProgress[p := if m.inProgress[p] == 0 then 0 else m.inProgress[p] - 1])
    else
      var rest := m.inProgress - {p};
      if p !in m.completed && p in m.sel.wanted then m.(inProgress := rest, missing := m.missing + [p])
      else m.(inProgress := rest)
  }

  function MarkCompleted(m: State, p: nat): State {
    if p >= m.total then m
    else
      var rest := m.inProgress - {p};
      if p in m.completed then m.(inProgress := rest)
      else m.(inProgress := rest, completed := m.completed + {p}, dirty := true,
              wantedCompleted := m.wantedCompleted + if p in m.sel.wanted then 1 else 0)
  }

  /** Indices below `n` that are wanted, not completed and not busy, in order. */
  function Unassigned(n: nat, wanted: set<nat>, completed: set<nat>, busy: set<nat>): (r: seq<nat>)
    ensures forall p :: p in r <==> p < n && p in wanted && p !in completed && p !in busy
  {
    if n == 0 then []
    else
      var front := Unassigned(n - 1, wanted, completed, busy);
      if n - 1 in wanted && n - 1 !in completed && n - 1 !in busy then front + [n - 1] else front
  }

  lemma {:induction false} UnassignedDistinct(n: nat, wanted: set<nat>, completed: set<nat>, busy: set<nat>)
    ensures Distinct(Unassigned(n, wanted, completed, busy))
  {
    if n > 0 {
      UnassignedDistinct(n - 1, wanted, completed, busy);
      var front := Unassigned(n - 1, wanted, completed, busy);
      assert n - 1 !in front;
    }
  }

  function WithSelection(total: nat, completedPieces: set<nat>, sel: Sel): State {
    var completed := Existing(completedPieces, total);
    State(total, Unassigned(total, sel.wanted, completed, {}), map[], completed, seq(total, i => 0), false, sel,
          |Existing(sel.wanted, total)|, |completed * sel.wanted|)
  }

  function ApplySelection(m: State, sel: Sel, refetch: set<nat>): State {
    var completed := m.completed - refetch;
    m.(completed := completed, sel := sel,
       wantedTotal := |Existing(sel.wanted, m.total)|, wantedCompleted := |completed * sel.wanted|,
       missing := Unassigned(m.total, sel.wanted, completed, m.inProgress.Keys), dirty := false)
  }

  function SatAdd(a: nat): nat { if a >= U16_MAX then U16_MAX else a + 1 }
  function SatSub(a: nat): nat { if a == 0 then 0 else a - 1 }

  function AddAvail(avail: seq<nat>, pieces: set<nat>): (r: seq<nat>)
    ensures |r| == |avail|
  {
    seq(|avail|, i requires 0 <= i < |avail| => if i in pieces then SatAdd(avail[i]) else avail[i])
  }

  function SubAvail(avail: seq<nat>, pieces: set<nat>): (r: seq<nat>)
    ensures |r| == |avail|
  {
    seq(|avail|, i requires 0 <= i < |avail| => if i in pieces then SatSub(avail[i]) else avail[i])
  }

  // ----- every operation keeps the invariant -----

  lemma InitInv(total: nat, completedPieces: set<nat>, sel: Sel)
    ensures Inv(WithSelection(total, completedPieces, sel))
  {
    UnassignedDistinct(total, sel.wanted, Existing(completedPieces, total), {});
  }

  lemma CleanedInv(m: State)
    requires Inv(m)
    ensures Inv(Cleaned(m)) && !Cleaned(m).dirty
  {
    RetainDistinct(m.missing, m.completed);
  }

  lemma RemoveAtMembers(s: seq<nat>, i: nat)
    requires Distinct(s) && i < |s|
    ensures Distinct(RemoveAt(s, i))
    ensures forall p :: p in RemoveAt(s, i) <==> p in s && p != s[i]
  {
    var r := RemoveAt(s, i);
    forall p | p in s && p != s[i] ensures p in r {
      var j :| 0 <= j < |s| && s[j] == p;
      assert r[if j < i then j else j - 1] == p;
    }
  }

  lemma AssignInv(m: State, i: nat)
    requires Inv(m) && !m.dirty && i < |m.missing|
    ensures Inv(m.(missing := RemoveAt(m.missing, i), inProgress := m.inProgress[m.missing[i] := 1]))
  {
    RemoveAtMembers(m.missing, i);
    assert m.missing[i] in m.missing;
  }

  lemma ShareInv(m: State, p: nat)
    requires Inv(m) && p in m.inProgress && m.inProgress[p] < MAX_ENDGAME_HOLDERS
    ensures Inv(m.(inProgress := m.inProgress[p := m.inProgress[p] + 1]))
  {
    var m' := m.(inProgress := m.inProgress[p := m.inProgress[p] + 1]);
    assert m'.inProgress.Keys == m.inProgress.Keys;
  }

  lemma NextWorkInv(m: State, has: set<nat>, m': State, r: Option<nat>)
    requires Inv(m) && NextWork(m, has, m', r)
    ensures Inv(m')
  {
    CleanedInv(m);
    var c := Cleaned(m);
    if Assigns(c, has, m', r) {
      var i: nat :| Rarest(c, has, i) && r == Some(c.missing[i])
                     && m' == c.(missing := RemoveAt(c.missing, i), inProgress := c.inProgress[c.missing[i] := 1]);
      AssignInv(c, i);
    } else if Shares(c, has, m', r) {
      ShareInv(c, r.value);
    }
  }

  /** What a peer is given: a piece it has and that is not done, the rarest one
      queued for it; a shared one only when the queue is empty, and then the one
      with fewest holders, the lowest index first. */
  lemma WorkIsUseful(m: State, has: set<nat>, m': State, r: Option<nat>)
    requires Inv(m) && NextWork(m, has, m', r) && r.Some?
    ensures r.value in has && r.value !in m.completed && r.value < m.total
    ensures r.value in m'.inProgress && m'.inProgress[r.value] <= MAX_ENDGAME_HOLDERS
    ensures var queue := Cleaned(m).missing;
            if r.value in queue
            then forall q :: q in queue && q in has ==> m.avail[r.value] <= m.avail[q]
            else queue == [] && BestShared(m, has, r.value)
  {
    CleanedInv(m);
    var c := Cleaned(m);
    if Assigns(c, has, m', r) {
      var i: nat :| Rarest(c, has, i) && r == Some(c.missing[i])
                     && m' == c.(missing := RemoveAt(c.missing, i), inProgress := c.inProgress[c.missing[i] := 1]);
      assert c.missing[i] in c.missing;
    }
  }

  /** A peer is sent away only if each wanted unfinished piece it has is in
      flight already, and is at the sharing limit unless the queue is nonempty. */
  lemma NoWorkMeansNothingToDo(m: State, has: set<nat>, m': State, q: nat)
    requires Inv(m) && NextWork(m, has, m', None)
    requires q in has && q in m.sel.wanted && q < m.total && q !in m.completed
    ensures q in m.inProgress
    ensures Cleaned(m).missing != [] || m.inProgress[q] == MAX_ENDGAME_HOLDERS
  {
    CleanedInv(m);
    var c := Cleaned(m);
    assert Idles(c, has, m', None);
    assert q !in c.missing;
    if c.missing == [] {
      assert !Shareable(c, has, q);
    }
  }

  /** The last holder gives up. */
  lemma LastHolderInv(m: State, p: nat)
    requires Inv(m) && p in m.inProgress && m.inProgress[p] == 1
    ensures Inv(ReturnWork(m, p))
  {
    assert p !in m.missing;
  }

  lemma ReturnWorkInv(m: State, p: nat)
    requires Inv(m)
    ensures Inv(ReturnWork(m, p))
  {
    if p in m.inProgress && m.inProgress[p] == 1 {
      LastHolderInv(m, p);
    }
  }

  lemma MarkCompletedInv(m: State, p: nat)
    requires Inv(m)
    ensures Inv(MarkCompleted(m, p))
  {
    var m' := MarkCompleted(m, p);
    if p < m.total && p !in m.completed {
      if p in m.sel.wanted {
        assert m'.completed * m.sel.wanted == m.completed * m.sel.wanted + {p};
      } else {
        assert m'.completed * m.sel.wanted == m.completed * m.sel.wanted;
      }
    }
  }

  lemma ApplySelectionInv(m: State, sel: Sel, refetch: set<nat>)
    requires Inv(m)
    ensures Inv(ApplySelection(m, sel, refetch))
  {
    UnassignedDistinct(m.total, sel.wanted, m.completed - refetch, m.inProgress.Keys);
  }

  // ----- what each operation records -----

  ghost predicate Ascending(s: seq<nat>) { forall i, j :: 0 <= i < j < |s| ==> s[i] < s[j] }

  /** Piece `q` is held as before. */
  ghost predicate SameHolders(m: State, m': State, q: nat) {
    (q in m'.inProgress <==> q in m.inProgress) && (q in m.inProgress ==> m'.inProgress[q] == m.inProgress[q])
  }

  /** Completing a piece of the torrent adds exactly that piece to the completed
      ones, frees it, and counts it once if it is wanted; all else stays. */
  lemma MarkCompletedExact(m: State, p: nat)
    ensures p >= m.total ==> MarkCompleted(m, p) == m
    ensures p < m.total ==>
              var m' := MarkCompleted(m, p);
              && m'.completed == m.completed + {p} && p !in m'.inProgress
              && (forall q :: q != p ==> SameHolders(m, m', q))
              && m'.wantedCompleted == m.wantedCompleted + (if p in m.sel.wanted && p !in m.completed then 1 else 0)
              && m'.missing == m.missing && m'.avail == m.avail && m'.sel == m.sel
              && m'.total == m.total && m'.wantedTotal == m.wantedTotal
  {
  }

  /** A selection change keeps exactly the completed pieces that are not fetched
      again, and the pieces in flight; queued are, in order, the wanted others. */
  lemma ApplySelectionExact(m: State, sel: Sel, refetch: set<nat>)
    ensures var m' := ApplySelection(m, sel, refetch);
            && m'.completed == m.completed - refetch && m'.inProgress == m.inProgress && m'.avail == m.avail
            && m'.sel == sel && m'.total == m.total
            && (forall p :: p in m'.missing <==>
                  p < m.total && p in sel.wanted && p !in m'.completed && p !in m.inProgress)
            && Ascending(m'.missing)
  {
    UnassignedAscends(m.total, sel.wanted, m.completed - refetch, m.inProgress.Keys);
  }

  /** The scheduler starts with the given pieces that exist, nothing in flight, and
      the wanted others queued in order. */
  lemma InitExact(total: nat, completedPieces: set<nat>, sel: Sel)
    ensures var m := WithSelection(total, completedPieces, sel);
            && (forall p :: p in m.completed <==> p in completedPieces && p < total)
            && m.inProgress == map[] && (forall i :: 0 <= i < |m.avail| ==> m.avail[i] == 0) && m.sel == sel
            && (forall p :: p in m.missing <==> p < total && p in sel.wanted && p !in completedPieces)
            && Ascending(m.missing)
  {
    UnassignedAscends(total, sel.wanted, Existing(completedPieces, total), {});
  }

  lemma {:induction false} UnassignedAscends(n: nat, wanted: set<nat>, completed: set<nat>, busy: set<nat>)
    ensures Ascending(Unassigned(n, wanted, completed, busy))
  {
    if n > 0 {
      UnassignedAscends(n - 1, wanted, completed, busy);
      var front, all := Unassigned(n - 1, wanted, completed, busy), Unassigned(n, wanted, completed, busy);
      forall i, j | 0 <= i < j < |all| ensures all[i] < all[j] {
        assert front[i] in front;
      }
    }
  }

  /** Giving work back takes one holder away; the last one puts an unfinished piece
      that is still wanted at the end of the queue. */
  lemma ReturnWorkExact(m: State, p: nat)
    requires Inv(m)
    ensures var m' := ReturnWork(m, p);
            && m'.completed == m.completed && m'.sel == m.sel && m'.avail == m.avail
            && m'.wantedCompleted == m.wantedCompleted
            && (forall q :: q != p ==> SameHolders(m, m', q))
            && (p in m'.inProgress <==> p in m.inProgress && m.inProgress[p] > 1)
            && (p in m'.inProgress ==> m'.inProgress[p] == m.inProgress[p] - 1)
            && m'.missing
               == m.missing + (if p in m.inProgress && m.inProgress[p] == 1 && p in m.sel.wanted then [p] else [])
  {
    assert m.missing + [] == m.missing;
  }

  datatype Op =
    | NextWorkOp(has: set<nat>)
    | ReturnWorkOp(piece: nat)
    | MarkCompletedOp(piece: nat)
    | ApplySelectionOp(sel: Sel, refetch: set<nat>)
    | AddPiecesOp(pieces: set<nat>)
    | RemovePiecesOp(pieces: set<nat>)

  ghost predicate Step(m: State, op: Op, m': State) {
    match op
    case NextWorkOp(has) => exists r :: NextWork(m, has, m', r)
    case ReturnWorkOp(p) => m' == ReturnWork(m, p)
    case MarkCompletedOp(p) => m' == MarkCompleted(m, p)
    case ApplySelectionOp(sel, refetch) => m' == ApplySelection(m, sel, refetch)
    case AddPiecesOp(pieces) => m' == m.(avail := AddAvail(m.avail, pieces))
    case RemovePiecesOp(pieces) => m' == m.(avail := SubAvail(m.avail, pieces))
  }

  lemma StepInv(m: State, op: Op, m': State)
    requires Inv(m) && Step(m, op, m')
    ensures Inv(m')
  {
    match op
    case NextWorkOp(has) =>
      var r :| NextWork(m, has, m', r);
      NextWorkInv(m, has, m', r);
    case ReturnWorkOp(p) => ReturnWorkInv(m, p);
    case MarkCompletedOp(p) => MarkCompletedInv(m, p);
    case ApplySelectionOp(sel, refetch) => ApplySelectionInv(m, sel, refetch);
    case AddPiecesOp(pieces) =>
    case RemovePiecesOp(pieces) =>
  }

  ghost predicate IsRun(states: seq<State>, ops: seq<Op>) {
    && |states| == |ops| + 1
    && forall k, n :: 0 <= k < |ops| && n == k + 1 ==> Step(states[k], ops[k], states[n])
  }

  /** The scheduler invariant holds after every sequence of operations, selection changes included. */
  lemma {:induction false} RunInv(states: seq<State>, ops: seq<Op>, total: nat, completedPieces: set<nat>, sel: Sel,
                                  k: nat)
    requires IsRun(states, ops) && states[0] == WithSelection(total, completedPieces, sel)
    requires k < |states|
    ensures Inv(states[k])
    ensures IsDone(states[k])
            <==> forall p :: p in states[k].sel.wanted && p < states[k].total ==> p in states[k].completed
  {
    if k == 0 {
      InitInv(total, completedPieces, sel);
    } else {
      RunInv(states, ops, total, completedPieces, sel, k - 1);
      StepInv(states[k - 1], ops[k - 1], states[k]);
    }
    DoneMeansAllCompleted(states[k]);
  }

  // ----- the program's own form -----

  method CountBelow(n: nat, s: set<nat>) returns (c: nat)
    ensures c == |Existing(s, n)|
  {
    c := 0;
    assert Existing(s, 0) == {};
    for p := 0 to n
      invariant c == |Existing(s, p)|
    {
      if p in s {
        c := c + 1;
        assert Existing(s, p + 1) == Existing(s, p) + {p};
      } else {
        assert Existing(s, p + 1) == Existing(s, p);
      }
    }
  }

  method CountCommon(a: set<nat>, b: set<nat>) returns (c: nat)
    ensures c == |a * b|
  {
    c := 0;
    var rest := a;
    assert (a - rest) * b == {};
    while rest != {}
      invariant rest <= a && c == |(a - rest) * b|
      decreases |rest|
    {
      var p :| p in rest;
      ghost var before := (a - rest) * b;
      rest := rest - {p};
      if p in b {
        c := c + 1;
        assert (a - rest) * b == before + {p};
      } else {
        assert (a - rest) * b == before;
      }
    }
    assert (a - rest) * b == a * b;
  }

  class TorrentManager {
    const total: nat
    var missing: seq<nat>
    var inProgress: map<nat, nat>
    var completed: set<nat>
    var availability: seq<nat>
    var missingDirty: bool
    var selection: Sel
    var wantedTotal: nat
    var wantedCompleted: nat

    function View(): State
      reads this
    {
      State(total, missing, inProgress, completed, availability, missingDirty, selection, wantedTotal, wantedCompleted)
    }

    constructor (total: nat, completedPieces: set<nat>, sel: Sel)
      ensures View() == WithSelection(total, completedPieces, sel)
    {
      var done := Existing(completedPieces, total);
      var wt := CountBelow(total, sel.wanted);
      var wc := CountCommon(done, sel.wanted);
      this.total := total;
      missing := Unassigned(total, sel.wanted, done, {});
      inProgress := map[];
      completed := done;
      availability := seq(total, i => 0);
      missingDirty := false;
      selection := sel;
      wantedTotal, wantedCompleted := wt, wc;
    }

    method NextWorkFor(has: set<nat>) returns (r: Option<nat>)
      requires Inv(View())
      modifies this
      ensures NextWork(old(View()), has, View(), r) && Inv(View())
    {
      ghost var before := View();
      CleanedInv(before);
      if missingDirty {
        missing := Retain(missing, completed);
        missingDirty := false;
      }
      ghost var c := View();
      assert c == Cleaned(before);
      assert forall k :: 0 <= k < |c.missing| ==> c.missing[k] in c.missing;
      var best := FindRarest(View(), has);
      if best.Some? {
        var piece := missing[best.value];
        missing := RemoveAt(missing, best.value);
        inProgress := inProgress[piece := 1];
        r := Some(piece);
        assert Assigns(c, has, View(), r);
      } else if missing != [] {
        r := None;
      } else {
        r := FindShared(View(), has);
        if r.Some? {
          inProgress := inProgress[r.value := inProgress[r.value] + 1];
        }
      }
      NextWorkInv(before, has, View(), r);
    }

    method Return(p: nat)
      requires Inv(View())
      modifies this
      ensures View() == ReturnWork(old(View()), p) && Inv(View())
    {
      ReturnWorkInv(View(), p);
      if p !in inProgress {
        return;
      }
      var holders := inProgress[p] - 1;
      if holders == 0 {
        inProgress := inProgress - {p};
        if p !in completed && p in selection.wanted {
          missing := missing + [p];
        }
      } else {
        inProgress := inProgress[p := holders];
      }
    }

    method Complete(p: nat)
      requires Inv(View())
      modifies this
      ensures View() == MarkCompleted(old(View()), p) && Inv(View())
      ensures completed == old(completed) + if p < total then {p} else {}
    {
      ghost var was := View();
      Record(p);
      MarkCompletedInv(was, p);
      MarkCompletedExact(was, p);
    }

    method Record(p: nat)
      modifies this
      ensures View() == MarkCompleted(old(View()), p)
    {
      if p >= total {
        return;
      }
      inProgress := inProgress - {p};
      if p !in completed {
        completed := completed + {p};
        missingDirty := true;
        if p in selection.wanted {
          wantedCompleted := wantedCompleted + 1;
        }
      }
    }

    method Apply(sel: Sel, refetch: set<nat>)
      requires Inv(View())
      modifies this
      ensures View() == ApplySelection(old(View()), sel, refetch) && Inv(View())
      ensures completed == old(completed) - refetch && inProgress == old(inProgress)
    {
      ApplySelectionInv(View(), sel, refetch);
      completed := completed - refetch;
      selection := sel;
      wantedTotal := CountBelow(total, selection.wanted);
      wantedCompleted := CountCommon(completed, selection.wanted);
      missing := Unassigned(total, selection.wanted, completed, inProgress.Keys);
      missingDirty := false;
    }

    method AddPeerPieces(pieces: set<nat>)
      modifies `availability
      ensures View() == old(View()).(avail := AddAvail(old(availability), pieces))
    {
      for i := 0 to |availability|
        invariant |availability| == |old(availability)|
        invariant forall k :: 0 <= k < i ==> availability[k] == AddAvail(old(availability), pieces)[k]
        invariant forall k :: i <= k < |availability| ==> availability[k] == old(availability)[k]
      {
        if i in pieces {
          availability := availability[i := SatAdd(availability[i])];
        }
      }
      assert availability == AddAvail(old(availability), pieces);
    }

    method RemovePeerPieces(pieces: set<nat>)
      modifies `availability
      ensures View() == old(View()).(avail := SubAvail(old(availability), pieces))
    {
      for i := 0 to |availability|
        invariant |availability| == |old(availability)|
        invariant forall k :: 0 <= k < i ==> availability[k] == SubAvail(old(availability), pieces)[k]
        invariant forall k :: i <= k < |availability| ==> availability[k] == old(availability)[k]
      {
        if i in pieces {
          availability := availability[i := SatSub(availability[i])];
        }
      }
      assert availability == SubAvail(old(availability), pieces);
    }
  }

  /** The scan of the queue; ties are broken at random. */
  method FindRarest(m: State, has: set<nat>) returns (best: Option<nat>)
    requires forall k :: 0 <= k < |m.missing| ==> m.missing[k] < |m.avail|
    ensures best.Some? ==> Rarest(m, has, best.value)
    ensures best.None? ==> forall p :: p in m.missing ==> p !in has
  {
    best := None;
    for pos := 0 to |m.missing|
      invariant best.Some? ==> best.value < pos && m.missing[best.value] in has
      invariant best.Some? ==> forall k :: 0 <= k < pos && m.missing[k] in has ==>
                  m.avail[m.missing[best.value]] <= m.avail[m.missing[k]]
      invariant best.None? ==> forall k :: 0 <= k < pos ==> m.missing[k] !in has
    {
      var piece := m.missing[pos];
      if piece in has {
        if best.Some? && m.avail[piece] > m.avail[m.missing[best.value]] {
        } else if best.Some? && m.avail[piece] == m.avail[m.missing[best.value]] {
          if * {
            best := Some(pos);
          }
        } else {
          best := Some(pos);
        }
      }
    }
  }

  /** `min_by_key` over the map of pieces in flight, in whatever order it iterates. */
  method FindShared(m: State, has: set<nat>) returns (best: Option<nat>)
    ensures best.Some? ==> BestShared(m, has, best.value)
    ensures best.None? ==> forall p :: !Shareable(m, has, p)
  {
    best := None;
    var rest := m.inProgress.Keys;
    while rest != {}
      invariant rest <= m.inProgress.Keys
      invariant best.Some? ==> Shareable(m, has, best.value)
      invariant best.Some? ==> forall q :: Shareable(m, has, q) && q !in rest ==>
                  m.inProgress[best.value] < m.inProgress[q]
                    || (m.inProgress[best.value] == m.inProgress[q] && best.value <= q)
      invariant best.None? ==> forall q :: Shareable(m, has, q) ==> q in rest
      decreases |rest|
    {
      var p :| p in rest;
      rest := rest - {p};
      if Shareable(m, has, p) {
        if best.None? || m.inProgress[p] < m.inProgress[best.value]
           || (m.inProgress[p] == m.inProgress[best.value] && p < best.value) {
          best := Some(p);
        }
      }
    }
  }
}
