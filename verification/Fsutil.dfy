/** `atomic_write` (src/core/fsutil.rs) as a sequence of file-system effects
    with a crash possible between any two. */
module Fsutil {
  import opened Common

  /** `cached` is what readers see, `durable` what a power loss leaves. Until it
      is synced, the durable contents of an inode may be anything. */
  datatype Inode = Inode(cached: seq<bv8>, durable: seq<bv8>, synced: bool)

  /** Directory entries for the target and its temporary sibling; the entry of
      the target on stable storage may lag behind. */
  datatype Fs = Fs(inodes: seq<Inode>, path: Option<nat>, tmp: Option<nat>, durablePath: Option<nat>)

  ghost predicate Settled(fs: Fs, entry: Option<nat>) {
    entry.Some? ==> entry.value < |fs.inodes| && fs.inodes[entry.value].synced
                    && fs.inodes[entry.value].durable == fs.inodes[entry.value].cached
  }

  /** Whatever the target's entry names is synced and is never the temporary file. */
  ghost predicate FsInv(fs: Fs) {
    && Settled(fs, fs.path) && Settled(fs, fs.durablePath)
    && (fs.tmp.Some? ==> fs.tmp.value < |fs.inodes|)
    && (fs.tmp.Some? ==> fs.tmp != fs.path && fs.tmp != fs.durablePath)
  }

  function Contents(fs: Fs, entry: Option<nat>): Option<seq<bv8>> {
    if entry.Some? && entry.value < |fs.inodes| then Some(fs.inodes[entry.value].durable) else None
  }

  /** What a restart after a crash finds at the target path. */
  function CrashView(fs: Fs): Option<seq<bv8>> { Contents(fs, fs.durablePath) }

  /** The file system after a power loss: every inode is what was stable, and a
      temporary file may have been left behind. */
  ghost predicate CrashLeaves(fs: Fs, fs': Fs) {
    && |fs'.inodes| == |fs.inodes|
    && (forall i :: 0 <= i < |fs.inodes| ==> fs'.inodes[i] == Inode(fs.inodes[i].durable, fs.inodes[i].durable, true))
    && fs'.path == fs'.durablePath == fs.durablePath
    && (fs'.tmp.Some? ==> fs'.tmp.value < |fs.inodes| && fs'.tmp != fs.durablePath)
  }

  datatype Phase = Start | Created | Written | Synced | Renamed | Failed

  function Put(fs: Fs, i: nat, node: Inode): Fs
    requires i < |fs.inodes|
  {
    fs.(inodes := fs.inodes[i := node])
  }

  ghost predicate Create(fs: Fs, fs': Fs) {
    if fs.tmp.Some? then
      && fs.tmp.value < |fs.inodes|
      && fs' == Put(fs, fs.tmp.value, Inode([], fs.inodes[fs.tmp.value].durable, false))
    else
      fs' == fs.(inodes := fs.inodes + [Inode([], [], false)], tmp := Some(|fs.inodes|))
  }

  /** One effect of `atomic_write(bytes)`. Any effect may fail, which removes
      the temporary file (or leaves it, when the removal fails too). */
  ghost predicate SaveStep(fs: Fs, ph: Phase, bytes: seq<bv8>, fs': Fs, ph': Phase) {
    match ph
    case Start => (ph' == Created && Create(fs, fs')) || (ph' == Failed && fs' == fs)
    case Created =>
      && fs.tmp.Some? && fs.tmp.value < |fs.inodes|
      && exists n :: 0 <= n <= |bytes|
          && fs' == Put(fs, fs.tmp.value, Inode(bytes[..n], fs.inodes[fs.tmp.value].durable, false))
          && (if n == |bytes| then ph' == Written || ph' == Created else ph' == Created)
    case Written =>
      && fs.tmp.Some? && fs.tmp.value < |fs.inodes|
      && var node := fs.inodes[fs.tmp.value];
         ph' == Synced && fs' == Put(fs, fs.tmp.value, Inode(node.cached, node.cached, true))
    case Synced =>
      ph' == Renamed && fs' == fs.(path := fs.tmp, tmp := None)
    case Renamed => false
    case Failed => false
  }

  ghost predicate FailStep(fs: Fs, ph: Phase, fs': Fs, ph': Phase) {
    ph' == Failed && !ph.Renamed? && (fs' == fs || fs' == fs.(tmp := None))
  }

  /** What the operating system may do at any moment. */
  ghost predicate Background(fs: Fs, fs': Fs) {
    || fs' == fs.(durablePath := fs.path)
    || (exists i, junk ::
          0 <= i < |fs.inodes| && !fs.inodes[i].synced && fs' == Put(fs, i, fs.inodes[i].(durable := junk)))
  }

  /** Facts about the temporary file that hold at each phase. */
  ghost predicate PhaseInv(fs: Fs, ph: Phase, bytes: seq<bv8>) {
    && FsInv(fs)
    && (ph.Created? || ph.Written? || ph.Synced? ==> fs.tmp.Some?)
    && (ph.Written? ==> fs.inodes[fs.tmp.value].cached == bytes)
    && (ph.Synced? ==> Settled(fs, fs.tmp) && fs.inodes[fs.tmp.value].cached == bytes)
    && (ph.Renamed? ==> Contents(fs, fs.path) == Some(bytes))
  }

  /** Each effect keeps the invariant, and what a crash reveals does not change;
      the target's own entry changes only with the rename, to exactly `bytes`. */
  lemma SaveStepSafe(fs: Fs, ph: Phase, bytes: seq<bv8>, fs': Fs, ph': Phase)
    requires PhaseInv(fs, ph, bytes)
    requires SaveStep(fs, ph, bytes, fs', ph') || FailStep(fs, ph, fs', ph')
    ensures PhaseInv(fs', ph', bytes)
    ensures CrashView(fs') == CrashView(fs)
    ensures Contents(fs', fs'.path) == if ph'.Renamed? then Some(bytes) else Contents(fs, fs.path)
  {
  }

  lemma BackgroundSafe(fs: Fs, ph: Phase, bytes: seq<bv8>, fs': Fs)
    requires PhaseInv(fs, ph, bytes) && Background(fs, fs')
    ensures PhaseInv(fs', ph, bytes)
    ensures CrashView(fs') == CrashView(fs) || CrashView(fs') == Contents(fs, fs.path)
    ensures Contents(fs', fs'.path) == Contents(fs, fs.path)
  {
  }

  datatype Moment = Moment(fs: Fs, phase: Phase)

  ghost predicate SaveRun(ms: seq<Moment>, bytes: seq<bv8>) {
    forall k, n :: 0 <= k && n == k + 1 && n < |ms| ==>
      || SaveStep(ms[k].fs, ms[k].phase, bytes, ms[n].fs, ms[n].phase)
      || FailStep(ms[k].fs, ms[k].phase, ms[n].fs, ms[n].phase)
      || (ms[n].phase == ms[k].phase && Background(ms[k].fs, ms[n].fs))
  }

  /** A crash at any moment of `atomic_write` leaves the old file or the new
      one, never a mixture, and a run that has not renamed leaves the old one. */
  lemma {:induction false} AtomicWriteIsAtomic(ms: seq<Moment>, bytes: seq<bv8>, k: nat)
    requires SaveRun(ms, bytes) && k < |ms|
    requires ms[0].phase == Start && FsInv(ms[0].fs) && ms[0].fs.durablePath == ms[0].fs.path
    ensures PhaseInv(ms[k].fs, ms[k].phase, bytes)
    ensures Contents(ms[k].fs, ms[k].fs.path) == if ms[k].phase.Renamed? then Some(bytes) else CrashView(ms[0].fs)
    ensures CrashView(ms[k].fs) == CrashView(ms[0].fs) || CrashView(ms[k].fs) == Some(bytes)
    ensures !ms[k].phase.Renamed? ==> CrashView(ms[k].fs) == CrashView(ms[0].fs)
  {
    if k > 0 {
      AtomicWriteIsAtomic(ms, bytes, k - 1);
      var a, b := ms[k - 1], ms[k];
      if b.phase == a.phase && Background(a.fs, b.fs) {
        BackgroundSafe(a.fs, a.phase, bytes, b.fs);
      } else {
        SaveStepSafe(a.fs, a.phase, bytes, b.fs, b.phase);
      }
    }
  }
}
