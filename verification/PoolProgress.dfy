/**
 * Acquiring a frame when nobody else is at work in the pool: it always can go on, always gets nearer
 * to an end, and ends without a frame only if every frame is pinned.
 */
module PoolProgress {
  import opened Common
  import opened PoolModel
  import opened PoolInvariant
  import opened PoolQuiet
  import opened PoolSteps
  import opened PoolBytes
  import opened PoolFrames
  import opened PoolTheorems

  /** The others are idle or merely hold guards. */
  ghost predicate Alone(s: Pool, t: Tid) {
    t in s.threads && forall u | u in s.threads && u != t :: s.threads[u].Idle? || s.threads[u].Guard?
  }

  /** The steps of AcquireFrame and ReclaimFrame. */
  ghost predicate AcquireStep(s: Pool, t: Tid, s': Pool) {
    || TryPop(s, t, s') || Evict(s, t, s') || Peek(s, t, s') || Decline(s, t, s') || TakeClean(s, t, s')
    || PinDirty(s, t, s')
    || WritebackStep(s, t, s')
    || Retake(s, t, s') || GiveUp(s, t, s')
  }

  ghost predicate WritebackStep(s: Pool, t: Tid, s': Pool) {
    || LoadDirty(s, t, s') || LoadFlushed(s, t, s') || LatchShared(s, t, s') || Sample(s, t, s') || WriteBack(s, t, s')
    || Unshare(s, t, s') || MarkFlushed(s, t, s')
  }

  predicate InReclaim(pc: Pc) {
    match pc
    case TestDirty(_, _, k) => k.Reclaim?
    case TestFlushed(_, _, k, _) => k.Reclaim?
    case AwaitShared(_, _, k) => k.Reclaim?
    case Sampling(_, _, k) => k.Reclaim?
    case Writing(_, _, k, _) => k.Reclaim?
    case Written(_, _, k, _, ok) => k.Reclaim? && ok
    case Marking(_, _, k, _) => k.Reclaim?
    case Retaking(_, _, _) => true
    case _ => false
  }

  /** A victim being written back: only the reclaimer has it pinned, so nothing about it changes but
      what the reclaimer does. */
  predicate Undisturbed(s: Pool, pc: Pc) {
    InReclaim(pc) ==>
      && pc.f < |s.frames| && s.frames[pc.f].pins == 1
      && (pc.TestFlushed? || pc.Writing? || pc.Written? || pc.Marking? ==> pc.d == s.frames[pc.f].dirty)
      && (pc.Retaking? ==> !IsDirty(s.frames[pc.f]))
  }

  ghost predicate Solo(s: Pool, t: Tid) {
    && Inv(s) && Alone(s, t)
    && var pc := s.threads[t];
    && (pc.Acquiring? || ((pc.Evicting? || pc.Peeking? || pc.Validating? || InReclaim(pc)) && s.free == []))
    && Undisturbed(s, pc)
  }

  /** How far there is to go: candidates left, and program points within one candidate. */
  function Candidates(s: Pool, pc: Pc): nat {
    |s.evictable| + if pc.Acquiring? || pc.Evicting? then 0 else 1
  }

  function Rank(pc: Pc): nat {
    match pc
    case Acquiring(_) => 12
    case Evicting(_) => 11
    case Peeking(_, _) => 10
    case Validating(_, _, _) => 9
    case TestDirty(_, _, _) => 8
    case TestFlushed(_, _, _, _) => 7
    case AwaitShared(_, _, _) => 6
    case Sampling(_, _, _) => 5
    case Writing(_, _, _, _) => 4
    case Written(_, _, _, _, _) => 3
    case Marking(_, _, _, _) => 2
    case Retaking(_, _, _) => 1
    case _ => 0
  }

  ghost predicate Nearer(s: Pool, t: Tid, s': Pool)
    requires t in s.threads && t in s'.threads
  {
    || Candidates(s', s'.threads[t]) < Candidates(s, s.threads[t])
    || (Candidates(s', s'.threads[t]) == Candidates(s, s.threads[t]) && Rank(s'.threads[t]) < Rank(s.threads[t]))
  }

  ghost predicate AllPinned(s: Pool) {
    forall f: FrameId | f < |s.frames| :: s.frames[f].state == Resident && s.frames[f].pins > 0
  }

  /** The write did not fail. */
  predicate NoFault(s': Pool, t: Tid) { t in s'.threads && (s'.threads[t].Written? ==> s'.threads[t].ok) }

  ghost predicate Progress(s: Pool, t: Tid, s': Pool) {
    && t in s.threads && t in s'.threads
    && (|| s'.threads[t].Owned?
        || (s'.threads[t].Idle? && AllPinned(s'))
        || (Solo(s', t) && Nearer(s, t, s')))
  }

  lemma StillAlone(s: Pool, t: Tid, s': Pool)
    requires Alone(s, t) && Moves(s, t, s')
    ensures Alone(s', t)
  {
  }

  lemma WritebackProgress(s: Pool, t: Tid, s': Pool)
    requires Solo(s, t) && WritebackStep(s, t, s') && NoFault(s', t) && Inv(s')
    ensures Progress(s, t, s')
  {
    hide Inv, ShardFree, NoWriter, NoReader;
    ThreadAt(s, t);
    StillAlone(s, t, s');
  }

  lemma SweepProgress(s: Pool, t: Tid, s': Pool)
    requires Solo(s, t) && (TryPop(s, t, s') || Peek(s, t, s') || Decline(s, t, s') || TakeClean(s, t, s')
             || PinDirty(s, t, s')) && Inv(s')
    ensures Progress(s, t, s')
  {
    hide Inv, ShardFree;
    ThreadAt(s, t);
    StillAlone(s, t, s');
  }

  lemma EvictProgress(s: Pool, t: Tid, s': Pool)
    requires Solo(s, t) && Evict(s, t, s') && Inv(s')
    ensures Progress(s, t, s')
  {
    hide Inv, AllPinned;
    StillAlone(s, t, s');
    if s.evictable == {} {
      EmptyMeansFull(s, t);
      SameFrames(s, s');
    } else {
      var v :| v in s.evictable && s' == To(s, t, Peeking(s.threads[t].goal, v)).(evictable := s.evictable - {v});
      assert |s.evictable - {v}| == |s.evictable| - 1;
    }
  }

  lemma SameFrames(s: Pool, s': Pool)
    requires AllPinned(s) && s'.frames == s.frames
    ensures AllPinned(s')
  {
  }

  lemma EmptyMeansFull(s: Pool, t: Tid)
    requires Inv(s) && Alone(s, t) && s.threads[t].Evicting? && s.evictable == {} && s.free == []
    ensures AllPinned(s)
  {
    hide Inv;
    forall u | u in s.threads && u != t ensures ClaimOf(s.threads[u]).None? && !s.threads[u].Peeking?
      && !s.threads[u].Validating? { }
    forall f: FrameId | f < |s.frames| ensures s.frames[f].state == Resident && s.frames[f].pins > 0 {
      FullMeansPinned(s, t, f);
    }
  }

  lemma RetakeProgress(s: Pool, t: Tid, s': Pool)
    requires Solo(s, t) && (Retake(s, t, s') || GiveUp(s, t, s')) && Inv(s')
    ensures Progress(s, t, s')
  {
    hide Inv, ShardFree;
    ThreadAt(s, t);
  }

  /** Alone and without an I/O error, every step of AcquireFrame ends it with a frame, ends it with the
      pool truly full, or brings it nearer to one of these. */
  lemma AcquireProgress(s: Pool, t: Tid, s': Pool)
    requires Solo(s, t) && AcquireStep(s, t, s') && NoFault(s', t)
    ensures Progress(s, t, s')
  {
    hide Solo, Progress, TryPop, Evict, Peek, Decline, TakeClean, PinDirty, LoadDirty, LoadFlushed, LatchShared, Sample,
      WriteBack, Unshare, MarkFlushed, Retake, GiveUp;
    SoloInv(s, t);
    assert Next(s, t, s');
    NextKeeps(s, t, s');
    if WritebackStep(s, t, s') {
      WritebackProgress(s, t, s');
    } else if Evict(s, t, s') {
      EvictProgress(s, t, s');
    } else if Retake(s, t, s') || GiveUp(s, t, s') {
      RetakeProgress(s, t, s');
    } else {
      SweepProgress(s, t, s');
    }
  }

  lemma SoloInv(s: Pool, t: Tid)
    requires Solo(s, t)
    ensures Inv(s) && t in s.threads
  {
  }

  // ---------- never stuck ----------

  lemma AloneUnblocked(s: Pool, t: Tid, p: PageId, f: FrameId)
    requires Alone(s, t) && ShardOf(s.threads[t]).None? && ExclusiveOf(s.threads[t]).None?
    requires forall u | u in s.threads && u != t :: PinOf(s.threads[u]) != Some(f)
    ensures ShardFree(s, p) && NoWriter(s, f)
  {
    forall u | u in s.threads ensures ShardOf(s.threads[u]) != Some(p) && ExclusiveOf(s.threads[u]) != Some(f) {
    }
  }

  lemma SweepEnabled(s: Pool, t: Tid) returns (s': Pool)
    requires Solo(s, t) && !InReclaim(s.threads[t])
    ensures AcquireStep(s, t, s') && NoFault(s', t)
  {
    hide Inv;
    ThreadAt(s, t);
    match s.threads[t]
    case Acquiring(g) =>
      s' := if s.free == [] then To(s, t, Evicting(g))
          else To(s, t, Owned(g, s.free[|s.free| - 1])).(free := s.free[..|s.free| - 1]);
      assert TryPop(s, t, s');
    case Evicting(g) =>
      if s.evictable == {} {
        s' := To(s, t, Idle);
      } else {
        var v :| v in s.evictable;
        s' := To(s, t, Peeking(g, v)).(evictable := s.evictable - {v});
      }
      assert Evict(s, t, s');
    case Peeking(g, f) =>
      var x := s.frames[f];
      s' := To(s, t, if x.state == Resident && x.pins == 0 then Validating(g, f, x.page) else Evicting(g));
      assert Peek(s, t, s');
    case Validating(g, f, p) =>
      forall u | u in s.threads ensures ShardOf(s.threads[u]) != Some(p) { }
      if !StillVictim(s, f, p, 0) {
        s' := To(s, t, Evicting(g));
        assert Decline(s, t, s');
      } else if IsDirty(s.frames[f]) {
        s' := To(Pinned(s, f), t, TestDirty(p, f, Reclaim(g)));
        assert PinDirty(s, t, s');
      } else {
        s' := To(SetFrame(s, f, Emptied(s.frames[f])), t, Owned(g, f)).(table := s.table - {p});
        assert TakeClean(s, t, s');
      }
  }

  lemma ReclaimEnabled(s: Pool, t: Tid) returns (s': Pool)
    requires Solo(s, t) && InReclaim(s.threads[t])
    ensures AcquireStep(s, t, s') && NoFault(s', t)
  {
    hide Inv;
    var f, p := s.threads[t].f, s.threads[t].p;
    ThreadAt(s, t);
    FrameAt(s, f);
    NoOtherHolder(s, t, f);
    AloneUnblocked(s, t, p, f);
    match s.threads[t]
    case TestDirty(_, _, k) =>
      s' := To(s, t, TestFlushed(p, f, k, s.frames[f].dirty));
      assert LoadDirty(s, t, s');
    case TestFlushed(_, _, k, d) =>
      s' := To(s, t, if d > s.frames[f].flushed then AwaitShared(p, f, k) else Flushed(p, f, k));
      assert LoadFlushed(s, t, s');
    case AwaitShared(_, _, k) =>
      s' := To(s, t, Sampling(p, f, k));
      assert LatchShared(s, t, s');
    case Sampling(_, _, k) =>
      s' := To(s, t, Writing(p, f, k, s.frames[f].dirty));
      assert Sample(s, t, s');
    case Writing(_, _, k, d) =>
      s' := To(s, t, Written(p, f, k, d, true)).(disk := s.disk[p := s.frames[f].data]);
      assert WriteBack(s, t, s');
    case Written(_, _, k, d, ok) =>
      s' := To(s, t, Marking(p, f, k, d));
      assert Unshare(s, t, s');
    case Marking(_, _, k, d) =>
      var x := s.frames[f];
      s' := To(SetFrame(s, f, x.(flushed := if x.flushed < d then d else x.flushed)), t, Flushed(p, f, k));
      assert MarkFlushed(s, t, s');
    case Retaking(g, _, _) =>
      s' := To(SetFrame(s, f, Emptied(s.frames[f])), t, Owned(g, f)).(table := s.table - {p});
      assert Retake(s, t, s');
  }

  /** Nothing the caller waits for can be missing: some step that meets no error is always possible. */
  lemma AcquireEnabled(s: Pool, t: Tid) returns (s': Pool)
    requires Solo(s, t)
    ensures AcquireStep(s, t, s') && NoFault(s', t)
  {
    hide Solo, AcquireStep;
    SoloInv(s, t);
    if InReclaim(s.threads[t]) { s' := ReclaimEnabled(s, t); } else { s' := SweepEnabled(s, t); }
  }

  // ---------- whole runs ----------

  /** AcquireFrame is over: with a frame, or with the pool full. */
  ghost predicate Ended(s: Pool, t: Tid) {
    t in s.threads && (s.threads[t].Owned? || (s.threads[t].Idle? && AllPinned(s)))
  }

  /** The most steps there can still be. */
  function StepsLeft(s: Pool, t: Tid): nat
    requires t in s.threads
  {
    13 * Candidates(s, s.threads[t]) + Rank(s.threads[t])
  }

  /** t acquires a frame by itself, and no write fails. */
  ghost predicate SoloRun(states: seq<Pool>, t: Tid) {
    && states != [] && Solo(states[0], t)
    && forall i | 0 < i < |states| :: SoloStep(states[i - 1], t, states[i])
  }

  ghost predicate SoloStep(s: Pool, t: Tid, s': Pool) { AcquireStep(s, t, s') && NoFault(s', t) }

  lemma SoloSteps(s: Pool, t: Tid)
    requires Solo(s, t)
    ensures t in s.threads && StepsLeft(s, t) <= 13 * |s.evictable| + 25
  {
  }

  lemma ProgressCounts(s: Pool, t: Tid, s': Pool)
    requires Solo(s, t) && Progress(s, t, s')
    ensures Ended(s', t) || (Solo(s', t) && StepsLeft(s', t) < StepsLeft(s, t))
  {
    hide Inv, AllPinned;
  }

  /** While it has not ended, each step uses up one of the steps there were. */
  lemma {:induction false} SoloRunShrinks(states: seq<Pool>, t: Tid, n: nat)
    requires SoloRun(states, t) && n < |states| && forall i | 0 < i <= n :: !Ended(states[i], t)
    ensures t in states[0].threads && Solo(states[n], t) && StepsLeft(states[n], t) + n <= StepsLeft(states[0], t)
  {
    hide Solo, AcquireStep, NoFault, Ended, StepsLeft;
    SoloSteps(states[0], t);
    if n > 0 {
      SoloRunShrinks(states, t, n - 1);
      assert SoloStep(states[n - 1], t, states[n]);
      AcquireProgress(states[n - 1], t, states[n]);
      ProgressCounts(states[n - 1], t, states[n]);
    }
  }

  /** A run of AcquireFrame longer than a bound in the number of candidates has come to its end: with a
      frame, or with every frame pinned. */
  lemma {:induction false} AcquireEnds(states: seq<Pool>, t: Tid) returns (i: nat)
    requires SoloRun(states, t) && |states| > 13 * |states[0].evictable| + 26
    ensures 0 < i < |states| && Ended(states[i], t)
  {
    hide Solo, SoloStep, Ended, StepsLeft;
    SoloSteps(states[0], t);
    var n := |states| - 1;
    if forall i | 0 < i <= n :: !Ended(states[i], t) {
      SoloRunShrinks(states, t, n);
    }
    i :| 0 < i <= n && Ended(states[i], t);
  }

  /** And there is such a run: AcquireFrame never gets stuck on the way. */
  lemma {:induction false} AcquireCompletes(s: Pool, t: Tid) returns (states: seq<Pool>)
    requires Solo(s, t)
    ensures t in s.threads && SoloRun(states, t) && states[0] == s && Ended(states[|states| - 1], t)
    decreases SoloLeft(s, t)
  {
    hide Solo, AcquireStep, NoFault, Ended, StepsLeft, Progress;
    SoloSteps(s, t);
    var s' := AcquireEnabled(s, t);
    AcquireProgress(s, t, s');
    ProgressCounts(s, t, s');
    var rest := [s'];
    if !Ended(s', t) {
      rest := AcquireCompletes(s', t);
    }
    states := [s] + rest;
    forall i | 0 < i < |states| ensures SoloStep(states[i - 1], t, states[i]) {
      if i > 1 { assert SoloStep(rest[i - 2], t, rest[i - 1]); }
    }
  }

  function SoloLeft(s: Pool, t: Tid): nat { if t in s.threads then StepsLeft(s, t) else 0 }
}
