/**
 * What becomes of a fetch, over whole runs.  It ends with a guard unless a load of the page failed, its own
 * search for a frame found none, or its own writeback failed; and a fetch that finds the page resident
 * always ends with one.
 */
module PoolFetch {
  import opened Common
  import opened PoolModel
  import opened PoolInvariant
  import opened PoolSteps
  import opened PoolFrames
  import opened PoolTheorems
  import opened PoolDeletion

  function AfterGoal(k: Then): Option<Goal> { if k.Reclaim? then Some(k.goal) else None }

  function LatchGoal(p: PageId, w: Mode): Goal { if w == New then ForNew else ForFetch(p, w) }

  /** What a thread is after, from the call until it has a guard or has been set back. */
  function GoalOf(pc: Pc): Option<Goal> {
    match pc
    case Lookup(p, w) => Some(ForFetch(p, w))
    case Waiting(p, _, w, _) => Some(ForFetch(p, w))
    case Recording(p, _, w, _) => Some(ForFetch(p, w))
    case Latching(p, _, w) => Some(LatchGoal(p, w))
    case Acquiring(g) => Some(g)
    case Evicting(g) => Some(g)
    case Peeking(g, _) => Some(g)
    case Validating(g, _, _) => Some(g)
    case Retaking(g, _, _) => Some(g)
    case Owned(g, _) => Some(g)
    case Returning(_, again) => if again.Some? then Some(ForFetch(again.value.0, again.value.1)) else None
    case Unpinning(_, _, after) => if after.Again? then Some(after.goal) else None
    case TestDirty(_, _, k) => AfterGoal(k)
    case TestFlushed(_, _, k, _) => AfterGoal(k)
    case AwaitShared(_, _, k) => AfterGoal(k)
    case Sampling(_, _, k) => AfterGoal(k)
    case Writing(_, _, k, _) => AfterGoal(k)
    case Written(_, _, k, _, ok) => if ok then AfterGoal(k) else None
    case Marking(_, _, k, _) => AfterGoal(k)
    case Reading(p, _, w) => Some(ForFetch(p, w))
    case Publishing(p, _, w) => Some(ForFetch(p, w))
    case Stamping(_, _) => Some(ForNew)
    case Filling(_, _) => Some(ForNew)
    case Mapping(_, _) => Some(ForNew)
    case _ => None
  }

  /** The guard that was asked for. */
  predicate Got(pc: Pc, g: Goal) {
    pc.Guard? && LatchGoal(pc.p, pc.w) == g
  }

  /** A fetch is of a page to read or write; only NewPage latches anew. */
  predicate Proper(g: Goal) { g.ForFetch? ==> g.mode != New }

  /** The five ways to go without. */
  predicate Setback(s: Pool, t: Tid, s': Pool) {
    && t in s.threads && t in s'.threads
    && (|| WaitedInVain(s, t) || (s.threads[t].Reading? && s'.threads[t].Erasing?)
        || NoCandidate(s, t, s') || WriteFails(s, t, s')
        || (s.threads[t].Owned? && s.threads[t].goal == ForNew && s'.threads[t].Returning?))
  }

  predicate WaitedInVain(s: Pool, t: Tid) {
    && t in s.threads && s.threads[t].Waiting? && s.threads[t].f < |s.frames|
    && s.frames[s.threads[t].f].state == Failed
  }

  predicate NoCandidate(s: Pool, t: Tid, s': Pool) {
    && t in s.threads && t in s'.threads
    && s.threads[t].Evicting? && s.evictable == {} && s'.threads[t] == Idle
  }

  predicate WriteFails(s: Pool, t: Tid, s': Pool) {
    && t in s.threads && t in s'.threads
    && s.threads[t].Writing? && s'.threads[t].Written? && !s'.threads[t].ok
  }

  // ---------- one step ----------

  ghost predicate SeekOn(s: Pool, t: Tid, s': Pool) {
    && t in s.threads && t in s'.threads
    && var g := GoalOf(s.threads[t]);
    g.Some? && Proper(g.value) ==> GoalOf(s'.threads[t]) == g || Got(s'.threads[t], g.value) || Setback(s, t, s')
  }

  lemma LookupSeeks(s: Pool, t: Tid, s': Pool)
    requires Begin(s, t, s') || LookupHit(s, t, s') || LookupMiss(s, t, s') || Wake(s, t, s') || Record(s, t, s')
    ensures SeekOn(s, t, s')
  {
    hide ShardFree, NotCreating;
  }

  lemma GuardSeeks(s: Pool, t: Tid, s': Pool)
    requires Latch(s, t, s') || DropRead(s, t, s') || Unlatch(s, t, s') || Unpin(s, t, s')
    ensures SeekOn(s, t, s')
  {
    hide NoWriter, NoReader;
  }

  lemma DeleteSeeks(s: Pool, t: Tid, s': Pool)
    requires AllocateFails(s, t, s') || RefuseDelete(s, t, s') || NotCached(s, t, s') || Unlist(s, t, s')
    ensures SeekOn(s, t, s')
  {
    hide ShardFree;
  }

  lemma FetchSeeks(s: Pool, t: Tid, s': Pool)
    requires FetchStep(s, t, s')
    ensures SeekOn(s, t, s')
  {
    hide SeekOn, Begin, LookupHit, LookupMiss, Wake, Record, Latch, DropRead, Unlatch, Unpin, AllocateFails,
      RefuseDelete, NotCached, Unlist;
    if Begin(s, t, s') || LookupHit(s, t, s') || LookupMiss(s, t, s') || Wake(s, t, s') || Record(s, t, s') {
      LookupSeeks(s, t, s');
    } else if Latch(s, t, s') || DropRead(s, t, s') || Unlatch(s, t, s') || Unpin(s, t, s') {
      GuardSeeks(s, t, s');
    } else {
      DeleteSeeks(s, t, s');
    }
  }

  lemma SweepSeeks(s: Pool, t: Tid, s': Pool)
    requires Evict(s, t, s') || Peek(s, t, s') || Decline(s, t, s') || PinDirty(s, t, s')
    ensures SeekOn(s, t, s')
  {
    hide ShardFree;
  }

  lemma GiveUpSeeks(s: Pool, t: Tid, s': Pool)
    requires GiveUp(s, t, s') || LoseRace(s, t, s') || Unshare(s, t, s')
    ensures SeekOn(s, t, s')
  {
    hide ShardFree;
  }

  lemma TestSeeks(s: Pool, t: Tid, s': Pool)
    requires LoadDirty(s, t, s') || LoadFlushed(s, t, s') || LatchShared(s, t, s') || Sample(s, t, s')
    ensures SeekOn(s, t, s')
  {
    hide NoWriter;
  }

  lemma FlushEntrySeeks(s: Pool, t: Tid, s': Pool)
    requires PinForFlush(s, t, s') || PinByIndex(s, t, s')
    ensures SeekOn(s, t, s')
  {
    hide ShardFree;
  }

  lemma FlushSeeks(s: Pool, t: Tid, s': Pool)
    requires FlushStep(s, t, s')
    ensures SeekOn(s, t, s')
  {
    hide SeekOn, Evict, Peek, Decline, PinDirty, LoadDirty, LoadFlushed, LatchShared, Sample, Unshare, GiveUp, LoseRace,
      PinForFlush, PinByIndex;
    if Evict(s, t, s') || Peek(s, t, s') || Decline(s, t, s') || PinDirty(s, t, s') {
      SweepSeeks(s, t, s');
    } else if LoadDirty(s, t, s') || LoadFlushed(s, t, s') || LatchShared(s, t, s') || Sample(s, t, s') {
      TestSeeks(s, t, s');
    } else if PinForFlush(s, t, s') || PinByIndex(s, t, s') {
      FlushEntrySeeks(s, t, s');
    } else {
      GiveUpSeeks(s, t, s');
    }
  }

  lemma EpochSeeks(s: Pool, t: Tid, s': Pool)
    requires PutBytes(s, t, s') || MarkDirty(s, t, s') || MarkFlushed(s, t, s')
    ensures SeekOn(s, t, s')
  {
  }

  lemma ReadSeeks(s: Pool, t: Tid, s': Pool)
    requires ReadIn(s, t, s')
    ensures SeekOn(s, t, s')
  {
  }

  lemma DiskSeeks(s: Pool, t: Tid, s': Pool)
    requires Fill(s, t, s') || WriteBack(s, t, s') || Allocate(s, t, s') || Deallocate(s, t, s')
    ensures SeekOn(s, t, s')
  {
    hide NotInFlight;
  }

  lemma BytesSeeks(s: Pool, t: Tid, s': Pool)
    requires BytesStep(s, t, s')
    ensures SeekOn(s, t, s')
  {
    hide SeekOn, PutBytes, MarkDirty, MarkFlushed, ReadIn, Fill, WriteBack, Allocate, Deallocate;
    if PutBytes(s, t, s') || MarkDirty(s, t, s') || MarkFlushed(s, t, s') {
      EpochSeeks(s, t, s');
    } else if ReadIn(s, t, s') {
      ReadSeeks(s, t, s');
    } else {
      DiskSeeks(s, t, s');
    }
  }

  lemma StockSeeks(s: Pool, t: Tid, s': Pool)
    requires TryPop(s, t, s') || Push(s, t, s') || TakeClean(s, t, s')
    ensures SeekOn(s, t, s')
  {
    hide ShardFree;
  }

  lemma TakeSeeks(s: Pool, t: Tid, s': Pool)
    requires Retake(s, t, s') || Vacate(s, t, s') || Drain(s, t, s')
    ensures SeekOn(s, t, s')
  {
    hide ShardFree;
  }

  lemma MissSeeks(s: Pool, t: Tid, s': Pool)
    requires StartLoad(s, t, s') || Publish(s, t, s') || Erase(s, t, s')
    ensures SeekOn(s, t, s')
  {
    hide ShardFree;
  }

  lemma NewSeeks(s: Pool, t: Tid, s': Pool)
    requires Fail(s, t, s') || Stamp(s, t, s') || MapNew(s, t, s')
    ensures SeekOn(s, t, s')
  {
    hide ShardFree;
  }

  lemma FrameSeeks(s: Pool, t: Tid, s': Pool)
    requires FrameStep(s, t, s')
    ensures SeekOn(s, t, s')
  {
    hide SeekOn, TryPop, Push, TakeClean, Retake, Vacate, Drain, StartLoad, Publish, Erase, Fail, Stamp, MapNew;
    if StartLoad(s, t, s') || Publish(s, t, s') || Erase(s, t, s') {
      MissSeeks(s, t, s');
    } else if Fail(s, t, s') || Stamp(s, t, s') || MapNew(s, t, s') {
      NewSeeks(s, t, s');
    } else if TryPop(s, t, s') || Push(s, t, s') || TakeClean(s, t, s') {
      StockSeeks(s, t, s');
    } else {
      TakeSeeks(s, t, s');
    }
  }

  /** A thread that is after something still is, or has it, or has been set back. */
  lemma SeekStep(s: Pool, t: Tid, s': Pool)
    requires Next(s, t, s')
    ensures SeekOn(s, t, s')
  {
    hide SeekOn, PutBytes, MarkDirty, MarkFlushed, ReadIn, Fill, WriteBack, Allocate, Deallocate, TryPop, Push,
      TakeClean, Retake, Vacate, Drain, StartLoad, Publish, Erase, Fail, Stamp, MapNew, Begin, LookupHit, LookupMiss,
      Wake, Record, Latch, DropRead, Unlatch, Unpin, Evict, Peek, Decline, PinDirty, LoadDirty, LoadFlushed,
      LatchShared, Sample, Unshare, GiveUp, LoseRace, AllocateFails, RefuseDelete, NotCached, Unlist, PinForFlush,
      PinByIndex;
    if BytesStep(s, t, s') {
      BytesSeeks(s, t, s');
    } else if FrameStep(s, t, s') {
      FrameSeeks(s, t, s');
    } else if FetchStep(s, t, s') {
      FetchSeeks(s, t, s');
    } else {
      FlushSeeks(s, t, s');
    }
  }

  // ---------- whole runs ----------

  /** At step k the thread gets its guard, or is set back. */
  ghost predicate Decided(r: Run, k: nat, t: Tid, g: Goal)
    requires IsRun(r) && k < |r.movers|
  {
    && r.movers[k] == t && t in r.states[k + 1].threads
    && (Got(r.states[k + 1].threads[t], g) || Setback(r.states[k], t, r.states[k + 1]))
  }

  /** A thread that is after something and is idle later was decided in between, and until then it was after
      that thing. */
  lemma {:induction false} SeekEnds(r: Run, i: nat, j: nat, t: Tid, g: Goal) returns (k: nat)
    requires IsRun(r) && Inv(r.states[0]) && i <= j < |r.states| && Proper(g)
    requires t in r.states[i].threads && GoalOf(r.states[i].threads[t]) == Some(g)
    requires t in r.states[j].threads && r.states[j].threads[t] == Idle
    ensures i <= k < j && Decided(r, k, t, g)
    ensures forall n | i <= n <= k :: t in r.states[n].threads && GoalOf(r.states[n].threads[t]) == Some(g)
    decreases j - i
  {
    hide Inv, Next, SeekOn, Setback, Got, GoalOf;
    IdleSeeksNothing();
    var v := r.movers[i];
    RunKeeps(r, i);
    assert StepAt(r, i);
    if v == t {
      SeekStep(r.states[i], t, r.states[i + 1]);
      assert SeekOn(r.states[i], t, r.states[i + 1]);
      SeekCases(r.states[i], t, r.states[i + 1], g);
      if Decided(r, i, t, g) {
        k := i;
        return;
      }
    } else {
      ThreadMoves(r.states[i], v, r.states[i + 1]);
    }
    k := SeekEnds(r, i + 1, j, t, g);
  }

  lemma IdleSeeksNothing()
    ensures GoalOf(Idle) == None
  {
  }

  lemma SeekCases(s: Pool, t: Tid, s': Pool, g: Goal)
    requires SeekOn(s, t, s') && t in s.threads && GoalOf(s.threads[t]) == Some(g) && Proper(g)
    ensures t in s'.threads && (GoalOf(s'.threads[t]) == Some(g) || Got(s'.threads[t], g) || Setback(s, t, s'))
  {
  }

  // ---------- who is to blame ----------

  /** A load of p fails: the read brings nothing, or the loader gives the frame up. */
  predicate LoadFails(s: Pool, u: Tid, s': Pool, p: PageId) {
    && u in s.threads && u in s'.threads
    && (|| (s.threads[u].Reading? && s.threads[u].p == p && s'.threads[u].Erasing?)
        || (s.threads[u].Failing? && s.threads[u].p == p && s'.threads[u].Draining?))
  }

  lemma BytesFail(s: Pool, u: Tid, s': Pool, f: FrameId)
    requires BytesStep(s, u, s') && f < |s.frames|
    ensures |s'.frames| == |s.frames| && s'.frames[f].state == s.frames[f].state
  {
    hide BytesStep;
    BytesStates(s, u, s');
  }

  lemma FrameFails(s: Pool, u: Tid, s': Pool, f: FrameId)
    requires FrameStep(s, u, s') && f < |s.frames| && s.frames[f].state != Failed
    ensures f < |s'.frames| && (s'.frames[f].state == Failed ==> Fail(s, u, s') && s.threads[u].f == f)
  {
    hide StartLoad, Publish, Erase, Stamp, MapNew;
    if StartLoad(s, u, s') || Publish(s, u, s') || Erase(s, u, s') || Stamp(s, u, s') || MapNew(s, u, s') {
      PageFails(s, u, s', f);
    }
  }

  lemma PageFails(s: Pool, u: Tid, s': Pool, f: FrameId)
    requires StartLoad(s, u, s') || Publish(s, u, s') || Erase(s, u, s') || Stamp(s, u, s') || MapNew(s, u, s')
    requires f < |s.frames| && s.frames[f].state != Failed
    ensures f < |s'.frames| && s'.frames[f].state != Failed
  {
    hide ShardFree;
  }

  /** Only a loader marks a frame failed, and it is the frame of its page. */
  lemma OnlyLoaderFails(s: Pool, u: Tid, s': Pool, f: FrameId)
    requires Inv(s) && Next(s, u, s') && f < |s.frames| && s.frames[f].state != Failed
    requires f < |s'.frames| && s'.frames[f].state == Failed
    ensures LoadFails(s, u, s', s.frames[f].page)
  {
    hide Inv, PutBytes, MarkDirty, MarkFlushed, ReadIn, Fill, WriteBack, Allocate, Deallocate, TryPop, Push, TakeClean,
      Retake, Vacate, Drain, StartLoad, Publish, Erase, Stamp, MapNew, Begin, LookupHit, LookupMiss, Wake, Record,
      Latch, DropRead, Unlatch, Unpin, Evict, Peek, Decline, PinDirty, LoadDirty, LoadFlushed, LatchShared, Sample,
      Unshare, GiveUp, LoseRace, AllocateFails, RefuseDelete, NotCached, Unlist, PinForFlush, PinByIndex;
    if BytesStep(s, u, s') {
      BytesFail(s, u, s', f);
    } else if FrameStep(s, u, s') {
      FrameFails(s, u, s', f);
      ThreadAt(s, u);
    } else {
      QuietView(s, u, s');
    }
  }

  lemma FetchIntoWait(s: Pool, t: Tid, s': Pool)
    requires FetchStep(s, t, s') && t in s'.threads && s'.threads[t].Waiting?
    ensures LookupHit(s, t, s')
  {
    hide ShardFree, NoWriter, NoReader, NotCreating;
  }

  lemma FlushIntoWait(s: Pool, t: Tid, s': Pool)
    requires FlushStep(s, t, s') && t in s'.threads
    ensures !s'.threads[t].Waiting?
  {
    hide ShardFree, NoWriter;
  }

  lemma BytesIntoWait(s: Pool, t: Tid, s': Pool)
    requires BytesStep(s, t, s') && t in s'.threads
    ensures !s'.threads[t].Waiting?
  {
    hide NotInFlight;
  }

  lemma FrameIntoWait(s: Pool, t: Tid, s': Pool)
    requires FrameStep(s, t, s') && t in s'.threads
    ensures !s'.threads[t].Waiting?
  {
    hide ShardFree;
  }

  lemma OwnStepIntoWait(s: Pool, t: Tid, s': Pool)
    requires Next(s, t, s') && t in s'.threads && s'.threads[t].Waiting?
    ensures LookupHit(s, t, s')
  {
    hide PutBytes, MarkDirty, MarkFlushed, ReadIn, Fill, WriteBack, Allocate, Deallocate, TryPop, Push, TakeClean,
      Retake, Vacate, Drain, StartLoad, Publish, Erase, Fail, Stamp, MapNew, Begin, LookupHit, LookupMiss, Wake, Record,
      Latch, DropRead, Unlatch, Unpin, Evict, Peek, Decline, PinDirty, LoadDirty, LoadFlushed, LatchShared, Sample,
      Unshare, GiveUp, LoseRace, AllocateFails, RefuseDelete, NotCached, Unlist, PinForFlush, PinByIndex;
    if FetchStep(s, t, s') {
      FetchIntoWait(s, t, s');
    } else if FlushStep(s, t, s') {
      FlushIntoWait(s, t, s');
    } else if BytesStep(s, t, s') {
      BytesIntoWait(s, t, s');
    } else {
      FrameIntoWait(s, t, s');
    }
  }

  /** A waiter's first sight of the frame is of a load under way or done, never of a failed one. */
  lemma OwnStepNotVain(s: Pool, t: Tid, s': Pool)
    requires Inv(s) && Next(s, t, s') && t in s.threads && t in s'.threads
    ensures !WaitedInVain(s', t)
  {
    hide Inv, Next;
    if WaitedInVain(s', t) {
      OwnStepIntoWait(s, t, s');
      TableAt(s, s.threads[t].p);
    }
  }

  /** A thread that waits on a failed frame began to wait before the load was given up. */
  lemma {:induction false} VainWaitExplained(r: Run, i: nat, k: nat, t: Tid, p: PageId) returns (n: nat)
    requires IsRun(r) && Inv(r.states[0]) && i <= k < |r.states|
    requires t in r.states[i].threads && !r.states[i].threads[t].Waiting?
    requires WaitedInVain(r.states[k], t) && r.states[k].threads[t].p == p
    ensures i <= n < k && LoadFails(r.states[n], r.movers[n], r.states[n + 1], p)
    decreases k
  {
    hide Inv, Next;
    var s, s', v := r.states[k - 1], r.states[k], r.movers[k - 1];
    RunKeeps(r, k - 1);
    assert StepAt(r, k - 1);
    ThreadMoves(s, v, s');
    if v == t { OwnStepNotVain(s, t, s'); }
    ThreadAt(s, t);
    var f := s'.threads[t].f;
    if s.frames[f].state == Failed {
      n := VainWaitExplained(r, i, k - 1, t, p);
    } else {
      OnlyLoaderFails(s, v, s', f);
      n := k - 1;
    }
  }

  /** Step k takes something away from the fetch: a load of p failed, or t itself found no candidate or
      could not write its victim back. */
  ghost predicate Hindered(r: Run, k: nat, t: Tid, p: PageId)
    requires IsRun(r) && k < |r.movers|
  {
    || LoadFails(r.states[k], r.movers[k], r.states[k + 1], p)
    || (r.movers[k] == t && (NoCandidate(r.states[k], t, r.states[k + 1])
       || WriteFails(r.states[k], t, r.states[k + 1])))
  }

  /**
   * A fetch that has come back has had its guard, or something hindered it while it was on its way.
   */
  lemma {:induction false} FetchYields(r: Run, i: nat, j: nat, t: Tid, p: PageId, w: Mode) returns (k: nat)
    requires IsRun(r) && Inv(r.states[0]) && i <= j < |r.states| && w != New
    requires t in r.states[i].threads && r.states[i].threads[t] == Lookup(p, w)
    requires t in r.states[j].threads && r.states[j].threads[t] == Idle
    ensures i <= k < j
    ensures || (r.movers[k] == t && t in r.states[k + 1].threads && Got(r.states[k + 1].threads[t], ForFetch(p, w)))
            || Hindered(r, k, t, p)
  {
    hide Inv, Next, StepAt;
    k := SeekEnds(r, i, j, t, ForFetch(p, w));
    if !Got(r.states[k + 1].threads[t], ForFetch(p, w)) && WaitedInVain(r.states[k], t) {
      k := VainWaitExplained(r, i, k, t, p);
    }
  }

  /** NewPage likewise: a new page in hand, or no candidate, a failed writeback or a failed allocation. */
  lemma {:induction false} NewPageYields(r: Run, i: nat, j: nat, t: Tid) returns (k: nat)
    requires IsRun(r) && Inv(r.states[0]) && i <= j < |r.states|
    requires t in r.states[i].threads && r.states[i].threads[t] == Acquiring(ForNew)
    requires t in r.states[j].threads && r.states[j].threads[t] == Idle
    ensures i <= k < j && r.movers[k] == t && t in r.states[k].threads && t in r.states[k + 1].threads
    ensures || (r.states[k + 1].threads[t].Guard? && r.states[k + 1].threads[t].w == New)
            || NoCandidate(r.states[k], t, r.states[k + 1]) || WriteFails(r.states[k], t, r.states[k + 1])
            || (r.states[k].threads[t].Owned? && r.states[k + 1].threads[t].Returning?)
  {
    hide Inv, Next, StepAt;
    k := SeekEnds(r, i, j, t, ForNew);
  }

  // ---------- a hit ----------

  /** t has found p resident and pinned it, and has not latched it yet. */
  predicate OnHit(s: Pool, t: Tid, p: PageId, w: Mode) {
    && t in s.threads
    && match s.threads[t]
       case Waiting(q, f, m, _) => q == p && m == w && f < |s.frames| && s.frames[f].state == Resident
       case Recording(q, _, m, _) => q == p && m == w
       case Latching(q, _, m) => q == p && m == w
       case _ => false
  }

  lemma HitOwnStep(s: Pool, t: Tid, s': Pool, p: PageId, w: Mode)
    requires Next(s, t, s') && OnHit(s, t, p, w)
    ensures OnHit(s', t, p, w) || (t in s'.threads && s'.threads[t].Guard? && s'.threads[t].p == p
            && s'.threads[t].w == w)
  {
    hide Next;
    if s.threads[t].Latching? { LatchSteps(s, t, s'); } else { WaitSteps(s, t, s'); }
  }

  lemma LatchSteps(s: Pool, t: Tid, s': Pool)
    requires Next(s, t, s') && t in s.threads && s.threads[t].Latching?
    ensures Latch(s, t, s')
  {
    hide ShardFree, NoWriter, NoReader, NotCreating, NotInFlight;
  }

  lemma HitStep(s: Pool, v: Tid, s': Pool, t: Tid, p: PageId, w: Mode)
    requires Inv(s) && Next(s, v, s') && OnHit(s, t, p, w)
    ensures || OnHit(s', t, p, w)
            || (v == t && t in s'.threads && s'.threads[t].Guard? && s'.threads[t].p == p && s'.threads[t].w == w)
  {
    hide Inv, Next;
    if v == t {
      HitOwnStep(s, t, s', p, w);
    } else {
      ThreadMoves(s, v, s');
      if s.threads[t].Waiting? { PinnedKeepsPage(s, v, s', t, s.threads[t].f); }
    }
  }

  /** A fetch that finds its page resident never comes back without the guard, whatever else happens. */
  lemma {:induction false} HitYields(r: Run, i: nat, j: nat, t: Tid, p: PageId, w: Mode) returns (k: nat)
    requires IsRun(r) && Inv(r.states[0]) && i <= j < |r.states| && OnHit(r.states[i], t, p, w)
    requires t in r.states[j].threads && r.states[j].threads[t] == Idle
    ensures i < k < j && t in r.states[k].threads && r.states[k].threads[t].Guard?
    ensures r.states[k].threads[t].p == p && r.states[k].threads[t].w == w
    decreases j - i
  {
    hide Inv, Next;
    RunKeeps(r, i);
    assert StepAt(r, i);
    HitStep(r.states[i], r.movers[i], r.states[i + 1], t, p, w);
    if OnHit(r.states[i + 1], t, p, w) {
      k := HitYields(r, i + 1, j, t, p, w);
    } else {
      k := i + 1;
    }
  }

  /** A lookup of a resident page is a hit. */
  lemma ResidentIsHit(s: Pool, t: Tid, s': Pool, p: PageId, w: Mode)
    requires Next(s, t, s') && t in s.threads && s.threads[t] == Lookup(p, w)
    requires p in s.table && Carries(s, p, s.table[p], Resident)
    ensures OnHit(s', t, p, w) && PinOf(s'.threads[t]) == Some(s.table[p])
  {
    hide ShardFree, Next;
    LookupSteps(s, t, s');
  }

  // ---------- a hit takes its frame out of the candidates ----------

  /** t holds f, and f is no candidate or t is still to see to that. */
  predicate Unlisted(s: Pool, t: Tid, f: FrameId) {
    && t in s.threads && PinOf(s.threads[t]) == Some(f)
    && (|| f !in s.evictable
        || (s.threads[t].Waiting? && s.threads[t].fromZero && f < |s.frames| && s.frames[f].state == Resident)
        || (s.threads[t].Recording? && s.threads[t].fromZero))
  }

  /** A frame becomes a candidate only when its last pin goes. */
  ghost predicate ListsByUnpin(s: Pool, v: Tid, s': Pool) {
    forall f | f in s'.evictable && f !in s.evictable ::
      Unpin(s, v, s') && s.threads[v].f == f && f < |s.frames| && s.frames[f].pins == 1
  }

  lemma BytesList(s: Pool, v: Tid, s': Pool)
    requires BytesStep(s, v, s')
    ensures s'.evictable == s.evictable
  {
    hide NotInFlight;
  }

  lemma FrameLists(s: Pool, v: Tid, s': Pool)
    requires FrameStep(s, v, s')
    ensures s'.evictable == s.evictable
  {
    hide ShardFree;
  }

  lemma FetchLists(s: Pool, v: Tid, s': Pool)
    requires FetchStep(s, v, s')
    ensures ListsByUnpin(s, v, s')
  {
    hide ShardFree, NoWriter, NoReader, NotCreating;
  }

  lemma FlushLists(s: Pool, v: Tid, s': Pool)
    requires FlushStep(s, v, s')
    ensures s'.evictable <= s.evictable
  {
    hide ShardFree, NoWriter;
  }

  lemma StepLists(s: Pool, v: Tid, s': Pool)
    requires Next(s, v, s')
    ensures ListsByUnpin(s, v, s')
  {
    hide ListsByUnpin, PutBytes, MarkDirty, MarkFlushed, ReadIn, Fill, WriteBack, Allocate, Deallocate, TryPop, Push,
      TakeClean, Retake, Vacate, Drain, StartLoad, Publish, Erase, Fail, Stamp, MapNew, Begin, LookupHit, LookupMiss,
      Wake, Record, Latch, DropRead, Unlatch, Unpin, Evict, Peek, Decline, PinDirty, LoadDirty, LoadFlushed,
      LatchShared, Sample, Unshare, GiveUp, LoseRace, AllocateFails, RefuseDelete, NotCached, Unlist, PinForFlush,
      PinByIndex;
    if BytesStep(s, v, s') {
      BytesList(s, v, s');
      NothingListed(s, v, s');
    } else if FrameStep(s, v, s') {
      FrameLists(s, v, s');
      NothingListed(s, v, s');
    } else if FetchStep(s, v, s') {
      FetchLists(s, v, s');
    } else {
      FlushLists(s, v, s');
      NothingListed(s, v, s');
    }
  }

  lemma NothingListed(s: Pool, v: Tid, s': Pool)
    requires s'.evictable <= s.evictable
    ensures ListsByUnpin(s, v, s')
  {
  }

  lemma WaitSteps(s: Pool, t: Tid, s': Pool)
    requires Next(s, t, s') && t in s.threads && (s.threads[t].Waiting? || s.threads[t].Recording?)
    ensures Wake(s, t, s') || Record(s, t, s')
  {
    hide ShardFree, NoWriter, NoReader, NotCreating, NotInFlight;
  }

  lemma UnlistedOwnStep(s: Pool, t: Tid, s': Pool, f: FrameId)
    requires Next(s, t, s') && Unlisted(s, t, f) && t in s'.threads && PinOf(s'.threads[t]) == Some(f)
    ensures Unlisted(s', t, f)
  {
    hide Next;
    if s.threads[t].Waiting? || s.threads[t].Recording? {
      WaitSteps(s, t, s');
    } else {
      StepLists(s, t, s');
    }
  }

  /** Nobody lists a frame that t holds: the last unpin is not theirs to make. */
  lemma OthersDoNotList(s: Pool, v: Tid, s': Pool, t: Tid, f: FrameId)
    requires Inv(s) && Next(s, v, s') && v != t && t in s.threads && PinOf(s.threads[t]) == Some(f)
    ensures f in s'.evictable ==> f in s.evictable
  {
    hide Inv, Next;
    StepLists(s, v, s');
    if f in s'.evictable && f !in s.evictable { TwoHolders(s, t, v, f); }
  }

  lemma TwoHolders(s: Pool, t: Tid, v: Tid, f: FrameId)
    requires Inv(s) && t != v && t in s.threads && v in s.threads && f < |s.frames|
    requires PinOf(s.threads[t]) == Some(f) == PinOf(s.threads[v])
    ensures s.frames[f].pins >= 2
  {
    assert {t, v} <= Holders(s, f);
    SubsetSize({t, v}, Holders(s, f));
  }

  lemma SubsetSize(a: set<Tid>, b: set<Tid>)
    requires a <= b
    ensures |a| <= |b|
  {
    assert b == a + (b - a);
  }

  /** While a thread holds a frame it was the first to pin, from its lookup to the drop of its guard, the
      frame is no candidate, once it has seen to that. */
  lemma {:induction false} HeldIsUnlisted(r: Run, i: nat, j: nat, t: Tid, f: FrameId)
    requires IsRun(r) && Inv(r.states[0]) && i <= j < |r.states| && Unlisted(r.states[i], t, f)
    requires forall n | i <= n <= j :: t in r.states[n].threads && PinOf(r.states[n].threads[t]) == Some(f)
    ensures Unlisted(r.states[j], t, f)
    decreases j
  {
    hide Inv, Next;
    if i < j {
      HeldIsUnlisted(r, i, j - 1, t, f);
      var s, s', v := r.states[j - 1], r.states[j], r.movers[j - 1];
      RunKeeps(r, j - 1);
      assert StepAt(r, j - 1);
      if v == t {
        UnlistedOwnStep(s, t, s', f);
      } else {
        ThreadMoves(s, v, s');
        OthersDoNotList(s, v, s', t, f);
        PinnedKeepsPage(s, v, s', t, f);
      }
    }
  }

  /** In particular, under its guard. */
  lemma {:induction false} GuardedIsUnlisted(r: Run, i: nat, j: nat, t: Tid, f: FrameId)
    requires IsRun(r) && Inv(r.states[0]) && i < j < |r.states| && r.movers[i] == t
    requires t in r.states[i].threads && r.states[i].threads[t].Lookup?
    requires f < |r.states[i].frames| && r.states[i].frames[f].pins == 0
    requires forall n | i < n <= j :: t in r.states[n].threads && PinOf(r.states[n].threads[t]) == Some(f)
    requires r.states[j].threads[t].Guard?
    ensures f !in r.states[j].evictable
  {
    hide Inv, Next, Unlisted;
    RunKeeps(r, i);
    assert StepAt(r, i);
    FirstPinner(r.states[i], t, r.states[i + 1], f);
    HeldIsUnlisted(r, i + 1, j, t, f);
    UnlistedGuard(r.states[j], t, f);
  }

  lemma UnlistedGuard(s: Pool, t: Tid, f: FrameId)
    requires Unlisted(s, t, f) && s.threads[t].Guard?
    ensures f !in s.evictable
  {
  }

  lemma FirstPinner(s: Pool, t: Tid, s': Pool, f: FrameId)
    requires Inv(s) && Next(s, t, s') && t in s.threads && s.threads[t].Lookup? && t in s'.threads
    requires PinOf(s'.threads[t]) == Some(f) && f < |s.frames| && s.frames[f].pins == 0
    ensures Unlisted(s', t, f)
  {
    hide Inv, ShardFree, Next;
    LookupSteps(s, t, s');
    if LookupHit(s, t, s') { UnpinnedIsResident(s, s.threads[t].p); }
  }

  lemma LookupSteps(s: Pool, t: Tid, s': Pool)
    requires Next(s, t, s') && t in s.threads && s.threads[t].Lookup?
    ensures LookupHit(s, t, s') || LookupMiss(s, t, s')
  {
    hide ShardFree, NoWriter, NoReader, NotCreating, NotInFlight;
  }
}
