/**
 * The pool's own assertions.  All but one hold at every program point that reaches them, in every run.  The
 * one about the page id of an abandoned load holds exactly for loads of page 1 and above, which the fetch
 * does not ask of its caller.
 */
module PoolAssertions {
  import opened Common
  import opened PoolModel
  import opened PoolInvariant
  import opened PoolSteps
  import opened PoolFrames
  import opened PoolTheorems
  import opened PoolDeletion
  import opened PoolWitness

  /** The frame a thread is about to look at. */
  function FrameOf(pc: Pc): Option<FrameId> {
    match pc
    case Peeking(_, f) => Some(f)
    case Validating(_, f, _) => Some(f)
    case FlushIndex(f) => Some(f)
    case _ => if PinOf(pc).Some? then PinOf(pc) else ClaimOf(pc)
  }

  /** Pin counts above zero, states on wake, mappings of victims, no page mapped twice, the state of a page
      under deletion, and every frame index within bounds. */
  lemma AssertionsHold(s: Pool, t: Tid)
    requires Inv(s) && t in s.threads
    ensures FrameOf(s.threads[t]).Some? ==> FrameOf(s.threads[t]).value < |s.frames|
    ensures match s.threads[t]
            case Waiting(_, f, _, _) => s.frames[f].state != Free
            case Unpinning(_, f, _) => s.frames[f].pins > 0
            case Validating(_, f, p) => StillVictim(s, f, p, 0) ==> Mapped(s, p, f)
            case Retaking(_, p, f) => StillVictim(s, f, p, 1) ==> Mapped(s, p, f)
            case Mapping(p, _) => p !in s.table
            case Deleting(p) =>
              p in s.table ==>
                s.table[p] < |s.frames|
                && (s.frames[s.table[p]].pins == 0 ==> Carries(s, p, s.table[p], Resident))
            case _ => true
  {
    hide Inv;
    ThreadAt(s, t);
    match s.threads[t]
    case Unpinning(_, _, _) => PinnedFrame(s, t);
    case Validating(_, f, p) => if StillVictim(s, f, p, 0) { UnpinnedIsMapped(s, f); }
    case Deleting(p) =>
      if p in s.table {
        TableAt(s, p);
        if s.frames[s.table[p]].pins == 0 { UnpinnedIsResident(s, p); }
      }
    case _ =>
  }

  // ---------- the page id of an abandoned load ----------

  /** The assertion, wherever a thread is in the section that makes it. */
  ghost predicate AbandonOk(s: Pool) {
    forall t | t in s.threads && (s.threads[t].Failing? || s.threads[t].Draining?) ::
      s.threads[t].f < |s.frames| && s.frames[s.threads[t].f].page >= 1
  }

  function GoalPage(g: Goal): Option<PageId> { if g.ForFetch? then Some(g.page) else None }

  function ThenPage(k: Then): Option<PageId> { if k.Reclaim? then GoalPage(k.goal) else None }

  /** The page a thread is loading, or means to. */
  function LoadOf(pc: Pc): Option<PageId> {
    match pc
    case Lookup(p, _) => Some(p)
    case Acquiring(g) => GoalPage(g)
    case Evicting(g) => GoalPage(g)
    case Peeking(g, _) => GoalPage(g)
    case Validating(g, _, _) => GoalPage(g)
    case Retaking(g, _, _) => GoalPage(g)
    case Owned(g, _) => GoalPage(g)
    case Returning(_, again) => if again.Some? then Some(again.value.0) else None
    case Unpinning(_, _, after) => if after.Again? then GoalPage(after.goal) else None
    case TestDirty(_, _, k) => ThenPage(k)
    case TestFlushed(_, _, k, _) => ThenPage(k)
    case AwaitShared(_, _, k) => ThenPage(k)
    case Sampling(_, _, k) => ThenPage(k)
    case Writing(_, _, k, _) => ThenPage(k)
    case Written(_, _, k, _, _) => ThenPage(k)
    case Marking(_, _, k, _) => ThenPage(k)
    case Reading(p, _, _) => Some(p)
    case Erasing(p, _) => Some(p)
    case Failing(p, _) => Some(p)
    case Draining(p, _) => Some(p)
    case _ => None
  }

  /** The caller asks for p. */
  ghost predicate Asks(s: Pool, t: Tid, s': Pool, p: PageId) {
    Begin(s, t, s') && s'.threads[t].Lookup? && s'.threads[t].p == p
  }

  /** A load is of the page it was of, or of one just asked for. */
  ghost predicate SameLoad(s: Pool, t: Tid, s': Pool) {
    && t in s.threads && t in s'.threads
    && var l := LoadOf(s'.threads[t]);
    l.Some? ==> LoadOf(s.threads[t]) == l || Asks(s, t, s', l.value)
  }

  lemma LookupLoads(s: Pool, t: Tid, s': Pool)
    requires Begin(s, t, s') || LookupHit(s, t, s') || LookupMiss(s, t, s') || Wake(s, t, s') || Record(s, t, s')
    ensures SameLoad(s, t, s')
  {
    hide ShardFree, NotCreating;
  }

  lemma GuardLoads(s: Pool, t: Tid, s': Pool)
    requires Latch(s, t, s') || DropRead(s, t, s') || Unlatch(s, t, s') || Unpin(s, t, s')
    ensures SameLoad(s, t, s')
  {
    hide Asks, NoWriter, NoReader;
  }

  lemma DeleteLoads(s: Pool, t: Tid, s': Pool)
    requires AllocateFails(s, t, s') || RefuseDelete(s, t, s') || NotCached(s, t, s') || Unlist(s, t, s')
    ensures SameLoad(s, t, s')
  {
    hide Asks, ShardFree;
  }

  lemma FetchLoads(s: Pool, t: Tid, s': Pool)
    requires FetchStep(s, t, s')
    ensures SameLoad(s, t, s')
  {
    hide SameLoad, Begin, LookupHit, LookupMiss, Wake, Record, Latch, DropRead, Unlatch, Unpin, AllocateFails,
      RefuseDelete, NotCached, Unlist;
    if Begin(s, t, s') || LookupHit(s, t, s') || LookupMiss(s, t, s') || Wake(s, t, s') || Record(s, t, s') {
      LookupLoads(s, t, s');
    } else if Latch(s, t, s') || DropRead(s, t, s') || Unlatch(s, t, s') || Unpin(s, t, s') {
      GuardLoads(s, t, s');
    } else {
      DeleteLoads(s, t, s');
    }
  }

  lemma ReclaimLoads(s: Pool, t: Tid, s': Pool)
    requires || Evict(s, t, s') || Peek(s, t, s') || Decline(s, t, s') || PinDirty(s, t, s')
             || GiveUp(s, t, s') || LoseRace(s, t, s')
    ensures SameLoad(s, t, s')
  {
    hide Asks, ShardFree;
  }

  lemma WritebackLoads(s: Pool, t: Tid, s': Pool)
    requires LoadDirty(s, t, s') || LoadFlushed(s, t, s') || LatchShared(s, t, s') || Sample(s, t, s')
    ensures SameLoad(s, t, s')
  {
    hide Asks, NoWriter;
  }

  lemma FlushEntryLoads(s: Pool, t: Tid, s': Pool)
    requires Unshare(s, t, s') || PinForFlush(s, t, s') || PinByIndex(s, t, s')
    ensures SameLoad(s, t, s')
  {
    hide Asks, ShardFree;
  }

  lemma FlushLoads(s: Pool, t: Tid, s': Pool)
    requires FlushStep(s, t, s')
    ensures SameLoad(s, t, s')
  {
    hide SameLoad, Evict, Peek, Decline, PinDirty, LoadDirty, LoadFlushed, LatchShared, Sample, Unshare, GiveUp,
      LoseRace, PinForFlush, PinByIndex;
    if Evict(s, t, s') || Peek(s, t, s') || Decline(s, t, s') || PinDirty(s, t, s') || GiveUp(s, t, s')
      || LoseRace(s, t, s') {
      ReclaimLoads(s, t, s');
    } else if LoadDirty(s, t, s') || LoadFlushed(s, t, s') || LatchShared(s, t, s') || Sample(s, t, s') {
      WritebackLoads(s, t, s');
    } else {
      FlushEntryLoads(s, t, s');
    }
  }

  lemma EpochLoads(s: Pool, t: Tid, s': Pool)
    requires PutBytes(s, t, s') || MarkDirty(s, t, s') || MarkFlushed(s, t, s')
    ensures SameLoad(s, t, s')
  {
    hide Asks;
  }

  lemma ReadLoads(s: Pool, t: Tid, s': Pool)
    requires ReadIn(s, t, s')
    ensures SameLoad(s, t, s')
  {
    hide Asks;
  }

  lemma DiskLoads(s: Pool, t: Tid, s': Pool)
    requires Fill(s, t, s') || WriteBack(s, t, s') || Allocate(s, t, s') || Deallocate(s, t, s')
    ensures SameLoad(s, t, s')
  {
    hide Asks, NotInFlight;
  }

  lemma BytesLoads(s: Pool, t: Tid, s': Pool)
    requires BytesStep(s, t, s')
    ensures SameLoad(s, t, s')
  {
    hide SameLoad, PutBytes, MarkDirty, MarkFlushed, ReadIn, Fill, WriteBack, Allocate, Deallocate;
    if PutBytes(s, t, s') || MarkDirty(s, t, s') || MarkFlushed(s, t, s') {
      EpochLoads(s, t, s');
    } else if ReadIn(s, t, s') {
      ReadLoads(s, t, s');
    } else {
      DiskLoads(s, t, s');
    }
  }

  lemma StockLoads(s: Pool, t: Tid, s': Pool)
    requires || TryPop(s, t, s') || Push(s, t, s') || TakeClean(s, t, s') || Retake(s, t, s') || Vacate(s, t, s')
             || Drain(s, t, s')
    ensures SameLoad(s, t, s')
  {
    hide Asks, ShardFree;
  }

  lemma MissLoads(s: Pool, t: Tid, s': Pool)
    requires StartLoad(s, t, s') || Publish(s, t, s') || Erase(s, t, s')
    ensures SameLoad(s, t, s')
  {
    hide Asks, ShardFree;
  }

  lemma NewLoads(s: Pool, t: Tid, s': Pool)
    requires Fail(s, t, s') || Stamp(s, t, s') || MapNew(s, t, s')
    ensures SameLoad(s, t, s')
  {
    hide Asks, ShardFree;
  }

  lemma FrameLoads(s: Pool, t: Tid, s': Pool)
    requires FrameStep(s, t, s')
    ensures SameLoad(s, t, s')
  {
    hide SameLoad, TryPop, Push, TakeClean, Retake, Vacate, Drain, StartLoad, Publish, Erase, Fail, Stamp, MapNew;
    if StartLoad(s, t, s') || Publish(s, t, s') || Erase(s, t, s') {
      MissLoads(s, t, s');
    } else if Fail(s, t, s') || Stamp(s, t, s') || MapNew(s, t, s') {
      NewLoads(s, t, s');
    } else {
      StockLoads(s, t, s');
    }
  }

  lemma LoadStep(s: Pool, t: Tid, s': Pool)
    requires Next(s, t, s')
    ensures SameLoad(s, t, s')
  {
    hide SameLoad, PutBytes, MarkDirty, MarkFlushed, ReadIn, Fill, WriteBack, Allocate, Deallocate, TryPop, Push,
      TakeClean, Retake, Vacate, Drain, StartLoad, Publish, Erase, Fail, Stamp, MapNew, Begin, LookupHit, LookupMiss,
      Wake, Record, Latch, DropRead, Unlatch, Unpin, Evict, Peek, Decline, PinDirty, LoadDirty, LoadFlushed,
      LatchShared, Sample, Unshare, GiveUp, LoseRace, AllocateFails, RefuseDelete, NotCached, Unlist, PinForFlush,
      PinByIndex;
    if BytesStep(s, t, s') {
      BytesLoads(s, t, s');
    } else if FrameStep(s, t, s') {
      FrameLoads(s, t, s');
    } else if FetchStep(s, t, s') {
      FetchLoads(s, t, s');
    } else {
      FlushLoads(s, t, s');
    }
  }

  /** Callers fetch pages of `ids` only. */
  ghost predicate Fetches(r: Run, ids: iset<PageId>)
    requires IsRun(r)
  {
    forall i, p | 0 <= i < |r.movers| && Asks(r.states[i], r.movers[i], r.states[i + 1], p) :: p in ids
  }

  ghost predicate LoadsFrom(s: Pool, ids: iset<PageId>) {
    forall t | t in s.threads && LoadOf(s.threads[t]).Some? ::
      LoadOf(s.threads[t]).value in ids && CanFetch(LoadOf(s.threads[t]).value)
  }

  lemma LoadsFromStep(s: Pool, t: Tid, s': Pool, ids: iset<PageId>)
    requires Inv(s) && Next(s, t, s') && LoadsFrom(s, ids)
    requires forall p | Asks(s, t, s', p) :: p in ids
    ensures LoadsFrom(s', ids)
  {
    hide Inv, Next, LoadOf;
    LoadStep(s, t, s');
    ThreadMoves(s, t, s');
    forall u | u in s'.threads && LoadOf(s'.threads[u]).Some?
      ensures LoadOf(s'.threads[u]).value in ids && CanFetch(LoadOf(s'.threads[u]).value)
    {
      if u != t { assert s'.threads[u] == s.threads[u]; }
    }
  }

  lemma {:induction false} RunLoads(r: Run, ids: iset<PageId>, i: nat)
    requires IsRun(r) && Init(r.states[0]) && Fetches(r, ids) && i < |r.states|
    ensures LoadsFrom(r.states[i], ids)
  {
    hide Inv, Next, Asks;
    if i > 0 {
      RunLoads(r, ids, i - 1);
      FreshRunKeeps(r, i - 1);
      assert StepAt(r, i - 1);
      LoadsFromStep(r.states[i - 1], r.movers[i - 1], r.states[i], ids);
    }
  }

  /** The frame of an abandoned load carries the page that was asked for, so the assertion is about that. */
  lemma AbandonIsLoad(s: Pool, t: Tid)
    requires Inv(s) && t in s.threads && (s.threads[t].Failing? || s.threads[t].Draining?)
    ensures s.threads[t].f < |s.frames| && LoadOf(s.threads[t]) == Some(s.frames[s.threads[t].f].page)
  {
    hide Inv;
    ThreadAt(s, t);
  }

  lemma AbandonSafe(s: Pool, ids: iset<PageId>)
    requires Inv(s) && LoadsFrom(s, ids) && forall p | p in ids && CanFetch(p) :: p >= 1
    ensures AbandonOk(s)
  {
    hide Inv;
    forall t | t in s.threads && (s.threads[t].Failing? || s.threads[t].Draining?)
      ensures s.threads[t].f < |s.frames| && s.frames[s.threads[t].f].page >= 1
    {
      AbandonIsLoad(s, t);
    }
  }

  /** The assertion never fails in runs of this pool whose callers fetch from `ids`. */
  ghost predicate NeverFails(s: Pool, ids: iset<PageId>) {
    forall r: Run, i: nat | IsRun(r) && r.states[0] == s && Fetches(r, ids) && i < |r.states| :: AbandonOk(r.states[i])
  }

  /** A path asks for its own page only. */
  lemma PathFetches(r: Run, s: Pool, t: Tid, p: PageId, s': Pool, ids: iset<PageId>)
    requires Path(r, s, t, p, s') && p in ids
    ensures Fetches(r, ids)
  {
    forall i, q | 0 <= i < |r.movers| && Asks(r.states[i], r.movers[i], r.states[i + 1], q) ensures q in ids {
      assert Tries(r.states[i + 1], t, p);
    }
  }

  /**
   * For any set of page ids callers may fetch from and any fresh pool with a frame and a thread: in all
   * runs the assertion holds, if and only if every id of the set is at least 1 or one the fetch refuses.
   */
  lemma {:induction false} AbandonExact(s: Pool, ids: iset<PageId>)
    requires Init(s) && s.frames != [] && s.threads != map[]
    ensures NeverFails(s, ids) <==> forall p | p in ids && CanFetch(p) :: p >= 1
  {
    hide Inv, Init, StepAt, Fetches, Path, Next;
    if forall p | p in ids && CanFetch(p) :: p >= 1 {
      forall r: Run, i: nat | IsRun(r) && r.states[0] == s && Fetches(r, ids) && i < |r.states|
        ensures AbandonOk(r.states[i]) {
        FreshRunKeeps(r, i);
        RunLoads(r, ids, i);
        AbandonSafe(r.states[i], ids);
      }
    } else {
      var p :| p in ids && CanFetch(p) && p < 1;
      var t :| t in s.threads;
      var r, s' := FailedFetch(s, t, p);
      PathFetches(r, s, t, p, s', ids);
      PathEnds(r, s, t, p, s');
      assert !AbandonOk(s');
    }
  }

  lemma PathEnds(r: Run, s: Pool, t: Tid, p: PageId, s': Pool)
    requires Path(r, s, t, p, s')
    ensures IsRun(r) && r.states[0] == s && t in s'.threads && exists i: nat :: i < |r.states| && r.states[i] == s'
  {
    assert r.states[|r.states| - 1] == s';
  }
}
