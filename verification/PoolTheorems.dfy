/**
 * What holds of the pool in every run: the invariant, agreement with a plain page store, and the
 * guarantees each operation gives its caller.
 */
module PoolTheorems {
  import opened Common
  import opened PoolModel
  import opened PoolInvariant
  import opened PoolQuiet
  import opened PoolSteps
  import opened PoolBytes
  import opened PoolFrames

  ghost predicate BytesStep(s: Pool, t: Tid, s': Pool) {
    || PutBytes(s, t, s') || MarkDirty(s, t, s') || MarkFlushed(s, t, s') || ReadIn(s, t, s') || Fill(s, t, s')
    || WriteBack(s, t, s') || Allocate(s, t, s') || Deallocate(s, t, s')
  }

  ghost predicate FrameStep(s: Pool, t: Tid, s': Pool) {
    || TryPop(s, t, s') || Push(s, t, s') || TakeClean(s, t, s') || Retake(s, t, s') || Vacate(s, t, s')
    || Drain(s, t, s')
    || StartLoad(s, t, s') || Publish(s, t, s') || Erase(s, t, s') || Fail(s, t, s') || Stamp(s, t, s')
    || MapNew(s, t, s')
  }

  lemma BytesStepKeeps(s: Pool, t: Tid, s': Pool)
    requires Inv(s) && BytesStep(s, t, s')
    ensures Inv(s')
  {
    hide Inv, PutBytes, MarkDirty, MarkFlushed, ReadIn, Fill, WriteBack, Allocate, Deallocate;
    if PutBytes(s, t, s') { PutBytesKeeps(s, t, s'); }
    else if MarkDirty(s, t, s') { MarkDirtyKeeps(s, t, s'); }
    else if MarkFlushed(s, t, s') { MarkFlushedKeeps(s, t, s'); }
    else if ReadIn(s, t, s') { ReadInKeeps(s, t, s'); }
    else if Fill(s, t, s') { FillKeeps(s, t, s'); }
    else if WriteBack(s, t, s') { WriteBackKeeps(s, t, s'); }
    else if Allocate(s, t, s') { AllocateKeeps(s, t, s'); }
    else { DeallocateKeeps(s, t, s'); }
  }

  lemma FrameStepKeepsInv(s: Pool, t: Tid, s': Pool)
    requires Inv(s) && FrameStep(s, t, s')
    ensures Inv(s')
  {
    hide Inv, TryPop, Push, TakeClean, Retake, Vacate, Drain, StartLoad, Publish, Erase, Fail, Stamp, MapNew;
    if TryPop(s, t, s') { TryPopKeeps(s, t, s'); }
    else if Push(s, t, s') { PushKeeps(s, t, s'); }
    else if TakeClean(s, t, s') { TakeCleanKeeps(s, t, s'); }
    else if Retake(s, t, s') { RetakeKeeps(s, t, s'); }
    else if Vacate(s, t, s') { VacateKeeps(s, t, s'); }
    else if Drain(s, t, s') { DrainKeeps(s, t, s'); }
    else if StartLoad(s, t, s') { StartLoadKeeps(s, t, s'); }
    else if Publish(s, t, s') { PublishKeeps(s, t, s'); }
    else if Erase(s, t, s') { EraseKeeps(s, t, s'); }
    else if Fail(s, t, s') { FailKeeps(s, t, s'); }
    else if Stamp(s, t, s') { StampKeeps(s, t, s'); }
    else { MapNewKeeps(s, t, s'); }
  }

  ghost predicate FetchStep(s: Pool, t: Tid, s': Pool) {
    || Begin(s, t, s') || LookupHit(s, t, s') || LookupMiss(s, t, s') || Wake(s, t, s') || Record(s, t, s')
    || Latch(s, t, s') || DropRead(s, t, s') || Unlatch(s, t, s') || Unpin(s, t, s')
    || AllocateFails(s, t, s') || RefuseDelete(s, t, s') || NotCached(s, t, s') || Unlist(s, t, s')
  }

  ghost predicate FlushStep(s: Pool, t: Tid, s': Pool) {
    || Evict(s, t, s') || Peek(s, t, s') || Decline(s, t, s') || PinDirty(s, t, s') || LoadDirty(s, t, s')
    || LoadFlushed(s, t, s')
    || LatchShared(s, t, s') || Sample(s, t, s') || Unshare(s, t, s') || GiveUp(s, t, s') || LoseRace(s, t, s')
    || PinForFlush(s, t, s') || PinByIndex(s, t, s')
  }

  ghost predicate QuietStep(s: Pool, t: Tid, s': Pool) { FetchStep(s, t, s') || FlushStep(s, t, s') }

  lemma LookupView(s: Pool, t: Tid, s': Pool)
    requires Begin(s, t, s') || LookupHit(s, t, s') || LookupMiss(s, t, s') || Wake(s, t, s') || Record(s, t, s')
    ensures Moves(s, t, s') && SameView(s, s')
  {
    hide ShardFree, NoWriter, NoReader, NotCreating;
  }

  lemma GuardView(s: Pool, t: Tid, s': Pool)
    requires Latch(s, t, s') || DropRead(s, t, s') || Unlatch(s, t, s') || Unpin(s, t, s')
    ensures Moves(s, t, s') && SameView(s, s')
  {
    hide ShardFree, NoWriter, NoReader, NotCreating;
  }

  lemma DeleteView(s: Pool, t: Tid, s': Pool)
    requires AllocateFails(s, t, s') || RefuseDelete(s, t, s') || NotCached(s, t, s') || Unlist(s, t, s')
    ensures Moves(s, t, s') && SameView(s, s')
  {
    hide ShardFree, NoWriter, NoReader, NotCreating;
  }

  lemma ReclaimView(s: Pool, t: Tid, s': Pool)
    requires Evict(s, t, s') || Peek(s, t, s') || Decline(s, t, s') || PinDirty(s, t, s') || LoadDirty(s, t, s')
             || LoadFlushed(s, t, s')
    ensures Moves(s, t, s') && SameView(s, s')
  {
    hide ShardFree, NoWriter, NoReader, NotCreating;
  }

  lemma WritebackView(s: Pool, t: Tid, s': Pool)
    requires LatchShared(s, t, s') || Sample(s, t, s') || Unshare(s, t, s') || GiveUp(s, t, s') || LoseRace(s, t, s')
    ensures Moves(s, t, s') && SameView(s, s')
  {
    hide ShardFree, NoWriter, NoReader, NotCreating;
  }

  lemma FlushEntryView(s: Pool, t: Tid, s': Pool)
    requires PinForFlush(s, t, s') || PinByIndex(s, t, s')
    ensures Moves(s, t, s') && SameView(s, s')
  {
    hide ShardFree, NoWriter, NoReader, NotCreating;
  }

  lemma FetchStepView(s: Pool, t: Tid, s': Pool)
    requires FetchStep(s, t, s')
    ensures Moves(s, t, s') && SameView(s, s')
  {
    hide Moves, SameView, Begin, LookupHit, LookupMiss, Wake, Record, Latch, DropRead, Unlatch, Unpin, AllocateFails,
      RefuseDelete, NotCached, Unlist;
    if Begin(s, t, s') || LookupHit(s, t, s') || LookupMiss(s, t, s') || Wake(s, t, s') || Record(s, t, s') {
      LookupView(s, t, s');
    } else if Latch(s, t, s') || DropRead(s, t, s') || Unlatch(s, t, s') || Unpin(s, t, s') {
      GuardView(s, t, s');
    } else {
      DeleteView(s, t, s');
    }
  }

  lemma FlushStepView(s: Pool, t: Tid, s': Pool)
    requires FlushStep(s, t, s')
    ensures Moves(s, t, s') && SameView(s, s')
  {
    hide Moves, SameView, Evict, Peek, Decline, PinDirty, LoadDirty, LoadFlushed, LatchShared, Sample, Unshare, GiveUp,
      LoseRace, PinForFlush, PinByIndex;
    if Evict(s, t, s') || Peek(s, t, s') || Decline(s, t, s') || PinDirty(s, t, s') || LoadDirty(s, t, s')
      || LoadFlushed(s, t, s') {
      ReclaimView(s, t, s');
    } else if LatchShared(s, t, s') || Sample(s, t, s') || Unshare(s, t, s') || GiveUp(s, t, s') || LoseRace(s, t, s') {
      WritebackView(s, t, s');
    } else {
      FlushEntryView(s, t, s');
    }
  }

  lemma QuietView(s: Pool, t: Tid, s': Pool)
    requires QuietStep(s, t, s')
    ensures Moves(s, t, s') && SameView(s, s')
  {
    hide FetchStep, FlushStep;
    if FetchStep(s, t, s') { FetchStepView(s, t, s'); } else { FlushStepView(s, t, s'); }
  }

  lemma QuietStepKeeps(s: Pool, t: Tid, s': Pool)
    requires Inv(s) && QuietStep(s, t, s')
    ensures Inv(s')
  {
    hide Inv, Begin, LookupHit, LookupMiss, Wake, Record, Latch, DropRead, Unlatch, Unpin, Evict, Peek, Decline,
      PinDirty, LoadDirty, LoadFlushed, LatchShared, Sample, Unshare, GiveUp, LoseRace, AllocateFails, RefuseDelete,
      NotCached, Unlist, PinForFlush, PinByIndex;
    if Begin(s, t, s') { BeginKeeps(s, t, s'); }
    else if LookupHit(s, t, s') { LookupHitKeeps(s, t, s'); }
    else if LookupMiss(s, t, s') { LookupMissKeeps(s, t, s'); }
    else if Wake(s, t, s') { WakeKeeps(s, t, s'); }
    else if Record(s, t, s') { RecordKeeps(s, t, s'); }
    else if Latch(s, t, s') { LatchKeeps(s, t, s'); }
    else if DropRead(s, t, s') { DropReadKeeps(s, t, s'); }
    else if Unlatch(s, t, s') { UnlatchKeeps(s, t, s'); }
    else if Unpin(s, t, s') { UnpinKeeps(s, t, s'); }
    else if Evict(s, t, s') { EvictKeeps(s, t, s'); }
    else if Peek(s, t, s') { PeekKeeps(s, t, s'); }
    else if Decline(s, t, s') { DeclineKeeps(s, t, s'); }
    else if PinDirty(s, t, s') { PinDirtyKeeps(s, t, s'); }
    else if LoadDirty(s, t, s') { LoadDirtyKeeps(s, t, s'); }
    else if LoadFlushed(s, t, s') { LoadFlushedKeeps(s, t, s'); }
    else if LatchShared(s, t, s') { LatchSharedKeeps(s, t, s'); }
    else if Sample(s, t, s') { SampleKeeps(s, t, s'); }
    else if Unshare(s, t, s') { UnshareKeeps(s, t, s'); }
    else if GiveUp(s, t, s') { GiveUpKeeps(s, t, s'); }
    else if LoseRace(s, t, s') { LoseRaceKeeps(s, t, s'); }
    else if AllocateFails(s, t, s') { AllocateFailsKeeps(s, t, s'); }
    else if RefuseDelete(s, t, s') { RefuseDeleteKeeps(s, t, s'); }
    else if NotCached(s, t, s') { NotCachedKeeps(s, t, s'); }
    else if Unlist(s, t, s') { UnlistKeeps(s, t, s'); }
    else if PinForFlush(s, t, s') { PinForFlushKeeps(s, t, s'); }
    else { PinByIndexKeeps(s, t, s'); }
  }

  /** Every step of every thread keeps the invariant. */
  lemma NextKeeps(s: Pool, t: Tid, s': Pool)
    requires Inv(s) && Next(s, t, s')
    ensures Inv(s')
  {
    hide Inv, PutBytes, MarkDirty, MarkFlushed, ReadIn, Fill, WriteBack, Allocate, Deallocate, TryPop, Push, TakeClean,
      Retake, Vacate, Drain, StartLoad, Publish, Erase, Fail, Stamp, MapNew, Begin, LookupHit, LookupMiss, Wake, Record,
      Latch, DropRead, Unlatch, Unpin, Evict, Peek, Decline, PinDirty, LoadDirty, LoadFlushed, LatchShared, Sample,
      Unshare, GiveUp, LoseRace, AllocateFails, RefuseDelete, NotCached, Unlist, PinForFlush, PinByIndex;
    if BytesStep(s, t, s') {
      BytesStepKeeps(s, t, s');
    } else if FrameStep(s, t, s') {
      FrameStepKeepsInv(s, t, s');
    } else {
      QuietStepKeeps(s, t, s');
    }
  }

  // ---------- runs ----------

  /** A finite run: who moved at each step, and the states in between. */
  datatype Run = Run(states: seq<Pool>, movers: seq<Tid>)

  ghost predicate IsRun(r: Run) {
    && |r.states| == |r.movers| + 1
    && forall i | 0 <= i < |r.movers| :: StepAt(r, i)
  }

  ghost predicate StepAt(r: Run, i: nat)
    requires i < |r.movers| < |r.states|
  {
    Next(r.states[i], r.movers[i], r.states[i + 1])
  }

  /** The invariant holds throughout every run that starts in it. */
  lemma {:induction false} RunKeeps(r: Run, i: nat)
    requires IsRun(r) && Inv(r.states[0]) && i < |r.states|
    ensures Inv(r.states[i])
  {
    hide Inv, Next;
    if i > 0 {
      RunKeeps(r, i - 1);
      assert StepAt(r, i - 1);
      NextKeeps(r.states[i - 1], r.movers[i - 1], r.states[i]);
    }
  }

  lemma {:induction false} FreshRunKeeps(r: Run, i: nat)
    requires IsRun(r) && Init(r.states[0]) && i < |r.states|
    ensures Inv(r.states[i])
  {
    hide Inv, Next, Init;
    InitInv(r.states[0]);
    RunKeeps(r, i);
  }

  // ---------- the pool refines a plain page store ----------

  /** What a page holds, as seen through the pool: its resident frame's bytes, else the disk's. */
  function Logical(s: Pool, p: PageId): Option<Content> {
    if p in s.table && s.table[p] < |s.frames| && s.frames[s.table[p]].state == Resident then
      Some(s.frames[s.table[p]].data)
    else if p in s.disk then Some(s.disk[p])
    else None
  }

  /** What a step does to the store: nothing, or one of the things a caller asked for. */
  datatype Effect =
    | Silent
    | Wrote(p: PageId, c: Content)
    | Allocated(p: PageId)
    | Created(p: PageId)
    | Dropped(p: PageId)
    | Freed(p: PageId)

  ghost predicate HasEffect(s: Pool, t: Tid, s': Pool, e: Effect) {
    match e
    case Silent => Next(s, t, s')
    case Wrote(p, c) => PutBytes(s, t, s') && p == s.threads[t].p && s'.frames[s.threads[t].f].data == c
    case Allocated(p) => Allocate(s, t, s') && p == s'.threads[t].p
    case Created(p) => MapNew(s, t, s') && p == s.threads[t].p
    case Dropped(p) => Vacate(s, t, s') && p == s.threads[t].p
    case Freed(p) => Deallocate(s, t, s') && s'.disk != s.disk && p == s.threads[t].p
  }

  /** The plain store's answer to each effect. */
  ghost predicate StoreStep(s: Pool, e: Effect, s': Pool) {
    match e
    case Silent => forall q: PageId :: Logical(s', q) == Logical(s, q)
    case Wrote(p, c) => forall q: PageId :: Logical(s', q) == if q == p then Some(c) else Logical(s, q)
    case Allocated(p) =>
      && (Logical(s, p).Some? ==> Logical(s, p).value.kind == FREE)
      && forall q: PageId :: Logical(s', q) == if q == p then Some(Reissued(p, Logical(s, p))) else Logical(s, q)
    case Created(p) => forall q: PageId :: Logical(s', q) == if q == p then Some(Blank(p)) else Logical(s, q)
    case Dropped(p) =>
      && p in s.disk && (!Unsaved(s, p) ==> OnDisk(s, p) == Logical(s, p))
      && forall q: PageId :: Logical(s', q) == if q == p then OnDisk(s, p) else Logical(s, q)
    case Freed(p) =>
      && Logical(s, p).Some?
      && forall q: PageId :: Logical(s', q) == if q == p then Some(Logical(s, p).value.(kind := FREE))
         else Logical(s, q)
  }

  /** The bytes last written back. */
  function OnDisk(s: Pool, p: PageId): Option<Content> { if p in s.disk then Some(s.disk[p]) else None }

  /** The page is in a frame with writes that no flush has covered. */
  predicate Unsaved(s: Pool, p: PageId) {
    p in s.table && s.table[p] < |s.frames| && IsDirty(s.frames[s.table[p]])
  }

  /** A reused page keeps its old body under a new header until NewPage clears it. */
  function Reissued(p: PageId, was: Option<Content>): Content {
    if was.Some? then Content(ALLOCATED, p, was.value.body) else Blank(p)
  }

  lemma SameViewLogical(s: Pool, s': Pool)
    requires SameView(s, s')
    ensures StoreStep(s, Silent, s')
  {
  }

  lemma QuietIsSilent(s: Pool, t: Tid, s': Pool)
    requires QuietStep(s, t, s')
    ensures StoreStep(s, Silent, s')
  {
    hide StoreStep, QuietStep;
    QuietView(s, t, s');
    SameViewLogical(s, s');
  }

  /** The heart of the matter: a clean frame nobody else has pinned is a copy of the disk page. */
  lemma CleanIsDisk(s: Pool, t: Tid, f: FrameId)
    requires Inv(s) && t in s.threads && f < |s.frames| && s.frames[f].state == Resident && !IsDirty(s.frames[f])
    requires s.frames[f].pins == Holding(s.threads[t], f) && PendingOf(s.threads[t]).None?
    ensures s.frames[f].page in s.disk && s.frames[f].data == s.disk[s.frames[f].page]
  {
    hide Inv;
    CleanAt(s, f);
    NoOtherHolder(s, t, f);
    forall u | u in s.threads ensures PendingOf(s.threads[u]) != Some(f) {
      PendingPins(s.threads[u]);
    }
  }

  lemma PendingPins(pc: Pc)
    ensures PendingOf(pc).Some? ==> PinOf(pc) == PendingOf(pc)
  {
  }

  lemma TakeCleanIsSilent(s: Pool, t: Tid, s': Pool)
    requires Inv(s) && TakeClean(s, t, s')
    ensures StoreStep(s, Silent, s')
  {
    hide Inv;
    var f := s.threads[t].f;
    CleanIsDisk(s, t, f);
    UnpinnedIsMapped(s, f);
    MappedOnce(s, s.frames[f].page, f);
  }

  lemma RetakeIsSilent(s: Pool, t: Tid, s': Pool)
    requires Inv(s) && Retake(s, t, s')
    ensures StoreStep(s, Silent, s')
  {
    hide Inv;
    var f := s.threads[t].f;
    ThreadAt(s, t);
    CleanIsDisk(s, t, f);
    MappedOnce(s, s.frames[f].page, f);
  }

  lemma LoadIsSilent(s: Pool, t: Tid, s': Pool)
    requires Inv(s) && (StartLoad(s, t, s') || Publish(s, t, s') || Erase(s, t, s') || Fail(s, t, s'))
    ensures StoreStep(s, Silent, s')
  {
    hide Inv, ShardFree;
    var f := s.threads[t].f;
    ThreadAt(s, t);
    if f < |s.frames| { TableIs(s, f); }
  }

  lemma StockIsSilent(s: Pool, t: Tid, s': Pool)
    requires Inv(s) && (TryPop(s, t, s') || Push(s, t, s') || Drain(s, t, s') || Stamp(s, t, s'))
    ensures StoreStep(s, Silent, s')
  {
    hide Inv;
    ThreadAt(s, t);
    if !TryPop(s, t, s') { TableNot(s, s.threads[t].f); }
  }

  lemma FrameStepIsSilent(s: Pool, t: Tid, s': Pool)
    requires Inv(s) && FrameStep(s, t, s') && !MapNew(s, t, s') && !Vacate(s, t, s')
    ensures StoreStep(s, Silent, s')
  {
    hide Inv, StoreStep, TryPop, Push, TakeClean, Retake, Vacate, Drain, StartLoad, Publish, Erase, Fail, Stamp, MapNew;
    if TakeClean(s, t, s') {
      TakeCleanIsSilent(s, t, s');
    } else if Retake(s, t, s') {
      RetakeIsSilent(s, t, s');
    } else if StartLoad(s, t, s') || Publish(s, t, s') || Erase(s, t, s') || Fail(s, t, s') {
      LoadIsSilent(s, t, s');
    } else {
      StockIsSilent(s, t, s');
    }
  }

  lemma PutBytesRefines(s: Pool, t: Tid, s': Pool) returns (e: Effect)
    requires Inv(s) && PutBytes(s, t, s')
    ensures HasEffect(s, t, s', e) && StoreStep(s, e, s') && !e.Silent?
  {
    e := Wrote(s.threads[t].p, s'.frames[s.threads[t].f].data);
    hide Inv;
    ThreadAt(s, t);
    MappedOnce(s, s.threads[t].p, s.threads[t].f);
  }

  lemma BytesStepIsSilent(s: Pool, t: Tid, s': Pool)
    requires Inv(s)
    requires MarkDirty(s, t, s') || MarkFlushed(s, t, s') || ReadIn(s, t, s') || Fill(s, t, s') || WriteBack(s, t, s')
    ensures StoreStep(s, Silent, s')
  {
    hide Inv;
    ThreadAt(s, t);
    TableIs(s, s.threads[t].f);
  }

  lemma AllocateRefines(s: Pool, t: Tid, s': Pool) returns (e: Effect)
    requires Inv(s) && Allocate(s, t, s')
    ensures HasEffect(s, t, s', e) && StoreStep(s, e, s') && !e.Silent?
  {
    e := Allocated(s'.threads[t].p);
    hide Inv;
    NotLiveOnDisk(s, e.p);
  }

  /** Without a live page on disk there is none in a resident frame. */
  lemma NotLiveOnDisk(s: Pool, p: PageId)
    requires Inv(s) && !Live(s, p)
    ensures Logical(s, p) == OnDisk(s, p) && !(p in s.table && Carries(s, p, s.table[p], Resident))
    ensures p in s.table ==> Carries(s, p, s.table[p], Loading)
  {
    hide Inv;
    if p in s.table {
      TableAt(s, p);
      FrameAt(s, s.table[p]);
    }
  }

  lemma MapNewRefines(s: Pool, t: Tid, s': Pool) returns (e: Effect)
    requires Inv(s) && MapNew(s, t, s')
    ensures HasEffect(s, t, s', e) && StoreStep(s, e, s') && !e.Silent?
  {
    e := Created(s.threads[t].p);
    hide Inv;
    ThreadAt(s, t);
  }

  lemma VacateRefines(s: Pool, t: Tid, s': Pool) returns (e: Effect)
    requires Inv(s) && Vacate(s, t, s')
    ensures HasEffect(s, t, s', e) && StoreStep(s, e, s') && !e.Silent?
  {
    e := Dropped(s.threads[t].p);
    hide Inv;
    var p := s.threads[t].p;
    var f := s.table[p];
    MappedOnce(s, p, f);
    UnpinnedIsResident(s, p);
    FrameAt(s, f);
    if !IsDirty(s.frames[f]) { CleanIsDisk(s, t, f); }
  }

  lemma DeallocateRefines(s: Pool, t: Tid, s': Pool) returns (e: Effect)
    requires Inv(s) && Deallocate(s, t, s') && Next(s, t, s')
    ensures HasEffect(s, t, s', e) && StoreStep(s, e, s')
  {
    hide Inv, Next;
    e := if s'.disk == s.disk then Silent else Freed(s.threads[t].p);
    ThreadAt(s, t);
  }

  /** In every interleaving the pool behaves as a plain page store: each step is invisible, or is the
      one write, creation or deletion that a caller asked for and touches that page alone. */
  lemma Refinement(s: Pool, t: Tid, s': Pool) returns (e: Effect)
    requires Inv(s) && Next(s, t, s')
    ensures HasEffect(s, t, s', e) && StoreStep(s, e, s')
  {
    hide Inv, StoreStep, PutBytes, MarkDirty, MarkFlushed, ReadIn, Fill, WriteBack, Allocate, Deallocate, TryPop, Push,
      TakeClean, Retake, Vacate, Drain, StartLoad, Publish, Erase, Fail, Stamp, MapNew, Begin, LookupHit, LookupMiss,
      Wake, Record, Latch, DropRead, Unlatch, Unpin, Evict, Peek, Decline, PinDirty, LoadDirty, LoadFlushed,
      LatchShared, Sample, Unshare, GiveUp, LoseRace, AllocateFails, RefuseDelete, NotCached, Unlist, PinForFlush,
      PinByIndex;
    e := Silent;
    if PutBytes(s, t, s') {
      e := PutBytesRefines(s, t, s');
    } else if Allocate(s, t, s') {
      e := AllocateRefines(s, t, s');
    } else if MapNew(s, t, s') {
      e := MapNewRefines(s, t, s');
    } else if Vacate(s, t, s') {
      e := VacateRefines(s, t, s');
    } else if Deallocate(s, t, s') {
      e := DeallocateRefines(s, t, s');
    } else if BytesStep(s, t, s') {
      BytesStepIsSilent(s, t, s');
    } else if FrameStep(s, t, s') {
      FrameStepIsSilent(s, t, s');
    } else {
      QuietIsSilent(s, t, s');
    }
  }

  /** What NewPage hands out: a page of that id, marked allocated, 4064 zero bytes and nothing else. */
  lemma NewPageIsZero(s: Pool, t: Tid, s': Pool)
    requires Inv(s) && MapNew(s, t, s')
    ensures var p := s.threads[t].p;
            && Logical(s', p).Some?
            && var c := Logical(s', p).value;
            && c.kind == ALLOCATED && c.id == p && |c.body| == 4064
            && forall i | 0 <= i < 4064 :: c.body[i] == 0
  {
    hide Inv;
    ThreadAt(s, t);
  }

  /** The page a step is about, if it changes the store at all. */
  ghost predicate Concerns(s: Pool, t: Tid, s': Pool, p: PageId) {
    || (PutBytes(s, t, s') && s.threads[t].p == p)
    || (Allocate(s, t, s') && s'.threads[t].p == p)
    || (MapNew(s, t, s') && s.threads[t].p == p)
    || (Vacate(s, t, s') && s.threads[t].p == p)
    || (Deallocate(s, t, s') && s.threads[t].p == p)
  }

  lemma OtherPagesSame(s: Pool, t: Tid, s': Pool, p: PageId)
    requires Inv(s) && Next(s, t, s') && !Concerns(s, t, s', p)
    ensures Logical(s', p) == Logical(s, p)
  {
    hide Inv, Next, PutBytes, Allocate, MapNew, Vacate, Deallocate;
    var e := Refinement(s, t, s');
  }

  /** No eviction, reload or flush, however it interleaves, loses or alters a page: over any run its
      content is unchanged unless someone wrote, created or deleted that very page. */
  lemma {:induction false} ContentOnlyByCallers(r: Run, p: PageId, i: nat)
    requires IsRun(r) && Inv(r.states[0]) && i < |r.states|
    requires forall j | 0 <= j < i :: !Concerns(r.states[j], r.movers[j], r.states[j + 1], p)
    ensures Logical(r.states[i], p) == Logical(r.states[0], p)
  {
    hide Inv, Next, Concerns, Logical;
    if i > 0 {
      ContentOnlyByCallers(r, p, i - 1);
      RunKeeps(r, i - 1);
      assert StepAt(r, i - 1);
      OtherPagesSame(r.states[i - 1], r.movers[i - 1], r.states[i], p);
    }
  }

  /** A guard's bytes are the page's content. */
  lemma GuardSeesContent(s: Pool, t: Tid)
    requires Inv(s) && t in s.threads && s.threads[t].Guard?
    ensures s.threads[t].f < |s.frames| && Logical(s, s.threads[t].p) == Some(s.frames[s.threads[t].f].data)
  {
    hide Inv;
    ThreadAt(s, t);
  }

  /** While a write guard is out, it is the only guard on its page. */
  lemma WriteGuardAlone(s: Pool, t: Tid, u: Tid)
    requires Inv(s) && t in s.threads && u in s.threads && s.threads[t].Guard? && s.threads[u].Guard?
    requires s.threads[t].w != Read && s.threads[u].p == s.threads[t].p
    ensures u == t
  {
    hide Inv;
    ThreadAt(s, t);
    ThreadAt(s, u);
    if u != t { AloneOnLatch(s, t, u, s.threads[t].f); }
  }

  // ---------- deletion ----------

  /** The thread has p in hand: it can still yield a guard on it, or write its bytes to disk. */
  predicate Reaches(pc: Pc, p: PageId) {
    match pc
    case Publishing(q, _, _) => q == p
    case Recording(q, _, _, _) => q == p
    case Latching(q, _, _) => q == p
    case Guard(q, _, _) => q == p
    case Marked(q, _) => q == p
    case AwaitShared(q, _, _) => q == p
    case Sampling(q, _, _) => q == p
    case Writing(q, _, _, _) => q == p
    case _ => false
  }

  lemma FreeUnreached(s: Pool, t: Tid, p: PageId)
    requires Inv(s) && !Live(s, p) && t in s.threads
    ensures !Reaches(s.threads[t], p)
  {
    hide Inv;
    ThreadAt(s, t);
    if PinOf(s.threads[t]).Some? && PinOf(s.threads[t]).value < |s.frames| { FrameAt(s, PinOf(s.threads[t]).value); }
  }

  lemma FreeStays(s: Pool, t: Tid, s': Pool, p: PageId)
    requires Inv(s) && Next(s, t, s') && p in s.disk && s.disk[p].kind == FREE
    requires !(Allocate(s, t, s') && s'.threads[t].p == p)
    ensures p in s'.disk && s'.disk[p] == s.disk[p]
  {
    hide Inv, ShardFree, NoWriter, NoReader, NotCreating, NotInFlight;
    if WriteBack(s, t, s') {
      FreeUnreached(s, t, p);
    } else if !Deallocate(s, t, s') && !Allocate(s, t, s') {
      DiskUntouched(s, t, s');
    }
  }

  lemma BytesDisk(s: Pool, t: Tid, s': Pool)
    requires PutBytes(s, t, s') || MarkDirty(s, t, s') || MarkFlushed(s, t, s') || ReadIn(s, t, s') || Fill(s, t, s')
    ensures s'.disk == s.disk
  {
  }

  lemma FrameDisk(s: Pool, t: Tid, s': Pool)
    requires FrameStep(s, t, s')
    ensures s'.disk == s.disk
  {
    hide ShardFree;
  }

  lemma DiskUntouched(s: Pool, t: Tid, s': Pool)
    requires Next(s, t, s') && !WriteBack(s, t, s') && !Deallocate(s, t, s') && !Allocate(s, t, s')
    ensures s'.disk == s.disk
  {
    hide PutBytes, MarkDirty, MarkFlushed, ReadIn, Fill, WriteBack, Allocate, Deallocate, TryPop, Push, TakeClean,
      Retake, Vacate, Drain, StartLoad, Publish, Erase, Fail, Stamp, MapNew, Begin, LookupHit, LookupMiss, Wake, Record,
      Latch, DropRead, Unlatch, Unpin, Evict, Peek, Decline, PinDirty, LoadDirty, LoadFlushed, LatchShared, Sample,
      Unshare, GiveUp, LoseRace, AllocateFails, RefuseDelete, NotCached, Unlist, PinForFlush, PinByIndex;
    if QuietStep(s, t, s') {
      QuietView(s, t, s');
    } else if FrameStep(s, t, s') {
      FrameDisk(s, t, s');
    } else {
      BytesDisk(s, t, s');
    }
  }

  /** Once a page is FREE on disk, then until it is allocated again its disk bytes stay as they are,
      no thread has a guard on it or is about to get one, and no flush of it is under way: whatever
      fetches, reclaims or flushes raced the deletion. */
  lemma {:induction false} DeletedStaysDeleted(r: Run, p: PageId, i: nat)
    requires IsRun(r) && Inv(r.states[0]) && i < |r.states|
    requires p in r.states[0].disk && r.states[0].disk[p].kind == FREE
    requires forall j | 0 <= j < i ::
               !(Allocate(r.states[j], r.movers[j], r.states[j + 1])
                 && r.states[j + 1].threads[r.movers[j]].p == p)
    ensures p in r.states[i].disk && r.states[i].disk[p] == r.states[0].disk[p]
    ensures forall t | t in r.states[i].threads :: !Reaches(r.states[i].threads[t], p)
  {
    hide Inv, Next, Allocate, Reaches;
    if i > 0 {
      DeletedStaysDeleted(r, p, i - 1);
      RunKeeps(r, i - 1);
      assert StepAt(r, i - 1);
      FreeStays(r.states[i - 1], r.movers[i - 1], r.states[i], p);
    }
    RunKeeps(r, i);
    forall t | t in r.states[i].threads ensures !Reaches(r.states[i].threads[t], p) {
      FreeUnreached(r.states[i], t, p);
    }
  }

  // ---------- frames ----------

  /** A frame somebody else has pinned keeps its page. */
  lemma PinnedKeepsPage(s: Pool, t: Tid, s': Pool, u: Tid, f: FrameId)
    requires Inv(s) && Next(s, t, s') && u in s.threads && u != t && PinOf(s.threads[u]) == Some(f)
    ensures f < |s.frames| == |s'.frames| && s'.frames[f].page == s.frames[f].page && s'.frames[f].state != Free
    ensures s.frames[f].state == Resident ==> s'.frames[f].state == Resident
  {
    hide Inv, Next;
    NextKeeps(s, t, s');
    ThreadAt(s, u);
    StatesMove(s, t, s', f);
    ThreadAt(s', u);
  }

  predicate SameStates(s: Pool, t: Tid, s': Pool) {
    && Moves(s, t, s') && |s'.frames| == |s.frames|
    && forall f: FrameId | f < |s.frames| ::
       s'.frames[f].state == s.frames[f].state && s'.frames[f].page == s.frames[f].page
  }

  lemma PutBytesStates(s: Pool, t: Tid, s': Pool)
    requires PutBytes(s, t, s')
    ensures SameStates(s, t, s')
  {
    assert s'.threads == s.threads[t := s.threads[t]];
  }

  lemma EpochStates(s: Pool, t: Tid, s': Pool)
    requires MarkDirty(s, t, s') || MarkFlushed(s, t, s') || ReadIn(s, t, s') || Fill(s, t, s')
    ensures SameStates(s, t, s')
  {
  }

  lemma DiskStates(s: Pool, t: Tid, s': Pool)
    requires WriteBack(s, t, s') || Allocate(s, t, s') || Deallocate(s, t, s')
    ensures SameStates(s, t, s')
  {
    hide NotInFlight;
  }

  lemma BytesStates(s: Pool, t: Tid, s': Pool)
    requires BytesStep(s, t, s')
    ensures SameStates(s, t, s')
  {
    hide PutBytes, MarkDirty, MarkFlushed, ReadIn, Fill, WriteBack, Allocate, Deallocate, SameStates;
    if PutBytes(s, t, s') {
      PutBytesStates(s, t, s');
    } else if WriteBack(s, t, s') || Allocate(s, t, s') || Deallocate(s, t, s') {
      DiskStates(s, t, s');
    } else {
      EpochStates(s, t, s');
    }
  }

  lemma FrameStates(s: Pool, t: Tid, s': Pool, f: FrameId)
    requires Inv(s) && FrameStep(s, t, s') && f < |s.frames|
    ensures Moves(s, t, s') && |s'.frames| == |s.frames|
    ensures s.frames[f].state == Resident ==> s'.frames[f].state == Resident || s'.frames[f].state == Free
  {
    hide Inv, ShardFree;
    ThreadAt(s, t);
  }

  lemma StatesMove(s: Pool, t: Tid, s': Pool, f: FrameId)
    requires Inv(s) && Next(s, t, s') && f < |s.frames|
    ensures Moves(s, t, s') && |s'.frames| == |s.frames|
    ensures s.frames[f].state == Resident ==> s'.frames[f].state == Resident || s'.frames[f].state == Free
  {
    hide Inv, PutBytes, MarkDirty, MarkFlushed, ReadIn, Fill, WriteBack, Allocate, Deallocate, TryPop, Push, TakeClean,
      Retake, Vacate, Drain, StartLoad, Publish, Erase, Fail, Stamp, MapNew, Begin, LookupHit, LookupMiss, Wake, Record,
      Latch, DropRead, Unlatch, Unpin, Evict, Peek, Decline, PinDirty, LoadDirty, LoadFlushed, LatchShared, Sample,
      Unshare, GiveUp, LoseRace, AllocateFails, RefuseDelete, NotCached, Unlist, PinForFlush, PinByIndex;
    if BytesStep(s, t, s') {
      BytesStates(s, t, s');
    } else if FrameStep(s, t, s') {
      FrameStates(s, t, s', f);
    } else {
      QuietView(s, t, s');
    }
  }

  /** Every frame is one of: free stock, private to one thread, or mapped to the page it carries. */
  lemma FrameOwnership(s: Pool, f: FrameId)
    requires Inv(s) && f < |s.frames|
    ensures f in s.free || Claimed(s, f) || Mapped(s, s.frames[f].page, f)
    ensures f in s.free ==> !Claimed(s, f) && (forall p | p in s.table :: s.table[p] != f)
    ensures Claimed(s, f) && Mapped(s, s.frames[f].page, f) ==> s.frames[f].state == Loading
    ensures forall t, u | t in s.threads && u in s.threads
            && ClaimOf(s.threads[t]) == Some(f) == ClaimOf(s.threads[u]) :: t == u
  {
    hide Inv;
    FrameAt(s, f);
    if f in s.free { StockAt(s, f); TableNot(s, f); }
    if Claimed(s, f) && Mapped(s, s.frames[f].page, f) {
      var u :| u in s.threads && ClaimOf(s.threads[u]) == Some(f);
      ThreadAt(s, u);
      TableAt(s, s.frames[f].page);
    }
    forall t, u | t in s.threads && u in s.threads && ClaimOf(s.threads[t]) == Some(f) == ClaimOf(s.threads[u])
      ensures t == u {
      if t != u { OtherClaim(s, t, u); }
    }
  }

  /** No two resident frames carry the same page. */
  lemma OneResidentFrame(s: Pool, f: FrameId, g: FrameId)
    requires Inv(s) && f < |s.frames| && g < |s.frames| && s.frames[f].state == Resident == s.frames[g].state
    requires s.frames[f].page == s.frames[g].page
    ensures f == g
  {
    hide Inv;
    var p := s.frames[f].page;
    if Mapped(s, p, f) {
      OnlyResident(s, p, f, g);
    } else if Mapped(s, p, g) {
      OnlyResident(s, p, g, f);
    } else {
      var t := Maker(s, f);
      var u := Maker(s, g);
      if t != u { OtherCreation(s, t, u); }
    }
  }

  /** Where a frame can be: free stock, in one thread's hands, pinned, a candidate, or a victim that some
      reclaimer has yet to decide on. */
  lemma FrameWhereabouts(s: Pool, f: FrameId)
    requires Inv(s) && f < |s.frames|
    ensures f in s.free || Claimed(s, f) || s.frames[f].pins > 0 || f in s.evictable || Undecided(s, f)
    ensures (forall t | t in s.threads :: s.threads[t] == Idle) ==> f in s.free || f in s.evictable
  {
    hide ThreadsOk, Exclusion, FreeOk, TableOk, CleanOk;
    assert FrameOk(s, f);
    if forall t | t in s.threads :: s.threads[t] == Idle {
      assert Holders(s, f) == {};
    }
  }

  /** No frame is lost, at any moment of any run of a fresh pool: it is in one of those places, and when
      every thread is idle again it is there for the taking. */
  lemma {:induction false} NoFrameLost(r: Run, i: nat, f: FrameId)
    requires IsRun(r) && Init(r.states[0]) && i < |r.states| && f < |r.states[0].frames|
    ensures var s := r.states[i];
            && f < |s.frames| == |r.states[0].frames|
            && (f in s.free || Claimed(s, f) || s.frames[f].pins > 0 || f in s.evictable || Undecided(s, f))
            && ((forall t | t in s.threads :: s.threads[t] == Idle) ==> f in s.free || f in s.evictable)
  {
    hide Inv, Next, Init, Claimed, Undecided;
    FreshRunKeeps(r, i);
    SameFrameCount(r, i, f);
    FrameWhereabouts(r.states[i], f);
  }

  lemma {:induction false} SameFrameCount(r: Run, i: nat, f: FrameId)
    requires IsRun(r) && Init(r.states[0]) && i < |r.states| && f < |r.states[0].frames|
    ensures |r.states[i].frames| == |r.states[0].frames|
  {
    hide Inv, Next, Init;
    if i > 0 {
      SameFrameCount(r, i - 1, f);
      FreshRunKeeps(r, i - 1);
      assert StepAt(r, i - 1);
      StatesMove(r.states[i - 1], r.movers[i - 1], r.states[i], f);
    }
  }

  /** With nobody else between claiming a frame and giving it back, a reclaimer that finds no candidate
      and no free frame is right to report a full pool: every frame is pinned. */
  lemma FullMeansPinned(s: Pool, t: Tid, f: FrameId)
    requires Inv(s) && t in s.threads && s.threads[t].Evicting? && s.evictable == {} && s.free == []
    requires forall u | u in s.threads && u != t ::
             ClaimOf(s.threads[u]).None? && !s.threads[u].Peeking? && !s.threads[u].Validating?
    requires f < |s.frames|
    ensures s.frames[f].state == Resident && s.frames[f].pins > 0
  {
    hide ThreadsOk, Exclusion, FreeOk, TableOk, CleanOk;
    assert FrameOk(s, f);
    assert !Claimed(s, f);
  }
}
