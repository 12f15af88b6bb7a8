/**
 * What a flush is worth, over whole runs.  A flush that comes back with no write of its own failed leaves
 * every write marked before it on disk, whoever wrote it there and whatever ran beside it.
 */
module PoolFlush {
  import opened Common
  import opened PoolModel
  import opened PoolInvariant
  import opened PoolSteps
  import opened PoolBytes
  import opened PoolTheorems
  import opened PoolDeletion
  import opened PoolFetch

  /** The disk has exactly what the page holds. */
  predicate InSync(s: Pool, p: PageId) { p in s.disk && Logical(s, p) == Some(s.disk[p]) }

  /** At some moment of the stretch the disk had exactly what the page held. */
  ghost predicate Synced(r: Run, a: nat, b: nat, p: PageId) {
    exists m: nat :: a <= m <= b && m < |r.states| && InSync(r.states[m], p)
  }

  lemma SyncedLater(r: Run, a: nat, b: nat, c: nat, p: PageId)
    requires Synced(r, a, b, p) && b <= c
    ensures Synced(r, a, c, p)
  {
    var m: nat :| a <= m <= b && m < |r.states| && InSync(r.states[m], p);
  }

  lemma SyncedNow(r: Run, a: nat, b: nat, p: PageId)
    requires a <= b < |r.states| && InSync(r.states[b], p)
    ensures Synced(r, a, b, p)
  {
  }

  /** No flush of f has covered epoch d, nor is one about to say so. */
  ghost predicate Behind(s: Pool, f: FrameId, d: nat) {
    && f < |s.frames| && s.frames[f].flushed < d
    && forall u | u in s.threads :: !Covers(s.threads[u], f, d)
  }

  predicate Covers(pc: Pc, f: FrameId, d: nat) {
    || (pc.Marking? && pc.f == f && pc.d >= d)
    || (pc.Written? && pc.f == f && pc.ok)
  }

  /** With no write pending, a flush that has covered the present epoch has brought the disk up to date. */
  lemma BehindOrSync(s: Pool, p: PageId, f: FrameId)
    requires Inv(s) && Carries(s, p, f, Resident) && Mapped(s, p, f) && NoPending(s, f)
    ensures Behind(s, f, s.frames[f].dirty) || InSync(s, p)
  {
    hide Inv, NoPending;
    if s.frames[f].flushed >= s.frames[f].dirty {
      CleanAt(s, f);
    } else {
      forall u | u in s.threads && Covers(s.threads[u], f, s.frames[f].dirty) ensures InSync(s, p) {
        ThreadAt(s, u);
        if s.threads[u].Marking? { MarkAt(s, u); }
      }
    }
  }

  // ---------- one step ----------

  /** A writeback that works. */
  predicate WritesBack(s: Pool, v: Tid, s': Pool, f: FrameId) {
    && v in s.threads && v in s'.threads && s.threads[v].Writing? && s.threads[v].f == f
    && s'.threads[v].Written? && s'.threads[v].ok
  }

  lemma WriteBackSyncs(s: Pool, v: Tid, s': Pool, p: PageId, f: FrameId)
    requires Inv(s) && Next(s, v, s') && WritesBack(s, v, s', f) && Carries(s, p, f, Resident)
    ensures InSync(s', p)
  {
    hide Inv, Next;
    WritingSteps(s, v, s');
    ThreadAt(s, v);
  }

  lemma WritingSteps(s: Pool, v: Tid, s': Pool)
    requires Next(s, v, s') && v in s.threads && s.threads[v].Writing?
    ensures WriteBack(s, v, s')
  {
    hide ShardFree, NoWriter, NoReader, NotCreating, NotInFlight;
  }

  /** Only a flusher that has covered d gets f past d. */
  ghost predicate StaysBehind(s: Pool, v: Tid, s': Pool, f: FrameId, d: nat) {
    && f < |s'.frames| && s'.frames[f].flushed < d
    && (v in s'.threads ==> !Covers(s'.threads[v], f, d) || WritesBack(s, v, s', f))
  }

  lemma LookupBehind(s: Pool, v: Tid, s': Pool, f: FrameId, d: nat)
    requires Begin(s, v, s') || LookupHit(s, v, s') || LookupMiss(s, v, s') || Wake(s, v, s') || Record(s, v, s')
    ensures v in s'.threads && !Covers(s'.threads[v], f, d)
  {
    hide ShardFree, NotCreating;
  }

  lemma GuardBehind(s: Pool, v: Tid, s': Pool, f: FrameId, d: nat)
    requires || Latch(s, v, s') || DropRead(s, v, s') || Unlatch(s, v, s') || Unpin(s, v, s') || AllocateFails(s, v, s')
             || RefuseDelete(s, v, s') || NotCached(s, v, s') || Unlist(s, v, s')
    ensures v in s'.threads && !Covers(s'.threads[v], f, d)
  {
    hide ShardFree, NoWriter, NoReader;
  }

  lemma FetchBehind(s: Pool, v: Tid, s': Pool, f: FrameId, d: nat)
    requires FetchStep(s, v, s')
    ensures v in s'.threads && !Covers(s'.threads[v], f, d)
  {
    hide Covers, Begin, LookupHit, LookupMiss, Wake, Record, Latch, DropRead, Unlatch, Unpin, AllocateFails,
      RefuseDelete, NotCached, Unlist;
    if Begin(s, v, s') || LookupHit(s, v, s') || LookupMiss(s, v, s') || Wake(s, v, s') || Record(s, v, s') {
      LookupBehind(s, v, s', f, d);
    } else {
      GuardBehind(s, v, s', f, d);
    }
  }

  lemma SweepBehind(s: Pool, v: Tid, s': Pool, f: FrameId, d: nat)
    requires || Evict(s, v, s') || Peek(s, v, s') || Decline(s, v, s') || PinDirty(s, v, s') || GiveUp(s, v, s')
             || LoseRace(s, v, s') || PinForFlush(s, v, s') || PinByIndex(s, v, s')
    ensures v in s'.threads && !Covers(s'.threads[v], f, d)
  {
    hide ShardFree;
  }

  lemma TestBehind(s: Pool, v: Tid, s': Pool, f: FrameId, d: nat)
    requires || LoadDirty(s, v, s') || LoadFlushed(s, v, s') || LatchShared(s, v, s') || Sample(s, v, s')
             || Unshare(s, v, s')
    ensures v in s.threads && v in s'.threads && (Covers(s'.threads[v], f, d) ==> Covers(s.threads[v], f, d))
  {
    hide NoWriter;
  }

  lemma FlushBehind(s: Pool, v: Tid, s': Pool, f: FrameId, d: nat)
    requires FlushStep(s, v, s') && Behind(s, f, d)
    ensures v in s'.threads && !Covers(s'.threads[v], f, d)
  {
    hide Covers, Evict, Peek, Decline, PinDirty, LoadDirty, LoadFlushed, LatchShared, Sample, Unshare, GiveUp, LoseRace,
      PinForFlush, PinByIndex;
    if LoadDirty(s, v, s') || LoadFlushed(s, v, s') || LatchShared(s, v, s') || Sample(s, v, s') || Unshare(s, v, s') {
      TestBehind(s, v, s', f, d);
    } else {
      SweepBehind(s, v, s', f, d);
    }
  }

  lemma QuietBehind(s: Pool, v: Tid, s': Pool, f: FrameId, d: nat)
    requires QuietStep(s, v, s') && Behind(s, f, d)
    ensures StaysBehind(s, v, s', f, d)
  {
    hide FetchStep, FlushStep, Covers;
    QuietView(s, v, s');
    if FetchStep(s, v, s') { FetchBehind(s, v, s', f, d); } else { FlushBehind(s, v, s', f, d); }
  }

  lemma EpochBehind(s: Pool, v: Tid, s': Pool, f: FrameId, d: nat)
    requires (PutBytes(s, v, s') || MarkDirty(s, v, s') || MarkFlushed(s, v, s')) && Behind(s, f, d)
    ensures StaysBehind(s, v, s', f, d)
  {
    assert v in s.threads && !Covers(s.threads[v], f, d);
  }

  lemma ReadBehind(s: Pool, v: Tid, s': Pool, f: FrameId, d: nat)
    requires (ReadIn(s, v, s') || Fill(s, v, s')) && Behind(s, f, d)
    ensures StaysBehind(s, v, s', f, d)
  {
    assert v in s.threads && !Covers(s.threads[v], f, d);
  }

  lemma DiskBehind(s: Pool, v: Tid, s': Pool, f: FrameId, d: nat)
    requires (WriteBack(s, v, s') || Allocate(s, v, s') || Deallocate(s, v, s')) && Behind(s, f, d)
    ensures StaysBehind(s, v, s', f, d)
  {
    hide NotInFlight;
    assert v in s.threads && !Covers(s.threads[v], f, d);
  }

  lemma BytesBehind(s: Pool, v: Tid, s': Pool, f: FrameId, d: nat)
    requires BytesStep(s, v, s') && Behind(s, f, d)
    ensures StaysBehind(s, v, s', f, d)
  {
    hide Behind, StaysBehind, PutBytes, MarkDirty, MarkFlushed, ReadIn, Fill, WriteBack, Allocate, Deallocate;
    if PutBytes(s, v, s') || MarkDirty(s, v, s') || MarkFlushed(s, v, s') {
      EpochBehind(s, v, s', f, d);
    } else if ReadIn(s, v, s') || Fill(s, v, s') {
      ReadBehind(s, v, s', f, d);
    } else {
      DiskBehind(s, v, s', f, d);
    }
  }

  lemma StockBehind(s: Pool, v: Tid, s': Pool, f: FrameId, d: nat)
    requires (TryPop(s, v, s') || Push(s, v, s') || TakeClean(s, v, s') || Retake(s, v, s')) && Behind(s, f, d)
    ensures StaysBehind(s, v, s', f, d)
  {
    hide ShardFree, Behind;
    BehindFlushed(s, f, d);
  }

  lemma LoadBehind(s: Pool, v: Tid, s': Pool, f: FrameId, d: nat)
    requires (StartLoad(s, v, s') || Publish(s, v, s') || Erase(s, v, s') || Fail(s, v, s')) && Behind(s, f, d)
    ensures StaysBehind(s, v, s', f, d)
  {
    hide ShardFree, Behind;
    BehindFlushed(s, f, d);
  }

  lemma NewBehind(s: Pool, v: Tid, s': Pool, f: FrameId, d: nat)
    requires (Vacate(s, v, s') || Drain(s, v, s') || Stamp(s, v, s') || MapNew(s, v, s')) && Behind(s, f, d)
    ensures StaysBehind(s, v, s', f, d)
  {
    hide ShardFree, Behind;
    BehindFlushed(s, f, d);
  }

  lemma BehindFlushed(s: Pool, f: FrameId, d: nat)
    requires Behind(s, f, d)
    ensures f < |s.frames| && s.frames[f].flushed < d
  {
  }

  lemma FrameBehind(s: Pool, v: Tid, s': Pool, f: FrameId, d: nat)
    requires FrameStep(s, v, s') && Behind(s, f, d)
    ensures StaysBehind(s, v, s', f, d)
  {
    hide Behind, StaysBehind, TryPop, Push, TakeClean, Retake, Vacate, Drain, StartLoad, Publish, Erase, Fail, Stamp,
      MapNew;
    if TryPop(s, v, s') || Push(s, v, s') || TakeClean(s, v, s') || Retake(s, v, s') {
      StockBehind(s, v, s', f, d);
    } else if StartLoad(s, v, s') || Publish(s, v, s') || Erase(s, v, s') || Fail(s, v, s') {
      LoadBehind(s, v, s', f, d);
    } else {
      NewBehind(s, v, s', f, d);
    }
  }

  lemma StepBehind(s: Pool, v: Tid, s': Pool, f: FrameId, d: nat)
    requires Next(s, v, s') && Behind(s, f, d)
    ensures StaysBehind(s, v, s', f, d)
  {
    hide Behind, StaysBehind, PutBytes, MarkDirty, MarkFlushed, ReadIn, Fill, WriteBack, Allocate, Deallocate, TryPop,
      Push, TakeClean, Retake, Vacate, Drain, StartLoad, Publish, Erase, Fail, Stamp, MapNew, Begin, LookupHit,
      LookupMiss, Wake, Record, Latch, DropRead, Unlatch, Unpin, Evict, Peek, Decline, PinDirty, LoadDirty, LoadFlushed,
      LatchShared, Sample, Unshare, GiveUp, LoseRace, AllocateFails, RefuseDelete, NotCached, Unlist, PinForFlush,
      PinByIndex;
    if BytesStep(s, v, s') {
      BytesBehind(s, v, s', f, d);
    } else if FrameStep(s, v, s') {
      FrameBehind(s, v, s', f, d);
    } else {
      QuietBehind(s, v, s', f, d);
    }
  }

  /** While p stays in its frame, a step that covers the epoch is a writeback of p. */
  lemma BehindStep(s: Pool, v: Tid, s': Pool, p: PageId, f: FrameId, d: nat)
    requires Inv(s) && Next(s, v, s') && Carries(s, p, f, Resident) && Behind(s, f, d)
    ensures Behind(s', f, d) || InSync(s', p)
  {
    hide Inv, Next, Covers;
    StepBehind(s, v, s', f, d);
    ThreadMoves(s, v, s');
    if WritesBack(s, v, s', f) {
      WriteBackSyncs(s, v, s', p, f);
    }
  }

  // ---------- the frame, while the page is in it ----------

  ghost predicate DirtyGrows(s: Pool, s': Pool, f: FrameId) {
    f < |s.frames| && f < |s'.frames| ==> s'.frames[f].dirty >= s.frames[f].dirty
  }

  lemma BytesGrow(s: Pool, v: Tid, s': Pool, f: FrameId)
    requires BytesStep(s, v, s') && (v in s.threads && s.threads[v].Filling? ==> PcOk(s, s.threads[v]))
    ensures DirtyGrows(s, s', f)
  {
    hide NotInFlight;
  }

  lemma FrameGrows(s: Pool, v: Tid, s': Pool, f: FrameId)
    requires FrameStep(s, v, s') && f < |s.frames| && s.frames[f].state == Resident && f < |s'.frames|
    requires s'.frames[f].state == Resident
    requires v in s.threads ==> PcOk(s, s.threads[v])
    ensures DirtyGrows(s, s', f)
  {
    hide ShardFree;
  }

  /** A resident frame's dirty epoch never falls. */
  lemma EpochGrows(s: Pool, v: Tid, s': Pool, f: FrameId)
    requires Inv(s) && Next(s, v, s') && f < |s.frames| && s.frames[f].state == Resident
    requires f < |s'.frames| && s'.frames[f].state == Resident
    ensures DirtyGrows(s, s', f)
  {
    hide Inv, PutBytes, MarkDirty, MarkFlushed, ReadIn, Fill, WriteBack, Allocate, Deallocate, TryPop, Push, TakeClean,
      Retake, Vacate, Drain, StartLoad, Publish, Erase, Fail, Stamp, MapNew, Begin, LookupHit, LookupMiss, Wake, Record,
      Latch, DropRead, Unlatch, Unpin, Evict, Peek, Decline, PinDirty, LoadDirty, LoadFlushed, LatchShared, Sample,
      Unshare, GiveUp, LoseRace, AllocateFails, RefuseDelete, NotCached, Unlist, PinForFlush, PinByIndex, PcOk;
    ThreadMoves(s, v, s');
    ThreadAt(s, v);
    if BytesStep(s, v, s') {
      BytesGrow(s, v, s', f);
    } else if FrameStep(s, v, s') {
      FrameGrows(s, v, s', f);
    } else {
      QuietView(s, v, s');
    }
  }

  // ---------- the flusher ----------

  /** Before its write; what it has read of the epoch is no older than d. */
  predicate BeforeWrite(pc: Pc, p: PageId, f: FrameId, d: nat) {
    match pc
    case TestDirty(q, g, k) => q == p && g == f && k == FlushOnly
    case TestFlushed(q, g, k, e) => q == p && g == f && k == FlushOnly && e >= d
    case AwaitShared(q, g, k) => q == p && g == f && k == FlushOnly
    case Sampling(q, g, k) => q == p && g == f && k == FlushOnly
    case Writing(q, g, k, _) => q == p && g == f && k == FlushOnly
    case _ => false
  }

  lemma FlusherSteps(s: Pool, t: Tid, s': Pool, p: PageId, f: FrameId, d: nat)
    requires Next(s, t, s') && t in s.threads && BeforeWrite(s.threads[t], p, f, d)
    ensures LoadDirty(s, t, s') || LoadFlushed(s, t, s') || LatchShared(s, t, s') || Sample(s, t, s')
            || WriteBack(s, t, s')
  {
    hide ShardFree, NoWriter, NoReader, NotCreating, NotInFlight;
  }

  /** The flusher cannot stop short of its write: while nobody has covered the epoch, it finds the frame dirty. */
  lemma FlusherGoesOn(s: Pool, t: Tid, s': Pool, p: PageId, f: FrameId, d: nat)
    requires Inv(s) && Next(s, t, s') && t in s.threads && BeforeWrite(s.threads[t], p, f, d)
    requires Behind(s, f, d) && s.frames[f].dirty >= d && !WriteFails(s, t, s')
    ensures && t in s'.threads && (BeforeWrite(s'.threads[t], p, f, d) || InSync(s', p))
            && |s'.frames| == |s.frames| && s'.frames[f] == s.frames[f]
  {
    hide Inv, Next, NoWriter;
    FlusherSteps(s, t, s', p, f, d);
    ThreadAt(s, t);
  }

  /** The flush is on its way to its write and nobody has done its work, or the work is done. */
  ghost predicate OnTheWay(r: Run, k0: nat, n: nat, t: Tid, p: PageId, f: FrameId, d: nat)
    requires n < |r.states|
  {
    var s := r.states[n];
    || Synced(r, k0, n, p)
    || (t in s.threads && BeforeWrite(s.threads[t], p, f, d)
        && Carries(s, p, f, Resident) && s.frames[f].dirty >= d && Behind(s, f, d))
  }

  lemma {:induction false} FlushStaysOnWay(r: Run, k0: nat, n: nat, t: Tid, p: PageId, f: FrameId, d: nat)
    requires IsRun(r) && Inv(r.states[0]) && k0 <= n < |r.movers| && OnTheWay(r, k0, n, t, p, f, d)
    requires r.movers[n] == t ==> !WriteFails(r.states[n], t, r.states[n + 1])
    ensures OnTheWay(r, k0, n + 1, t, p, f, d)
  {
    hide Inv, Next, InSync, Behind, BeforeWrite, WriteFails;
    var s, s', v := r.states[n], r.states[n + 1], r.movers[n];
    if Synced(r, k0, n, p) {
      SyncedLater(r, k0, n, n + 1, p);
    } else {
      hide Synced;
      RunKeeps(r, n);
      assert StepAt(r, n);
      BehindStep(s, v, s', p, f, d);
      if v == t {
        FlusherGoesOn(s, t, s', p, f, d);
      } else {
        ThreadMoves(s, v, s');
        FlusherPins(s.threads[t], p, f, d);
        PinnedKeepsPage(s, v, s', t, f);
        EpochGrows(s, v, s', f);
      }
      if InSync(s', p) { SyncedNow(r, k0, n + 1, p); }
    }
  }

  lemma FlusherPins(pc: Pc, p: PageId, f: FrameId, d: nat)
    requires BeforeWrite(pc, p, f, d)
    ensures PinOf(pc) == Some(f)
  {
  }

  lemma {:induction false} FlushRuns(r: Run, k0: nat, i: nat, j: nat, t: Tid, p: PageId, f: FrameId, d: nat)
    requires IsRun(r) && Inv(r.states[0]) && k0 <= i <= j < |r.states| && OnTheWay(r, k0, i, t, p, f, d)
    requires forall n | i <= n < j && r.movers[n] == t :: !WriteFails(r.states[n], t, r.states[n + 1])
    ensures OnTheWay(r, k0, j, t, p, f, d)
    decreases j - i
  {
    hide Inv, Next, OnTheWay, WriteFails, StepAt;
    if i < j {
      FlushStaysOnWay(r, k0, i, t, p, f, d);
      FlushRuns(r, k0, i + 1, j, t, p, f, d);
    }
  }

  // ---------- before the flusher looks ----------

  /** From k0 on, p in f: nobody has covered k0's epoch, or the disk has been up to date since. */
  lemma {:induction false} BehindSince(r: Run, k0: nat, k: nat, p: PageId, f: FrameId)
    requires IsRun(r) && Inv(r.states[0]) && k0 <= k < |r.states|
    requires forall n | k0 <= n <= k :: Carries(r.states[n], p, f, Resident)
    requires Mapped(r.states[k0], p, f) && NoPending(r.states[k0], f)
    ensures Carries(r.states[k0], p, f, Resident) && Carries(r.states[k], p, f, Resident)
    ensures var d := r.states[k0].frames[f].dirty;
            && r.states[k].frames[f].dirty >= d
            && (Synced(r, k0, k, p) || Behind(r.states[k], f, d))
    decreases k
  {
    hide Inv, Next, InSync, Behind, NoPending;
    assert Carries(r.states[k0], p, f, Resident) && Carries(r.states[k], p, f, Resident);
    if k == k0 {
      RunKeeps(r, k0);
      BehindOrSync(r.states[k0], p, f);
      if InSync(r.states[k0], p) { SyncedNow(r, k0, k0, p); }
    } else {
      BehindSince(r, k0, k - 1, p, f);
      var s, s', v := r.states[k - 1], r.states[k], r.movers[k - 1];
      assert Carries(s, p, f, Resident);
      RunKeeps(r, k - 1);
      assert StepAt(r, k - 1);
      EpochGrows(s, v, s', f);
      if Synced(r, k0, k - 1, p) {
        SyncedLater(r, k0, k - 1, k, p);
      } else {
        BehindStep(s, v, s', p, f, r.states[k0].frames[f].dirty);
        if InSync(s', p) { SyncedNow(r, k0, k, p); }
      }
    }
  }

  /** The look: the frame is resident, so the flusher pins it and goes on to test it. */
  ghost predicate Looks(s: Pool, t: Tid, p: PageId, f: FrameId) {
    && t in s.threads && Carries(s, p, f, Resident)
    && (s.threads[t] == FlushIndex(f) || (s.threads[t] == FlushLookup(p) && Mapped(s, p, f)))
  }

  lemma LookSteps(s: Pool, t: Tid, s': Pool, p: PageId, f: FrameId)
    requires Next(s, t, s') && Looks(s, t, p, f)
    ensures s' == To(Pinned(s, f), t, TestDirty(p, f, FlushOnly))
  {
    hide ShardFree, NoWriter, NoReader, NotCreating, NotInFlight;
  }

  lemma LookStarts(r: Run, k0: nat, k: nat, t: Tid, p: PageId, f: FrameId)
    requires IsRun(r) && Inv(r.states[0]) && k0 <= k < |r.movers| && r.movers[k] == t && Looks(r.states[k], t, p, f)
    requires forall n | k0 <= n <= k :: Carries(r.states[n], p, f, Resident)
    requires Mapped(r.states[k0], p, f) && NoPending(r.states[k0], f)
    ensures f < |r.states[k0].frames| && OnTheWay(r, k0, k + 1, t, p, f, r.states[k0].frames[f].dirty)
  {
    hide Inv, Next, InSync, Behind, NoPending, Synced;
    var s, s' := r.states[k], r.states[k + 1];
    assert Carries(r.states[k0], p, f, Resident);
    BehindSince(r, k0, k, p, f);
    RunKeeps(r, k);
    assert StepAt(r, k);
    LookSteps(s, t, s', p, f);
    if Synced(r, k0, k, p) {
      SyncedLater(r, k0, k, k + 1, p);
    } else {
      BehindStep(s, t, s', p, f, r.states[k0].frames[f].dirty);
      if InSync(s', p) { SyncedNow(r, k0, k + 1, p); }
    }
  }

  /**
   * FlushPage, and FlushAllPages for each frame.  Take any moment k0 at which no write to p was pending and
   * since when p has stayed in its frame.  A flush that finds p there at k, and by j is idle with none of
   * its writes failed, leaves the disk with what p held at some moment from k0 on: every write marked
   * before k0 is on disk.
   */
  lemma {:induction false} FlushWrites(r: Run, k0: nat, k: nat, j: nat, t: Tid, p: PageId, f: FrameId)
    requires IsRun(r) && Inv(r.states[0]) && k0 <= k < j < |r.states| && r.movers[k] == t
    requires forall n | k0 <= n <= k :: Carries(r.states[n], p, f, Resident)
    requires Mapped(r.states[k0], p, f) && NoPending(r.states[k0], f) && Looks(r.states[k], t, p, f)
    requires t in r.states[j].threads && r.states[j].threads[t] == Idle
    requires forall n | k < n < j && r.movers[n] == t :: !WriteFails(r.states[n], t, r.states[n + 1])
    ensures Synced(r, k0, j, p)
  {
    hide Inv, Next, Synced, NoPending, Looks, StepAt, Behind, WriteFails;
    LookStarts(r, k0, k, t, p, f);
    FlushRuns(r, k0, k + 1, j, t, p, f, r.states[k0].frames[f].dirty);
  }

  // ---------- and it stays there ----------

  lemma SyncStep(s: Pool, v: Tid, s': Pool, p: PageId)
    requires Inv(s) && Next(s, v, s') && InSync(s, p) && !Concerns(s, v, s', p)
    ensures InSync(s', p) && Logical(s', p) == Logical(s, p)
  {
    hide Inv, Next, Logical;
    OtherPagesSame(s, v, s', p);
    if WriteBack(s, v, s') {
      WritesWhatIsHeld(s, v, s');
    } else if !Allocate(s, v, s') && !Deallocate(s, v, s') {
      DiskUntouched(s, v, s');
    }
  }

  /** A writeback puts on disk what the page holds. */
  lemma WritesWhatIsHeld(s: Pool, v: Tid, s': Pool)
    requires Inv(s) && WriteBack(s, v, s')
    ensures s'.disk == s.disk || (s.threads[v].p in s.disk && Logical(s, s.threads[v].p).Some?
              && s'.disk == s.disk[s.threads[v].p := Logical(s, s.threads[v].p).value])
  {
    hide Inv;
    ThreadAt(s, v);
  }

  lemma {:induction false} SyncStays(r: Run, m: nat, j: nat, p: PageId)
    requires IsRun(r) && Inv(r.states[0]) && m <= j < |r.states| && InSync(r.states[m], p)
    requires forall n | m <= n < j :: !Concerns(r.states[n], r.movers[n], r.states[n + 1], p)
    ensures InSync(r.states[j], p)
    decreases j
  {
    hide Inv, Next, InSync, Concerns;
    if m < j {
      SyncStays(r, m, j - 1, p);
      RunKeeps(r, j - 1);
      assert StepAt(r, j - 1);
      SyncStep(r.states[j - 1], r.movers[j - 1], r.states[j], p);
    }
  }

  /** If nobody has written, created or deleted p since k0, the disk has at j what p held at k0 and holds. */
  lemma {:induction false} FlushedIsOnDisk(r: Run, k0: nat, k: nat, j: nat, t: Tid, p: PageId, f: FrameId)
    requires IsRun(r) && Inv(r.states[0]) && k0 <= k < j < |r.states| && r.movers[k] == t
    requires forall n | k0 <= n <= k :: Carries(r.states[n], p, f, Resident)
    requires Mapped(r.states[k0], p, f) && NoPending(r.states[k0], f) && Looks(r.states[k], t, p, f)
    requires t in r.states[j].threads && r.states[j].threads[t] == Idle
    requires forall n | k < n < j && r.movers[n] == t :: !WriteFails(r.states[n], t, r.states[n + 1])
    requires forall n | k0 <= n < j :: !Concerns(r.states[n], r.movers[n], r.states[n + 1], p)
    ensures OnDisk(r.states[j], p) == Logical(r.states[j], p) == Logical(r.states[k0], p)
  {
    hide Inv, Next, NoPending, Looks, StepAt, WriteFails, Concerns, Logical;
    FlushWrites(r, k0, k, j, t, p, f);
    var m: nat :| k0 <= m <= j && m < |r.states| && InSync(r.states[m], p);
    SyncStays(r, m, j, p);
    HeldSince(r, k0, j, p);
  }

  lemma {:induction false} HeldSince(r: Run, i: nat, j: nat, p: PageId)
    requires IsRun(r) && Inv(r.states[0]) && i <= j < |r.states|
    requires forall n | i <= n < j :: !Concerns(r.states[n], r.movers[n], r.states[n + 1], p)
    ensures Logical(r.states[j], p) == Logical(r.states[i], p)
    decreases j
  {
    hide Inv, Next, Concerns, Logical;
    if i < j {
      HeldSince(r, i, j - 1, p);
      RunKeeps(r, j - 1);
      assert StepAt(r, j - 1);
      OtherPagesSame(r.states[j - 1], r.movers[j - 1], r.states[j], p);
    }
  }
}
