/**
 * A fetch when nobody else is at work in the pool and no I/O fails: it always can go on, it ends, and it ends
 * with the guard unless every frame is pinned.
 */
module PoolFetchEnds {
  import opened Common
  import opened PoolModel
  import opened PoolInvariant
  import opened PoolQuiet
  import opened PoolSteps
  import opened PoolBytes
  import opened PoolTheorems
  import opened PoolDeletion
  import opened PoolProgress
  import opened PoolFetch

  /** The disk has the page, in use and under its own id. */
  predicate Fetchable(s: Pool, p: PageId) { Live(s, p) && s.disk[p].id == p }

  /** No guard of another thread keeps t from latching p. */
  ghost predicate LatchOpen(s: Pool, t: Tid, p: PageId, w: Mode) {
    forall u | u in s.threads && u != t && s.threads[u].Guard? && s.threads[u].p == p :: s.threads[u].w == Read == w
  }

  /** Between the call and the guard, with nothing in the way. */
  ghost predicate SoloFetch(s: Pool, t: Tid, p: PageId, w: Mode) {
    && Inv(s) && Alone(s, t) && LatchOpen(s, t, p, w) && w != New && GoalOf(s.threads[t]) == Some(ForFetch(p, w))
    && match s.threads[t]
       case Lookup(_, _) => p in s.table || Fetchable(s, p)
       case Waiting(_, f, _, _) => f < |s.frames| && s.frames[f].state == Resident
       case Recording(_, _, _, _) => true
       case Latching(_, _, _) => true
       case Owned(_, _) => p !in s.table && Fetchable(s, p)
       case Reading(_, _, _) => Fetchable(s, p)
       case Publishing(_, _, _) => true
       case _ => Solo(s, t) && p !in s.table && Fetchable(s, p)
  }

  /** The most steps there can still be. */
  function FetchLeft(s: Pool, t: Tid): nat
    requires t in s.threads
  {
    match s.threads[t]
    case Latching(_, _, _) => 1
    case Recording(_, _, _, _) => 2
    case Waiting(_, _, _, _) => 3
    case Publishing(_, _, _) => 2
    case Reading(_, _, _) => 3
    case Owned(_, _) => 4
    case Lookup(_, _) => 13 * |s.evictable| + 18
    case _ => 5 + StepsLeft(s, t)
  }

  /** Neither a writeback nor the read fails. */
  predicate NoIoError(s: Pool, t: Tid, s': Pool) {
    t in s.threads && NoFault(s', t) && !(s.threads[t].Reading? && s'.threads[t].Erasing?)
  }

  /** The fetch is over: with the guard, or with no frame to be had. */
  ghost predicate FetchOver(s: Pool, t: Tid, p: PageId, w: Mode) {
    && t in s.threads
    && (Got(s.threads[t], ForFetch(p, w)) || (s.threads[t] == Idle && AllPinned(s)))
  }

  ghost predicate Closer(s: Pool, t: Tid, s': Pool, p: PageId, w: Mode) {
    && t in s.threads && t in s'.threads
    && (FetchOver(s', t, p, w) || (SoloFetch(s', t, p, w) && FetchLeft(s', t) < FetchLeft(s, t)))
  }

  // ---------- which steps there are ----------

  lemma OwnedSteps(s: Pool, t: Tid, s': Pool)
    requires Next(s, t, s') && t in s.threads && s.threads[t].Owned? && s.threads[t].goal.ForFetch?
    ensures LoseRace(s, t, s') || StartLoad(s, t, s')
  {
    hide ShardFree, NoWriter, NoReader, NotCreating, NotInFlight;
  }

  lemma ReadSteps(s: Pool, t: Tid, s': Pool)
    requires Next(s, t, s') && t in s.threads && (s.threads[t].Reading? || s.threads[t].Publishing?)
    ensures ReadIn(s, t, s') || Publish(s, t, s')
  {
    hide ShardFree, NoWriter, NoReader, NotCreating, NotInFlight;
  }

  lemma SweepSteps(s: Pool, t: Tid, s': Pool)
    requires Next(s, t, s') && t in s.threads
    requires s.threads[t].Acquiring? || s.threads[t].Evicting? || s.threads[t].Peeking? || s.threads[t].Validating?
    ensures AcquireStep(s, t, s')
  {
    hide ShardFree, NoWriter, NoReader, NotCreating, NotInFlight;
  }

  lemma ReclaimSteps(s: Pool, t: Tid, s': Pool)
    requires Next(s, t, s') && t in s.threads && InReclaim(s.threads[t])
    ensures AcquireStep(s, t, s')
  {
    hide ShardFree, NoWriter, NoReader, NotCreating, NotInFlight;
  }

  // ---------- each stage ----------

  lemma StillOpen(s: Pool, t: Tid, s': Pool, p: PageId, w: Mode)
    requires Alone(s, t) && LatchOpen(s, t, p, w) && Moves(s, t, s')
    ensures Alone(s', t) && LatchOpen(s', t, p, w)
  {
    StillAlone(s, t, s');
  }

  /** Alone, a mapped page is resident: nobody is loading. */
  lemma MappedIsResident(s: Pool, t: Tid, p: PageId)
    requires Inv(s) && Alone(s, t) && ClaimOf(s.threads[t]).None? && p in s.table
    ensures Carries(s, p, s.table[p], Resident)
  {
    hide Inv;
    TableAt(s, p);
    FrameAt(s, s.table[p]);
    assert !Claimed(s, s.table[p]);
  }

  lemma LookupCloser(s: Pool, t: Tid, s': Pool, p: PageId, w: Mode)
    requires SoloFetch(s, t, p, w) && s.threads[t].Lookup? && Next(s, t, s') && Inv(s')
    ensures Closer(s, t, s', p, w)
  {
    hide Inv, Next, ShardFree, FetchOver;
    LookupSteps(s, t, s');
    StillOpen(s, t, s', p, w);
    if LookupHit(s, t, s') { MappedIsResident(s, t, p); }
  }

  lemma HitCloser(s: Pool, t: Tid, s': Pool, p: PageId, w: Mode)
    requires SoloFetch(s, t, p, w) && (s.threads[t].Waiting? || s.threads[t].Recording?) && Next(s, t, s') && Inv(s')
    ensures Closer(s, t, s', p, w)
  {
    hide Inv, Next, FetchOver;
    WaitSteps(s, t, s');
    StillOpen(s, t, s', p, w);
  }

  lemma LatchCloser(s: Pool, t: Tid, s': Pool, p: PageId, w: Mode)
    requires SoloFetch(s, t, p, w) && s.threads[t].Latching? && Next(s, t, s')
    ensures Closer(s, t, s', p, w)
  {
    hide Inv, Next, NoWriter, NoReader;
    LatchSteps(s, t, s');
  }

  lemma LoadCloser(s: Pool, t: Tid, s': Pool, p: PageId, w: Mode)
    requires SoloFetch(s, t, p, w) && (s.threads[t].Owned? || s.threads[t].Reading? || s.threads[t].Publishing?)
    requires Next(s, t, s') && Inv(s') && NoIoError(s, t, s')
    ensures Closer(s, t, s', p, w)
  {
    hide Inv, Next, ShardFree, FetchOver;
    if s.threads[t].Owned? { OwnedSteps(s, t, s'); } else { ReadSteps(s, t, s'); }
    StillOpen(s, t, s', p, w);
  }

  /** Acquiring a frame maps no page and does not touch an unmapped page's bytes. */
  lemma AcquireKeeps(s: Pool, t: Tid, s': Pool, p: PageId)
    requires Inv(s) && AcquireStep(s, t, s') && p !in s.table && Fetchable(s, p)
    ensures p !in s'.table && Fetchable(s', p)
  {
    hide Inv, ShardFree, NoWriter, NoReader;
    if WriteBack(s, t, s') { ThreadAt(s, t); }
  }

  predicate InSearch(pc: Pc) {
    pc.Acquiring? || pc.Evicting? || pc.Peeking? || pc.Validating? || InReclaim(pc)
  }

  lemma SoloSearches(s: Pool, t: Tid)
    requires Solo(s, t)
    ensures Inv(s) && t in s.threads && Alone(s, t) && InSearch(s.threads[t])
  {
  }

  /** In a search, only an empty candidate set or a failed writeback is a setback. */
  lemma SearchSetback(s: Pool, t: Tid, s': Pool)
    requires t in s.threads && InSearch(s.threads[t]) && Setback(s, t, s') && NoFault(s', t)
    ensures s'.threads[t] == Idle
  {
  }

  lemma SearchStage(s: Pool, t: Tid, p: PageId, w: Mode)
    requires Solo(s, t) && LatchOpen(s, t, p, w) && w != New && t in s.threads
    requires GoalOf(s.threads[t]) == Some(ForFetch(p, w)) && p !in s.table && Fetchable(s, p)
    ensures SoloFetch(s, t, p, w) && FetchLeft(s, t) == 5 + StepsLeft(s, t)
  {
    hide Inv, LatchOpen, StepsLeft;
  }

  lemma OwnedStage(s: Pool, t: Tid, p: PageId, w: Mode)
    requires Inv(s) && Alone(s, t) && LatchOpen(s, t, p, w) && w != New && s.threads[t].Owned?
    requires GoalOf(s.threads[t]) == Some(ForFetch(p, w)) && p !in s.table && Fetchable(s, p)
    ensures SoloFetch(s, t, p, w) && FetchLeft(s, t) == 4
  {
    hide Inv, Alone, LatchOpen;
  }

  lemma AcquireCloser(s: Pool, t: Tid, s': Pool, p: PageId, w: Mode)
    requires Solo(s, t) && LatchOpen(s, t, p, w) && w != New && t in s.threads
    requires GoalOf(s.threads[t]) == Some(ForFetch(p, w)) && p !in s.table && Fetchable(s, p)
    requires Next(s, t, s') && Inv(s') && NoIoError(s, t, s')
    ensures Closer(s, t, s', p, w)
  {
    hide Inv, Next, AcquireStep, Solo, Progress, SeekOn, AllPinned, Setback, LatchOpen, Alone, InSearch, InReclaim,
      StepsLeft, SoloFetch, FetchLeft, GoalOf, Fetchable, Moves;
    SoloSearches(s, t);
    SearchSteps(s, t, s');
    AcquireProgress(s, t, s');
    ProgressCounts(s, t, s');
    AcquireKeeps(s, t, s', p);
    SeekStep(s, t, s');
    SeekCases(s, t, s', ForFetch(p, w));
    ThreadMoves(s, t, s');
    StillOpen(s, t, s', p, w);
    SearchStage(s, t, p, w);
    if Setback(s, t, s') { SearchSetback(s, t, s'); }
    if s'.threads[t] == Idle {
      NotSearching(s', t);
    } else if s'.threads[t].Owned? {
      OwnedStage(s', t, p, w);
    } else {
      SoloSearches(s', t);
      GuardNotSearching(s', t);
      SearchStage(s', t, p, w);
    }
  }

  lemma SearchSteps(s: Pool, t: Tid, s': Pool)
    requires Next(s, t, s') && t in s.threads && InSearch(s.threads[t])
    ensures AcquireStep(s, t, s')
  {
    hide Next, AcquireStep;
    if InReclaim(s.threads[t]) { ReclaimSteps(s, t, s'); } else { SweepSteps(s, t, s'); }
  }

  lemma NotSearching(s: Pool, t: Tid)
    requires t in s.threads && s.threads[t] == Idle
    ensures !Solo(s, t)
  {
  }

  lemma GuardNotSearching(s: Pool, t: Tid)
    requires t in s.threads && InSearch(s.threads[t])
    ensures !s.threads[t].Guard?
  {
  }

  /** Alone and without an I/O error, every step of a fetch ends it with the guard, ends it with the pool truly
      full, or leaves fewer steps to go. */
  lemma FetchProgress(s: Pool, t: Tid, s': Pool, p: PageId, w: Mode)
    requires SoloFetch(s, t, p, w) && Next(s, t, s') && NoIoError(s, t, s')
    ensures Closer(s, t, s', p, w)
  {
    hide Next, Closer, Fetchable, LatchOpen, Alone, Solo, NoIoError;
    assert Inv(s) && t in s.threads by { FetchInv(s, t, p, w); }
    hide Inv;
    NextKeeps(s, t, s');
    match s.threads[t]
    case Lookup(_, _) => LookupCloser(s, t, s', p, w);
    case Waiting(_, _, _, _) => HitCloser(s, t, s', p, w);
    case Recording(_, _, _, _) => HitCloser(s, t, s', p, w);
    case Latching(_, _, _) => LatchCloser(s, t, s', p, w);
    case Owned(_, _) => LoadCloser(s, t, s', p, w);
    case Reading(_, _, _) => LoadCloser(s, t, s', p, w);
    case Publishing(_, _, _) => LoadCloser(s, t, s', p, w);
    case _ => AcquireCloser(s, t, s', p, w);
  }

  lemma FetchInv(s: Pool, t: Tid, p: PageId, w: Mode)
    requires SoloFetch(s, t, p, w)
    ensures Inv(s) && t in s.threads
  {
  }

  // ---------- never stuck ----------

  /** What t has latched or locked itself does not stand in its way. */
  lemma NobodyBlocks(s: Pool, t: Tid, p: PageId, w: Mode, f: FrameId)
    requires Inv(s) && Alone(s, t) && LatchOpen(s, t, p, w) && ShardOf(s.threads[t]).None?
    requires ExclusiveOf(s.threads[t]).None? && SharedOf(s.threads[t]).None?
    ensures ShardFree(s, p)
    ensures Carries(s, p, f, Resident) ==> NoWriter(s, f) && (w != Read ==> NoReader(s, f))
  {
    hide Inv;
    forall u | u in s.threads
      ensures ShardOf(s.threads[u]) != Some(p)
      ensures Carries(s, p, f, Resident) ==>
                ExclusiveOf(s.threads[u]) != Some(f) && (w != Read ==> SharedOf(s.threads[u]) != Some(f))
    {
      if u != t { ThreadAt(s, u); }
    }
  }

  lemma HitEnabled(s: Pool, t: Tid, p: PageId, w: Mode) returns (s': Pool)
    requires SoloFetch(s, t, p, w)
    requires s.threads[t].Lookup? || s.threads[t].Waiting? || s.threads[t].Recording? || s.threads[t].Latching?
    ensures Next(s, t, s') && NoIoError(s, t, s')
  {
    hide Inv, Alone, LatchOpen, ShardFree, NoWriter, NoReader, Next;
    FetchInv(s, t, p, w);
    ThreadAt(s, t);
    match s.threads[t]
    case Lookup(_, _) =>
      NobodyBlocks(s, t, p, w, 0);
      if p in s.table {
        var f := s.table[p];
        TableAt(s, p);
        s' := To(Pinned(s, f), t, Waiting(p, f, w, s.frames[f].pins == 0));
        assert LookupHit(s, t, s');
      } else {
        s' := To(s, t, Acquiring(ForFetch(p, w)));
        assert LookupMiss(s, t, s');
      }
      LookupNext(s, t, s');
    case Waiting(_, f, _, z) =>
      s' := To(s, t, Recording(p, f, w, z));
      assert Wake(s, t, s');
      LookupNext(s, t, s');
    case Recording(_, f, _, z) =>
      s' := To(s, t, Latching(p, f, w)).(evictable := if z then s.evictable - {f} else s.evictable);
      assert Record(s, t, s');
      LookupNext(s, t, s');
    case Latching(_, f, _) =>
      NobodyBlocks(s, t, p, w, f);
      s' := To(s, t, Guard(p, f, w));
      assert Latch(s, t, s');
      LookupNext(s, t, s');
  }

  lemma LookupNext(s: Pool, t: Tid, s': Pool)
    requires LookupHit(s, t, s') || LookupMiss(s, t, s') || Wake(s, t, s') || Record(s, t, s') || Latch(s, t, s')
             || StartLoad(s, t, s') || ReadIn(s, t, s') || Publish(s, t, s') || AcquireStep(s, t, s')
    ensures Next(s, t, s')
  {
    hide TryPop, Evict, Peek, Decline, TakeClean, PinDirty, LoadDirty, LoadFlushed, LatchShared, Sample, WriteBack,
      Unshare, MarkFlushed, Retake, GiveUp, LookupHit, LookupMiss, Wake, Record, Latch, StartLoad, ReadIn, Publish;
  }

  lemma LoadEnabled(s: Pool, t: Tid, p: PageId, w: Mode) returns (s': Pool)
    requires SoloFetch(s, t, p, w) && (s.threads[t].Owned? || s.threads[t].Reading? || s.threads[t].Publishing?)
    ensures Next(s, t, s') && NoIoError(s, t, s')
  {
    hide Inv, Alone, LatchOpen, ShardFree, Next;
    FetchInv(s, t, p, w);
    ThreadAt(s, t);
    match s.threads[t]
    case Owned(_, f) =>
      NobodyBlocks(s, t, p, w, f);
      var x := s.frames[f].(state := Loading, page := p, pins := 1, dirty := 0, flushed := 0);
      s' := To(SetFrame(s, f, x), t, Reading(p, f, w)).(table := s.table[p := f]);
      assert StartLoad(s, t, s');
      LookupNext(s, t, s');
    case Reading(_, f, _) =>
      s' := To(SetFrame(s, f, s.frames[f].(data := s.disk[p])), t, Publishing(p, f, w));
      assert ReadIn(s, t, s');
      LookupNext(s, t, s');
    case Publishing(_, f, _) =>
      s' := To(SetFrame(s, f, s.frames[f].(state := Resident)), t, Latching(p, f, w));
      assert Publish(s, t, s');
      LookupNext(s, t, s');
  }

  lemma FetchEnabled(s: Pool, t: Tid, p: PageId, w: Mode) returns (s': Pool)
    requires SoloFetch(s, t, p, w)
    ensures Next(s, t, s') && NoIoError(s, t, s')
  {
    assert Inv(s) && t in s.threads by { FetchInv(s, t, p, w); }
    hide Inv, Alone, LatchOpen, Next, Solo, AcquireStep;
    match s.threads[t]
    case Lookup(_, _) => s' := HitEnabled(s, t, p, w);
    case Waiting(_, _, _, _) => s' := HitEnabled(s, t, p, w);
    case Recording(_, _, _, _) => s' := HitEnabled(s, t, p, w);
    case Latching(_, _, _) => s' := HitEnabled(s, t, p, w);
    case Owned(_, _) => s' := LoadEnabled(s, t, p, w);
    case Reading(_, _, _) => s' := LoadEnabled(s, t, p, w);
    case Publishing(_, _, _) => s' := LoadEnabled(s, t, p, w);
    case _ =>
      s' := AcquireEnabled(s, t);
      LookupNext(s, t, s');
  }

  // ---------- whole runs ----------

  ghost predicate FetchRun(states: seq<Pool>, t: Tid, p: PageId, w: Mode) {
    && states != [] && SoloFetch(states[0], t, p, w)
    && forall i | 0 < i < |states| :: FetchMove(states[i - 1], t, states[i])
  }

  ghost predicate FetchMove(s: Pool, t: Tid, s': Pool) { Next(s, t, s') && NoIoError(s, t, s') }

  lemma {:induction false} FetchRunShrinks(states: seq<Pool>, t: Tid, p: PageId, w: Mode, n: nat)
    requires FetchRun(states, t, p, w) && n < |states| && forall i | 0 < i <= n :: !FetchOver(states[i], t, p, w)
    ensures t in states[0].threads && SoloFetch(states[n], t, p, w) && t in states[n].threads
    ensures FetchLeft(states[n], t) + n <= FetchLeft(states[0], t)
  {
    hide SoloFetch, Next, NoIoError, FetchOver, FetchLeft;
    FetchInv(states[0], t, p, w);
    if n > 0 {
      FetchRunShrinks(states, t, p, w, n - 1);
      assert FetchMove(states[n - 1], t, states[n]);
      FetchProgress(states[n - 1], t, states[n], p, w);
    }
  }

  lemma FetchLeftBound(s: Pool, t: Tid, p: PageId, w: Mode)
    requires SoloFetch(s, t, p, w) && s.threads[t].Lookup?
    ensures FetchLeft(s, t) == 13 * |s.evictable| + 18
  {
  }

  /** A fetch on its own, of a cached page or a live one, is over within a bound in the number of candidates:
      with the guard, or with every frame pinned. */
  lemma {:induction false} FetchEnds(states: seq<Pool>, t: Tid, p: PageId, w: Mode) returns (i: nat)
    requires FetchRun(states, t, p, w) && states[0].threads[t].Lookup?
    requires |states| > 13 * |states[0].evictable| + 19
    ensures 0 < i < |states| && FetchOver(states[i], t, p, w)
  {
    hide SoloFetch, FetchMove, FetchOver, FetchLeft;
    FetchInv(states[0], t, p, w);
    FetchLeftBound(states[0], t, p, w);
    var n := |states| - 1;
    if forall i | 0 < i <= n :: !FetchOver(states[i], t, p, w) {
      FetchRunShrinks(states, t, p, w, n);
    }
    i :| 0 < i <= n && FetchOver(states[i], t, p, w);
  }

  function FetchSteps(s: Pool, t: Tid): nat { if t in s.threads then FetchLeft(s, t) else 0 }

  /** And there is such a run: a fetch never gets stuck on the way. */
  lemma {:induction false} FetchCompletes(s: Pool, t: Tid, p: PageId, w: Mode) returns (states: seq<Pool>)
    requires SoloFetch(s, t, p, w)
    ensures FetchRun(states, t, p, w) && states[0] == s && FetchOver(states[|states| - 1], t, p, w)
    decreases FetchSteps(s, t)
  {
    hide SoloFetch, Next, NoIoError, FetchOver, FetchLeft;
    FetchInv(s, t, p, w);
    var s' := FetchEnabled(s, t, p, w);
    FetchProgress(s, t, s', p, w);
    var rest := [s'];
    if !FetchOver(s', t, p, w) { rest := FetchCompletes(s', t, p, w); }
    states := [s] + rest;
    forall i | 0 < i < |states| ensures FetchMove(states[i - 1], t, states[i]) {
      if i > 1 { assert FetchMove(rest[i - 2], t, rest[i - 1]); }
    }
  }
}
