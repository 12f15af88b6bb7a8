/** The steps that change what a frame is, or who has it. */
module PoolFrames {
  import opened Common
  import opened PoolModel
  import opened PoolInvariant
  import opened PoolQuiet
  import opened PoolSteps
  import opened PoolBytes

  /** All that the steps below have in common. */
  lemma FrameStepKeeps(s: Pool, t: Tid, s': Pool)
    requires Inv(s) && Moves(s, t, s') && |s'.frames| == |s.frames| && s'.evictable == s.evictable
    requires forall f: FrameId | f < |s.frames| ::
               s'.frames[f].pins == s.frames[f].pins - Holding(s.threads[t], f) + Holding(s'.threads[t], f)
    requires ExclusionMove(s, t, s.threads[t], s'.threads[t])
    requires forall f: FrameId | f < |s.frames| :: EvictMove(s, t, s', f)
    requires ThreadsOk(s') && FreeOk(s') && FramesOk(s') && CleanOk(s') && TableOk(s')
    ensures Inv(s')
  {
    hide ThreadsOk, FreeOk, FramesOk, CleanOk, TableOk, EvictMove, ExclusionMove;
    PinsMove(s, t, s');
    MoveExclusion(s, t, s');
    MoveEvict(s, t, s');
  }

  /** Claims on frames other than the one this step is about. */
  lemma ClaimedElsewhere(s: Pool, t: Tid, s': Pool, g: FrameId)
    requires Moves(s, t, s') && ClaimOf(s.threads[t]) != Some(g) && ClaimOf(s'.threads[t]) != Some(g)
    ensures Claimed(s', g) <==> Claimed(s, g)
  {
    hide ClaimOf;
    if Claimed(s, g) {
      var u :| u in s.threads && ClaimOf(s.threads[u]) == Some(g);
      assert ClaimOf(s'.threads[u]) == Some(g);
    }
    if Claimed(s', g) {
      var u :| u in s'.threads && ClaimOf(s'.threads[u]) == Some(g);
      assert ClaimOf(s.threads[u]) == Some(g);
    }
  }

  /** Before and after, this thread claims at most frame f. */
  predicate ClaimsOnly(s: Pool, t: Tid, s': Pool, f: FrameId)
    requires Moves(s, t, s')
  {
    && (ClaimOf(s.threads[t]).None? || ClaimOf(s.threads[t]) == Some(f))
    && (ClaimOf(s'.threads[t]).None? || ClaimOf(s'.threads[t]) == Some(f))
  }

  /** Only frame f, its place on the free list, and its mapping; only p may be newly mapped. */
  ghost predicate Confined(s: Pool, t: Tid, s': Pool, f: FrameId, p: PageId) {
    && Moves(s, t, s') && OneFrame(s, f, s') && ClaimsOnly(s, t, s', f) && s'.disk == s.disk
    && (forall g | g != f :: g in s'.free <==> g in s.free)
    && (forall q, g | g != f :: Mapped(s', q, g) <==> Mapped(s, q, g))
    && (forall q | q in s'.table && q !in s.table :: q == p)
  }

  lemma ConfinedFrames(s: Pool, t: Tid, s': Pool, f: FrameId, p: PageId)
    requires Inv(s) && Confined(s, t, s', f, p) && FrameOk(s', f)
    requires forall i, j | 0 <= i < j < |s'.free| :: s'.free[i] != s'.free[j]
    requires f in s'.free ==> s'.frames[f].state == Free && !Claimed(s', f)
    requires forall q | q in s'.table && s'.table[q] == f :: Carries(s', q, f, Loading) || Carries(s', q, f, Resident)
    ensures FreeOk(s') && FramesOk(s') && TableOk(s')
  {
    hide ClaimOf, Claimed, ThreadsOk, Exclusion, CleanOk, PinsOk, EvictOk;
    forall g: FrameId | g != f ensures Claimed(s', g) <==> Claimed(s, g) { ClaimedElsewhere(s, t, s', g); }
    forall g: FrameId | g < |s'.frames| ensures FrameOk(s', g) { assert FrameOk(s, g); }
    forall q | q in s'.table ensures Carries(s', q, s'.table[q], Loading) || Carries(s', q, s'.table[q], Resident) {
      if s'.table[q] != f { assert Mapped(s', q, s'.table[q]); }
    }
  }

  /** A thread that neither pins nor claims f, and does not rely on p being unmapped, sees no change. */
  lemma ConfinedPc(s: Pool, t: Tid, s': Pool, f: FrameId, p: PageId, pc: Pc)
    requires PcOk(s, pc) && Confined(s, t, s', f, p) && PinOf(pc) != Some(f) && ClaimOf(pc) != Some(f)
    requires p in s'.table && p !in s.table ==> CreationOf(pc) != Some(p) && ShardOf(pc) != Some(p)
    ensures PcOk(s', pc)
  {
  }

  // ---------- emptying a frame ----------

  /** The last or only interested party turns the frame into private stock and unmaps its page. */
  ghost predicate Empties(s: Pool, t: Tid, s': Pool, f: FrameId) {
    && Moves(s, t, s') && f < |s.frames| && s.frames[f].state != Free
    && s' == s.(frames := s.frames[f := Emptied(s.frames[f])], table := s'.table, threads := s'.threads)
    && (|| (s'.table == s.table - {s.frames[f].page} && Mapped(s, s.frames[f].page, f))
        || (s'.table == s.table && s.frames[f].state == Failed))
    && s.frames[f].pins == Holding(s.threads[t], f)
    && (PinOf(s.threads[t]).None? || PinOf(s.threads[t]) == Some(f)) && PinOf(s'.threads[t]).None?
    && ClaimOf(s'.threads[t]) == Some(f)
  }

  lemma NoOtherHolder(s: Pool, t: Tid, f: FrameId)
    requires Inv(s) && t in s.threads && f < |s.frames| && s.frames[f].pins == Holding(s.threads[t], f)
    ensures forall u | u in s.threads && u != t :: PinOf(s.threads[u]) != Some(f)
  {
    hide ThreadsOk, Exclusion, FreeOk, TableOk, FramesOk, CleanOk, EvictOk, PinOf;
    var rest := Holders(s, f) - {t};
    assert Holders(s, f) == if Holding(s.threads[t], f) == 1 then rest + {t} else rest;
    assert rest == {};
    forall u | u in s.threads && u != t ensures PinOf(s.threads[u]) != Some(f) {
      assert u !in rest;
    }
  }

  lemma NoHolder(s: Pool, f: FrameId)
    requires Inv(s) && f < |s.frames| && s.frames[f].pins == 0
    ensures forall u | u in s.threads :: PinOf(s.threads[u]) != Some(f)
  {
    hide ThreadsOk, Exclusion, FreeOk, TableOk, FramesOk, CleanOk, EvictOk, PinOf;
    forall u | u in s.threads ensures PinOf(s.threads[u]) != Some(f) {
      assert u !in Holders(s, f);
    }
  }

  /** A claim on a frame that is not free is by one of its pin holders. */
  lemma ClaimsPin(s: Pool, u: Tid, f: FrameId)
    requires Inv(s) && u in s.threads && f < |s.frames| && s.frames[f].state != Free && ClaimOf(s.threads[u]) == Some(f)
    ensures PinOf(s.threads[u]) == Some(f)
  {
    hide PinsOk, Exclusion, FreeOk, TableOk, FramesOk, CleanOk, EvictOk;
    assert PcOk(s, s.threads[u]);
  }

  lemma EmptiesAlone(s: Pool, t: Tid, s': Pool, f: FrameId)
    requires Inv(s) && Empties(s, t, s', f)
    ensures forall u | u in s.threads && u != t :: PinOf(s.threads[u]) != Some(f) && ClaimOf(s.threads[u]) != Some(f)
  {
    hide Inv;
    NoOtherHolder(s, t, f);
    forall u | u in s.threads && u != t && ClaimOf(s.threads[u]) == Some(f) ensures false { ClaimsPin(s, u, f); }
  }

  lemma EmptiesThreads(s: Pool, t: Tid, s': Pool, f: FrameId)
    requires Inv(s) && Empties(s, t, s', f) && ClaimsOnly(s, t, s', f) && PcOk(s', s'.threads[t])
    ensures ThreadsOk(s')
  {
    hide Inv, PcOk, PinOf, ClaimOf;
    EmptiesAlone(s, t, s', f);
    forall u | u in s'.threads ensures PcOk(s', s'.threads[u]) {
      if u != t {
        ThreadAt(s, u);
        ConfinedPc(s, t, s', f, s.frames[f].page, s.threads[u]);
      }
    }
  }

  lemma StockAt(s: Pool, f: FrameId)
    requires Inv(s) && f in s.free
    ensures f < |s.frames| && s.frames[f].state == Free && !Claimed(s, f)
    ensures forall i, j | 0 <= i < j < |s.free| :: s.free[i] != s.free[j]
  {
  }

  lemma FreeDistinct(s: Pool)
    requires Inv(s)
    ensures forall i, j | 0 <= i < j < |s.free| :: s.free[i] != s.free[j]
    ensures forall f | f in s.free :: f < |s.frames| && s.frames[f].state == Free
  {
  }

  lemma EmptiesFrames(s: Pool, t: Tid, s': Pool, f: FrameId)
    requires Inv(s) && Empties(s, t, s', f) && ClaimsOnly(s, t, s', f)
    ensures FreeOk(s') && FramesOk(s') && TableOk(s')
  {
    hide Inv, ClaimOf;
    FreeDistinct(s);
    forall q | q in s'.table ensures s'.table[q] != f { TableAt(s, q); }
    assert Claimed(s', f);
    ConfinedFrames(s, t, s', f, s.frames[f].page);
  }

  lemma NoMarks(s: Pool, t: Tid, f: FrameId)
    requires forall u | u in s.threads && u != t :: PinOf(s.threads[u]) != Some(f)
    ensures forall u | u in s.threads && u != t && s.threads[u].Marking? :: s.threads[u].f != f
  {
    forall u | u in s.threads && u != t && s.threads[u].Marking? ensures s.threads[u].f != f {
      assert PinOf(s.threads[u]) == Some(s.threads[u].f);
    }
  }

  lemma EmptiesKeeps(s: Pool, t: Tid, s': Pool, f: FrameId)
    requires Inv(s) && Empties(s, t, s', f) && ClaimsOnly(s, t, s', f) && PcOk(s', s'.threads[t])
    requires PendingOf(s.threads[t]).None? && !s'.threads[t].Marking?
             && ExclusionMove(s, t, s.threads[t], s'.threads[t])
    requires forall g: FrameId | g < |s.frames| && g != f :: !Considers(s, s.threads[t], g)
    ensures Inv(s')
  {
    hide Inv, ThreadsOk, FreeOk, FramesOk, CleanOk, TableOk, PcOk, ExclusionMove, Settled;
    EmptiesAlone(s, t, s', f);
    EmptiesThreads(s, t, s', f);
    EmptiesFrames(s, t, s', f);
    NoMarks(s, t, f);
    TouchClean(s, t, s', f);
    FrameStepKeeps(s, t, s');
  }

  lemma TakeCleanKeeps(s: Pool, t: Tid, s': Pool)
    requires Inv(s) && TakeClean(s, t, s')
    ensures Inv(s')
  {
    hide Inv;
    var f := s.threads[t].f;
    ThreadAt(s, t);
    UnpinnedIsMapped(s, f);
    FreeDistinct(s);
    assert Empties(s, t, s', f);
    EmptiesAlone(s, t, s', f);
    EmptiesKeeps(s, t, s', f);
  }

  /** NewPage holds a pin until after it has mapped its page. */
  lemma UnpinnedIsMapped(s: Pool, f: FrameId)
    requires Inv(s) && f < |s.frames| && s.frames[f].state == Resident && s.frames[f].pins == 0
    ensures Mapped(s, s.frames[f].page, f)
  {
    hide Exclusion, FreeOk, TableOk, CleanOk, EvictOk;
    assert FrameOk(s, f);
    forall u | u in s.threads ensures ClaimOf(s.threads[u]) != Some(f) {
      assert PcOk(s, s.threads[u]);
      assert u !in Holders(s, f);
    }
  }

  lemma RetakeKeeps(s: Pool, t: Tid, s': Pool)
    requires Inv(s) && Retake(s, t, s')
    ensures Inv(s')
  {
    hide Inv;
    var f := s.threads[t].f;
    ThreadAt(s, t);
    FreeDistinct(s);
    EmptiesAlone(s, t, s', f);
    EmptiesKeeps(s, t, s', f);
  }

  /** A mapped frame nobody has pinned is resident: a load keeps its loader's pin. */
  lemma UnpinnedIsResident(s: Pool, p: PageId)
    requires Inv(s) && p in s.table && s.table[p] < |s.frames| && s.frames[s.table[p]].pins == 0
    ensures Carries(s, p, s.table[p], Resident)
  {
    hide Exclusion, FreeOk, FramesOk, CleanOk, EvictOk;
    var f := s.table[p];
    NoHolder(s, f);
    if s.frames[f].state == Loading {
      var u := Loader(s, f);
      ClaimsPin(s, u, f);
    }
  }

  lemma VacateKeeps(s: Pool, t: Tid, s': Pool)
    requires Inv(s) && Vacate(s, t, s')
    ensures Inv(s')
  {
    hide Inv;
    var p := s.threads[t].p;
    var f := s.table[p];
    UnpinnedIsResident(s, p);
    FreeDistinct(s);
    EmptiesAlone(s, t, s', f);
    EmptiesKeeps(s, t, s', f);
  }

  lemma DrainKeeps(s: Pool, t: Tid, s': Pool)
    requires Inv(s) && Drain(s, t, s')
    ensures Inv(s')
  {
    hide Inv;
    var f := s.threads[t].f;
    ThreadAt(s, t);
    FreeDistinct(s);
    EmptiesAlone(s, t, s', f);
    EmptiesKeeps(s, t, s', f);
  }

  // ---------- loading ----------

  lemma FreeUnpinned(s: Pool, f: FrameId)
    requires Inv(s) && f < |s.frames| && s.frames[f].state == Free
    ensures s.frames[f].pins == 0 && forall u | u in s.threads :: PinOf(s.threads[u]) != Some(f)
  {
    hide Exclusion, FreeOk, FramesOk, CleanOk, EvictOk;
    forall u | u in s.threads ensures PinOf(s.threads[u]) != Some(f) { assert PcOk(s, s.threads[u]); }
    assert Holders(s, f) == {};
  }

  /** The steps of the one thread that claims f. */
  lemma ClaimantThreads(s: Pool, t: Tid, s': Pool, f: FrameId, p: PageId)
    requires Inv(s) && Confined(s, t, s', f, p) && ClaimOf(s.threads[t]) == Some(f) && PcOk(s', s'.threads[t])
    requires forall u | u in s.threads && u != t && PinOf(s.threads[u]) == Some(f) :: PcOk(s', s.threads[u])
    requires p in s'.table && p !in s.table ==>
               ShardFree(s, p) && forall u | u in s.threads && u != t :: CreationOf(s.threads[u]) != Some(p)
    ensures ThreadsOk(s')
  {
    hide Inv, PcOk, PinOf, ClaimOf, Confined;
    MovesOf(s, t, s', f, p);
    forall u | u in s'.threads ensures PcOk(s', s'.threads[u]) {
      if u != t {
        ThreadAt(s, u);
        OtherClaim(s, t, u);
        if PinOf(s.threads[u]) != Some(f) { ConfinedPc(s, t, s', f, p, s.threads[u]); }
      }
    }
  }

  lemma MovesOf(s: Pool, t: Tid, s': Pool, f: FrameId, p: PageId)
    requires Confined(s, t, s', f, p)
    ensures Moves(s, t, s')
  {
  }

  lemma TableNot(s: Pool, f: FrameId)
    requires Inv(s) && f < |s.frames| && s.frames[f].state != Loading && s.frames[f].state != Resident
    ensures forall q | q in s.table :: s.table[q] != f
  {
  }

  /** Pins and candidates around a frame only its claimant changes. */
  predicate ClaimantPins(s: Pool, t: Tid, s': Pool, f: FrameId)
    requires Moves(s, t, s') && f < |s.frames| == |s'.frames|
  {
    && (PinOf(s.threads[t]).None? || PinOf(s.threads[t]) == Some(f))
    && (PinOf(s'.threads[t]).None? || PinOf(s'.threads[t]) == Some(f))
    && s'.frames[f].pins == s.frames[f].pins - Holding(s.threads[t], f) + Holding(s'.threads[t], f)
    && (s'.frames[f].state == Resident ==> s'.frames[f].pins > 0)
    && s'.evictable == s.evictable
  }

  lemma ClaimantKeeps(s: Pool, t: Tid, s': Pool, f: FrameId, p: PageId)
    requires Inv(s) && Confined(s, t, s', f, p) && ClaimOf(s.threads[t]) == Some(f) && ClaimantPins(s, t, s', f)
    requires ThreadsOk(s') && FreeOk(s') && FramesOk(s') && TableOk(s')
    requires ExclusionMove(s, t, s.threads[t], s'.threads[t])
    requires s'.frames[f].state == Resident && !IsDirty(s'.frames[f]) ==> Settled(s', f)
    requires forall u | u in s.threads && u != t && s.threads[u].Marking? :: s.threads[u].f != f
    requires PendingOf(s.threads[t]).None? || PendingOf(s.threads[t]) == Some(f)
    requires !s'.threads[t].Marking?
    ensures Inv(s')
  {
    hide Inv, ThreadsOk, FreeOk, FramesOk, CleanOk, TableOk, Settled, ExclusionMove;
    TouchClean(s, t, s', f);
    FrameStepKeeps(s, t, s');
  }

  lemma StartLoadKeeps(s: Pool, t: Tid, s': Pool)
    requires Inv(s) && StartLoad(s, t, s')
    ensures Inv(s')
  {
    hide Inv, ThreadsOk, FreeOk, FramesOk, TableOk, Settled;
    var Owned(ForFetch(p, w), f) := s.threads[t];
    ThreadAt(s, t);
    FreeUnpinned(s, f);
    TableNot(s, f);
    FreeDistinct(s);
    InFlightNotCreating(s, t, p);
    ClaimantThreads(s, t, s', f, p);
    assert ClaimOf(s'.threads[t]) == Some(f);
    ConfinedFrames(s, t, s', f, p);
    NoMarks(s, t, f);
    ClaimantKeeps(s, t, s', f, p);
  }

  lemma PublishKeeps(s: Pool, t: Tid, s': Pool)
    requires Inv(s) && Publish(s, t, s')
    ensures Inv(s')
  {
    hide Inv, ThreadsOk, FreeOk, FramesOk, TableOk;
    var Publishing(p, f, w) := s.threads[t];
    ThreadAt(s, t);
    PinnedFrame(s, t);
    FreeDistinct(s);
    LoadWaiters(s, f);
    OthersClaim(s, t);
    ClaimantThreads(s, t, s', f, p);
    MappedOnce(s, p, f);
    ConfinedFrames(s, t, s', f, p);
    NoMarkOnLoading(s, f);
    ClaimantKeeps(s, t, s', f, p);
  }

  /** While a frame is Loading, only its loader and waiters have it pinned. */
  lemma LoadWaiters(s: Pool, f: FrameId)
    requires Inv(s) && f < |s.frames| && s.frames[f].state == Loading
    ensures forall u | u in s.threads && PinOf(s.threads[u]) == Some(f) ::
            s.threads[u].Waiting? || ClaimOf(s.threads[u]) == Some(f)
    ensures forall u | u in s.threads && PinOf(s.threads[u]) == Some(f) && s.threads[u].Waiting? ::
            s.threads[u].p == s.frames[f].page
  {
    hide PinsOk, Exclusion, FreeOk, TableOk, FramesOk, CleanOk, EvictOk;
    forall u | u in s.threads && PinOf(s.threads[u]) == Some(f)
      ensures s.threads[u].Waiting? || ClaimOf(s.threads[u]) == Some(f)
      ensures s.threads[u].Waiting? ==> s.threads[u].p == s.frames[f].page
    {
      assert PcOk(s, s.threads[u]);
    }
  }

  lemma MappedOnce(s: Pool, p: PageId, f: FrameId)
    requires Inv(s) && Mapped(s, p, f)
    ensures forall q | q in s.table && s.table[q] == f :: q == p
  {
  }

  lemma EraseThreads(s: Pool, t: Tid, s': Pool)
    requires Inv(s) && Erase(s, t, s')
    ensures ThreadsOk(s')
  {
    hide Inv, ThreadsOk, ShardFree;
    var Erasing(p, f) := s.threads[t];
    ThreadAt(s, t);
    LoadWaiters(s, f);
    OthersClaim(s, t);
    ClaimantThreads(s, t, s', f, p);
  }

  lemma EraseKeeps(s: Pool, t: Tid, s': Pool)
    requires Inv(s) && Erase(s, t, s')
    ensures Inv(s')
  {
    hide Inv, ThreadsOk, FreeOk, FramesOk, TableOk, Settled;
    var Erasing(p, f) := s.threads[t];
    ThreadAt(s, t);
    PinnedFrame(s, t);
    FreeDistinct(s);
    EraseThreads(s, t, s');
    MappedOnce(s, p, f);
    assert ClaimOf(s'.threads[t]) == Some(f);
    ConfinedFrames(s, t, s', f, p);
    NoMarkOnLoading(s, f);
    ClaimantKeeps(s, t, s', f, p);
  }

  lemma OthersClaim(s: Pool, t: Tid)
    requires Inv(s) && t in s.threads && ClaimOf(s.threads[t]).Some?
    ensures forall u | u in s.threads && u != t :: ClaimOf(s.threads[u]) != ClaimOf(s.threads[t])
  {
    forall u | u in s.threads && u != t ensures ClaimOf(s.threads[u]) != ClaimOf(s.threads[t]) { OtherClaim(s, t, u); }
  }

  lemma FailKeeps(s: Pool, t: Tid, s': Pool)
    requires Inv(s) && Fail(s, t, s')
    ensures Inv(s')
  {
    hide Inv, ThreadsOk, FreeOk, FramesOk, TableOk, Settled;
    var Failing(p, f) := s.threads[t];
    ThreadAt(s, t);
    PinnedFrame(s, t);
    FreeDistinct(s);
    LoadWaiters(s, f);
    OthersClaim(s, t);
    ClaimantThreads(s, t, s', f, p);
    TableIs(s, f);
    assert ClaimOf(s'.threads[t]) == Some(f);
    ConfinedFrames(s, t, s', f, p);
    NoMarkOnLoading(s, f);
    ClaimantKeeps(s, t, s', f, p);
  }

  lemma TableIs(s: Pool, f: FrameId)
    requires Inv(s) && f < |s.frames|
    ensures forall q | q in s.table && s.table[q] == f :: q == s.frames[f].page
  {
  }

  // ---------- creating ----------

  lemma StampKeeps(s: Pool, t: Tid, s': Pool)
    requires Inv(s) && Stamp(s, t, s')
    ensures Inv(s')
  {
    hide Inv, ThreadsOk, FreeOk, FramesOk, TableOk;
    var Stamping(p, f) := s.threads[t];
    ThreadAt(s, t);
    FrameAt(s, f);
    FreeUnpinned(s, f);
    TableNot(s, f);
    FreeDistinct(s);
    ClaimantThreads(s, t, s', f, p);
    assert ClaimOf(s'.threads[t]) == Some(f);
    ConfinedFrames(s, t, s', f, p);
    NoMarks(s, t, f);
    PendingSettled(s', t, f);
    ClaimantKeeps(s, t, s', f, p);
  }

  lemma MapNewKeeps(s: Pool, t: Tid, s': Pool)
    requires Inv(s) && MapNew(s, t, s')
    ensures Inv(s')
  {
    hide Inv, ThreadsOk, FreeOk, FramesOk, TableOk;
    var Mapping(p, f) := s.threads[t];
    ThreadAt(s, t);
    FrameAt(s, f);
    PinnedFrame(s, t);
    FreeDistinct(s);
    MapNewThreads(s, t, s');
    TableIs(s, f);
    ConfinedFrames(s, t, s', f, p);
    NoMarkOnLoading(s, f);
    PendingSettled(s', t, f);
    ClaimantKeeps(s, t, s', f, p);
  }

  lemma MapNewThreads(s: Pool, t: Tid, s': Pool)
    requires Inv(s) && MapNew(s, t, s')
    ensures ThreadsOk(s')
  {
    hide Inv;
    var Mapping(p, f) := s.threads[t];
    ThreadAt(s, t);
    OthersClaim(s, t);
    TableIs(s, f);
    forall u | u in s.threads && u != t ensures CreationOf(s.threads[u]) != Some(p) { OtherCreation(s, t, u); }
    forall u | u in s.threads && u != t && PinOf(s.threads[u]) == Some(f)
      ensures PcOk(s', s.threads[u]) { ThreadAt(s, u); }
    ClaimantThreads(s, t, s', f, p);
  }

  lemma OtherCreation(s: Pool, t: Tid, u: Tid)
    requires Inv(s) && t in s.threads && u in s.threads && u != t && CreationOf(s.threads[t]).Some?
    ensures CreationOf(s.threads[u]) != CreationOf(s.threads[t])
  {
    assert Compatible(s.threads[t], s.threads[u]);
  }

  // ---------- the free list ----------

  lemma TryPopKeeps(s: Pool, t: Tid, s': Pool)
    requires Inv(s) && TryPop(s, t, s')
    ensures Inv(s')
  {
    hide Inv, ThreadsOk, FreeOk, FramesOk, TableOk, CleanOk;
    if s.free == [] {
      PlainKeeps(s, t, s');
    } else {
      var f := s.free[|s.free| - 1];
      StockAt(s, f);
      FrameAt(s, f);
      PopThreads(s, t, s');
      TableNot(s, f);
      assert ClaimOf(s'.threads[t]) == Some(f);
      ConfinedFrames(s, t, s', f, INVALID_PAGE);
      StockClean(s, t, s');
      FrameStepKeeps(s, t, s');
    }
  }

  lemma PopThreads(s: Pool, t: Tid, s': Pool)
    requires Inv(s) && TryPop(s, t, s') && s.free != []
    ensures ThreadsOk(s')
  {
    hide Inv;
    var f := s.free[|s.free| - 1];
    StockAt(s, f);
    forall u | u in s'.threads ensures PcOk(s', s'.threads[u]) { ThreadAt(s, u); }
  }

  /** Frames, table and disk untouched. */
  lemma StockClean(s: Pool, t: Tid, s': Pool)
    requires Inv(s) && Moves(s, t, s') && s'.frames == s.frames && s'.disk == s.disk
    requires PendingOf(s.threads[t]).None? && !s'.threads[t].Marking?
    ensures CleanOk(s')
  {
    hide PendingOf, ThreadsOk, Exclusion, FreeOk, TableOk, FramesOk, EvictOk, PinsOk;
    forall g: FrameId | g < |s.frames| && Settled(s, g) ensures Settled(s', g) {
      if NoPending(s', g) {
        forall u | u in s.threads ensures PendingOf(s.threads[u]) != Some(g) {
          assert PendingOf(s'.threads[u]) != Some(g);
        }
      }
    }
  }

  lemma PushKeeps(s: Pool, t: Tid, s': Pool)
    requires Inv(s) && Push(s, t, s')
    ensures Inv(s')
  {
    hide Inv, ThreadsOk, FreeOk, FramesOk, TableOk, CleanOk;
    var f := s.threads[t].f;
    ThreadAt(s, t);
    FrameAt(s, f);
    FreeDistinct(s);
    OthersClaim(s, t);
    PushThreads(s, t, s');
    TableNot(s, f);
    assert !Claimed(s', f);
    ConfinedFrames(s, t, s', f, INVALID_PAGE);
    StockClean(s, t, s');
    FrameStepKeeps(s, t, s');
  }

  lemma PushThreads(s: Pool, t: Tid, s': Pool)
    requires Inv(s) && Push(s, t, s')
    ensures ThreadsOk(s')
  {
    hide Inv;
    OthersClaim(s, t);
    forall u | u in s'.threads ensures PcOk(s', s'.threads[u]) { ThreadAt(s, u); }
  }
}
