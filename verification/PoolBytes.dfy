/** The steps that change page bytes, epochs or the disk. */
module PoolBytes {
  import opened Common
  import opened PoolModel
  import opened PoolInvariant
  import opened PoolQuiet
  import opened PoolSteps

  predicate OneFrame(s: Pool, f: FrameId, s': Pool) {
    f < |s.frames| && |s'.frames| == |s.frames| && s'.frames == s.frames[f := s'.frames[f]]
  }

  /** One frame changes, and not who it is. */
  predicate Touches(s: Pool, f: FrameId, s': Pool) {
    && OneFrame(s, f, s')
    && s'.frames[f].state == s.frames[f].state && s'.frames[f].page == s.frames[f].page
    && s'.frames[f].pins == s.frames[f].pins
    && s'.table == s.table && s'.free == s.free && s'.evictable == s.evictable
  }

  lemma TouchFrames(s: Pool, t: Tid, s': Pool, f: FrameId)
    requires Inv(s) && Moves(s, t, s') && Touches(s, f, s') && s'.disk == s.disk
    requires ClaimOf(s'.threads[t]) == ClaimOf(s.threads[t]) && s.frames[f].state != Free
    requires s.frames[f].state == Resident ==>
               s'.frames[f].flushed <= s'.frames[f].dirty
                   && (Mapped(s, s.frames[f].page, f) ==> s'.frames[f].data.kind != FREE)
    ensures FreeOk(s') && FramesOk(s')
  {
    hide ClaimOf, Claimed;
    forall g: FrameId ensures Claimed(s', g) <==> Claimed(s, g) { ClaimedMove(s, t, s', g); }
    forall g: FrameId | g < |s'.frames| ensures FrameOk(s', g) { assert FrameOk(s, g); }
  }

  /** A flusher's announcement about frame f. */
  ghost predicate MarksOk(s: Pool, f: FrameId)
    requires f < |s.frames|
  {
    forall u | u in s.threads && s.threads[u].Marking? && s.threads[u].f == f && s.frames[f].dirty <= s.threads[u].d ::
      Settled(s, f)
  }

  lemma TouchClean(s: Pool, t: Tid, s': Pool, f: FrameId)
    requires Inv(s) && Moves(s, t, s') && OneFrame(s, f, s') && s'.disk == s.disk && !s'.threads[t].Marking?
    requires PendingOf(s.threads[t]).None? || PendingOf(s'.threads[t]) == PendingOf(s.threads[t])
             || PendingOf(s.threads[t]) == Some(f)
    requires s'.frames[f].state == Resident && !IsDirty(s'.frames[f]) ==> Settled(s', f)
    requires MarksOk(s', f)
    ensures CleanOk(s')
  {
    hide PendingOf;
    forall g: FrameId | g < |s.frames| && g != f && Settled(s, g) ensures Settled(s', g) {
      if NoPending(s', g) {
        forall u | u in s.threads ensures PendingOf(s.threads[u]) != Some(g) {
          assert PendingOf(s'.threads[u]) != Some(g);
        }
      }
    }
    forall u | u in s'.threads && s'.threads[u].Marking?
      ensures var g, d := s'.threads[u].f, s'.threads[u].d;
              g < |s'.frames| && s'.frames[g].dirty <= d ==> Settled(s', g)
    {
      assert u != t;
    }
  }

  lemma TouchKeeps(s: Pool, t: Tid, s': Pool, f: FrameId)
    requires Inv(s) && Moves(s, t, s') && Touches(s, f, s')
    requires PinOf(s'.threads[t]) == PinOf(s.threads[t]) && ExclusionMove(s, t, s.threads[t], s'.threads[t])
    requires forall g: FrameId | g < |s.frames| :: !Considers(s, s.threads[t], g)
    requires ThreadsOk(s') && FreeOk(s') && FramesOk(s') && CleanOk(s')
    ensures Inv(s')
  {
    hide ThreadsOk, FreeOk, FramesOk, CleanOk;
    PinsMove(s, t, s');
    MoveExclusion(s, t, s');
    assert TableOk(s');
    MoveEvict(s, t, s');
  }

  // ---------- writing through a guard ----------

  /** Nobody else holds the latch of a frame that is held exclusively. */
  lemma AloneOnLatch(s: Pool, t: Tid, u: Tid, f: FrameId)
    requires Inv(s) && t in s.threads && u in s.threads && u != t && ExclusiveOf(s.threads[t]) == Some(f)
    ensures ExclusiveOf(s.threads[u]) != Some(f) && SharedOf(s.threads[u]) != Some(f)
  {
    hide ExclusiveOf, SharedOf;
    assert Compatible(s.threads[t], s.threads[u]);
  }

  /** A claim is on a frame that is stock, in flight, or not yet mapped. */
  lemma NoClaimOnMapped(s: Pool, u: Tid, p: PageId, f: FrameId)
    requires Inv(s) && u in s.threads && Carries(s, p, f, Resident) && Mapped(s, p, f)
    ensures ClaimOf(s.threads[u]) != Some(f)
  {
    assert PcOk(s, s.threads[u]);
  }

  /** What others rely on about a frame latched exclusively is neither its bytes nor its epoch. */
  lemma WriterThreads(s: Pool, t: Tid, s': Pool, f: FrameId)
    requires Inv(s) && Moves(s, t, s') && Touches(s, f, s') && s'.disk == s.disk && ExclusiveOf(s.threads[t]) == Some(f)
    requires s.frames[f].state == Resident && Mapped(s, s.frames[f].page, f) && s.frames[f].dirty <= s'.frames[f].dirty
    requires PcOk(s', s'.threads[t])
    ensures ThreadsOk(s')
  {
    hide Inv;
    forall u | u in s'.threads ensures PcOk(s', s'.threads[u]) {
      if u != t {
        ThreadAt(s, u);
        NoClaimOnMapped(s, u, s.frames[f].page, f);
        AloneOnLatch(s, t, u, f);
      }
    }
  }

  lemma PutBytesKeeps(s: Pool, t: Tid, s': Pool)
    requires Inv(s) && PutBytes(s, t, s')
    ensures Inv(s')
  {
    hide Inv, ThreadsOk, FreeOk, FramesOk, CleanOk, Settled;
    var f := s.threads[t].f;
    ThreadAt(s, t);
    FrameAt(s, f);
    assert s'.threads == s.threads;
    WriterThreads(s, t, s', f);
    TouchFrames(s, t, s', f);
    PendingSettled(s', t, f);
    TouchClean(s, t, s', f);
    TouchKeeps(s, t, s', f);
  }

  lemma FrameAt(s: Pool, f: FrameId)
    requires Inv(s) && f < |s.frames|
    ensures FrameOk(s, f)
  {
  }

  lemma PendingSettled(s: Pool, t: Tid, f: FrameId)
    requires t in s.threads && PendingOf(s.threads[t]) == Some(f) && f < |s.frames|
    ensures Settled(s, f)
  {
  }

  lemma MarkDirtyKeeps(s: Pool, t: Tid, s': Pool)
    requires Inv(s) && MarkDirty(s, t, s')
    ensures Inv(s')
  {
    hide Inv, ThreadsOk, FreeOk, FramesOk, CleanOk, Settled;
    var f := s.threads[t].f;
    ThreadAt(s, t);
    FrameAt(s, f);
    WriterThreads(s, t, s', f);
    TouchFrames(s, t, s', f);
    forall u | u in s'.threads && s'.threads[u].Marking? && s'.threads[u].f == f
      ensures s'.frames[f].dirty > s'.threads[u].d {
      ThreadAt(s, u);
    }
    TouchClean(s, t, s', f);
    TouchKeeps(s, t, s', f);
  }

  // ---------- marking a flush ----------

  lemma MarkFlushedThreads(s: Pool, t: Tid, s': Pool)
    requires Inv(s) && MarkFlushed(s, t, s')
    ensures ThreadsOk(s')
  {
    hide Inv;
    var f := s.threads[t].f;
    ThreadAt(s, t);
    forall u | u in s'.threads ensures PcOk(s', s'.threads[u]) {
      ThreadAt(s, u);
      NoClaimOnMapped(s, u, s.threads[t].p, f);
    }
  }

  /** The bytes and the disk are as before, so a frame settled stays settled. */
  lemma StillSettled(s: Pool, t: Tid, s': Pool, f: FrameId)
    requires Moves(s, t, s') && Touches(s, f, s') && s'.disk == s.disk && s'.frames[f].data == s.frames[f].data
             && Settled(s, f)
    requires PendingOf(s.threads[t]).None?
    ensures Settled(s', f)
  {
    if NoPending(s', f) {
      forall u | u in s.threads ensures PendingOf(s.threads[u]) != Some(f) {
        assert PendingOf(s'.threads[u]) != Some(f);
      }
    }
  }

  lemma CleanAt(s: Pool, f: FrameId)
    requires Inv(s) && f < |s.frames| && s.frames[f].state == Resident && !IsDirty(s.frames[f])
    ensures Settled(s, f)
  {
  }

  lemma MarkAt(s: Pool, u: Tid)
    requires Inv(s) && u in s.threads && s.threads[u].Marking? && s.threads[u].f < |s.frames|
    requires s.frames[s.threads[u].f].dirty <= s.threads[u].d
    ensures Settled(s, s.threads[u].f)
  {
  }

  lemma MarkFlushedKeeps(s: Pool, t: Tid, s': Pool)
    requires Inv(s) && MarkFlushed(s, t, s')
    ensures Inv(s')
  {
    hide Inv, ThreadsOk, FreeOk, FramesOk, CleanOk, Settled;
    var f := s.threads[t].f;
    ThreadAt(s, t);
    FrameAt(s, f);
    MarkFlushedThreads(s, t, s');
    TouchFrames(s, t, s', f);
    if !IsDirty(s'.frames[f]) {
      if IsDirty(s.frames[f]) { MarkAt(s, t); } else { CleanAt(s, f); }
      StillSettled(s, t, s', f);
    }
    forall u | u in s'.threads && s'.threads[u].Marking? && s'.threads[u].f == f
      && s'.frames[f].dirty <= s'.threads[u].d
      ensures Settled(s', f)
    {
      MarkAt(s, u);
      StillSettled(s, t, s', f);
    }
    TouchClean(s, t, s', f);
    TouchKeeps(s, t, s', f);
  }

  // ---------- reading a page in, and blanking a new one ----------

  lemma OtherClaim(s: Pool, t: Tid, u: Tid)
    requires Inv(s) && t in s.threads && u in s.threads && u != t && ClaimOf(s.threads[t]).Some?
    ensures ClaimOf(s.threads[u]) != ClaimOf(s.threads[t])
  {
    hide ClaimOf;
    assert Compatible(s.threads[t], s.threads[u]);
  }

  /** Nobody else relies on the bytes of a frame that is being loaded or not yet mapped. */
  lemma PrivateBytes(s: Pool, t: Tid, s': Pool, f: FrameId)
    requires Inv(s) && Moves(s, t, s') && Touches(s, f, s') && s'.disk == s.disk && ClaimOf(s.threads[t]) == Some(f)
    requires s'.frames[f].dirty == s.frames[f].dirty && (s.frames[f].state == Resident ==> s.frames[f].page !in s.table)
    requires PcOk(s', s'.threads[t])
    ensures ThreadsOk(s')
  {
    hide Inv;
    forall u | u in s'.threads ensures PcOk(s', s'.threads[u]) {
      if u != t {
        ThreadAt(s, u);
        OtherClaim(s, t, u);
      }
    }
  }

  lemma NoMarkOnLoading(s: Pool, f: FrameId)
    requires Inv(s) && f < |s.frames| && (s.frames[f].state == Resident ==> !Mapped(s, s.frames[f].page, f))
    ensures forall u | u in s.threads && s.threads[u].Marking? :: s.threads[u].f != f
  {
    hide PinsOk, Exclusion, FreeOk, TableOk, FramesOk, CleanOk, EvictOk;
    forall u | u in s.threads && s.threads[u].Marking? ensures s.threads[u].f != f {
      assert PcOk(s, s.threads[u]);
    }
  }

  lemma ReadInKeeps(s: Pool, t: Tid, s': Pool)
    requires Inv(s) && ReadIn(s, t, s')
    ensures Inv(s')
  {
    hide Inv, ThreadsOk, FreeOk, FramesOk, CleanOk, Settled;
    var f := s.threads[t].f;
    ThreadAt(s, t);
    PrivateBytes(s, t, s', f);
    TouchFrames(s, t, s', f);
    NoMarkOnLoading(s, f);
    TouchClean(s, t, s', f);
    TouchKeeps(s, t, s', f);
  }

  lemma FillKeeps(s: Pool, t: Tid, s': Pool)
    requires Inv(s) && Fill(s, t, s')
    ensures Inv(s')
  {
    hide Inv, ThreadsOk, FreeOk, FramesOk, CleanOk, Settled;
    var f := s.threads[t].f;
    ThreadAt(s, t);
    PrivateBytes(s, t, s', f);
    TouchFrames(s, t, s', f);
    PendingSettled(s', t, f);
    NoMarkOnLoading(s, f);
    TouchClean(s, t, s', f);
    TouchKeeps(s, t, s', f);
  }

  // ---------- the disk ----------

  predicate DiskOnly(s: Pool, p: PageId, s': Pool) {
    && s'.frames == s.frames && s'.table == s.table && s'.free == s.free && s'.evictable == s.evictable
    && p in s'.disk && s'.disk == s.disk[p := s'.disk[p]]
  }

  /** No frame carries p and no thread relies on its bytes. */
  ghost predicate Unused(s: Pool, t: Tid, p: PageId) {
    && (forall f: FrameId | f < |s.frames| && s.frames[f].state == Resident :: s.frames[f].page != p)
    && (forall u | u in s.threads && u != t ::
        s.threads[u].Publishing? || s.threads[u].Stamping? ==> s.threads[u].p != p)
  }

  lemma UnusedThreads(s: Pool, t: Tid, p: PageId, s': Pool)
    requires Inv(s) && Moves(s, t, s') && DiskOnly(s, p, s') && Unused(s, t, p) && PcOk(s', s'.threads[t])
    ensures ThreadsOk(s')
  {
    hide PinsOk, Exclusion, FreeOk, TableOk, FramesOk, CleanOk, EvictOk;
    forall u | u in s'.threads ensures PcOk(s', s'.threads[u]) {
      assert PcOk(s, s.threads[u]);
    }
  }

  lemma UnusedFrames(s: Pool, t: Tid, p: PageId, s': Pool)
    requires Inv(s) && Moves(s, t, s') && DiskOnly(s, p, s') && Unused(s, t, p)
    requires ClaimOf(s'.threads[t]) == ClaimOf(s.threads[t])
    ensures FreeOk(s') && FramesOk(s') && TableOk(s')
  {
    hide ClaimOf, Claimed, ThreadsOk, Exclusion, CleanOk, PinsOk, EvictOk;
    forall g: FrameId ensures Claimed(s', g) <==> Claimed(s, g) { ClaimedMove(s, t, s', g); }
    forall g: FrameId | g < |s'.frames| ensures FrameOk(s', g) { assert FrameOk(s, g); }
  }

  lemma UnusedClean(s: Pool, t: Tid, p: PageId, s': Pool)
    requires Inv(s) && Moves(s, t, s') && DiskOnly(s, p, s') && Unused(s, t, p) && PendingOf(s.threads[t]).None?
    requires !s'.threads[t].Marking?
    ensures CleanOk(s')
  {
    hide PendingOf, Exclusion, FreeOk, TableOk, FramesOk, EvictOk, PinsOk;
    forall g: FrameId | g < |s.frames| && s.frames[g].state == Resident && Settled(s, g) ensures Settled(s', g) {
      if NoPending(s', g) {
        forall u | u in s.threads ensures PendingOf(s.threads[u]) != Some(g) {
          assert PendingOf(s'.threads[u]) != Some(g);
        }
      }
    }
    forall u | u in s'.threads && s'.threads[u].Marking?
      ensures var g, d := s'.threads[u].f, s'.threads[u].d;
              g < |s'.frames| && s'.frames[g].dirty <= d ==> Settled(s', g)
    {
      assert u != t && PcOk(s, s.threads[u]);
    }
  }

  lemma DiskKeeps(s: Pool, t: Tid, p: PageId, s': Pool)
    requires Inv(s) && Moves(s, t, s') && DiskOnly(s, p, s')
    requires PinOf(s'.threads[t]) == PinOf(s.threads[t]) && ExclusionMove(s, t, s.threads[t], s'.threads[t])
    requires forall g: FrameId | g < |s.frames| :: !Considers(s, s.threads[t], g)
    requires ThreadsOk(s') && FreeOk(s') && FramesOk(s') && CleanOk(s') && TableOk(s')
    ensures Inv(s')
  {
    hide ThreadsOk, FreeOk, FramesOk, CleanOk, TableOk;
    PinsMove(s, t, s');
    MoveExclusion(s, t, s');
    MoveEvict(s, t, s');
  }

  /** A resident frame outside the table is a page being created. */
  lemma Maker(s: Pool, f: FrameId) returns (u: Tid)
    requires Inv(s) && f < |s.frames| && s.frames[f].state == Resident && !Mapped(s, s.frames[f].page, f)
    ensures u in s.threads && ClaimOf(s.threads[u]) == Some(f)
    ensures CreationOf(s.threads[u]) == Some(s.frames[f].page) && s.frames[f].page !in s.table
  {
    hide PinsOk, Exclusion, FreeOk, TableOk, CleanOk, EvictOk;
    assert FrameOk(s, f);
    u :| u in s.threads && ClaimOf(s.threads[u]) == Some(f);
    assert PcOk(s, s.threads[u]);
  }

  /** A frame being loaded has its loader in flight. */
  lemma Loader(s: Pool, f: FrameId) returns (u: Tid)
    requires Inv(s) && f < |s.frames| && s.frames[f].state == Loading
    ensures u in s.threads && ClaimOf(s.threads[u]) == Some(f) && InFlight(s.threads[u], s.frames[f].page)
  {
    hide PinsOk, Exclusion, FreeOk, TableOk, CleanOk, EvictOk;
    assert FrameOk(s, f);
    u :| u in s.threads && ClaimOf(s.threads[u]) == Some(f);
    assert PcOk(s, s.threads[u]);
  }

  /** A page that is unmapped and not being created has no frame. */
  lemma UnmappedUnused(s: Pool, t: Tid, p: PageId)
    requires Inv(s) && p !in s.table && NotCreating(s, p)
    ensures Unused(s, t, p)
  {
    hide PinsOk, Exclusion, FreeOk, TableOk, CleanOk, EvictOk;
    forall f: FrameId | f < |s.frames| && s.frames[f].state == Resident ensures s.frames[f].page != p {
      if !Mapped(s, s.frames[f].page, f) { var u := Maker(s, f); }
    }
    forall u | u in s.threads && u != t && (s.threads[u].Publishing? || s.threads[u].Stamping?)
      ensures s.threads[u].p != p {
      assert PcOk(s, s.threads[u]) && CreationOf(s.threads[u]) != Some(p);
    }
  }

  lemma DeallocateKeeps(s: Pool, t: Tid, s': Pool)
    requires Inv(s) && Deallocate(s, t, s')
    ensures Inv(s')
  {
    hide Inv, ThreadsOk, FreeOk, FramesOk, CleanOk, TableOk;
    var p := s.threads[t].p;
    ThreadAt(s, t);
    if s'.disk == s.disk {
      PlainKeeps(s, t, s');
    } else {
      InFlightNotCreating(s, t, p);
      UnmappedUnused(s, t, p);
      UnusedThreads(s, t, p, s');
      UnusedFrames(s, t, p, s');
      UnusedClean(s, t, p, s');
      DiskKeeps(s, t, p, s');
    }
  }

  lemma InFlightNotCreating(s: Pool, t: Tid, p: PageId)
    requires Inv(s) && t in s.threads && InFlight(s.threads[t], p) && CreationOf(s.threads[t]).None?
    ensures NotCreating(s, p)
  {
    hide PinsOk, ThreadsOk, FreeOk, TableOk, CleanOk, EvictOk, InFlight, CreationOf, ClaimOf;
    forall u | u in s.threads ensures CreationOf(s.threads[u]) != Some(p) {
      if u != t { assert Compatible(s.threads[u], s.threads[t]); }
    }
  }

  // ---------- allocation ----------

  /** A page that is FREE, or past the end of the file, is not mapped and not being created. */
  lemma FreshPage(s: Pool, p: PageId)
    requires Inv(s) && !Live(s, p) && NotInFlight(s, p)
    ensures p !in s.table && NotCreating(s, p)
  {
    hide PinsOk, Exclusion, FreeOk, CleanOk, EvictOk;
    if p in s.table {
      var f := s.table[p];
      if s.frames[f].state == Loading { var u := Loader(s, f); } else { FrameAt(s, f); }
    }
    forall u | u in s.threads ensures CreationOf(s.threads[u]) != Some(p) {
      assert PcOk(s, s.threads[u]);
      if s.threads[u].Filling? || s.threads[u].Mapping? { assert FrameOk(s, s.threads[u].f); }
    }
  }

  lemma AllocateKeeps(s: Pool, t: Tid, s': Pool)
    requires Inv(s) && Allocate(s, t, s')
    ensures Inv(s')
  {
    hide Inv, ThreadsOk, FreeOk, FramesOk, CleanOk, TableOk;
    var p := s'.threads[t].p;
    ThreadAt(s, t);
    FreshPage(s, p);
    UnmappedUnused(s, t, p);
    UnusedThreads(s, t, p, s');
    UnusedFrames(s, t, p, s');
    UnusedClean(s, t, p, s');
    DiskKeeps(s, t, p, s');
  }

  // ---------- writing a page back ----------

  /** Frame f is the only resident one for the page it is mapped under. */
  lemma OnlyResident(s: Pool, p: PageId, f: FrameId, g: FrameId)
    requires Inv(s) && Mapped(s, p, f) && g < |s.frames| && s.frames[g].state == Resident && s.frames[g].page == p
    ensures g == f
  {
    hide Inv;
    if g != f { var u := Maker(s, g); }
  }

  lemma WriteBackThreads(s: Pool, t: Tid, s': Pool)
    requires Inv(s) && WriteBack(s, t, s') && s'.threads[t].ok
    ensures ThreadsOk(s')
  {
    hide Inv;
    ThreadAt(s, t);
    FrameAt(s, s.threads[t].f);
    forall u | u in s'.threads ensures PcOk(s', s'.threads[u]) {
      ThreadAt(s, u);
    }
  }

  lemma WriteBackFrames(s: Pool, t: Tid, s': Pool)
    requires Inv(s) && WriteBack(s, t, s') && s'.threads[t].ok
    ensures FreeOk(s') && FramesOk(s') && TableOk(s')
  {
    hide Claimed, Exclusion, CleanOk, PinsOk, EvictOk;
    assert PcOk(s, s.threads[t]);
    assert FrameOk(s, s.threads[t].f);
    forall g: FrameId ensures Claimed(s', g) <==> Claimed(s, g) { ClaimedMove(s, t, s', g); }
    forall g: FrameId | g < |s'.frames| ensures FrameOk(s', g) { assert FrameOk(s, g); }
  }

  lemma WriteBackClean(s: Pool, t: Tid, s': Pool)
    requires Inv(s) && WriteBack(s, t, s') && s'.threads[t].ok
    ensures CleanOk(s')
  {
    hide Inv, PendingOf;
    var Writing(p, f, k, d) := s.threads[t];
    ThreadAt(s, t);
    forall g: FrameId | g < |s.frames| && s.frames[g].state == Resident && (g == f || Settled(s, g))
      ensures Settled(s', g) {
      if s.frames[g].page == p { OnlyResident(s, p, f, g); }
      if NoPending(s', g) {
        forall u | u in s.threads && u != t ensures PendingOf(s.threads[u]) != Some(g) {
          assert PendingOf(s'.threads[u]) != Some(g);
        }
        NoPendingWhileWriting(s.threads[t]);
      }
    }
    forall g: FrameId | g < |s'.frames| && s'.frames[g].state == Resident && !IsDirty(s'.frames[g])
      ensures Settled(s', g) {
      CleanAt(s, g);
    }
    forall u | u in s'.threads && s'.threads[u].Marking?
      ensures var g, d := s'.threads[u].f, s'.threads[u].d;
              g < |s'.frames| && s'.frames[g].dirty <= d ==> Settled(s', g)
    {
      ThreadAt(s, u);
      if s.frames[s.threads[u].f].dirty <= s.threads[u].d { MarkAt(s, u); }
    }
  }

  lemma NoPendingWhileWriting(pc: Pc)
    requires pc.Writing?
    ensures PendingOf(pc).None?
  {
  }

  lemma WriteBackKeeps(s: Pool, t: Tid, s': Pool)
    requires Inv(s) && WriteBack(s, t, s')
    ensures Inv(s')
  {
    hide Inv, ThreadsOk, FreeOk, FramesOk, CleanOk, TableOk;
    ThreadAt(s, t);
    if s'.threads[t].ok {
      WriteBackThreads(s, t, s');
      WriteBackFrames(s, t, s');
      WriteBackClean(s, t, s');
      DiskKeeps(s, t, s.threads[t].p, s');
    } else {
      PlainKeeps(s, t, s');
    }
  }
}
