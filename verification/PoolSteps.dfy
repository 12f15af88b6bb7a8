/** The quiet steps one by one. */
module PoolSteps {
  import opened Common
  import opened PoolModel
  import opened PoolInvariant
  import opened PoolQuiet

  /** A step that changes no pin count and hides no candidate. */
  lemma PlainKeeps(s: Pool, t: Tid, s': Pool)
    requires Inv(s) && Moves(s, t, s') && s' == s.(threads := s'.threads)
    requires PinOf(s'.threads[t]) == PinOf(s.threads[t]) && QuietMove(s, t, s.threads[t], s'.threads[t])
    requires PcOk(s', s'.threads[t]) && MarkOk(s', s'.threads[t])
    requires forall f: FrameId | f < |s.frames| :: EvictMove(s, t, s', f)
    ensures Inv(s')
  {
    Candidates(s);
    SteadyKeeps(s, t, s');
  }

  /** The same, with pins moving along and candidates changing. */
  lemma SteadyKeeps(s: Pool, t: Tid, s': Pool)
    requires Inv(s) && Moves(s, t, s') && SameView(s, s') && QuietMove(s, t, s.threads[t], s'.threads[t])
    requires PcOk(s', s'.threads[t]) && MarkOk(s', s'.threads[t])
    requires forall f: FrameId | f < |s.frames| ::
               s'.frames[f].pins == s.frames[f].pins - Holding(s.threads[t], f) + Holding(s'.threads[t], f)
    requires forall f | f in s'.evictable :: f < |s.frames|
    requires forall f: FrameId | f < |s.frames| :: EvictMove(s, t, s', f)
    ensures Inv(s')
  {
    hide QuietMove, PcOk, EvictMove, MarkOk;
    PinsMove(s, t, s');
    MoveEvict(s, t, s');
    QuietKeeps(s, t, s');
  }

  /** A frame with a write to its name is past NewPage's private window, so it is mapped. */
  lemma DirtyIsMapped(s: Pool, f: FrameId)
    requires Inv(s) && f < |s.frames| && s.frames[f].state == Resident && s.frames[f].dirty > 0
    ensures Mapped(s, s.frames[f].page, f)
  {
    hide PinsOk, Exclusion, FreeOk, TableOk, CleanOk, EvictOk;
    assert FrameOk(s, f);
    forall u | u in s.threads ensures ClaimOf(s.threads[u]) != Some(f) {
      assert PcOk(s, s.threads[u]);
    }
  }

  lemma ThreadAt(s: Pool, t: Tid)
    requires Inv(s) && t in s.threads
    ensures PcOk(s, s.threads[t])
  {
  }

  lemma Candidates(s: Pool)
    requires Inv(s)
    ensures forall f | f in s.evictable :: f < |s.frames|
  {
  }

  lemma TableAt(s: Pool, p: PageId)
    requires Inv(s) && p in s.table
    ensures Carries(s, p, s.table[p], Loading) || Carries(s, p, s.table[p], Resident)
  {
  }

  lemma BeginKeeps(s: Pool, t: Tid, s': Pool)
    requires Inv(s) && Begin(s, t, s')
    ensures Inv(s')
  {
    hide Inv;
    PlainKeeps(s, t, s');
  }

  lemma LookupMissKeeps(s: Pool, t: Tid, s': Pool)
    requires Inv(s) && LookupMiss(s, t, s')
    ensures Inv(s')
  {
    hide Inv;
    PlainKeeps(s, t, s');
  }

  lemma WakeKeeps(s: Pool, t: Tid, s': Pool)
    requires Inv(s) && Wake(s, t, s')
    ensures Inv(s')
  {
    hide Inv;
    ThreadAt(s, t);
    PlainKeeps(s, t, s');
  }

  lemma LatchKeeps(s: Pool, t: Tid, s': Pool)
    requires Inv(s) && Latch(s, t, s')
    ensures Inv(s')
  {
    hide Inv;
    ThreadAt(s, t);
    PlainKeeps(s, t, s');
  }

  lemma DropReadKeeps(s: Pool, t: Tid, s': Pool)
    requires Inv(s) && DropRead(s, t, s')
    ensures Inv(s')
  {
    hide Inv;
    ThreadAt(s, t);
    PlainKeeps(s, t, s');
  }

  lemma UnlatchKeeps(s: Pool, t: Tid, s': Pool)
    requires Inv(s) && Unlatch(s, t, s')
    ensures Inv(s')
  {
    hide Inv;
    ThreadAt(s, t);
    PlainKeeps(s, t, s');
  }

  lemma PeekKeeps(s: Pool, t: Tid, s': Pool)
    requires Inv(s) && Peek(s, t, s')
    ensures Inv(s')
  {
    hide Inv;
    PlainKeeps(s, t, s');
  }

  lemma DeclineKeeps(s: Pool, t: Tid, s': Pool)
    requires Inv(s) && Decline(s, t, s')
    ensures Inv(s')
  {
    hide Inv;
    PlainKeeps(s, t, s');
  }

  lemma LoadDirtyKeeps(s: Pool, t: Tid, s': Pool)
    requires Inv(s) && LoadDirty(s, t, s')
    ensures Inv(s')
  {
    hide Inv;
    ThreadAt(s, t);
    PlainKeeps(s, t, s');
  }

  lemma LoadFlushedKeeps(s: Pool, t: Tid, s': Pool)
    requires Inv(s) && LoadFlushed(s, t, s')
    ensures Inv(s')
  {
    hide Inv;
    ThreadAt(s, t);
    var f := s.threads[t].f;
    if s.threads[t].d > s.frames[f].flushed { DirtyIsMapped(s, f); }
    PlainKeeps(s, t, s');
  }

  lemma LatchSharedKeeps(s: Pool, t: Tid, s': Pool)
    requires Inv(s) && LatchShared(s, t, s')
    ensures Inv(s')
  {
    hide Inv;
    ThreadAt(s, t);
    PlainKeeps(s, t, s');
  }

  lemma SampleKeeps(s: Pool, t: Tid, s': Pool)
    requires Inv(s) && Sample(s, t, s')
    ensures Inv(s')
  {
    hide Inv;
    ThreadAt(s, t);
    PlainKeeps(s, t, s');
  }

  lemma GiveUpKeeps(s: Pool, t: Tid, s': Pool)
    requires Inv(s) && GiveUp(s, t, s')
    ensures Inv(s')
  {
    hide Inv;
    ThreadAt(s, t);
    PlainKeeps(s, t, s');
  }

  lemma LoseRaceKeeps(s: Pool, t: Tid, s': Pool)
    requires Inv(s) && LoseRace(s, t, s')
    ensures Inv(s')
  {
    hide Inv;
    ThreadAt(s, t);
    PlainKeeps(s, t, s');
  }

  lemma AllocateFailsKeeps(s: Pool, t: Tid, s': Pool)
    requires Inv(s) && AllocateFails(s, t, s')
    ensures Inv(s')
  {
    hide Inv;
    ThreadAt(s, t);
    PlainKeeps(s, t, s');
  }

  lemma RefuseDeleteKeeps(s: Pool, t: Tid, s': Pool)
    requires Inv(s) && RefuseDelete(s, t, s')
    ensures Inv(s')
  {
    hide Inv;
    PlainKeeps(s, t, s');
  }

  lemma NotCachedKeeps(s: Pool, t: Tid, s': Pool)
    requires Inv(s) && NotCached(s, t, s')
    ensures Inv(s')
  {
    hide Inv;
    PlainKeeps(s, t, s');
  }

  lemma UnshareKeeps(s: Pool, t: Tid, s': Pool)
    requires Inv(s) && Unshare(s, t, s')
    ensures Inv(s')
  {
    hide Inv;
    ThreadAt(s, t);
    PlainKeeps(s, t, s');
  }

  lemma RecordKeeps(s: Pool, t: Tid, s': Pool)
    requires Inv(s) && Record(s, t, s')
    ensures Inv(s')
  {
    hide Inv;
    Candidates(s);
    ThreadAt(s, t);
    PinnedFrame(s, t);
    SteadyKeeps(s, t, s');
  }

  /** A pin holder's frame counts at least that pin. */
  lemma PinnedFrame(s: Pool, t: Tid)
    requires Inv(s) && t in s.threads && PinOf(s.threads[t]).Some? && PinOf(s.threads[t]).value < |s.frames|
    ensures s.frames[PinOf(s.threads[t]).value].pins > 0
  {
    var f := PinOf(s.threads[t]).value;
    assert t in Holders(s, f);
  }

  lemma EvictKeeps(s: Pool, t: Tid, s': Pool)
    requires Inv(s) && Evict(s, t, s')
    ensures Inv(s')
  {
    hide Inv;
    Candidates(s);
    SteadyKeeps(s, t, s');
  }

  lemma UnlistKeeps(s: Pool, t: Tid, s': Pool)
    requires Inv(s) && Unlist(s, t, s')
    ensures Inv(s')
  {
    hide Inv;
    Candidates(s);
    ThreadAt(s, t);
    SteadyKeeps(s, t, s');
  }

  lemma UnpinKeeps(s: Pool, t: Tid, s': Pool)
    requires Inv(s) && Unpin(s, t, s')
    ensures Inv(s')
  {
    hide Inv;
    Candidates(s);
    ThreadAt(s, t);
    PinnedFrame(s, t);
    SteadyKeeps(s, t, s');
  }

  /** The four places that take a pin on a frame that carries a page. */
  lemma PinKeeps(s: Pool, t: Tid, s': Pool, f: FrameId)
    requires Inv(s) && f < |s.frames| && Moves(s, t, s') && s' == Pinned(s, f).(threads := s'.threads)
    requires PinOf(s.threads[t]).None? && PinOf(s'.threads[t]) == Some(f)
             && QuietMove(s, t, s.threads[t], s'.threads[t])
    requires PcOk(s', s'.threads[t]) && !s'.threads[t].Marking?
    requires forall g: FrameId | g < |s.frames| && g != f :: !Considers(s, s.threads[t], g)
    ensures Inv(s')
  {
    PinsMove(s, t, s');
    assert t in Holders(s', f);
    MoveEvict(s, t, s');
    QuietKeeps(s, t, s');
  }

  lemma LookupHitKeeps(s: Pool, t: Tid, s': Pool)
    requires Inv(s) && LookupHit(s, t, s')
    ensures Inv(s')
  {
    hide Inv;
    TableAt(s, s.threads[t].p);
    PinKeeps(s, t, s', s.table[s.threads[t].p]);
  }

  lemma PinDirtyKeeps(s: Pool, t: Tid, s': Pool)
    requires Inv(s) && PinDirty(s, t, s')
    ensures Inv(s')
  {
    hide Inv;
    var f := s.threads[t].f;
    DirtyIsMapped(s, f);
    PinKeeps(s, t, s', f);
  }

  lemma PinForFlushKeeps(s: Pool, t: Tid, s': Pool)
    requires Inv(s) && PinForFlush(s, t, s')
    ensures Inv(s')
  {
    hide Inv;
    var p := s.threads[t].p;
    if p in s.table && s.table[p] < |s.frames| && s.frames[s.table[p]].state == Resident {
      TableAt(s, p);
      PinKeeps(s, t, s', s.table[p]);
    } else {
      PlainKeeps(s, t, s');
    }
  }

  lemma PinByIndexKeeps(s: Pool, t: Tid, s': Pool)
    requires Inv(s) && PinByIndex(s, t, s')
    ensures Inv(s')
  {
    hide Inv;
    var f := s.threads[t].f;
    if s.frames[f].state == Resident { PinKeeps(s, t, s', f); } else { PlainKeeps(s, t, s'); }
  }
}
