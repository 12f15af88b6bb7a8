/**
 * Steps that change no frame but a pin count, and neither table, free list nor disk: most of the
 * program points.  One lemma covers them all.
 */
module PoolQuiet {
  import opened Common
  import opened PoolModel
  import opened PoolInvariant

  /** The only thread that moves is t. */
  predicate Moves(s: Pool, t: Tid, s': Pool) {
    t in s.threads && t in s'.threads && s'.threads == s.threads[t := s'.threads[t]]
  }

  function Holding(pc: Pc, f: FrameId): nat { if PinOf(pc) == Some(f) then 1 else 0 }

  lemma HoldersMove(s: Pool, t: Tid, s': Pool, f: FrameId)
    requires Moves(s, t, s')
    ensures |Holders(s', f)| == |Holders(s, f)| - Holding(s.threads[t], f) + Holding(s'.threads[t], f)
  {
    var rest := Holders(s, f) - {t};
    assert Holders(s, f) == if Holding(s.threads[t], f) == 1 then rest + {t} else rest;
    assert Holders(s', f) == if Holding(s'.threads[t], f) == 1 then rest + {t} else rest;
  }

  /** The pin count moves with the thread. */
  lemma PinsMove(s: Pool, t: Tid, s': Pool)
    requires PinsOk(s) && Moves(s, t, s') && |s'.frames| == |s.frames|
    requires forall f: FrameId | f < |s.frames| ::
               s'.frames[f].pins == s.frames[f].pins - Holding(s.threads[t], f) + Holding(s'.threads[t], f)
    ensures PinsOk(s')
  {
    forall f: FrameId | f < |s.frames| ensures s'.frames[f].pins == |Holders(s', f)| {
      HoldersMove(s, t, s', f);
    }
  }

  /** Frames, table, free list and disk as before, but for pins. */
  predicate SameView(s: Pool, s': Pool) {
    && |s'.frames| == |s.frames|
    && (forall f: FrameId | f < |s.frames| :: s'.frames[f] == s.frames[f].(pins := s'.frames[f].pins))
    && s'.table == s.table && s'.free == s.free && s'.disk == s.disk
  }

  lemma SameViewPc(s: Pool, s': Pool, pc: Pc)
    requires SameView(s, s') && PcOk(s, pc)
    ensures PcOk(s', pc)
  {
  }

  /** Nobody else has the frame to itself. */
  ghost predicate NoOtherClaim(s: Pool, t: Tid, f: FrameId) {
    forall u | u in s.threads && u != t :: ClaimOf(s.threads[u]) != Some(f)
  }

  /** What the new program point may hold that the old one did not, and on what condition. */
  ghost predicate ExclusionMove(s: Pool, t: Tid, a: Pc, b: Pc) {
    && (ClaimOf(b).None? || ClaimOf(b) == ClaimOf(a) || NoOtherClaim(s, t, ClaimOf(b).value))
    && (CreationOf(b).None? || CreationOf(b) == CreationOf(a)
        || (NotCreating(s, CreationOf(b).value) && NotInFlight(s, CreationOf(b).value)))
    && (ExclusiveOf(b).None? || ExclusiveOf(b) == ExclusiveOf(a)
        || (NoWriter(s, ExclusiveOf(b).value) && NoReader(s, ExclusiveOf(b).value)))
    && (SharedOf(b).None? || SharedOf(b) == SharedOf(a) || NoWriter(s, SharedOf(b).value))
    && (ShardOf(b).None? || ShardOf(b) == ShardOf(a) || ShardFree(s, ShardOf(b).value))
    && (forall p: PageId | InFlight(b, p) :: InFlight(a, p) || NotCreating(s, p))
  }

  ghost predicate QuietMove(s: Pool, t: Tid, a: Pc, b: Pc) {
    && ExclusionMove(s, t, a, b) && ClaimOf(b) == ClaimOf(a)
    && (PendingOf(a).None? || PendingOf(b) == PendingOf(a))
  }

  /** A flusher may announce an epoch only if the frame would be settled at it. */
  ghost predicate MarkOk(s: Pool, pc: Pc) {
    pc.Marking? && pc.f < |s.frames| && s.frames[pc.f].dirty <= pc.d ==> Settled(s, pc.f)
  }

  lemma QuietThreads(s: Pool, t: Tid, s': Pool)
    requires ThreadsOk(s) && Moves(s, t, s') && SameView(s, s') && PcOk(s', s'.threads[t])
    ensures ThreadsOk(s')
  {
    forall u | u in s'.threads ensures PcOk(s', s'.threads[u]) {
      if u != t { SameViewPc(s, s', s.threads[u]); }
    }
  }

  lemma StillCompatible(s: Pool, t: Tid, b: Pc, u: Tid)
    requires t in s.threads && u in s.threads && u != t && ExclusionMove(s, t, s.threads[t], b)
    requires Compatible(s.threads[t], s.threads[u]) && Compatible(s.threads[u], s.threads[t])
    ensures Compatible(b, s.threads[u]) && Compatible(s.threads[u], b)
  {
    hide ClaimOf, ExclusiveOf, SharedOf, ShardOf, CreationOf, InFlight;
  }

  lemma MoveExclusion(s: Pool, t: Tid, s': Pool)
    requires Exclusion(s) && Moves(s, t, s') && ExclusionMove(s, t, s.threads[t], s'.threads[t])
    ensures Exclusion(s')
  {
    hide Compatible, ExclusionMove;
    forall u, v | u in s'.threads && v in s'.threads && u != v ensures Compatible(s'.threads[u], s'.threads[v]) {
      if u == t {
        StillCompatible(s, t, s'.threads[t], v);
      } else if v == t {
        StillCompatible(s, t, s'.threads[t], u);
      }
    }
  }

  lemma ClaimedMove(s: Pool, t: Tid, s': Pool, f: FrameId)
    requires Moves(s, t, s') && ClaimOf(s'.threads[t]) == ClaimOf(s.threads[t])
    ensures Claimed(s', f) <==> Claimed(s, f)
  {
    hide ClaimOf;
    if Claimed(s, f) {
      var u :| u in s.threads && ClaimOf(s.threads[u]) == Some(f);
      assert ClaimOf(s'.threads[u]) == Some(f);
    }
    if Claimed(s', f) {
      var u :| u in s'.threads && ClaimOf(s'.threads[u]) == Some(f);
      assert ClaimOf(s.threads[u]) == Some(f);
    }
  }

  lemma QuietFrames(s: Pool, t: Tid, s': Pool)
    requires FreeOk(s) && FramesOk(s) && Moves(s, t, s') && SameView(s, s')
    requires ClaimOf(s'.threads[t]) == ClaimOf(s.threads[t])
    ensures FreeOk(s') && FramesOk(s')
  {
    hide ClaimOf, Claimed;
    forall f: FrameId ensures Claimed(s', f) <==> Claimed(s, f) { ClaimedMove(s, t, s', f); }
    forall f: FrameId | f < |s'.frames| ensures FrameOk(s', f) { assert FrameOk(s, f); }
  }

  lemma SettledMove(s: Pool, t: Tid, s': Pool, f: FrameId)
    requires Moves(s, t, s') && SameView(s, s') && f < |s.frames| && Settled(s, f)
    requires PendingOf(s.threads[t]).None? || PendingOf(s'.threads[t]) == PendingOf(s.threads[t])
    ensures Settled(s', f)
  {
    hide PendingOf;
    if NoPending(s', f) {
      forall u | u in s.threads ensures PendingOf(s.threads[u]) != Some(f) {
        assert PendingOf(s'.threads[u]) != Some(f);
      }
    }
  }

  lemma QuietClean(s: Pool, t: Tid, s': Pool)
    requires CleanOk(s) && Moves(s, t, s') && SameView(s, s') && MarkOk(s', s'.threads[t])
    requires PendingOf(s.threads[t]).None? || PendingOf(s'.threads[t]) == PendingOf(s.threads[t])
    ensures CleanOk(s')
  {
    hide PendingOf, Settled;
    forall f: FrameId | f < |s'.frames| && s'.frames[f].state == Resident && !IsDirty(s'.frames[f])
      ensures Settled(s', f) {
      SettledMove(s, t, s', f);
    }
    forall u | u in s'.threads && s'.threads[u].Marking?
      ensures var f, d := s'.threads[u].f, s'.threads[u].d;
              f < |s'.frames| && s'.frames[f].dirty <= d ==> Settled(s', f)
    {
      if u != t && s.threads[u].f < |s.frames| && s.frames[s.threads[u].f].dirty <= s.threads[u].d {
        SettledMove(s, t, s', s.threads[u].f);
      }
    }
  }

  lemma QuietKeeps(s: Pool, t: Tid, s': Pool)
    requires Inv(s) && Moves(s, t, s') && SameView(s, s') && QuietMove(s, t, s.threads[t], s'.threads[t])
    requires PcOk(s', s'.threads[t]) && MarkOk(s', s'.threads[t]) && PinsOk(s') && EvictOk(s')
    ensures Inv(s')
  {
    QuietThreads(s, t, s');
    MoveExclusion(s, t, s');
    QuietFrames(s, t, s');
    QuietClean(s, t, s');
    assert TableOk(s');
  }

  /** A frame may leave the candidates only pinned, not resident, or in this thread's sight; and this
      thread may lose sight of a victim only if it need not be a candidate. */
  ghost predicate EvictMove(s: Pool, t: Tid, s': Pool, f: FrameId)
    requires Moves(s, t, s') && f < |s.frames| == |s'.frames|
  {
    s'.frames[f].state == Resident && s'.frames[f].pins == 0 && f !in s'.evictable ==>
      || Considers(s', s'.threads[t], f)
      || (f !in s.evictable && StillVictim(s, f, s'.frames[f].page, 0) && !Considers(s, s.threads[t], f))
  }

  lemma MoveEvict(s: Pool, t: Tid, s': Pool)
    requires EvictOk(s) && Moves(s, t, s') && |s'.frames| == |s.frames|
    requires forall f | f in s'.evictable :: f < |s.frames|
    requires forall f: FrameId | f < |s.frames| :: EvictMove(s, t, s', f)
    ensures EvictOk(s')
  {
    forall f: FrameId | f < |s'.frames| && s'.frames[f].state == Resident && s'.frames[f].pins == 0
      && f !in s'.evictable
      ensures Undecided(s', f)
    {
      assert EvictMove(s, t, s', f);
      if !Considers(s', s'.threads[t], f) {
        assert Undecided(s, f);
        var u :| u in s.threads && Considers(s, s.threads[u], f);
        assert u in s'.threads && Considers(s', s'.threads[u], f);
      }
    }
  }
}
