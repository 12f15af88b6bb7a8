/** What every step of the pool keeps. */
module PoolInvariant {
  import opened Common
  import opened PoolModel

  ghost function Holders(s: Pool, f: FrameId): set<Tid> {
    set t | t in s.threads && PinOf(s.threads[t]) == Some(f)
  }

  ghost predicate Claimed(s: Pool, f: FrameId) {
    exists t :: t in s.threads && ClaimOf(s.threads[t]) == Some(f)
  }

  predicate Mapped(s: Pool, p: PageId, f: FrameId) { p in s.table && s.table[p] == f }

  predicate Carries(s: Pool, p: PageId, f: FrameId, st: FrameState) {
    f < |s.frames| && s.frames[f].page == p && s.frames[f].state == st
  }

  /** A page of the file that is not on the way to, or on, the freelist. */
  predicate Live(s: Pool, p: PageId) { p in s.disk && s.disk[p].kind != FREE }

  predicate Clear(x: Frame) { x.dirty == 0 && x.flushed == 0 }

  /** The frame is unreachable stock in one thread's hands. */
  predicate IsPrivate(s: Pool, f: FrameId) {
    f < |s.frames| && s.frames[f].state == Free && f !in s.free
  }

  /** What a thread may rely on at each program point, whatever the others do. */
  predicate PcOk(s: Pool, pc: Pc) {
    match pc
    case Waiting(p, f, _, _) =>
      && f < |s.frames| && s.frames[f].page == p && s.frames[f].state != Free
      && (s.frames[f].state == Resident ==> Mapped(s, p, f))
    case Recording(p, f, _, _) => Carries(s, p, f, Resident) && Mapped(s, p, f)
    case Latching(p, f, _) => Carries(s, p, f, Resident) && Mapped(s, p, f)
    case Guard(p, f, _) => Carries(s, p, f, Resident) && Mapped(s, p, f)
    case Marked(p, f) => Carries(s, p, f, Resident) && Mapped(s, p, f)
    case Unpinning(p, f, _) => Carries(s, p, f, Resident) || Carries(s, p, f, Failed)
    case Peeking(_, f) => f < |s.frames|
    case Validating(_, f, _) => f < |s.frames|
    case Retaking(_, p, f) => Carries(s, p, f, Resident) && Mapped(s, p, f)
    case Owned(_, f) => IsPrivate(s, f)
    case Returning(f, _) => IsPrivate(s, f)
    case TestDirty(p, f, k) => Carries(s, p, f, Resident) && (k.Reclaim? ==> Mapped(s, p, f))
    case TestFlushed(p, f, k, d) =>
      Carries(s, p, f, Resident) && (k.Reclaim? ==> Mapped(s, p, f)) && d <= s.frames[f].dirty
    case AwaitShared(p, f, _) => Carries(s, p, f, Resident) && Mapped(s, p, f)
    case Sampling(p, f, _) => Carries(s, p, f, Resident) && Mapped(s, p, f)
    case Writing(p, f, _, d) => Carries(s, p, f, Resident) && Mapped(s, p, f) && d == s.frames[f].dirty
    case Written(p, f, _, d, ok) =>
      && Carries(s, p, f, Resident) && Mapped(s, p, f) && d == s.frames[f].dirty
      && (ok ==> p in s.disk && s.disk[p] == s.frames[f].data)
    case Marking(p, f, _, d) => Carries(s, p, f, Resident) && Mapped(s, p, f) && d <= s.frames[f].dirty
    case Reading(p, f, _) => Carries(s, p, f, Loading) && Mapped(s, p, f) && Clear(s.frames[f])
    case Publishing(p, f, _) =>
      && Carries(s, p, f, Loading) && Mapped(s, p, f) && Clear(s.frames[f])
      && Live(s, p) && s.disk[p] == s.frames[f].data
    case Erasing(p, f) => Carries(s, p, f, Loading) && Mapped(s, p, f)
    case Failing(p, f) => Carries(s, p, f, Loading) && !Mapped(s, p, f)
    case Draining(p, f) => Carries(s, p, f, Failed)
    case Stamping(p, f) => IsPrivate(s, f) && p !in s.table && Live(s, p)
    case Filling(p, f) => Carries(s, p, f, Resident) && p !in s.table && Clear(s.frames[f])
    case Mapping(p, f) => Carries(s, p, f, Resident) && p !in s.table && Clear(s.frames[f])
        && s.frames[f].data == Blank(p)
    case Vacated(p, f) => IsPrivate(s, f) && p !in s.table
    case Deallocating(p, of) => p !in s.table && (of.Some? ==> IsPrivate(s, of.value))
    case FlushIndex(f) => f < |s.frames|
    case _ => true
  }

  ghost predicate ThreadsOk(s: Pool) {
    forall t | t in s.threads :: PcOk(s, s.threads[t])
  }

  /** A pin count is the number of threads that hold one. */
  ghost predicate PinsOk(s: Pool) {
    forall f: FrameId | f < |s.frames| :: s.frames[f].pins == |Holders(s, f)|
  }

  /** Claims, exclusive latches, shard locks and creations each have one owner. */
  predicate Compatible(a: Pc, b: Pc) {
    && (ClaimOf(a).Some? ==> ClaimOf(a) != ClaimOf(b))
    && (ExclusiveOf(a).Some? ==> ExclusiveOf(a) != ExclusiveOf(b) && ExclusiveOf(a) != SharedOf(b))
    && (ShardOf(a).Some? ==> ShardOf(a) != ShardOf(b))
    && (CreationOf(a).Some? ==> CreationOf(a) != CreationOf(b) && !InFlight(b, CreationOf(a).value))
  }

  ghost predicate Exclusion(s: Pool) {
    forall t, u | t in s.threads && u in s.threads && t != u :: Compatible(s.threads[t], s.threads[u])
  }

  ghost predicate FreeOk(s: Pool) {
    && (forall i, j | 0 <= i < j < |s.free| :: s.free[i] != s.free[j])
    && forall f | f in s.free :: f < |s.frames| && s.frames[f].state == Free && !Claimed(s, f)
  }

  ghost predicate TableOk(s: Pool) {
    forall p | p in s.table :: Carries(s, p, s.table[p], Loading) || Carries(s, p, s.table[p], Resident)
  }

  /** Each frame is stock, private, being loaded, or carrying a live page. */
  ghost predicate FrameOk(s: Pool, f: FrameId)
    requires f < |s.frames|
  {
    var x := s.frames[f];
    match x.state
    case Free => x.page == INVALID_PAGE && Clear(x) && (f in s.free || Claimed(s, f))
    case Loading => Claimed(s, f)
    case Failed => Claimed(s, f)
    case Resident =>
      && x.flushed <= x.dirty && Live(s, x.page) && (Mapped(s, x.page, f) || Claimed(s, f))
      && (Mapped(s, x.page, f) ==> x.data.kind != FREE)
  }

  ghost predicate FramesOk(s: Pool) {
    forall f: FrameId | f < |s.frames| :: FrameOk(s, f)
  }

  ghost predicate NoPending(s: Pool, f: FrameId) {
    forall t | t in s.threads :: PendingOf(s.threads[t]) != Some(f)
  }

  /** Unless a write is still to be marked, the frame's bytes are the disk's. */
  ghost predicate Settled(s: Pool, f: FrameId)
    requires f < |s.frames|
  {
    NoPending(s, f) ==> s.frames[f].page in s.disk && s.frames[f].data == s.disk[s.frames[f].page]
  }

  /** Clean means settled, and so would be a frame at the epoch a flusher is about to mark. */
  ghost predicate CleanOk(s: Pool) {
    && (forall f: FrameId | f < |s.frames| && s.frames[f].state == Resident && !IsDirty(s.frames[f]) :: Settled(s, f))
    && (forall t | t in s.threads && s.threads[t].Marking? ::
          var f, d := s.threads[t].f, s.threads[t].d;
          f < |s.frames| && s.frames[f].dirty <= d ==> Settled(s, f))
  }

  /** Some reclaimer has taken the frame out of the candidates and not yet decided. */
  ghost predicate Undecided(s: Pool, f: FrameId) {
    exists t :: t in s.threads && Considers(s, s.threads[t], f)
  }

  predicate Considers(s: Pool, pc: Pc, f: FrameId) {
    match pc
    case Peeking(_, v) => v == f
    case Validating(_, v, p) => v == f && f < |s.frames| && s.frames[f].page == p
    case _ => false
  }

  /** No frame is lost to the replacer. */
  ghost predicate EvictOk(s: Pool) {
    && (forall f | f in s.evictable :: f < |s.frames|)
    && forall f: FrameId | f < |s.frames| && s.frames[f].state == Resident && s.frames[f].pins == 0 ::
         f in s.evictable || Undecided(s, f)
  }

  ghost predicate Inv(s: Pool) {
    && ThreadsOk(s) && PinsOk(s) && Exclusion(s) && FreeOk(s) && TableOk(s) && FramesOk(s) && CleanOk(s) && EvictOk(s)
  }

  lemma InitInv(s: Pool)
    requires Init(s)
    ensures Inv(s)
  {
    forall f: FrameId | f < |s.frames| ensures s.frames[f].pins == |Holders(s, f)| && FrameOk(s, f) {
      assert Holders(s, f) == {};
      assert s.free[f] == f;
    }
    assert ThreadsOk(s);
    assert forall f | f in s.free :: !Claimed(s, f);
  }
}
