/** Two short runs of a fresh pool, step by step: a fetch that fails, and a write that a failed deletion loses. */
module PoolWitness {
  import opened Common
  import opened PoolModel
  import opened PoolInvariant
  import opened PoolSteps
  import opened PoolTheorems

  /** A run from s to s' in which only t moves, and looks up no page but p. */
  ghost predicate Path(r: Run, s: Pool, t: Tid, p: PageId, s': Pool) {
    && IsRun(r) && r.states[0] == s && r.states[|r.states| - 1] == s'
    && (forall i | 0 <= i < |r.movers| :: r.movers[i] == t)
    && (forall i | 0 <= i < |r.states| :: Tries(r.states[i], t, p))
  }

  predicate Tries(s: Pool, t: Tid, p: PageId) { t in s.threads && (s.threads[t].Lookup? ==> s.threads[t].p == p) }

  function Then(r: Run, t: Tid, s: Pool): Run { Run(r.states + [s], r.movers + [t]) }

  lemma Step(r: Run, s: Pool, t: Tid, p: PageId, a: Pool, b: Pool)
    requires Path(r, s, t, p, a) && Next(a, t, b) && Tries(b, t, p)
    ensures Path(Then(r, t, b), s, t, p, b)
  {
    hide Next, Tries;
    var r' := Then(r, t, b);
    forall i | 0 <= i < |r'.movers| ensures StepAt(r', i) {
      if i < |r.movers| { assert StepAt(r, i); }
    }
  }

  ghost predicate OthersIdle(s: Pool, t: Tid) {
    t in s.threads && forall u | u in s.threads && u != t :: s.threads[u] == Idle
  }

  lemma Unlocked(s: Pool, t: Tid, p: PageId, f: FrameId)
    requires OthersIdle(s, t) && ShardOf(s.threads[t]).None? && CreationOf(s.threads[t]).None?
    requires ExclusiveOf(s.threads[t]).None? && SharedOf(s.threads[t]).None?
    ensures ShardFree(s, p) && NoWriter(s, f) && NoReader(s, f) && NotCreating(s, p)
  {
    forall u | u in s.threads
      ensures && ShardOf(s.threads[u]).None? && CreationOf(s.threads[u]).None?
              && ExclusiveOf(s.threads[u]).None? && SharedOf(s.threads[u]).None?
    {
      if u != t { assert s.threads[u] == Idle; }
    }
  }

  /** The pool when a fetch of p has got as far as its read. */
  ghost predicate IsLoading(s: Pool, t: Tid, p: PageId, w: Mode, f: FrameId, disk: map<PageId, Content>) {
    && OthersIdle(s, t) && s.threads[t] == Reading(p, f, w) && f < |s.frames| && s.table == map[p := f]
    && s.frames[f].state == Loading && s.frames[f].page == p && s.frames[f].pins == 1 && Clear(s.frames[f])
    && s.evictable == {} && s.disk == disk
  }

  // ---------- the single steps ----------

  lemma BeginFetch(s: Pool, t: Tid, p: PageId, w: Mode)
    requires OthersIdle(s, t) && s.threads[t] == Idle && CanFetch(p) && w != New
    ensures Next(s, t, To(s, t, Lookup(p, w)))
  {
    Unlocked(s, t, p, 0);
    assert Begin(s, t, To(s, t, Lookup(p, w)));
  }

  lemma BeginDelete(s: Pool, t: Tid, p: PageId)
    requires OthersIdle(s, t) && s.threads[t] == Idle && IsDataPage(p)
    ensures Next(s, t, To(s, t, Deleting(p)))
  {
    Unlocked(s, t, p, 0);
    assert Begin(s, t, To(s, t, Deleting(p)));
  }

  lemma Miss(s: Pool, t: Tid, p: PageId, w: Mode)
    requires OthersIdle(s, t) && s.threads[t] == Lookup(p, w) && p !in s.table
    ensures Next(s, t, To(s, t, Acquiring(ForFetch(p, w))))
  {
    Unlocked(s, t, p, 0);
    assert LookupMiss(s, t, To(s, t, Acquiring(ForFetch(p, w))));
  }

  lemma Pop(s: Pool, t: Tid, g: Goal, n: nat)
    requires t in s.threads && s.threads[t] == Acquiring(g) && |s.free| == n + 1
    ensures Next(s, t, To(s, t, Owned(g, s.free[n])).(free := s.free[..n]))
  {
    assert TryPop(s, t, To(s, t, Owned(g, s.free[n])).(free := s.free[..n]));
  }

  function Loaded(s: Pool, t: Tid, p: PageId, w: Mode, f: FrameId): Pool
    requires f < |s.frames|
  {
    var x := s.frames[f].(state := Loading, page := p, pins := 1, dirty := 0, flushed := 0);
    To(SetFrame(s, f, x), t, Reading(p, f, w)).(table := s.table[p := f])
  }

  lemma Load(s: Pool, t: Tid, p: PageId, w: Mode, f: FrameId)
    requires OthersIdle(s, t) && s.threads[t] == Owned(ForFetch(p, w), f) && p !in s.table && f < |s.frames|
    ensures Next(s, t, Loaded(s, t, p, w, f))
  {
    Unlocked(s, t, p, f);
    assert StartLoad(s, t, Loaded(s, t, p, w, f));
  }

  lemma ReadFails(s: Pool, t: Tid, p: PageId, w: Mode, f: FrameId)
    requires t in s.threads && s.threads[t] == Reading(p, f, w) && f < |s.frames|
    ensures Next(s, t, To(s, t, Erasing(p, f)))
  {
    assert To(s, t, Erasing(p, f)) == To(SetFrame(s, f, s.frames[f]), t, Erasing(p, f));
    assert ReadIn(s, t, To(s, t, Erasing(p, f)));
  }

  lemma Forget(s: Pool, t: Tid, p: PageId, f: FrameId)
    requires OthersIdle(s, t) && s.threads[t] == Erasing(p, f)
    ensures Next(s, t, To(s, t, Failing(p, f)).(table := s.table - {p}))
  {
    Unlocked(s, t, p, f);
    assert Erase(s, t, To(s, t, Failing(p, f)).(table := s.table - {p}));
  }

  lemma Mark(s: Pool, t: Tid, p: PageId, f: FrameId)
    requires t in s.threads && s.threads[t] == Failing(p, f) && f < |s.frames|
    ensures Next(s, t, To(SetFrame(s, f, s.frames[f].(state := Failed)), t, Draining(p, f)))
  {
    assert Fail(s, t, To(SetFrame(s, f, s.frames[f].(state := Failed)), t, Draining(p, f)));
  }

  lemma ReadOk(s: Pool, t: Tid, p: PageId, w: Mode, f: FrameId)
    requires t in s.threads && s.threads[t] == Reading(p, f, w) && f < |s.frames|
    requires p in s.disk && s.disk[p].kind != FREE && s.disk[p].id == p
    ensures Next(s, t, To(SetFrame(s, f, s.frames[f].(data := s.disk[p])), t, Publishing(p, f, w)))
  {
    assert ReadIn(s, t, To(SetFrame(s, f, s.frames[f].(data := s.disk[p])), t, Publishing(p, f, w)));
  }

  lemma Show(s: Pool, t: Tid, p: PageId, w: Mode, f: FrameId)
    requires t in s.threads && s.threads[t] == Publishing(p, f, w) && f < |s.frames|
    ensures Next(s, t, To(SetFrame(s, f, s.frames[f].(state := Resident)), t, Latching(p, f, w)))
  {
    assert Publish(s, t, To(SetFrame(s, f, s.frames[f].(state := Resident)), t, Latching(p, f, w)));
  }

  lemma Enter(s: Pool, t: Tid, p: PageId, w: Mode, f: FrameId)
    requires OthersIdle(s, t) && s.threads[t] == Latching(p, f, w)
    ensures Next(s, t, To(s, t, Guard(p, f, w)))
  {
    Unlocked(s, t, p, f);
    assert Latch(s, t, To(s, t, Guard(p, f, w)));
  }

  lemma Put(s: Pool, t: Tid, p: PageId, f: FrameId, c: Content)
    requires t in s.threads && s.threads[t] == Guard(p, f, Write) && f < |s.frames| && c.kind != FREE
    ensures Next(s, t, SetFrame(s, f, s.frames[f].(data := c)))
  {
    assert PutBytes(s, t, SetFrame(s, f, s.frames[f].(data := c)));
  }

  lemma Bump(s: Pool, t: Tid, p: PageId, f: FrameId)
    requires t in s.threads && s.threads[t] == Guard(p, f, Write) && f < |s.frames|
    ensures Next(s, t, To(SetFrame(s, f, s.frames[f].(dirty := s.frames[f].dirty + 1)), t, Marked(p, f)))
  {
    assert MarkDirty(s, t, To(SetFrame(s, f, s.frames[f].(dirty := s.frames[f].dirty + 1)), t, Marked(p, f)));
  }

  lemma Leave(s: Pool, t: Tid, p: PageId, f: FrameId)
    requires t in s.threads && s.threads[t] == Marked(p, f)
    ensures Next(s, t, To(s, t, Unpinning(p, f, Finish)))
  {
    assert Unlatch(s, t, To(s, t, Unpinning(p, f, Finish)));
  }

  lemma LastUnpin(s: Pool, t: Tid, p: PageId, f: FrameId)
    requires t in s.threads && s.threads[t] == Unpinning(p, f, Finish) && f < |s.frames|
    requires s.frames[f].pins == 1 && s.frames[f].state == Resident
    ensures Next(s, t, To(SetFrame(s, f, s.frames[f].(pins := 0)), t, Idle).(evictable := s.evictable + {f}))
  {
    assert Unpin(s, t, To(SetFrame(s, f, s.frames[f].(pins := 0)), t, Idle).(evictable := s.evictable + {f}));
  }

  function TakenOut(s: Pool, t: Tid, p: PageId, f: FrameId): Pool
    requires f < |s.frames|
  {
    To(SetFrame(s, f, Emptied(s.frames[f])), t, Vacated(p, f)).(table := s.table - {p})
  }

  lemma Drop(s: Pool, t: Tid, p: PageId, f: FrameId)
    requires OthersIdle(s, t) && s.threads[t] == Deleting(p) && Mapped(s, p, f) && f < |s.frames|
             && s.frames[f].pins == 0
    ensures Next(s, t, TakenOut(s, t, p, f))
  {
    Unlocked(s, t, p, f);
    assert Vacate(s, t, TakenOut(s, t, p, f));
  }

  lemma Delist(s: Pool, t: Tid, p: PageId, f: FrameId)
    requires t in s.threads && s.threads[t] == Vacated(p, f)
    ensures Next(s, t, To(s, t, Deallocating(p, Some(f))).(evictable := s.evictable - {f}))
  {
    assert Unlist(s, t, To(s, t, Deallocating(p, Some(f))).(evictable := s.evictable - {f}));
  }

  lemma Refuse(s: Pool, t: Tid, p: PageId, f: FrameId)
    requires t in s.threads && s.threads[t] == Deallocating(p, Some(f))
    ensures var s' := To(s, t, Returning(f, None)); Next(s, t, s') && Deallocate(s, t, s')
  {
    assert Deallocate(s, t, To(s, t, Returning(f, None)));
  }

  // ---------- a fetch that fails ----------

  /** The pool when a fetch of p has missed and nothing else has happened. */
  ghost predicate IsMissing(a: Pool, s: Pool, t: Tid, g: Goal) {
    && OthersIdle(a, t) && a.threads[t] == Acquiring(g) && a.table == map[] && a.evictable == {}
    && a.frames == s.frames && a.free == s.free && a.disk == s.disk
  }

  lemma {:induction false} FetchMisses(s: Pool, t: Tid, p: PageId, w: Mode) returns (r: Run, s': Pool)
    requires Init(s) && s.frames != [] && t in s.threads && CanFetch(p) && w != New
    ensures Path(r, s, t, p, s') && IsMissing(s', s, t, ForFetch(p, w))
  {
    hide Path, Next, Init;
    FreshPool(s, t);
    r := Run([s], []);
    PathStarts(s, t, p);
    BeginFetch(s, t, p, w);
    var a := To(s, t, Lookup(p, w));
    Step(r, s, t, p, s, a);
    r := Then(r, t, a);
    Miss(a, t, p, w);
    s' := To(a, t, Acquiring(ForFetch(p, w)));
    Step(r, s, t, p, a, s');
    r := Then(r, t, s');
  }

  /** A fetch of p by the only active thread of a fresh pool. */
  lemma {:induction false} FetchToRead(s: Pool, t: Tid, p: PageId, w: Mode) returns (r: Run, s': Pool)
    requires Init(s) && s.frames != [] && t in s.threads && CanFetch(p) && w != New
    ensures Path(r, s, t, p, s') && IsLoading(s', t, p, w, |s.frames| - 1, s.disk)
  {
    hide Path, Next, Init;
    FreshPool(s, t);
    var f, g := |s.frames| - 1, ForFetch(p, w);
    var a;
    r, a := FetchMisses(s, t, p, w);
    Pop(a, t, g, f);
    var b := To(a, t, Owned(g, f)).(free := a.free[..f]);
    Step(r, s, t, p, a, b);
    r := Then(r, t, b);
    Load(b, t, p, w, f);
    s' := Loaded(b, t, p, w, f);
    Step(r, s, t, p, b, s');
    r := Then(r, t, s');
  }

  lemma FreshPool(s: Pool, t: Tid)
    requires Init(s) && s.frames != [] && t in s.threads
    ensures OthersIdle(s, t) && s.threads[t] == Idle && s.table == map[] && s.evictable == {}
    ensures |s.free| == |s.frames| && s.free[|s.frames| - 1] == |s.frames| - 1
  {
  }

  lemma PathStarts(s: Pool, t: Tid, p: PageId)
    requires t in s.threads && s.threads[t] == Idle
    ensures Path(Run([s], []), s, t, p, s)
  {
  }

  /** Whatever p is, its read may fail, and then the frame being disposed of carries p. */
  lemma {:induction false} FailedFetch(s: Pool, t: Tid, p: PageId) returns (r: Run, s': Pool)
    requires Init(s) && s.frames != [] && t in s.threads && CanFetch(p)
    ensures Path(r, s, t, p, s') && s'.threads[t] == Draining(p, |s.frames| - 1)
    ensures |s.frames| <= |s'.frames| && s'.frames[|s.frames| - 1].page == p
  {
    hide Path, Next, Init;
    var f := |s.frames| - 1;
    var a;
    r, a := FetchToRead(s, t, p, Read);
    ReadFails(a, t, p, Read, f);
    var b := To(a, t, Erasing(p, f));
    Step(r, s, t, p, a, b);
    r := Then(r, t, b);
    Forget(b, t, p, f);
    var d := To(b, t, Failing(p, f)).(table := b.table - {p});
    Step(r, s, t, p, b, d);
    r := Then(r, t, d);
    Mark(d, t, p, f);
    s' := To(SetFrame(d, f, d.frames[f].(state := Failed)), t, Draining(p, f));
    Step(r, s, t, p, d, s');
    r := Then(r, t, s');
  }

  // ---------- a lost write ----------

  /** p is in frame f with content c, and nobody is at work. */
  ghost predicate IsCached(s: Pool, t: Tid, p: PageId, f: FrameId, c: Content, disk: map<PageId, Content>) {
    && OthersIdle(s, t) && s.threads[t] == Idle && f < |s.frames| && s.table == map[p := f]
    && s.frames[f].state == Resident && s.frames[f].page == p && s.frames[f].pins == 0 && s.frames[f].data == c
    && s.disk == disk
  }

  /** p is in frame f, pinned by t alone. */
  ghost predicate IsPinned(s: Pool, t: Tid, pc: Pc, p: PageId, f: FrameId, disk: map<PageId, Content>) {
    && OthersIdle(s, t) && s.threads[t] == pc && f < |s.frames| && s.table == map[p := f] && s.disk == disk
    && s.frames[f].state == Resident && s.frames[f].page == p && s.frames[f].pins == 1
  }

  lemma {:induction false} ReadAndPublish(r0: Run, s: Pool, t: Tid, p: PageId, a: Pool, f: FrameId)
    returns (r: Run, s': Pool)
    requires Path(r0, s, t, p, a) && IsLoading(a, t, p, Write, f, s.disk)
    requires p in s.disk && s.disk[p].kind != FREE && s.disk[p].id == p
    ensures Path(r, s, t, p, s') && IsPinned(s', t, Latching(p, f, Write), p, f, s.disk)
  {
    hide Path, Next;
    ReadOk(a, t, p, Write, f);
    var b := To(SetFrame(a, f, a.frames[f].(data := s.disk[p])), t, Publishing(p, f, Write));
    Step(r0, s, t, p, a, b);
    r := Then(r0, t, b);
    Show(b, t, p, Write, f);
    s' := To(SetFrame(b, f, b.frames[f].(state := Resident)), t, Latching(p, f, Write));
    Step(r, s, t, p, b, s');
    r := Then(r, t, s');
  }

  lemma {:induction false} TakeLatch(r0: Run, s: Pool, t: Tid, p: PageId, a: Pool, f: FrameId)
    returns (r: Run, s': Pool)
    requires Path(r0, s, t, p, a) && IsPinned(a, t, Latching(p, f, Write), p, f, s.disk)
    ensures Path(r, s, t, p, s') && IsPinned(s', t, Guard(p, f, Write), p, f, s.disk)
  {
    hide Path, Next;
    Enter(a, t, p, Write, f);
    s' := To(a, t, Guard(p, f, Write));
    Step(r0, s, t, p, a, s');
    r := Then(r0, t, s');
  }

  lemma {:induction false} Scribble(r0: Run, s: Pool, t: Tid, p: PageId, a: Pool, f: FrameId, c: Content)
    returns (r: Run, s': Pool)
    requires Path(r0, s, t, p, a) && IsPinned(a, t, Guard(p, f, Write), p, f, s.disk) && c.kind != FREE
    ensures Path(r, s, t, p, s') && IsPinned(s', t, Marked(p, f), p, f, s.disk) && s'.frames[f].data == c
  {
    hide Path, Next;
    Put(a, t, p, f, c);
    var b := SetFrame(a, f, a.frames[f].(data := c));
    Step(r0, s, t, p, a, b);
    r := Then(r0, t, b);
    Bump(b, t, p, f);
    s' := To(SetFrame(b, f, b.frames[f].(dirty := b.frames[f].dirty + 1)), t, Marked(p, f));
    Step(r, s, t, p, b, s');
    r := Then(r, t, s');
  }

  lemma {:induction false} LetGo(r0: Run, s: Pool, t: Tid, p: PageId, a: Pool, f: FrameId)
    returns (r: Run, s': Pool)
    requires Path(r0, s, t, p, a) && IsPinned(a, t, Marked(p, f), p, f, s.disk)
    ensures Path(r, s, t, p, s') && IsCached(s', t, p, f, a.frames[f].data, s.disk)
  {
    hide Path, Next;
    Leave(a, t, p, f);
    var b := To(a, t, Unpinning(p, f, Finish));
    Step(r0, s, t, p, a, b);
    r := Then(r0, t, b);
    LastUnpin(b, t, p, f);
    s' := To(SetFrame(b, f, b.frames[f].(pins := 0)), t, Idle).(evictable := b.evictable + {f});
    Step(r, s, t, p, b, s');
    r := Then(r, t, s');
  }

  /** p is out of the pool and its frame in the deleter's hands. */
  ghost predicate IsVacated(s: Pool, t: Tid, p: PageId, f: FrameId, disk: map<PageId, Content>) {
    OthersIdle(s, t) && s.threads[t] == Vacated(p, f) && p !in s.table && s.disk == disk
  }

  lemma {:induction false} DeleteBegins(r0: Run, s: Pool, t: Tid, p: PageId, a: Pool, f: FrameId, c: Content)
      returns (r: Run, s': Pool)
    requires Path(r0, s, t, p, a) && IsCached(a, t, p, f, c, s.disk) && IsDataPage(p)
    ensures Path(r, s, t, p, s') && IsVacated(s', t, p, f, s.disk)
    ensures |r.movers| == |r0.movers| + 2 && |r.states| == |r0.states| + 2 && r.states[..|r0.states|] == r0.states
  {
    hide Path, Next, ShardFree;
    BeginDelete(a, t, p);
    var b := To(a, t, Deleting(p));
    Step(r0, s, t, p, a, b);
    r := Then(r0, t, b);
    Drop(b, t, p, f);
    s' := TakenOut(b, t, p, f);
    Step(r, s, t, p, b, s');
    r := Then(r, t, s');
  }

  lemma {:induction false} DeleteRefused(r0: Run, s: Pool, t: Tid, p: PageId, a: Pool, f: FrameId)
      returns (r: Run, s': Pool)
    requires Path(r0, s, t, p, a) && IsVacated(a, t, p, f, s.disk)
    ensures Path(r, s, t, p, s') && s'.disk == s.disk && p !in s'.table
    ensures |r.movers| == |r0.movers| + 2 && |r.states| == |r0.states| + 2 && r.states[..|r0.states|] == r0.states
    ensures r.states[|r.states| - 1] == s' && Deallocate(r.states[|r.states| - 2], t, s')
  {
    hide Path, Next, Deallocate;
    Delist(a, t, p, f);
    var b := To(a, t, Deallocating(p, Some(f))).(evictable := a.evictable - {f});
    Step(r0, s, t, p, a, b);
    r := Then(r0, t, b);
    Refuse(b, t, p, f);
    s' := To(b, t, Returning(f, None));
    Step(r, s, t, p, b, s');
    r := Then(r, t, s');
  }

  lemma PathLength(r: Run, s: Pool, t: Tid, p: PageId, s': Pool)
    requires Path(r, s, t, p, s')
    ensures IsRun(r) && |r.states| == |r.movers| + 1 && r.states[0] == s && r.states[|r.movers|] == s'
  {
  }

  /** p fetched, overwritten with c and let go again. */
  lemma {:induction false} WriteCached(s: Pool, t: Tid, p: PageId, c: Content) returns (r: Run, s': Pool)
    requires Init(s) && s.frames != [] && t in s.threads && IsDataPage(p) && c.kind != FREE
    requires p in s.disk && s.disk[p].kind != FREE && s.disk[p].id == p
    ensures Path(r, s, t, p, s') && IsCached(s', t, p, |s.frames| - 1, c, s.disk)
  {
    hide Path, Init, IsLoading, OthersIdle;
    var f := |s.frames| - 1;
    var a;
    r, a := FetchToRead(s, t, p, Write);
    r, a := ReadAndPublish(r, s, t, p, a, f);
    r, a := TakeLatch(r, s, t, p, a, f);
    r, a := Scribble(r, s, t, p, a, f, c);
    r, s' := LetGo(r, s, t, p, a, f);
  }

  /** Any write at all to any live page can be lost: fetch, write, drop the guard, and delete while the disk
      refuses.  Before the call the page reads as written; after it, as on disk. */
  lemma {:induction false} LostWrite(s: Pool, t: Tid, p: PageId, c: Content) returns (r: Run, k: nat)
    requires Init(s) && s.frames != [] && t in s.threads && IsDataPage(p) && c.kind != FREE
    requires p in s.disk && s.disk[p].kind != FREE && s.disk[p].id == p
    ensures IsRun(r) && r.states[0] == s && k + 4 == |r.movers|
    ensures Logical(r.states[k], p) == Some(c)
    ensures Deallocate(r.states[k + 3], t, r.states[k + 4]) && Logical(r.states[k + 4], p) == Some(s.disk[p])
  {
    hide Next, Deallocate, Init, StepAt, Path, OthersIdle, IsVacated, Logical;
    var f := |s.frames| - 1;
    var d, e;
    r, d := WriteCached(s, t, p, c);
    k := |r.movers|;
    PathLength(r, s, t, p, d);
    CachedReads(d, t, p, f, c, s.disk);
    var was := r;
    r, e := DeleteBegins(r, s, t, p, d, f, c);
    var mid := r;
    r, e := DeleteRefused(r, s, t, p, e, f);
    PathLength(r, s, t, p, e);
    assert r.states[k] == mid.states[k] == was.states[k];
    UncachedReads(e, p);
  }

  lemma CachedReads(s: Pool, t: Tid, p: PageId, f: FrameId, c: Content, disk: map<PageId, Content>)
    requires IsCached(s, t, p, f, c, disk)
    ensures Logical(s, p) == Some(c)
  {
  }

  lemma UncachedReads(s: Pool, p: PageId)
    requires p !in s.table && p in s.disk
    ensures Logical(s, p) == Some(s.disk[p])
  {
  }

  // ---------- a deletion that works ----------

  lemma MissDelete(s: Pool, t: Tid, p: PageId)
    requires OthersIdle(s, t) && s.threads[t] == Deleting(p) && p !in s.table
    ensures Next(s, t, To(s, t, Deallocating(p, None)))
  {
    Unlocked(s, t, p, 0);
    assert NotCached(s, t, To(s, t, Deallocating(p, None)));
  }

  function Stamped(s: Pool, t: Tid, p: PageId, pc: Pc): Pool
    requires p in s.disk
  {
    To(s, t, pc).(disk := s.disk[p := s.disk[p].(kind := FREE)])
  }

  lemma Agree(s: Pool, t: Tid, p: PageId, of: Option<FrameId>)
    requires t in s.threads && s.threads[t] == Deallocating(p, of) && p in s.disk
    ensures Next(s, t, Stamped(s, t, p, if of.Some? then Returning(of.value, None) else Idle))
  {
    assert Deallocate(s, t, Stamped(s, t, p, if of.Some? then Returning(of.value, None) else Idle));
  }

  lemma GiveBackFrame(s: Pool, t: Tid, f: FrameId)
    requires t in s.threads && s.threads[t] == Returning(f, None)
    ensures Next(s, t, To(s, t, Idle).(free := s.free + [f]))
  {
    assert Push(s, t, To(s, t, Idle).(free := s.free + [f]));
  }

  lemma IdlePoolUnpinned(s: Pool, t: Tid, f: FrameId)
    requires Inv(s) && OthersIdle(s, t) && s.threads[t] == Idle && f < |s.frames|
    ensures s.frames[f].pins == 0
  {
    assert Holders(s, f) == {};
  }

  /** In a pool at rest any page in use can be deleted, cached or not: afterwards the disk has it FREE with the
      bytes it had there, and every other page is as it was on disk. */
  lemma {:induction false} DeleteWorks(s: Pool, t: Tid, p: PageId) returns (r: Run, s': Pool)
    requires Inv(s) && OthersIdle(s, t) && s.threads[t] == Idle && IsDataPage(p) && p in s.disk
    ensures Path(r, s, t, p, s') && s'.threads[t] == Idle && p !in s'.table
    ensures s'.disk == s.disk[p := s.disk[p].(kind := FREE)]
  {
    hide Inv, Path, Next;
    r := Run([s], []);
    PathStarts(s, t, p);
    BeginDelete(s, t, p);
    var a := To(s, t, Deleting(p));
    Step(r, s, t, p, s, a);
    r := Then(r, t, a);
    if p in s.table {
      TableAt(s, p);
      IdlePoolUnpinned(s, t, s.table[p]);
      r, s' := DeleteCached(r, s, t, p, a, s.table[p]);
    } else {
      MissDelete(a, t, p);
      var b := To(a, t, Deallocating(p, None));
      Step(r, s, t, p, a, b);
      r := Then(r, t, b);
      Agree(b, t, p, None);
      s' := Stamped(b, t, p, Idle);
      Step(r, s, t, p, b, s');
      r := Then(r, t, s');
    }
  }

  lemma {:induction false} DeleteCached(r0: Run, s: Pool, t: Tid, p: PageId, a: Pool, f: FrameId)
      returns (r: Run, s': Pool)
    requires Path(r0, s, t, p, a) && OthersIdle(a, t) && a.threads[t] == Deleting(p) && Mapped(a, p, f)
    requires f < |a.frames| && a.frames[f].pins == 0 && a.disk == s.disk && p in s.disk
    ensures Path(r, s, t, p, s') && s'.threads[t] == Idle && p !in s'.table
    ensures s'.disk == s.disk[p := s.disk[p].(kind := FREE)]
  {
    hide Path, Next;
    Drop(a, t, p, f);
    var b := TakenOut(a, t, p, f);
    Step(r0, s, t, p, a, b);
    r := Then(r0, t, b);
    Delist(b, t, p, f);
    var d := To(b, t, Deallocating(p, Some(f))).(evictable := b.evictable - {f});
    Step(r, s, t, p, b, d);
    r := Then(r, t, d);
    Agree(d, t, p, Some(f));
    var e := Stamped(d, t, p, Returning(f, None));
    Step(r, s, t, p, d, e);
    r := Then(r, t, e);
    GiveBackFrame(e, t, f);
    s' := To(e, t, Idle).(free := e.free + [f]);
    Step(r, s, t, p, e, s');
    r := Then(r, t, s');
  }
}
