/**
 * The buffer pool as a transition system.  A thread here is one activity: a fetch and the guard it
 * yields, a page creation, a deletion, or a flush; a program thread that holds several guards is
 * several activities.  Every critical section, latch operation, atomic access and I/O call of the
 * code is one step, and any thread may take the next one.
 *
 * A shard lock is modelled per page, which admits more interleavings than one lock per sixteenth of
 * the table.  Latches and the one shard lock that is held across steps (by a deletion) are read off
 * the program counters.
 */
module PoolModel {
  import opened Common

  type Tid = nat
  type FrameId = nat
  type Byte = b: nat | b < 256

  /** The two page types the pool itself looks at, and all others. */
  datatype Kind = FREE | ALLOCATED | TYPED
  datatype Content = Content(kind: Kind, id: PageId, body: seq<Byte>)

  datatype FrameState = Free | Loading | Resident | Failed
  datatype Frame = Frame(state: FrameState, page: PageId, pins: int, dirty: nat, flushed: nat, data: Content)

  datatype Mode = Read | Write | New
  /** Why a frame is being acquired. */
  datatype Goal = ForFetch(page: PageId, mode: Mode) | ForNew
  /** What follows a flush, and what follows an unpin. */
  datatype Then = FlushOnly | Reclaim(goal: Goal)
  datatype After = Finish | Again(goal: Goal)

  datatype Pc =
    | Idle
    // FetchFrame and the guards
    | Lookup(p: PageId, w: Mode)
    | Waiting(p: PageId, f: FrameId, w: Mode, fromZero: bool)
    | Recording(p: PageId, f: FrameId, w: Mode, fromZero: bool)
    | Latching(p: PageId, f: FrameId, w: Mode)
    | Guard(p: PageId, f: FrameId, w: Mode)
    | Marked(p: PageId, f: FrameId)
    | Unpinning(p: PageId, f: FrameId, after: After)
    // AcquireFrame and ReclaimFrame
    | Acquiring(goal: Goal)
    | Evicting(goal: Goal)
    | Peeking(goal: Goal, f: FrameId)
    | Validating(goal: Goal, f: FrameId, p: PageId)
    | Retaking(goal: Goal, p: PageId, f: FrameId)
    | Owned(goal: Goal, f: FrameId)
    | Returning(f: FrameId, again: Option<(PageId, Mode)>)
    // FlushFrame
    | TestDirty(p: PageId, f: FrameId, k: Then)
    | TestFlushed(p: PageId, f: FrameId, k: Then, d: nat)
    | AwaitShared(p: PageId, f: FrameId, k: Then)
    | Sampling(p: PageId, f: FrameId, k: Then)
    | Writing(p: PageId, f: FrameId, k: Then, d: nat)
    | Written(p: PageId, f: FrameId, k: Then, d: nat, ok: bool)
    | Marking(p: PageId, f: FrameId, k: Then, d: nat)
    // the miss path and AbandonLoad
    | Reading(p: PageId, f: FrameId, w: Mode)
    | Publishing(p: PageId, f: FrameId, w: Mode)
    | Erasing(p: PageId, f: FrameId)
    | Failing(p: PageId, f: FrameId)
    | Draining(p: PageId, f: FrameId)
    // NewPage
    | Stamping(p: PageId, f: FrameId)
    | Filling(p: PageId, f: FrameId)
    | Mapping(p: PageId, f: FrameId)
    // DeletePage
    | Deleting(p: PageId)
    | Vacated(p: PageId, f: FrameId)
    | Deallocating(p: PageId, of: Option<FrameId>)
    // FlushPage and FlushAllPages
    | FlushLookup(p: PageId)
    | FlushIndex(f: FrameId)

  datatype Pool = Pool(
    frames: seq<Frame>,
    table: map<PageId, FrameId>,
    free: seq<FrameId>,
    evictable: set<FrameId>,
    disk: map<PageId, Content>,
    threads: map<Tid, Pc>)

  // ---------- what a program counter holds ----------

  function PinOf(pc: Pc): Option<FrameId> {
    match pc
    case Waiting(_, f, _, _) => Some(f)
    case Recording(_, f, _, _) => Some(f)
    case Latching(_, f, _) => Some(f)
    case Guard(_, f, _) => Some(f)
    case Marked(_, f) => Some(f)
    case Unpinning(_, f, _) => Some(f)
    case Retaking(_, _, f) => Some(f)
    case TestDirty(_, f, _) => Some(f)
    case TestFlushed(_, f, _, _) => Some(f)
    case AwaitShared(_, f, _) => Some(f)
    case Sampling(_, f, _) => Some(f)
    case Writing(_, f, _, _) => Some(f)
    case Written(_, f, _, _, _) => Some(f)
    case Marking(_, f, _, _) => Some(f)
    case Reading(_, f, _) => Some(f)
    case Publishing(_, f, _) => Some(f)
    case Erasing(_, f) => Some(f)
    case Failing(_, f) => Some(f)
    case Draining(_, f) => Some(f)
    case Filling(_, f) => Some(f)
    case Mapping(_, f) => Some(f)
    case _ => None
  }

  /** A frame only this thread may change the identity of: private stock, a load, or a new page. */
  function ClaimOf(pc: Pc): Option<FrameId> {
    match pc
    case Owned(_, f) => Some(f)
    case Returning(f, _) => Some(f)
    case Stamping(_, f) => Some(f)
    case Vacated(_, f) => Some(f)
    case Deallocating(_, of) => of
    case Reading(_, f, _) => Some(f)
    case Publishing(_, f, _) => Some(f)
    case Erasing(_, f) => Some(f)
    case Failing(_, f) => Some(f)
    case Draining(_, f) => Some(f)
    case Filling(_, f) => Some(f)
    case Mapping(_, f) => Some(f)
    case _ => None
  }

  /** The frame whose content latch is held exclusively. */
  function ExclusiveOf(pc: Pc): Option<FrameId> {
    match pc
    case Guard(_, f, w) => if w == Read then None else Some(f)
    case Marked(_, f) => Some(f)
    case _ => None
  }

  function SharedOf(pc: Pc): Option<FrameId> {
    match pc
    case Guard(_, f, w) => if w == Read then Some(f) else None
    case Sampling(_, f, _) => Some(f)
    case Writing(_, f, _, _) => Some(f)
    case Written(_, f, _, _, _) => Some(f)
    case _ => None
  }

  /** A frame whose bytes may be ahead of its dirty epoch: the bump is still to come. */
  function PendingOf(pc: Pc): Option<FrameId> {
    match pc
    case Guard(_, f, w) => if w == Read then None else Some(f)
    case Latching(_, f, w) => if w == New then Some(f) else None
    case Filling(_, f) => Some(f)
    case Mapping(_, f) => Some(f)
    case _ => None
  }

  /** The page whose shard lock the thread holds between steps. */
  function ShardOf(pc: Pc): Option<PageId> {
    match pc
    case Vacated(p, _) => Some(p)
    case Deallocating(p, _) => Some(p)
    case _ => None
  }

  /** The page a thread has allocated and not yet mapped. */
  function CreationOf(pc: Pc): Option<PageId> {
    match pc
    case Stamping(p, _) => Some(p)
    case Filling(p, _) => Some(p)
    case Mapping(p, _) => Some(p)
    case _ => None
  }

  predicate Seeks(g: Goal, p: PageId) { g.ForFetch? && g.page == p }

  /** A fetch or a deletion of p that has not yet reached its frame or its end. */
  predicate InFlight(pc: Pc, p: PageId) {
    match pc
    case Lookup(q, _) => q == p
    case Acquiring(g) => Seeks(g, p)
    case Evicting(g) => Seeks(g, p)
    case Peeking(g, _) => Seeks(g, p)
    case Validating(g, _, _) => Seeks(g, p)
    case Retaking(g, _, _) => Seeks(g, p)
    case Owned(g, _) => Seeks(g, p)
    case Returning(_, again) => again.Some? && again.value.0 == p
    case Unpinning(_, _, after) => after.Again? && Seeks(after.goal, p)
    case TestDirty(_, _, k) => k.Reclaim? && Seeks(k.goal, p)
    case TestFlushed(_, _, k, _) => k.Reclaim? && Seeks(k.goal, p)
    case AwaitShared(_, _, k) => k.Reclaim? && Seeks(k.goal, p)
    case Sampling(_, _, k) => k.Reclaim? && Seeks(k.goal, p)
    case Writing(_, _, k, _) => k.Reclaim? && Seeks(k.goal, p)
    case Written(_, _, k, _, _) => k.Reclaim? && Seeks(k.goal, p)
    case Marking(_, _, k, _) => k.Reclaim? && Seeks(k.goal, p)
    case Reading(q, _, _) => q == p
    case Publishing(q, _, _) => q == p
    case Erasing(q, _) => q == p
    case Failing(q, _) => q == p
    case Deleting(q) => q == p
    case Vacated(q, _) => q == p
    case Deallocating(q, _) => q == p
    case _ => false
  }

  // ---------- locks, as guards of steps ----------

  ghost predicate ShardFree(s: Pool, p: PageId) {
    forall u | u in s.threads :: ShardOf(s.threads[u]) != Some(p)
  }

  ghost predicate NoWriter(s: Pool, f: FrameId) {
    forall u | u in s.threads :: ExclusiveOf(s.threads[u]) != Some(f)
  }

  ghost predicate NoReader(s: Pool, f: FrameId) {
    forall u | u in s.threads :: SharedOf(s.threads[u]) != Some(f)
  }

  /** Nobody is creating p. */
  ghost predicate NotCreating(s: Pool, p: PageId) {
    forall u | u in s.threads :: CreationOf(s.threads[u]) != Some(p)
  }

  ghost predicate NotInFlight(s: Pool, p: PageId) {
    forall u | u in s.threads :: !InFlight(s.threads[u], p)
  }

  // ---------- state updates ----------

  function To(s: Pool, t: Tid, pc: Pc): Pool {
    s.(threads := s.threads[t := pc])
  }

  function SetFrame(s: Pool, f: FrameId, x: Frame): Pool
    requires f < |s.frames|
  {
    s.(frames := s.frames[f := x])
  }

  function Pinned(s: Pool, f: FrameId): Pool
    requires f < |s.frames|
  {
    SetFrame(s, f, s.frames[f].(pins := s.frames[f].pins + 1))
  }

  function Emptied(x: Frame): Frame {
    x.(state := Free, page := INVALID_PAGE, pins := 0, dirty := 0, flushed := 0)
  }

  function Blank(p: PageId): Content {
    Content(ALLOCATED, p, seq(PAGE_BODY_SIZE, i => 0))
  }

  predicate IsDirty(x: Frame) { x.dirty > x.flushed }

  // ---------- the steps ----------

  predicate At(s: Pool, t: Tid) { t in s.threads }

  /** An idle thread calls into the pool.  Nobody fetches or deletes a page id between its allocation
      and the moment NewPage has mapped it: nobody has been told the id yet. */
  ghost predicate Begin(s: Pool, t: Tid, s': Pool) {
    && At(s, t) && s.threads[t] == Idle
    && t in s'.threads && s' == To(s, t, s'.threads[t])
    && match s'.threads[t]
       case Lookup(p, w) => p != META_PAGE_ID && p != INVALID_PAGE && w != New && NotCreating(s, p)
       case Acquiring(g) => g == ForNew
       case Deleting(p) => p != META_PAGE_ID && p != CATALOG_ROOT_PAGE_ID && NotCreating(s, p)
       case FlushLookup(_) => true
       case FlushIndex(f) => f < |s.frames|
       case _ => false
  }

  ghost predicate LookupHit(s: Pool, t: Tid, s': Pool) {
    && At(s, t) && s.threads[t].Lookup?
    && var Lookup(p, w) := s.threads[t];
    && ShardFree(s, p) && p in s.table
    && var f := s.table[p];
    && f < |s.frames|
    && s' == To(Pinned(s, f), t, Waiting(p, f, w, s.frames[f].pins == 0))
  }

  ghost predicate LookupMiss(s: Pool, t: Tid, s': Pool) {
    && At(s, t) && s.threads[t].Lookup?
    && var Lookup(p, w) := s.threads[t];
    && ShardFree(s, p) && p !in s.table
    && s' == To(s, t, Acquiring(ForFetch(p, w)))
  }

  /** The waiter on a load in flight goes on once the frame has left Loading. */
  ghost predicate Wake(s: Pool, t: Tid, s': Pool) {
    && At(s, t) && s.threads[t].Waiting?
    && var Waiting(p, f, w, z) := s.threads[t];
    && f < |s.frames| && s.frames[f].state != Loading
    && s' == To(s, t, if s.frames[f].state == Failed then Unpinning(p, f, Finish) else Recording(p, f, w, z))
  }

  ghost predicate Record(s: Pool, t: Tid, s': Pool) {
    && At(s, t) && s.threads[t].Recording?
    && var Recording(p, f, w, z) := s.threads[t];
    && s' == To(s, t, Latching(p, f, w)).(evictable := if z then s.evictable - {f} else s.evictable)
  }

  ghost predicate Latch(s: Pool, t: Tid, s': Pool) {
    && At(s, t) && s.threads[t].Latching?
    && var Latching(p, f, w) := s.threads[t];
    && NoWriter(s, f) && (w != Read ==> NoReader(s, f))
    && s' == To(s, t, Guard(p, f, w))
  }

  /** A write guard's owner stores any bytes but a FREE stamp. */
  ghost predicate PutBytes(s: Pool, t: Tid, s': Pool) {
    && At(s, t) && s.threads[t].Guard?
    && var Guard(p, f, w) := s.threads[t];
    && w != Read && f < |s.frames| && f < |s'.frames|
    && var c := s'.frames[f].data;
    && c.kind != FREE
    && s' == SetFrame(s, f, s.frames[f].(data := c))
  }

  ghost predicate DropRead(s: Pool, t: Tid, s': Pool) {
    && At(s, t) && s.threads[t].Guard? && s.threads[t].w == Read
    && s' == To(s, t, Unpinning(s.threads[t].p, s.threads[t].f, Finish))
  }

  ghost predicate MarkDirty(s: Pool, t: Tid, s': Pool) {
    && At(s, t) && s.threads[t].Guard? && s.threads[t].w != Read
    && var f := s.threads[t].f;
    && f < |s.frames|
    && s' == To(SetFrame(s, f, s.frames[f].(dirty := s.frames[f].dirty + 1)), t, Marked(s.threads[t].p, f))
  }

  ghost predicate Unlatch(s: Pool, t: Tid, s': Pool) {
    && At(s, t) && s.threads[t].Marked?
    && s' == To(s, t, Unpinning(s.threads[t].p, s.threads[t].f, Finish))
  }

  ghost predicate Unpin(s: Pool, t: Tid, s': Pool) {
    && At(s, t) && s.threads[t].Unpinning?
    && var Unpinning(_, f, after) := s.threads[t];
    && f < |s.frames|
    && var x := s.frames[f];
    && s' == To(SetFrame(s, f, x.(pins := x.pins - 1)), t, if after.Again? then Evicting(after.goal) else Idle)
             .(evictable := if x.pins == 1 && x.state == Resident then s.evictable + {f} else s.evictable)
  }

  ghost predicate TryPop(s: Pool, t: Tid, s': Pool) {
    && At(s, t) && s.threads[t].Acquiring?
    && var g := s.threads[t].goal;
    && if s.free == [] then s' == To(s, t, Evicting(g))
       else var n := |s.free| - 1;
            s' == To(s, t, Owned(g, s.free[n])).(free := s.free[..n])
  }

  /** Which candidate the replacer picks is its own affair. */
  ghost predicate Evict(s: Pool, t: Tid, s': Pool) {
    && At(s, t) && s.threads[t].Evicting?
    && var g := s.threads[t].goal;
    && if s.evictable == {} then s' == To(s, t, Idle)
       else exists v | v in s.evictable :: s' == To(s, t, Peeking(g, v)).(evictable := s.evictable - {v})
  }

  ghost predicate Peek(s: Pool, t: Tid, s': Pool) {
    && At(s, t) && s.threads[t].Peeking?
    && var Peeking(g, f) := s.threads[t];
    && f < |s.frames|
    && var x := s.frames[f];
    && s' == To(s, t, if x.state == Resident && x.pins == 0 then Validating(g, f, x.page) else Evicting(g))
  }

  /** Re-validate the victim under its page's shard lock and its own mutex. */
  predicate StillVictim(s: Pool, f: FrameId, p: PageId, pins: int) {
    f < |s.frames| && s.frames[f].state == Resident && s.frames[f].pins == pins && s.frames[f].page == p
  }

  ghost predicate Decline(s: Pool, t: Tid, s': Pool) {
    && At(s, t) && s.threads[t].Validating?
    && var Validating(g, f, p) := s.threads[t];
    && ShardFree(s, p) && !StillVictim(s, f, p, 0)
    && s' == To(s, t, Evicting(g))
  }

  ghost predicate TakeClean(s: Pool, t: Tid, s': Pool) {
    && At(s, t) && s.threads[t].Validating?
    && var Validating(g, f, p) := s.threads[t];
    && ShardFree(s, p) && StillVictim(s, f, p, 0) && !IsDirty(s.frames[f])
    && s' == To(SetFrame(s, f, Emptied(s.frames[f])), t, Owned(g, f)).(table := s.table - {p})
  }

  ghost predicate PinDirty(s: Pool, t: Tid, s': Pool) {
    && At(s, t) && s.threads[t].Validating?
    && var Validating(g, f, p) := s.threads[t];
    && ShardFree(s, p) && StillVictim(s, f, p, 0) && IsDirty(s.frames[f])
    && s' == To(Pinned(s, f), t, TestDirty(p, f, Reclaim(g)))
  }

  function Flushed(p: PageId, f: FrameId, k: Then): Pc {
    if k.Reclaim? then Retaking(k.goal, p, f) else Unpinning(p, f, Finish)
  }

  ghost predicate LoadDirty(s: Pool, t: Tid, s': Pool) {
    && At(s, t) && s.threads[t].TestDirty?
    && var TestDirty(p, f, k) := s.threads[t];
    && f < |s.frames|
    && s' == To(s, t, TestFlushed(p, f, k, s.frames[f].dirty))
  }

  ghost predicate LoadFlushed(s: Pool, t: Tid, s': Pool) {
    && At(s, t) && s.threads[t].TestFlushed?
    && var TestFlushed(p, f, k, d) := s.threads[t];
    && f < |s.frames|
    && s' == To(s, t, if d > s.frames[f].flushed then AwaitShared(p, f, k) else Flushed(p, f, k))
  }

  ghost predicate LatchShared(s: Pool, t: Tid, s': Pool) {
    && At(s, t) && s.threads[t].AwaitShared?
    && var AwaitShared(p, f, k) := s.threads[t];
    && NoWriter(s, f)
    && s' == To(s, t, Sampling(p, f, k))
  }

  ghost predicate Sample(s: Pool, t: Tid, s': Pool) {
    && At(s, t) && s.threads[t].Sampling?
    && var Sampling(p, f, k) := s.threads[t];
    && f < |s.frames|
    && s' == To(s, t, Writing(p, f, k, s.frames[f].dirty))
  }

  /** The disk write; a failed one leaves the page on disk as it was. */
  ghost predicate WriteBack(s: Pool, t: Tid, s': Pool) {
    && At(s, t) && s.threads[t].Writing?
    && var Writing(p, f, k, d) := s.threads[t];
    && f < |s.frames|
    && (|| (p in s.disk && s' == To(s, t, Written(p, f, k, d, true)).(disk := s.disk[p := s.frames[f].data]))
        || s' == To(s, t, Written(p, f, k, d, false)))
  }

  ghost predicate Unshare(s: Pool, t: Tid, s': Pool) {
    && At(s, t) && s.threads[t].Written?
    && var Written(p, f, k, d, ok) := s.threads[t];
    && s' == To(s, t, if ok then Marking(p, f, k, d) else Unpinning(p, f, Finish))
  }

  ghost predicate MarkFlushed(s: Pool, t: Tid, s': Pool) {
    && At(s, t) && s.threads[t].Marking?
    && var Marking(p, f, k, d) := s.threads[t];
    && f < |s.frames|
    && var x := s.frames[f];
    && s' == To(SetFrame(s, f, x.(flushed := if x.flushed < d then d else x.flushed)), t, Flushed(p, f, k))
  }

  ghost predicate Retake(s: Pool, t: Tid, s': Pool) {
    && At(s, t) && s.threads[t].Retaking?
    && var Retaking(g, p, f) := s.threads[t];
    && ShardFree(s, p) && StillVictim(s, f, p, 1) && !IsDirty(s.frames[f])
    && s' == To(SetFrame(s, f, Emptied(s.frames[f])), t, Owned(g, f)).(table := s.table - {p})
  }

  ghost predicate GiveUp(s: Pool, t: Tid, s': Pool) {
    && At(s, t) && s.threads[t].Retaking?
    && var Retaking(g, p, f) := s.threads[t];
    && ShardFree(s, p) && f < |s.frames| && !(StillVictim(s, f, p, 1) && !IsDirty(s.frames[f]))
    && s' == To(s, t, Unpinning(p, f, Again(g)))
  }

  /** The second lookup lost the race: the frame goes back and the fetch starts over. */
  ghost predicate LoseRace(s: Pool, t: Tid, s': Pool) {
    && At(s, t) && s.threads[t].Owned? && s.threads[t].goal.ForFetch?
    && var Owned(ForFetch(p, w), f) := s.threads[t];
    && ShardFree(s, p) && p in s.table
    && s' == To(s, t, Returning(f, Some((p, w))))
  }

  ghost predicate StartLoad(s: Pool, t: Tid, s': Pool) {
    && At(s, t) && s.threads[t].Owned? && s.threads[t].goal.ForFetch?
    && var Owned(ForFetch(p, w), f) := s.threads[t];
    && ShardFree(s, p) && p !in s.table && f < |s.frames|
    && s' == To(SetFrame(s, f, s.frames[f].(state := Loading, page := p, pins := 1, dirty := 0, flushed := 0)), t,
       Reading(p, f, w))
             .(table := s.table[p := f])
  }

  ghost predicate Push(s: Pool, t: Tid, s': Pool) {
    && At(s, t) && s.threads[t].Returning?
    && var Returning(f, again) := s.threads[t];
    && s' == To(s, t, if again.Some? then Lookup(again.value.0, again.value.1) else Idle).(free := s.free + [f])
  }

  /** The read either brings the disk's bytes or fails, leaving anything in the buffer. */
  ghost predicate ReadIn(s: Pool, t: Tid, s': Pool) {
    && At(s, t) && s.threads[t].Reading?
    && var Reading(p, f, w) := s.threads[t];
    && f < |s.frames| && f < |s'.frames|
    && var c := s'.frames[f].data;
    && (|| (p in s.disk && c == s.disk[p] && c.kind != FREE && c.id == p
            && s' == To(SetFrame(s, f, s.frames[f].(data := c)), t, Publishing(p, f, w)))
        || (p in s.disk && c == s.disk[p] && !(c.kind != FREE && c.id == p)
            && s' == To(SetFrame(s, f, s.frames[f].(data := c)), t, Erasing(p, f)))
        || s' == To(SetFrame(s, f, s.frames[f].(data := c)), t, Erasing(p, f)))
  }

  ghost predicate Publish(s: Pool, t: Tid, s': Pool) {
    && At(s, t) && s.threads[t].Publishing?
    && var Publishing(p, f, w) := s.threads[t];
    && f < |s.frames|
    && s' == To(SetFrame(s, f, s.frames[f].(state := Resident)), t, Latching(p, f, w))
  }

  ghost predicate Erase(s: Pool, t: Tid, s': Pool) {
    && At(s, t) && s.threads[t].Erasing?
    && var Erasing(p, f) := s.threads[t];
    && ShardFree(s, p)
    && s' == To(s, t, Failing(p, f)).(table := s.table - {p})
  }

  ghost predicate Fail(s: Pool, t: Tid, s': Pool) {
    && At(s, t) && s.threads[t].Failing?
    && var Failing(p, f) := s.threads[t];
    && f < |s.frames|
    && s' == To(SetFrame(s, f, s.frames[f].(state := Failed)), t, Draining(p, f))
  }

  /** The loader disposes of the frame once its own pin is the last. */
  ghost predicate Drain(s: Pool, t: Tid, s': Pool) {
    && At(s, t) && s.threads[t].Draining?
    && var f := s.threads[t].f;
    && f < |s.frames| && s.frames[f].pins == 1
    && s' == To(SetFrame(s, f, Emptied(s.frames[f])), t, Returning(f, None))
  }

  /** Allocation hands out a FREE page or extends the file, and stamps the header; no fetch or
      deletion of that id is in flight, since nobody has held it since it was freed. */
  ghost predicate Allocate(s: Pool, t: Tid, s': Pool) {
    && At(s, t) && s.threads[t].Owned? && s.threads[t].goal == ForNew
    && t in s'.threads && s'.threads[t].Stamping?
    && var p := s'.threads[t].p;
    && p > CATALOG_ROOT_PAGE_ID && NotInFlight(s, p)
    && (p in s.disk ==> s.disk[p].kind == FREE)
    && s' == To(s, t, Stamping(p, s.threads[t].f))
             .(disk := s.disk[p := if p in s.disk then Content(ALLOCATED, p, s.disk[p].body) else Blank(p)])
  }

  ghost predicate AllocateFails(s: Pool, t: Tid, s': Pool) {
    && At(s, t) && s.threads[t].Owned? && s.threads[t].goal == ForNew
    && s' == To(s, t, Returning(s.threads[t].f, None))
  }

  ghost predicate Stamp(s: Pool, t: Tid, s': Pool) {
    && At(s, t) && s.threads[t].Stamping?
    && var Stamping(p, f) := s.threads[t];
    && f < |s.frames|
    && s' == To(SetFrame(s, f, s.frames[f].(state := Resident, page := p, pins := 1)), t, Filling(p, f))
  }

  ghost predicate Fill(s: Pool, t: Tid, s': Pool) {
    && At(s, t) && s.threads[t].Filling?
    && var Filling(p, f) := s.threads[t];
    && f < |s.frames|
    && s' == To(SetFrame(s, f, s.frames[f].(data := Blank(p), dirty := 0, flushed := 0)), t, Mapping(p, f))
  }

  ghost predicate MapNew(s: Pool, t: Tid, s': Pool) {
    && At(s, t) && s.threads[t].Mapping?
    && var Mapping(p, f) := s.threads[t];
    && ShardFree(s, p) && p !in s.table
    && s' == To(s, t, Latching(p, f, New)).(table := s.table[p := f])
  }

  ghost predicate RefuseDelete(s: Pool, t: Tid, s': Pool) {
    && At(s, t) && s.threads[t].Deleting?
    && var p := s.threads[t].p;
    && ShardFree(s, p) && p in s.table && s.table[p] < |s.frames| && s.frames[s.table[p]].pins != 0
    && s' == To(s, t, Idle)
  }

  /** The frame is emptied without a writeback, dirty or not. */
  ghost predicate Vacate(s: Pool, t: Tid, s': Pool) {
    && At(s, t) && s.threads[t].Deleting?
    && var p := s.threads[t].p;
    && ShardFree(s, p) && p in s.table
    && var f := s.table[p];
    && f < |s.frames| && s.frames[f].pins == 0
    && s' == To(SetFrame(s, f, Emptied(s.frames[f])), t, Vacated(p, f)).(table := s.table - {p})
  }

  ghost predicate NotCached(s: Pool, t: Tid, s': Pool) {
    && At(s, t) && s.threads[t].Deleting?
    && var p := s.threads[t].p;
    && ShardFree(s, p) && p !in s.table
    && s' == To(s, t, Deallocating(p, None))
  }

  ghost predicate Unlist(s: Pool, t: Tid, s': Pool) {
    && At(s, t) && s.threads[t].Vacated?
    && var Vacated(p, f) := s.threads[t];
    && s' == To(s, t, Deallocating(p, Some(f))).(evictable := s.evictable - {f})
  }

  /** The header is stamped FREE or not; failing to link the page into the freelist is an error too,
      after the stamp. */
  ghost predicate Deallocate(s: Pool, t: Tid, s': Pool) {
    && At(s, t) && s.threads[t].Deallocating?
    && var Deallocating(p, of) := s.threads[t];
    && var pc := if of.Some? then Returning(of.value, None) else Idle;
    && (|| (p in s.disk && s' == To(s, t, pc).(disk := s.disk[p := s.disk[p].(kind := FREE)]))
        || s' == To(s, t, pc))
  }

  ghost predicate PinForFlush(s: Pool, t: Tid, s': Pool) {
    && At(s, t) && s.threads[t].FlushLookup?
    && var p := s.threads[t].p;
    && ShardFree(s, p)
    && if p in s.table && s.table[p] < |s.frames| && s.frames[s.table[p]].state == Resident
       then s' == To(Pinned(s, s.table[p]), t, TestDirty(p, s.table[p], FlushOnly))
       else s' == To(s, t, Idle)
  }

  ghost predicate PinByIndex(s: Pool, t: Tid, s': Pool) {
    && At(s, t) && s.threads[t].FlushIndex?
    && var f := s.threads[t].f;
    && f < |s.frames|
    && if s.frames[f].state == Resident
       then s' == To(Pinned(s, f), t, TestDirty(s.frames[f].page, f, FlushOnly))
       else s' == To(s, t, Idle)
  }

  ghost predicate Next(s: Pool, t: Tid, s': Pool) {
    || Begin(s, t, s') || LookupHit(s, t, s') || LookupMiss(s, t, s') || Wake(s, t, s') || Record(s, t, s')
    || Latch(s, t, s') || PutBytes(s, t, s') || DropRead(s, t, s') || MarkDirty(s, t, s') || Unlatch(s, t, s')
    || Unpin(s, t, s') || TryPop(s, t, s') || Evict(s, t, s') || Peek(s, t, s') || Decline(s, t, s')
    || TakeClean(s, t, s') || PinDirty(s, t, s') || LoadDirty(s, t, s') || LoadFlushed(s, t, s')
    || LatchShared(s, t, s') || Sample(s, t, s') || WriteBack(s, t, s') || Unshare(s, t, s')
    || MarkFlushed(s, t, s') || Retake(s, t, s') || GiveUp(s, t, s') || LoseRace(s, t, s') || StartLoad(s, t, s')
    || Push(s, t, s') || ReadIn(s, t, s') || Publish(s, t, s') || Erase(s, t, s') || Fail(s, t, s')
    || Drain(s, t, s') || Allocate(s, t, s') || AllocateFails(s, t, s') || Stamp(s, t, s') || Fill(s, t, s')
    || MapNew(s, t, s') || RefuseDelete(s, t, s') || Vacate(s, t, s') || NotCached(s, t, s') || Unlist(s, t, s')
    || Deallocate(s, t, s') || PinForFlush(s, t, s') || PinByIndex(s, t, s')
  }

  /** A fresh pool over any disk: every frame is stock. */
  ghost predicate Init(s: Pool) {
    && (forall f | 0 <= f < |s.frames| :: var x := s.frames[f];
         x.state == Free && x.page == INVALID_PAGE && x.pins == 0 && x.dirty == 0 && x.flushed == 0)
    && s.table == map[] && s.evictable == {}
    && s.free == seq(|s.frames|, i => i)
    && forall t | t in s.threads :: s.threads[t] == Idle
  }
}
