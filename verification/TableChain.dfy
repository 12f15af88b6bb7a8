/**
 * Inserts and deletes of many threads on one table, step by step.  There is no lock but the write latch of each
 * page; the latch on the chain's last page doubles as the extension lock.  What is proved here is about
 * the page chain and the addresses handed out; the contents of a page under its latch are the business
 * of the single-threaded page.
 */
module TableChain {
  import opened Common

  type Tid = nat

  /** One insert or delete per thread. */
  datatype Pc =
    | Start
    | Probing(p: PageId)                       // waiting for the latch of a page the cursor named
    | Probe(p: PageId)                         // holding it
    | Appending(p: PageId)                     // waiting for the latch of what was the last page
    | Tail(p: PageId)                          // holding it
    | Placing(p: PageId, slot: nat)            // holding p, a slot chosen and not yet written
    | Extending(p: PageId)                     // holding p, which is full and has no follower
    | Linking(p: PageId, q: PageId, slot: nat) // holding p and the new page q, the row already in q
    | Publishing(p: PageId, q: PageId, slot: nat)
    | Done(rid: RID)
    | Failed
    | Erasing(rid: RID)                        // a delete, waiting
    | Erase(rid: RID)                          // holding
    | Gone

  /** links: every heap page this table has allocated and where it points; rows: the live rows and the
      insert each belongs to. */
  datatype State = State(
    first: PageId,
    last: PageId,
    links: map<PageId, PageId>,
    rows: map<RID, Tid>,
    threads: map<Tid, Pc>)

  function Holds(pc: Pc): set<PageId> {
    match pc
    case Probe(p) => {p}
    case Tail(p) => {p}
    case Placing(p, _) => {p}
    case Extending(p) => {p}
    case Linking(p, q, _) => {p, q}
    case Publishing(p, q, _) => {p, q}
    case Erase(rid) => {rid.pageId}
    case _ => {}
  }

  ghost predicate LatchFree(s: State, p: PageId) {
    forall u | u in s.threads :: p !in Holds(s.threads[u])
  }

  ghost predicate LinkedTo(s: State, p: PageId) { exists q :: q in s.links && s.links[q] == p }

  function To(s: State, t: Tid, pc: Pc): State { s.(threads := s.threads[t := pc]) }

  // ---------- the steps ----------

  /** The cursor names some page of the table; the walk goes back to the front at the end. */
  ghost predicate Begin(s: State, t: Tid, s': State) {
    && t in s.threads && s.threads[t] == Start && t in s'.threads && s' == To(s, t, s'.threads[t])
    && match s'.threads[t]
       case Probing(p) => p == s.first || (p != INVALID_PAGE && LinkedTo(s, p))
       case Erasing(rid) => true
       case _ => false
  }

  ghost predicate LatchProbe(s: State, t: Tid, s': State) {
    && t in s.threads && s.threads[t].Probing? && LatchFree(s, s.threads[t].p) && s' == To(s, t, Probe(s.threads[t].p))
  }

  /** The page cannot be fetched: the operation fails, or an insert led here by the cursor starts over at
      the front. */
  ghost predicate FetchFails(s: State, t: Tid, s': State) {
    && t in s.threads && (s.threads[t].Probing? || s.threads[t].Appending? || s.threads[t].Erasing?)
    && (s' == To(s, t, Failed) || (s.threads[t].Probing? && s' == To(s, t, Probing(s.first))))
  }

  /** Not here: go on to the next page, or give up probing. */
  ghost predicate Pass(s: State, t: Tid, s': State) {
    && t in s.threads && s.threads[t].Probe? && s.threads[t].p in s.links
    && var next := s.links[s.threads[t].p];
    && (s' == To(s, t, Probing(if next == INVALID_PAGE then s.first else next)) || s' == To(s, t, Appending(s.last)))
  }

  /** There is room: choose a slot nothing lives in. */
  ghost predicate Choose(s: State, t: Tid, s': State) {
    && t in s.threads && (s.threads[t].Probe? || (s.threads[t].Tail? && Ends(s, s.threads[t].p)))
    && t in s'.threads && s'.threads[t].Placing? && s'.threads[t].p == s.threads[t].p
    && RID(s.threads[t].p, s'.threads[t].slot) !in s.rows
    && s' == To(s, t, s'.threads[t])
  }

  predicate Ends(s: State, p: PageId) { p in s.links && s.links[p] == INVALID_PAGE }

  ghost predicate Write(s: State, t: Tid, s': State) {
    && t in s.threads && s.threads[t].Placing?
    && var rid := RID(s.threads[t].p, s.threads[t].slot);
    && s' == To(s, t, Done(rid)).(rows := s.rows[rid := t])
  }

  ghost predicate LatchTail(s: State, t: Tid, s': State) {
    && t in s.threads && s.threads[t].Appending? && LatchFree(s, s.threads[t].p) && s' == To(s, t, Tail(s.threads[t].p))
  }

  /** Re-read under the latch, the link is set: somebody extended the chain meanwhile. */
  ghost predicate Follow(s: State, t: Tid, s': State) {
    && t in s.threads && s.threads[t].Tail? && s.threads[t].p in s.links && s.links[s.threads[t].p] != INVALID_PAGE
    && s' == To(s, t, Appending(s.links[s.threads[t].p]))
  }

  ghost predicate Full(s: State, t: Tid, s': State) {
    && t in s.threads && s.threads[t].Tail? && Ends(s, s.threads[t].p) && s' == To(s, t, Extending(s.threads[t].p))
  }

  /** Allocate, initialise and fill a page nobody else can name yet; or fail to. */
  ghost predicate Allocate(s: State, t: Tid, s': State) {
    && t in s.threads && s.threads[t].Extending? && t in s'.threads
    && match s'.threads[t]
       case Linking(p, q, slot) =>
         && p == s.threads[t].p && q !in s.links && q != INVALID_PAGE && LatchFree(s, q)
         && (forall r | r in s.rows :: r.pageId != q)
         && s' == To(s, t, s'.threads[t]).(links := s.links[q := INVALID_PAGE], rows := s.rows[RID(q, slot) := t])
       case Failed => s' == To(s, t, Failed)
       case _ => false
  }

  ghost predicate Link(s: State, t: Tid, s': State) {
    && t in s.threads && s.threads[t].Linking?
    && var Linking(p, q, slot) := s.threads[t];
    && s' == To(s, t, Publishing(p, q, slot)).(links := s.links[p := q])
  }

  ghost predicate Publish(s: State, t: Tid, s': State) {
    && t in s.threads && s.threads[t].Publishing?
    && var Publishing(p, q, slot) := s.threads[t];
    && s' == To(s, t, Done(RID(q, slot))).(last := q)
  }

  ghost predicate LatchErase(s: State, t: Tid, s': State) {
    && t in s.threads && s.threads[t].Erasing? && LatchFree(s, s.threads[t].rid.pageId)
    && s' == To(s, t, Erase(s.threads[t].rid))
  }

  ghost predicate Remove(s: State, t: Tid, s': State) {
    && t in s.threads && s.threads[t].Erase? && s' == To(s, t, Gone).(rows := s.rows - {s.threads[t].rid})
  }

  ghost predicate Next(s: State, t: Tid, s': State) {
    || Begin(s, t, s') || LatchProbe(s, t, s') || Pass(s, t, s') || Choose(s, t, s') || Write(s, t, s')
    || LatchTail(s, t, s') || Follow(s, t, s') || Full(s, t, s') || Allocate(s, t, s') || Link(s, t, s')
    || Publish(s, t, s') || LatchErase(s, t, s') || Remove(s, t, s') || FetchFails(s, t, s')
  }

  ghost predicate Init(s: State) {
    && s.first == s.last && s.first != INVALID_PAGE && s.links == map[s.first := INVALID_PAGE] && s.rows == map[]
    && forall t | t in s.threads :: s.threads[t] == Start
  }

  // ---------- the invariant ----------

  /** A single list from the first page, without repeats, ending in nothing. */
  ghost predicate IsChain(links: map<PageId, PageId>, first: PageId, ps: seq<PageId>) {
    && ps != [] && ps[0] == first && INVALID_PAGE !in ps
    && (forall i | 0 <= i < |ps| :: ps[i] in links && links[ps[i]] == Follower(ps, i))
    && (forall i, j | 0 <= i < j < |ps| :: ps[i] != ps[j])
  }

  function Follower(ps: seq<PageId>, i: nat): PageId
    requires i < |ps|
  {
    if i + 1 < |ps| then ps[i + 1] else INVALID_PAGE
  }

  predicate IsFinal(ps: seq<PageId>, p: PageId) { ps != [] && ps[|ps| - 1] == p }

  predicate PcOk(s: State, ps: seq<PageId>, t: Tid, pc: Pc) {
    match pc
    case Probing(p) => p in ps
    case Probe(p) => p in ps
    case Appending(p) => p in ps
    case Tail(p) => p in ps
    case Placing(p, slot) => p in ps && RID(p, slot) !in s.rows
    case Extending(p) => IsFinal(ps, p)
    case Linking(p, q, slot) => IsFinal(ps, p) && q !in ps && q != INVALID_PAGE && q in s.links
        && s.links[q] == INVALID_PAGE && Owns(s, t, RID(q, slot))
    case Publishing(p, q, slot) => IsFinal(ps, q) && Owns(s, t, RID(q, slot))
    case Done(rid) => rid.pageId in ps
    case _ => true
  }

  predicate Owns(s: State, t: Tid, rid: RID) { rid in s.rows && s.rows[rid] == t }

  /** Every page the table ever allocated is on the chain, or is the one its extender is about to link. */
  ghost predicate Accounted(s: State, ps: seq<PageId>) {
    forall q | q in s.links :: q in ps || exists t :: t in s.threads && s.threads[t].Linking? && s.threads[t].q == q
  }

  ghost predicate Inv(s: State, ps: seq<PageId>) {
    && IsChain(s.links, s.first, ps) && s.last in ps
    && (forall t | t in s.threads :: PcOk(s, ps, t, s.threads[t]))
    && (forall t, u | t in s.threads && u in s.threads && t != u :: Holds(s.threads[t]) !! Holds(s.threads[u]))
    && Accounted(s, ps)
    && (forall r | r in s.rows :: r.pageId in s.links)
  }

  ghost predicate Exclusive(s: State) {
    forall t, u | t in s.threads && u in s.threads && t != u :: Holds(s.threads[t]) !! Holds(s.threads[u])
  }

  predicate Moves(s: State, t: Tid, s': State) {
    t in s.threads && t in s'.threads && s'.threads == s.threads[t := s'.threads[t]]
  }

  /** A latch taken was free; all else is given up or kept. */
  lemma MoveExclusive(s: State, t: Tid, s': State)
    requires Exclusive(s) && Moves(s, t, s')
    requires forall p | p in Holds(s'.threads[t]) :: p in Holds(s.threads[t]) || LatchFree(s, p)
    ensures Exclusive(s')
  {
    hide Holds;
    forall v, p | v in s.threads && v != t && p in Holds(s'.threads[t]) ensures p !in Holds(s.threads[v]) {
      assert Holds(s.threads[t]) !! Holds(s.threads[v]);
    }
    forall u, v | u in s'.threads && v in s'.threads && u != v ensures Holds(s'.threads[u]) !! Holds(s'.threads[v]) {
      if u != t && v != t { assert Holds(s.threads[u]) !! Holds(s.threads[v]); }
    }
  }

  lemma LinkAt(links: map<PageId, PageId>, first: PageId, ps: seq<PageId>, i: nat)
    requires IsChain(links, first, ps) && i < |ps|
    ensures ps[i] in links && links[ps[i]] == Follower(ps, i) && ps[i] != INVALID_PAGE
  {
    assert ps[i] in ps;
  }

  lemma LinkTargets(links: map<PageId, PageId>, first: PageId, ps: seq<PageId>, p: PageId)
    requires IsChain(links, first, ps) && p in ps
    ensures p in links && (links[p] == INVALID_PAGE || links[p] in ps) && (links[p] == INVALID_PAGE <==> IsFinal(ps, p))
  {
    var i := IndexOf(ps, p);
    LinkAt(links, first, ps, i);
    if i + 1 < |ps| { assert ps[i + 1] in ps && ps[i] != ps[|ps| - 1]; }
  }

  lemma FirstOnChain(links: map<PageId, PageId>, first: PageId, ps: seq<PageId>)
    requires IsChain(links, first, ps)
    ensures first in ps
  {
  }

  /** The page a cursor names is on the chain. */
  lemma Named(s: State, ps: seq<PageId>, p: PageId)
    requires Inv(s, ps) && LinkedTo(s, p) && p != INVALID_PAGE
    ensures p in ps
  {
    var q :| q in s.links && s.links[q] == p;
    if q in ps { LinkTargets(s.links, s.first, ps, q); }
  }

  /** Chain, last page and allocated pages untouched. */
  predicate SameChain(s: State, s': State) {
    s'.first == s.first && s'.last == s.last && s'.links == s.links
  }

  /** The allocated pages stay accounted for while this thread is not the one linking. */
  lemma StillAccounted(s: State, t: Tid, s': State, ps: seq<PageId>)
    requires Accounted(s, ps) && Moves(s, t, s') && s'.links == s.links && !s.threads[t].Linking?
    ensures Accounted(s', ps)
  {
    forall q | q in s'.links && q !in ps
      ensures exists u :: u in s'.threads && s'.threads[u].Linking? && s'.threads[u].q == q
    {
      var u :| u in s.threads && s.threads[u].Linking? && s.threads[u].q == q;
      assert u in s'.threads && s'.threads[u] == s.threads[u];
    }
  }

  lemma QuietKeeps(s: State, t: Tid, s': State, ps: seq<PageId>)
    requires Inv(s, ps) && Moves(s, t, s') && SameChain(s, s') && s'.rows == s.rows && !s.threads[t].Linking?
    requires PcOk(s', ps, t, s'.threads[t])
    requires forall p | p in Holds(s'.threads[t]) :: p in Holds(s.threads[t]) || LatchFree(s, p)
    ensures Inv(s', ps)
  {
    MoveExclusive(s, t, s');
    StillAccounted(s, t, s', ps);
    forall u | u in s'.threads ensures PcOk(s', ps, u, s'.threads[u]) {
      if u != t { assert PcOk(s, ps, u, s.threads[u]); }
    }
  }

  ghost predicate Quiet(s: State, t: Tid, s': State) {
    || Begin(s, t, s') || LatchProbe(s, t, s') || Pass(s, t, s') || Choose(s, t, s') || LatchTail(s, t, s')
    || Follow(s, t, s') || Full(s, t, s') || LatchErase(s, t, s') || FetchFails(s, t, s')
  }

  lemma QuietStep(s: State, t: Tid, s': State, ps: seq<PageId>)
    requires Inv(s, ps) && Quiet(s, t, s')
    ensures Inv(s', ps)
  {
    hide IsChain, Accounted;
    assert PcOk(s, ps, t, s.threads[t]);
    FirstOnChain(s.links, s.first, ps);
    if s.threads[t].Start? {
      if s'.threads[t].Probing? && s'.threads[t].p != s.first { Named(s, ps, s'.threads[t].p); }
    } else if s.threads[t].Probe? || s.threads[t].Tail? {
      LinkTargets(s.links, s.first, ps, s.threads[t].p);
    }
    QuietKeeps(s, t, s', ps);
  }

  /** Writing or removing a row under its page's latch. */
  lemma RowsKeep(s: State, t: Tid, s': State, ps: seq<PageId>, rid: RID)
    requires Inv(s, ps) && Moves(s, t, s') && SameChain(s, s') && rid.pageId in Holds(s.threads[t])
             && !s.threads[t].Linking?
    requires PcOk(s', ps, t, s'.threads[t]) && Holds(s'.threads[t]) == {}
    requires forall r | r != rid :: (r in s'.rows <==> r in s.rows) && (r in s.rows ==> s'.rows[r] == s.rows[r])
    requires rid in s'.rows ==> rid.pageId in s.links
    ensures Inv(s', ps)
  {
    MoveExclusive(s, t, s');
    StillAccounted(s, t, s', ps);
    forall u | u in s'.threads ensures PcOk(s', ps, u, s'.threads[u]) {
      if u != t {
        assert PcOk(s, ps, u, s.threads[u]) && Holds(s.threads[t]) !! Holds(s.threads[u]);
      }
    }
  }

  lemma AllocateKeeps(s: State, t: Tid, s': State, ps: seq<PageId>)
    requires Inv(s, ps) && Allocate(s, t, s') && s'.threads[t].Linking?
    ensures Inv(s', ps)
  {
    var Linking(p, q, slot) := s'.threads[t];
    assert PcOk(s, ps, t, s.threads[t]);
    MoveExclusive(s, t, s');
    assert q !in ps;
    forall u | u in s'.threads ensures PcOk(s', ps, u, s'.threads[u]) {
      if u != t {
        assert PcOk(s, ps, u, s.threads[u]) && Holds(s.threads[t]) !! Holds(s.threads[u]);
      }
    }
    OneExtender(s, ps, t);
    assert s'.threads[t].q == q;
  }

  /** While one thread holds the final page, no other is linking: all pages are on the chain but its own. */
  lemma OneExtender(s: State, ps: seq<PageId>, t: Tid)
    requires Inv(s, ps) && t in s.threads && (s.threads[t].Extending? || s.threads[t].Linking?)
    ensures forall x | x in s.links :: x in ps || (s.threads[t].Linking? && s.threads[t].q == x)
  {
    assert PcOk(s, ps, t, s.threads[t]);
    forall u | u in s.threads && u != t ensures !s.threads[u].Linking? {
      assert PcOk(s, ps, u, s.threads[u]) && Holds(s.threads[t]) !! Holds(s.threads[u]);
      assert s.threads[t].p in Holds(s.threads[t]);
    }
  }

  /** Linking appends the new page to the chain. */
  lemma LinkKeeps(s: State, t: Tid, s': State, ps: seq<PageId>) returns (qs: seq<PageId>)
    requires Inv(s, ps) && Link(s, t, s')
    ensures Inv(s', qs) && s'.last == s.last && qs == ps + [s.threads[t].q]
  {
    hide IsChain;
    var Linking(p, q, slot) := s.threads[t];
    qs := ps + [q];
    assert PcOk(s, ps, t, s.threads[t]);
    MoveExclusive(s, t, s');
    LinkChain(s.links, s.first, ps, q);
    forall u | u in s'.threads ensures PcOk(s', qs, u, s'.threads[u]) {
      if u != t {
        assert PcOk(s, ps, u, s.threads[u]) && Holds(s.threads[t]) !! Holds(s.threads[u]);
      }
    }
    OneExtender(s, ps, t);
  }

  lemma LinkChain(links: map<PageId, PageId>, first: PageId, ps: seq<PageId>, q: PageId)
    requires IsChain(links, first, ps) && q !in ps && q != INVALID_PAGE && q in links && links[q] == INVALID_PAGE
    ensures IsChain(links[ps[|ps| - 1] := q], first, ps + [q])
  {
  }

  lemma PublishKeeps(s: State, t: Tid, s': State, ps: seq<PageId>)
    requires Inv(s, ps) && Publish(s, t, s')
    ensures Inv(s', ps) && IsFinal(ps, s'.last)
  {
    hide IsChain;
    assert PcOk(s, ps, t, s.threads[t]);
    MoveExclusive(s, t, s');
    StillAccounted(s, t, s', ps);
    forall u | u in s'.threads ensures PcOk(s', ps, u, s'.threads[u]) {
      if u != t { assert PcOk(s, ps, u, s.threads[u]); }
    }
  }

  /** Every step keeps one chain, appends to it or leaves it, and moves the last-page pointer only
      forward along it. */
  lemma NextKeeps(s: State, t: Tid, s': State, ps: seq<PageId>) returns (ps': seq<PageId>)
    requires Inv(s, ps) && Next(s, t, s')
    ensures Inv(s', ps') && (ps' == ps || (|ps'| == |ps| + 1 && ps'[..|ps|] == ps))
    ensures s'.last == s.last || IsFinal(ps', s'.last)
  {
    hide Inv, Begin, LatchProbe, FetchFails, Pass, Choose, Write, LatchTail, Follow, Full, Allocate, Link, Publish,
      LatchErase, Remove;
    ps' := ps;
    if Quiet(s, t, s') {
      QuietStep(s, t, s', ps);
      QuietLast(s, t, s');
    } else if Write(s, t, s') || Remove(s, t, s') {
      RowStep(s, t, s', ps);
    } else if Publish(s, t, s') {
      PublishKeeps(s, t, s', ps);
    } else if Link(s, t, s') {
      ps' := LinkKeeps(s, t, s', ps);
    } else {
      AllocateStep(s, t, s', ps);
    }
  }

  lemma QuietLast(s: State, t: Tid, s': State)
    requires Quiet(s, t, s')
    ensures s'.last == s.last
  {
    hide LatchFree, LinkedTo;
  }

  lemma RowStep(s: State, t: Tid, s': State, ps: seq<PageId>)
    requires Inv(s, ps) && (Write(s, t, s') || Remove(s, t, s'))
    ensures Inv(s', ps) && s'.last == s.last
  {
    hide IsChain, Accounted;
    if Write(s, t, s') {
      assert PcOk(s, ps, t, s.threads[t]);
      LinkTargets(s.links, s.first, ps, s.threads[t].p);
      RowsKeep(s, t, s', ps, RID(s.threads[t].p, s.threads[t].slot));
    } else {
      RowsKeep(s, t, s', ps, s.threads[t].rid);
    }
  }

  lemma AllocateStep(s: State, t: Tid, s': State, ps: seq<PageId>)
    requires Inv(s, ps) && Allocate(s, t, s')
    ensures Inv(s', ps) && s'.last == s.last
  {
    hide IsChain, Accounted;
    if s'.threads[t].Linking? {
      AllocateKeeps(s, t, s', ps);
    } else {
      QuietKeeps(s, t, s', ps);
    }
  }

  // ---------- whole runs ----------

  datatype Run = Run(states: seq<State>, movers: seq<Tid>)

  ghost predicate IsRun(r: Run) {
    |r.states| == |r.movers| + 1 && forall i | 0 <= i < |r.movers| :: StepAt(r, i)
  }

  ghost predicate StepAt(r: Run, i: nat)
    requires i < |r.movers| < |r.states|
  {
    Next(r.states[i], r.movers[i], r.states[i + 1])
  }

  lemma InitInv(s: State)
    requires Init(s)
    ensures Inv(s, [s.first])
  {
  }

  /** At every moment of every run the table's pages form one acyclic list, and what was on it stays
      on it in place. */
  lemma {:induction false} RunKeeps(r: Run, i: nat, j: nat, ps: seq<PageId>) returns (qs: seq<PageId>)
    requires IsRun(r) && i <= j < |r.states| && Inv(r.states[i], ps)
    ensures Inv(r.states[j], qs) && |ps| <= |qs| && qs[..|ps|] == ps
    decreases j - i
  {
    hide Inv, Next;
    qs := ps;
    if i < j {
      assert StepAt(r, i);
      var mid := NextKeeps(r.states[i], r.movers[i], r.states[i + 1], ps);
      qs := RunKeeps(r, i + 1, j, mid);
      assert qs[..|ps|] == qs[..|mid|][..|ps|];
    }
  }

  lemma {:induction false} FreshRunKeeps(r: Run, j: nat) returns (qs: seq<PageId>)
    requires IsRun(r) && Init(r.states[0]) && j < |r.states|
    ensures Inv(r.states[j], qs)
  {
    InitInv(r.states[0]);
    qs := RunKeeps(r, 0, j, [r.states[0].first]);
  }

  /** Where a page is on the chain. */
  ghost function IndexOf(ps: seq<PageId>, p: PageId): (i: nat)
    requires p in ps
    ensures i < |ps| && ps[i] == p
  {
    var i :| 0 <= i < |ps| && ps[i] == p;
    i
  }

  /** The last-page pointer never moves back along the chain. */
  lemma LastOnlyForward(s: State, t: Tid, s': State, ps: seq<PageId>)
    requires Inv(s, ps) && Next(s, t, s')
    ensures exists ps' ::
              Inv(s', ps') && |ps| <= |ps'| && ps'[..|ps|] == ps
              && IndexOf(ps, s.last) <= IndexOf(ps', s'.last)
  {
    var ps' := NextKeeps(s, t, s', ps);
    var i, j := IndexOf(ps, s.last), IndexOf(ps', s'.last);
    assert ps'[i] == ps[i];
    if s'.last != s.last { assert ps'[|ps'| - 1] == s'.last; }
    assert ps'[..|ps|] == ps;
  }

  /** A finished insert's page is on the chain for good. */
  lemma {:induction false} DoneStaysOnChain(r: Run, i: nat, j: nat, ps: seq<PageId>, t: Tid) returns (qs: seq<PageId>)
    requires IsRun(r) && i <= j < |r.states| && Inv(r.states[i], ps) && t in r.states[i].threads
             && r.states[i].threads[t].Done?
    ensures Inv(r.states[j], qs) && r.states[i].threads[t].rid.pageId in qs
  {
    qs := RunKeeps(r, i, j, ps);
    assert PcOk(r.states[i], ps, t, r.states[i].threads[t]);
    var k := IndexOf(ps, r.states[i].threads[t].rid.pageId);
    assert qs[k] == ps[k];
  }

  /** An insert that finishes has a live row of its own at the address it returns. */
  lemma DoneOwns(s: State, t: Tid, s': State, ps: seq<PageId>)
    requires Inv(s, ps) && Next(s, t, s') && t in s.threads && t in s'.threads && s'.threads[t].Done?
             && !s.threads[t].Done?
    ensures Owns(s', t, s'.threads[t].rid)
  {
    hide IsChain, Accounted, LatchFree, LinkedTo, Holds;
    assert PcOk(s, ps, t, s.threads[t]);
  }

  /** A live row is nobody else's: no insert ever writes over it. */
  lemma OwnedStays(s: State, t: Tid, s': State, ps: seq<PageId>, u: Tid, rid: RID)
    requires Inv(s, ps) && Next(s, t, s') && Owns(s, u, rid) && !(Remove(s, t, s') && s.threads[t].rid == rid)
    ensures Owns(s', u, rid)
  {
    hide IsChain, Accounted, LatchFree;
    assert PcOk(s, ps, t, s.threads[t]);
  }

  lemma {:induction false} RowSurvives(r: Run, i: nat, j: nat, ps: seq<PageId>, u: Tid, rid: RID)
    requires IsRun(r) && i <= j < |r.states| && Inv(r.states[i], ps) && Owns(r.states[i], u, rid)
    requires forall k | i <= k < j ::
               !(Remove(r.states[k], r.movers[k], r.states[k + 1])
                 && r.states[k].threads[r.movers[k]].rid == rid)
    ensures Owns(r.states[j], u, rid)
    decreases j - i
  {
    hide Inv, Next, Owns, Remove;
    if i < j {
      assert StepAt(r, i);
      OwnedStays(r.states[i], r.movers[i], r.states[i + 1], ps, u, rid);
      var mid := NextKeeps(r.states[i], r.movers[i], r.states[i + 1], ps);
      RowSurvives(r, i + 1, j, mid, u, rid);
    }
  }

  // ---------- what becomes of an insert ----------

  /** An insert under way. */
  predicate Active(pc: Pc) {
    || pc.Probing? || pc.Probe? || pc.Appending? || pc.Tail? || pc.Placing? || pc.Extending? || pc.Linking?
    || pc.Publishing?
  }

  /** A page could not be fetched, or none allocated. */
  ghost predicate Refused(s: State, t: Tid, s': State) {
    && t in s.threads && t in s'.threads && s'.threads[t].Failed?
    && (FetchFails(s, t, s') || s.threads[t].Extending?)
  }

  lemma ActiveStep(s: State, t: Tid, s': State)
    requires Next(s, t, s') && t in s.threads && Active(s.threads[t])
    ensures t in s'.threads && (Active(s'.threads[t]) || s'.threads[t].Done? || Refused(s, t, s'))
  {
    hide LatchFree, LinkedTo, Ends;
  }

  lemma StepMoves(s: State, t: Tid, s': State)
    requires Next(s, t, s')
    ensures Moves(s, t, s')
  {
    hide LatchFree, LinkedTo, Ends;
  }

  /** An insert that is no longer under way has its row, or a fetch or an allocation of its own failed. */
  lemma {:induction false} InsertYields(r: Run, i: nat, j: nat, ps: seq<PageId>, t: Tid) returns (k: nat)
    requires IsRun(r) && i <= j < |r.states| && Inv(r.states[i], ps)
    requires t in r.states[i].threads && Active(r.states[i].threads[t])
    requires t in r.states[j].threads && !Active(r.states[j].threads[t])
    ensures i <= k < j && r.movers[k] == t && t in r.states[k + 1].threads
    ensures || (r.states[k + 1].threads[t].Done? && Owns(r.states[k + 1], t, r.states[k + 1].threads[t].rid))
            || Refused(r.states[k], t, r.states[k + 1])
    decreases j - i
  {
    hide Inv, Next, Refused, Owns;
    var s, s', v := r.states[i], r.states[i + 1], r.movers[i];
    assert StepAt(r, i);
    StepMoves(s, v, s');
    if v == t {
      ActiveStep(s, t, s');
      if !Active(s'.threads[t]) {
        k := i;
        if s'.threads[t].Done? { DoneOwns(s, t, s', ps); }
        return;
      }
    }
    var mid := NextKeeps(s, v, s', ps);
    k := InsertYields(r, i + 1, j, mid, t);
  }

  // ---------- an insert on its own ----------

  /** Nobody else has a latch, and q is a page the allocator can hand out. */
  ghost predicate OnlyOne(s: State, t: Tid, q: PageId) {
    && t in s.threads && (forall u | u in s.threads && u != t :: Holds(s.threads[u]) == {})
    && q != INVALID_PAGE && q !in s.links && forall r | r in s.rows :: r.pageId != q
  }

  lemma FreeLatch(s: State, t: Tid, q: PageId, p: PageId)
    requires OnlyOne(s, t, q) && p !in Holds(s.threads[t])
    ensures LatchFree(s, p)
  {
    forall u | u in s.threads ensures p !in Holds(s.threads[u]) { }
  }

  /** How far an insert is from its end: its stage, and the pages the append walk has ahead of it. */
  function Stage(pc: Pc): nat {
    match pc
    case Probing(_) => 7
    case Probe(_) => 6
    case Appending(_) => 5
    case Tail(_) => 5
    case Extending(_) => 3
    case Linking(_, _, _) => 2
    case Publishing(_, _, _) => 1
    case Placing(_, _) => 1
    case _ => 0
  }

  function Ahead(ps: seq<PageId>, pc: Pc): nat {
    if (pc.Appending? || pc.Tail?) && pc.p in ps then
      2 * (|ps| - IndexIn(ps, pc.p)) + if pc.Tail? then 0 else 1
    else 0
  }

  function IndexIn(ps: seq<PageId>, p: PageId): (i: nat)
    requires p in ps
    ensures i < |ps| && ps[i] == p
  {
    if ps[0] == p then 0 else 1 + IndexIn(ps[1..], p)
  }

  /** One step of an insert on its own that meets no failure and brings it nearer to its end. */
  ghost predicate Nearer(s: State, s': State, ps: seq<PageId>, t: Tid, q: PageId) {
    && Next(s, t, s') && t in s.threads && t in s'.threads
    && (|| s'.threads[t].Done?
        || (&& Active(s'.threads[t])
            && (s'.threads[t].Linking? || s'.threads[t].Publishing? || OnlyOne(s', t, q))
            && (|| Stage(s'.threads[t]) < Stage(s.threads[t])
                || (Stage(s'.threads[t]) == Stage(s.threads[t]) && SameChain(s, s')
                    && Ahead(ps, s'.threads[t]) < Ahead(ps, s.threads[t])))))
  }

  lemma StaysOnlyOne(s: State, s': State, t: Tid, q: PageId)
    requires OnlyOne(s, t, q) && Moves(s, t, s') && SameChain(s, s') && s'.rows == s.rows
    ensures OnlyOne(s', t, q)
  {
  }

  lemma ProbeNearer(s: State, ps: seq<PageId>, t: Tid, q: PageId) returns (s': State)
    requires Inv(s, ps) && OnlyOne(s, t, q) && (s.threads[t].Probing? || s.threads[t].Probe?)
    ensures Nearer(s, s', ps, t, q)
  {
    hide IsChain, Accounted;
    assert PcOk(s, ps, t, s.threads[t]);
    var p := s.threads[t].p;
    if s.threads[t].Probing? {
      FreeLatch(s, t, q, p);
      s' := To(s, t, Probe(p));
      assert LatchProbe(s, t, s');
    } else {
      LinkTargets(s.links, s.first, ps, p);
      s' := To(s, t, Appending(s.last));
      assert Pass(s, t, s');
    }
    StaysOnlyOne(s, s', t, q);
  }

  lemma IndexUnique(links: map<PageId, PageId>, first: PageId, ps: seq<PageId>, i: nat)
    requires IsChain(links, first, ps) && i < |ps|
    ensures IndexIn(ps, ps[i]) == i
  {
    var j := IndexIn(ps, ps[i]);
    assert ps[j] == ps[i];
  }

  lemma LatchNearer(s: State, ps: seq<PageId>, t: Tid, q: PageId) returns (s': State)
    requires Inv(s, ps) && OnlyOne(s, t, q) && s.threads[t].Appending?
    ensures Nearer(s, s', ps, t, q)
  {
    hide IsChain, Accounted;
    assert PcOk(s, ps, t, s.threads[t]);
    hide Inv;
    var p := s.threads[t].p;
    FreeLatch(s, t, q, p);
    s' := To(s, t, Tail(p));
    assert LatchTail(s, t, s');
    StaysOnlyOne(s, s', t, q);
  }

  lemma FollowNearer(s: State, ps: seq<PageId>, t: Tid, q: PageId) returns (s': State)
    requires Inv(s, ps) && OnlyOne(s, t, q) && s.threads[t].Tail? && !IsFinal(ps, s.threads[t].p)
    ensures Nearer(s, s', ps, t, q)
  {
    hide IsChain, Accounted;
    assert PcOk(s, ps, t, s.threads[t]);
    var p := s.threads[t].p;
    var i := IndexIn(ps, p);
    LinkTargets(s.links, s.first, ps, p);
    LinkAt(s.links, s.first, ps, i);
    IndexUnique(s.links, s.first, ps, i + 1);
    hide Inv, IndexIn;
    s' := To(s, t, Appending(s.links[p]));
    assert Follow(s, t, s');
    StaysOnlyOne(s, s', t, q);
  }

  lemma FullNearer(s: State, ps: seq<PageId>, t: Tid, q: PageId) returns (s': State)
    requires Inv(s, ps) && OnlyOne(s, t, q) && s.threads[t].Tail? && IsFinal(ps, s.threads[t].p)
    ensures Nearer(s, s', ps, t, q)
  {
    hide IsChain, Accounted;
    assert PcOk(s, ps, t, s.threads[t]);
    LinkTargets(s.links, s.first, ps, s.threads[t].p);
    hide Inv;
    s' := To(s, t, Extending(s.threads[t].p));
    assert Full(s, t, s');
    StaysOnlyOne(s, s', t, q);
  }

  lemma TailNearer(s: State, ps: seq<PageId>, t: Tid, q: PageId) returns (s': State)
    requires Inv(s, ps) && OnlyOne(s, t, q) && (s.threads[t].Appending? || s.threads[t].Tail?)
    ensures Nearer(s, s', ps, t, q)
  {
    hide Inv, Nearer;
    if s.threads[t].Appending? {
      s' := LatchNearer(s, ps, t, q);
    } else if IsFinal(ps, s.threads[t].p) {
      s' := FullNearer(s, ps, t, q);
    } else {
      s' := FollowNearer(s, ps, t, q);
    }
  }

  lemma WriteNearer(s: State, ps: seq<PageId>, t: Tid, q: PageId) returns (s': State)
    requires Inv(s, ps) && t in s.threads
    requires s.threads[t].Placing? || s.threads[t].Linking? || s.threads[t].Publishing?
             || (s.threads[t].Extending? && OnlyOne(s, t, q))
    ensures Nearer(s, s', ps, t, q)
  {
    hide IsChain, Accounted;
    assert PcOk(s, ps, t, s.threads[t]);
    match s.threads[t]
    case Placing(p, slot) =>
      s' := To(s, t, Done(RID(p, slot))).(rows := s.rows[RID(p, slot) := t]);
      assert Write(s, t, s');
    case Extending(p) =>
      HeldIsAllocated(s, ps, t, p);
      FreeLatch(s, t, q, q);
      s' := To(s, t, Linking(p, q, 0)).(links := s.links[q := INVALID_PAGE], rows := s.rows[RID(q, 0) := t]);
      assert Allocate(s, t, s');
    case Linking(p, x, slot) =>
      s' := To(s, t, Publishing(p, x, slot)).(links := s.links[p := x]);
      assert Link(s, t, s');
    case Publishing(p, x, slot) =>
      s' := To(s, t, Done(RID(x, slot))).(last := x);
      assert Publish(s, t, s');
  }

  lemma HeldIsAllocated(s: State, ps: seq<PageId>, t: Tid, p: PageId)
    requires Inv(s, ps) && t in s.threads && s.threads[t] == Extending(p)
    ensures p in s.links
  {
    assert PcOk(s, ps, t, s.threads[t]);
    assert p in ps;
    LinkTargets(s.links, s.first, ps, p);
  }

  /** With the latches to itself and a page to be had, an insert gets to its end. */
  lemma {:induction false} InsertCompletes(s: State, ps: seq<PageId>, t: Tid, q: PageId) returns (states: seq<State>)
    requires Inv(s, ps) && t in s.threads && Active(s.threads[t])
    requires s.threads[t].Linking? || s.threads[t].Publishing? || OnlyOne(s, t, q)
    ensures states != [] && states[0] == s && t in states[|states| - 1].threads && states[|states| - 1].threads[t].Done?
    ensures forall i | 0 < i < |states| :: Next(states[i - 1], t, states[i])
    decreases Stage(s.threads[t]), Ahead(ps, s.threads[t])
  {
    hide Inv, Next, OnlyOne, Ahead, SameChain;
    var s';
    if s.threads[t].Probing? || s.threads[t].Probe? {
      s' := ProbeNearer(s, ps, t, q);
    } else if s.threads[t].Appending? || s.threads[t].Tail? {
      s' := TailNearer(s, ps, t, q);
    } else {
      s' := WriteNearer(s, ps, t, q);
    }
    var rest := [s'];
    if !s'.threads[t].Done? {
      var ps' := NextKeeps(s, t, s', ps);
      SameChainSame(s, s', ps, ps');
      rest := InsertCompletes(s', ps', t, q);
    }
    states := [s] + rest;
    forall i | 0 < i < |states| ensures Next(states[i - 1], t, states[i]) {
      if i > 1 { assert Next(rest[i - 2], t, rest[i - 1]); }
    }
  }

  /** Links determine the chain. */
  lemma {:induction false} ChainIs(links: map<PageId, PageId>, first: PageId, ps: seq<PageId>, qs: seq<PageId>, n: nat)
    requires IsChain(links, first, ps) && IsChain(links, first, qs) && n <= |ps|
    ensures n <= |qs| && ps[..n] == qs[..n]
  {
    if n > 1 {
      ChainIs(links, first, ps, qs, n - 1);
      LinkAt(links, first, ps, n - 2);
      LinkAt(links, first, qs, n - 2);
      LinkAt(links, first, ps, n - 1);
      assert ps[n - 2] == ps[..n - 1][n - 2] == qs[..n - 1][n - 2] == qs[n - 2];
      assert ps[..n] == ps[..n - 1] + [ps[n - 1]];
      assert qs[..n] == qs[..n - 1] + [qs[n - 1]];
    }
  }

  lemma SameChainSame(s: State, s': State, ps: seq<PageId>, qs: seq<PageId>)
    requires Inv(s, ps) && Inv(s', qs)
    ensures SameChain(s, s') ==> ps == qs
  {
    if SameChain(s, s') {
      ChainIs(s.links, s.first, ps, qs, |ps|);
      ChainIs(s.links, s.first, qs, ps, |qs|);
      assert ps[..|ps|] == ps && qs[..|qs|] == qs;
    }
  }
}
