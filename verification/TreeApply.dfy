/**
 * The delete cascade on pages: the read-only plan, and what each planned step leaves the store holding.
 */
module TreeApply {
  import opened Common
  import opened Nodes
  import opened Trees
  import opened TreeRuns
  import opened TreeInsert
  import opened TreeDelete
  import opened TreeStore
  import opened TreeSpine
  import opened TreeIndex

  datatype Fix = Redistribute | MergeNodes

  /** The plan for one level: the sibling's page, its side, and whether to merge or to deal again. */
  datatype DeleteStep = DeleteStep(sibling: PageId, siblingIsLeft: bool, fix: Fix)

  datatype DeletePlan = DeletePlan(steps: seq<DeleteStep>, collapseRoot: bool)

  function SiblingSlot(slot: nat): nat { if slot > 0 then slot - 1 else slot + 1 }

  ghost predicate AtFloor(c: Config, t: Tree, level: nat) { Count(t) <= Floor(c, level) }

  /** steps[k] is right for the node k levels above the leaf, read from the tree before the delete. */
  ghost predicate StepOk(c: Config, sp: seq<Tree>, level: nat, key: Key, k: nat, step: DeleteStep)
    requires |sp| == level + 1 && k < level
  {
    var parent := sp[level - k - 1];
    && AtFloor(c, sp[level - k], k) && parent.Nd?
    && var slot := Slot(parent, key);
    && SiblingSlot(slot) < |parent.kids|
    && var sib := parent.kids[SiblingSlot(slot)];
    && step.siblingIsLeft == (slot > 0) && step.sibling == sib.pid
    && step.fix == if Count(sib) > Floor(c, k) then Redistribute else MergeNodes
  }

  /** Every level up to the last step merges; the walk stopped for a reason. */
  ghost predicate PlanOk(c: Config, sp: seq<Tree>, level: nat, key: Key, plan: DeletePlan) {
    && |sp| == level + 1 && |plan.steps| <= level
    && (forall k | 0 <= k < |plan.steps| :: StepOk(c, sp, level, key, k, plan.steps[k]))
    && (forall k | 0 <= k < |plan.steps| - 1 :: plan.steps[k].fix == MergeNodes)
    && (AllMerge(plan.steps) && |plan.steps| < level ==> !AtFloor(c, sp[level - |plan.steps|], |plan.steps|))
    && (plan.collapseRoot <==> 0 < |plan.steps| == level && AllMerge(plan.steps) && Count(sp[0]) == 2)
  }

  ghost predicate AllMerge(steps: seq<DeleteStep>) {
    forall k | 0 <= k < |steps| :: steps[k].fix == MergeNodes
  }

  /** A plan that may still grow. */
  ghost predicate PlanSoFar(c: Config, sp: seq<Tree>, level: nat, key: Key, steps: seq<DeleteStep>) {
    && |sp| == level + 1 && |steps| <= level && AllMerge(steps)
    && forall k | 0 <= k < |steps| :: StepOk(c, sp, level, key, k, steps[k])
  }

  lemma PlanStops(c: Config, sp: seq<Tree>, level: nat, key: Key, steps: seq<DeleteStep>)
    requires PlanSoFar(c, sp, level, key, steps)
    requires |steps| < level && !AtFloor(c, sp[level - |steps|], |steps|)
    ensures PlanOk(c, sp, level, key, DeletePlan(steps, false))
  {
    hide StepOk, AtFloor;
  }

  lemma PlanReachesRoot(c: Config, sp: seq<Tree>, level: nat, key: Key, steps: seq<DeleteStep>)
    requires PlanSoFar(c, sp, level, key, steps) && |steps| == level
    ensures PlanOk(c, sp, level, key, DeletePlan(steps, steps != [] && Count(sp[0]) == 2))
  {
    hide StepOk, AtFloor;
  }

  /** One more level: a merge lets the plan go on, a rotation ends it. */
  lemma PlanGrows(c: Config, sp: seq<Tree>, level: nat, key: Key, steps: seq<DeleteStep>, step: DeleteStep)
    requires PlanSoFar(c, sp, level, key, steps) && |steps| < level && StepOk(c, sp, level, key, |steps|, step)
    ensures if step.fix == Redistribute then PlanOk(c, sp, level, key, DeletePlan(steps + [step], false))
            else PlanSoFar(c, sp, level, key, steps + [step])
  {
    hide StepOk, AtFloor;
    var all := steps + [step];
    assert all[|steps|] == step;
    if step.fix == Redistribute { assert !AllMerge(all); }
  }

  /** The floor in numbers, for a node k levels above the leaves. */
  function FullTwice(c: Config, k: nat): nat { if k == 0 then c.leafMax else c.internalMax + 1 }

  /** A sibling lends exactly if it holds more than its floor. */
  ghost predicate FixByNumbers(c: Config, sp: seq<Tree>, level: nat, key: Key, k: nat, fix: Fix)
    requires |sp| == level + 1 && k < level
  {
    var parent := sp[level - k - 1];
    && 2 * Count(sp[level - k]) <= FullTwice(c, k) && parent.Nd? && SiblingSlot(Slot(parent, key)) < |parent.kids|
    && var sib := parent.kids[SiblingSlot(Slot(parent, key))];
    fix == if 2 * Count(sib) > FullTwice(c, k) then Redistribute else MergeNodes
  }

  /** A plan in numbers.  The leaf is fixed exactly if it holds no more than half of what it may; a level
      above it exactly if the one below merged and it holds no more than half of one more than it may. */
  lemma {:induction false} PlanNumbers(c: Config, sp: seq<Tree>, level: nat, key: Key, plan: DeletePlan)
    requires PlanOk(c, sp, level, key, plan)
    ensures forall k | 0 <= k < |plan.steps| :: FixByNumbers(c, sp, level, key, k, plan.steps[k].fix)
    ensures |plan.steps| < level && AllMerge(plan.steps) ==>
              2 * Count(sp[level - |plan.steps|]) > FullTwice(c, |plan.steps|)
    ensures level > 0 ==> (plan.steps != [] <==> 2 * Count(sp[level]) <= c.leafMax)
  {
    hide Slot;
    forall k | 0 <= k < |plan.steps| ensures FixByNumbers(c, sp, level, key, k, plan.steps[k].fix) {
      assert StepOk(c, sp, level, key, k, plan.steps[k]);
    }
    if plan.steps != [] { assert FixByNumbers(c, sp, level, key, 0, plan.steps[0].fix); }
  }

  lemma PlanFixesLeaf(c: Config, sp: seq<Tree>, level: nat, key: Key, plan: DeletePlan)
    requires PlanOk(c, sp, level, key, plan) && level > 0
    ensures |sp| == level + 1 && (plan.steps != [] <==> 2 * Count(sp[level]) <= c.leafMax)
  {
    PlanNumbers(c, sp, level, key, plan);
  }

  // ---------- the cascade ----------

  ghost predicate DeleteCtx(c: Config, s0: Store, header: PageId, key: Key) {
    && IndexOk(c, s0, header) && Present(Contents(TreeAt(s0, header)), key)
    && RootSpineOk(c, s0, Spine(TreeAt(s0, header), key), LevelAt(s0, header), key)
    && Spine(TreeAt(s0, header), key)[0] == TreeAt(s0, header)
  }

  /** The store holds what is left of node level - k, and nothing outside it has been written. */
  ghost predicate Cascade(c: Config, s0: Store, s: Store, sp: seq<Tree>, level: nat, key: Key, k: nat,
                          freed: seq<PageId>)
    requires |sp| == level + 1 && k <= level
  {
    var t := sp[level - k];
    var d := Del(c, t, key);
    && Holds(s, d.t, k) && SameOff(s0, s, Pids(t)) && freed == d.freed && s.Keys == s0.Keys
  }

  lemma {:induction false} DelUnfold(c: Config, t: Tree, k: Tree, key: Key)
    requires SpineLink(t, k, key)
    ensures Del(c, t, key) == NodeDel(c, t, Slot(t, key), Del(c, k, key))
  {
  }

  /** What the lemmas about Del say of a node on the path. */
  lemma {:induction false} SpineDel(c: Config, s: Store, x: Tree, level: nat, key: Key, min: nat, top: set<PageId>)
    requires SpineAt(c, s, x, level, key, min, top) && (level > 0 ==> min >= 2)
    ensures var d := Del(c, x, key);
            && Conserved(x, d.t, d.freed) && Count(x) <= Count(d.t) + 1
            && !d.t.Broken? && (d.t.Lf? <==> level == 0)
  {
    var lo, hi :| Valid(c, x, level, lo, hi, min) && InRange(key, lo, hi);
    DelPages(c, x, level, lo, hi, min, key);
    DelValid(c, x, level, lo, hi, min, key);
  }

  /** What the page operations of a fix need of the two nodes. */
  ghost predicate PairOk(c: Config, l: Tree, r: Tree, level: nat) {
    && SameKind(l, r) && (l.Lf? <==> level == 0)
    && if level == 0 then l.level == r.level == 0 && |l.es| <= c.leafMax && |r.es| <= c.leafMax
       else
         && l.level == r.level == level && InternalNodeOk(PageOf(l)) && InternalNodeOk(PageOf(r))
         && |l.kids| <= c.internalMax && |r.kids| <= c.internalMax
  }

  /** The pair in which a short path child gets fixed is of one kind. */
  lemma {:induction false} SpinePair(c: Config, s: Store, t: Tree, k: Tree, level: nat, key: Key, min: nat,
                                     top: set<PageId>)
    requires SpineAt(c, s, t, level, key, min, top) && SpineLink(t, k, key) && level > 0 && min >= 2
    ensures var ks, i := t.kids[Slot(t, key) := Del(c, k, key).t], PairAt(Slot(t, key));
            && |ks| >= 2 && PairOk(c, ks[i], ks[i + 1], level - 1)
            && Count(t.kids[SiblingSlot(Slot(t, key))]) >= Floor(c, level - 1)
  {
    hide Contents, Unfold, Pids, Distinct, Holds, Del, SameKind, Valid;
    var lo, hi :| Valid(c, t, level, lo, hi, min) && InRange(key, lo, hi);
    DelPair(c, t, level, key, lo, hi, min);
  }

  lemma {:induction false} DelPair(c: Config, t: Tree, level: nat, key: Key, lo: Key, hi: Option<Key>, min: nat)
    requires t.Nd? && Valid(c, t, level, lo, hi, min) && InRange(key, lo, hi) && min >= 2
    ensures var i := Slot(t, key);
            && i < |t.kids| && |t.kids| >= 2
            && var ks := t.kids[i := Del(c, t.kids[i], key).t];
            && PairOk(c, ks[PairAt(i)], ks[PairAt(i) + 1], level - 1)
            && Count(t.kids[SiblingSlot(i)]) >= Floor(c, level - 1)
  {
    hide Contents, Del, SameKind, Valid;
    var ks, i, kl := t.kids, Slot(t, key), level - 1;
    assert |ks| >= 2 && ValidRun(c, ks, kl, lo, hi) by { RunOfNode(c, t, level, lo, hi, min); }
    ChildCovers(c, ks, key, kl, lo, hi);
    DelValid(c, ks[i], kl, KidLo(ks, i, lo), KidHi(ks, i, hi), Floor(c, kl), key);
    PairKind(c, ks, i, Del(c, ks[i], key).t, kl, lo, hi);
    NodeFacts(c, Del(c, ks[i], key).t, kl, KidLo(ks, i, lo), KidHi(ks, i, hi), Count(Del(c, ks[i], key).t));
    var j := SiblingSlot(i);
    assert KidOk(c, ks, j, kl, lo, hi);
    NodeFacts(c, ks[j], kl, KidLo(ks, j, lo), KidHi(ks, j, hi), Floor(c, kl));
  }

  lemma RunOfNode(c: Config, t: Tree, level: nat, lo: Key, hi: Option<Key>, min: nat)
    requires t.Nd? && Valid(c, t, level, lo, hi, min)
    ensures level > 0 && |t.kids| >= min && ValidRun(c, t.kids, level - 1, lo, hi)
  {
  }

  lemma NodeFacts(c: Config, t: Tree, level: nat, lo: Key, hi: Option<Key>, min: nat)
    requires Valid(c, t, level, lo, hi, min)
    ensures Count(t) >= min && (t.Lf? <==> level == 0)
    ensures t.Lf? ==> t.level == 0 && |t.es| <= c.leafMax
    ensures !t.Lf? ==> t.Nd? && t.level == level && InternalNodeOk(PageOf(t)) && |t.kids| <= c.internalMax
  {
  }

  /** One step of the cascade: the pair's pages and the parent's page are written. */
  lemma {:induction false} CascadeUp(c: Config, s0: Store, s: Store, s': Store, t: Tree, i: nat, d: Shrunk, level: nat)
    requires t.Nd? && Holds(s0, t, level) && Distinct(t) && i < |t.kids| && t.level == level
    requires d.t.key == t.kids[i].key && d.t.pid == t.kids[i].pid && Conserved(t.kids[i], d.t, d.freed)
    requires Holds(s, d.t, level - 1) && SameOff(s0, s, Pids(t.kids[i]))
    requires var ks, j := t.kids[i := d.t], PairAt(i);
             && |ks| >= 2 && Short(c, ks, i, level - 1) && SameKind(ks[j], ks[j + 1])
             && SameOff(s, s', {ks[j].pid, ks[j + 1].pid, t.pid})
             && Written(s', PairFix(c, ks[j], ks[j + 1], level - 1, i > 0))
             && t.pid in s' && s'[t.pid] == PageOf(NodeDel(c, t, i, d).t)
    ensures Holds(s', NodeDel(c, t, i, d).t, level)
    ensures SameOff(s0, s', Pids(t))
  {
    hide Contents, Unfold, PairFix, SameKind, Distinct, DistinctRun, Short, FixedKids, Held, EntriesOf, RunPids,
      SameOff, Written, Conserved;
    var ks, j, kl := t.kids[i := d.t], PairAt(i), level - 1;
    var w := {ks[j].pid, ks[j + 1].pid, t.pid};
    CascadePids(t, i, d, w);
    HeldOne(s, d.t, kl);
    assert Pids(t.kids[i]) + {} == Pids(t.kids[i]);
    HeldSpliced(s0, s, t, i, [d.t], level, {});
    assert Spliced(t.kids, i, i + 1, [d.t]) == ks;
    HeldFixedKids(c, s, s', ks, i, kl, w);
    SameOffTrans(s0, s, s', Pids(t.kids[i]), w, Pids(t));
  }

  /** The pages a cascade step writes are the node's own. */
  lemma {:induction false} CascadePids(t: Tree, i: nat, d: Shrunk, w: set<PageId>)
    requires t.Nd? && Distinct(t) && i < |t.kids| && |t.kids| >= 2 && d.t.pid == t.kids[i].pid
    requires Conserved(t.kids[i], d.t, d.freed)
    requires var ks, j := t.kids[i := d.t], PairAt(i); w == {ks[j].pid, ks[j + 1].pid, t.pid}
    ensures var ks, j := t.kids[i := d.t], PairAt(i);
            && DistinctRun(ks) && t.pid !in RunPids(ks) && w - {ks[j].pid, ks[j + 1].pid} !! RunPids(ks)
            && Pids(t.kids[i]) + w <= Pids(t)
  {
    hide DistinctRun, Conserved;
    KidConserved(t.kids, i, d.t, d.freed);
    PairInRun(t.kids[i := d.t], PairAt(i));
  }

  lemma HeldOne(s: Store, t: Tree, level: nat)
    requires Holds(s, t, level)
    ensures Held(s, [t], level)
  {
  }

  lemma PairInRun(ks: seq<Tree>, j: nat)
    requires j + 1 < |ks|
    ensures ks[j].pid in RunPids(ks) && ks[j + 1].pid in RunPids(ks)
    ensures DistinctRun(ks) ==> ks[j].pid != ks[j + 1].pid
  {
    assert ks[j].pid in Pids(ks[j]) && ks[j + 1].pid in Pids(ks[j + 1]);
  }

  // ---------- the pages a fixed pair is written to ----------

  /** How many entries a rotation leaves the left node: one is moved away from the lender. */
  function PairCut(n: nat, fromLeft: bool): nat { if fromLeft && n > 0 then n - 1 else n + 1 }

  lemma {:induction false} LeafPairPages(c: Config, l: Tree, r: Tree, fromLeft: bool)
    requires l.Lf? && r.Lf?
    ensures var run, all, cut := PairFix(c, l, r, 0, fromLeft), l.es + r.es, PairCut(|l.es|, fromLeft);
            if Lends(c, l, r, 0, fromLeft) then
              && cut < |all| && |run| == 2 && run[0].pid == l.pid && run[1].pid == r.pid && run[1].key == all[cut].key
              && PageOf(run[0]) == LeafPage(l.level, l.next, all[..cut])
              && PageOf(run[1]) == LeafPage(r.level, r.next, all[cut..])
            else |run| == 1 && run[0].pid == l.pid && PageOf(run[0]) == LeafPage(l.level, r.next, all)
  {
  }

  /** The same for two internal nodes, with the separator brought down between their children. */
  lemma {:induction false} NodePairPages(c: Config, l: Tree, r: Tree, level: nat, fromLeft: bool)
    requires l.Nd? && r.Nd? && l.kids != [] && r.kids != [] && level > 0 && l.kids[0].key == INT64_MIN
    ensures var run, all := PairFix(c, l, r, level, fromLeft), Joined(EntriesOf(l.kids), r.key, EntriesOf(r.kids));
            var cut := PairCut(|l.kids|, fromLeft);
            if Lends(c, l, r, level, fromLeft) then
              && 0 < cut < |all| && |run| == 2 && run[0].pid == l.pid && run[1].pid == r.pid
              && run[1].key == all[cut].key
              && PageOf(run[0]) == InternalPage(l.level, l.next, Canonical(all[..cut]))
              && PageOf(run[1]) == InternalPage(r.level, r.next, Canonical(all[cut..]))
            else |run| == 1 && run[0].pid == l.pid && PageOf(run[0]) == InternalPage(l.level, l.next, Canonical(all))
  {
    var kids, all, cut := JoinedKids(l, r), Joined(EntriesOf(l.kids), r.key, EntriesOf(r.kids)),
        PairCut(|l.kids|, fromLeft);
    assert EntriesOf(kids) == all;
    assert all[0].key == INT64_MIN;
    assert Canonical(all) == all;
    if Lends(c, l, r, level, fromLeft) {
      assert EntriesOf(kids[..cut]) == all[..cut] && EntriesOf(kids[cut..]) == all[cut..];
      assert Canonical(all[..cut]) == all[..cut];
    }
  }

  /** The parent's page: one separator rewritten, or one child removed. */
  lemma {:induction false} ParentEntries(c: Config, ks: seq<Tree>, i: nat, level: nat)
    requires Short(c, ks, i, level) && SameKind(ks[PairAt(i)], ks[PairAt(i) + 1])
    ensures var j := PairAt(i);
            var run := PairFix(c, ks[j], ks[j + 1], level, i > 0);
            var es := EntriesOf(FixedKids(c, ks, i, level));
            if Lends(c, ks[j], ks[j + 1], level, i > 0)
            then |run| == 2 && run[1].pid == ks[j + 1].pid
                && es == EntriesOf(ks)[j + 1 := InternalEntry(run[1].key, ks[j + 1].pid)]
            else |run| == 1 && es == Removed(EntriesOf(ks), j + 1)
  {
    hide SameKind, Redeal, Merge, Count, Floor;
    var j := PairAt(i);
    var l, r := ks[j], ks[j + 1];
    var run := PairFix(c, l, r, level, i > 0);
    if Lends(c, l, r, level, i > 0) {
      RedealTwo(l, r, PairCut(Count(l), i > 0));
      assert run == [run[0], run[1]];
      PairEntries(ks, j, run[0], run[1]);
    } else {
      MergedEntries(ks, j, run[0]);
    }
  }

  lemma PairEntries(ks: seq<Tree>, j: nat, a: Tree, b: Tree)
    requires j + 1 < |ks| && a.key == ks[j].key && a.pid == ks[j].pid && b.pid == ks[j + 1].pid
    ensures EntriesOf(Spliced(ks, j, j + 2, [a, b])) == EntriesOf(ks)[j + 1 := InternalEntry(b.key, b.pid)]
  {
  }

  lemma MergedEntries(ks: seq<Tree>, j: nat, a: Tree)
    requires j + 1 < |ks| && a.key == ks[j].key && a.pid == ks[j].pid
    ensures EntriesOf(Spliced(ks, j, j + 2, [a])) == Removed(EntriesOf(ks), j + 1)
  {
  }

  lemma RedealTwo(l: Tree, r: Tree, cut: nat)
    ensures var run := Redeal(l, r, cut); |run| == 2 && run[0].pid == l.pid && run[1].pid == r.pid
  {
  }

  /** The page the planner fetches for the sibling of a path node. */
  lemma {:induction false} SiblingPage(c: Config, s: Store, sp: seq<Tree>, i: nat, level: nat, key: Key)
    requires RootSpineOk(c, s, sp, level, key) && i < level
    ensures var t := sp[i];
            && t.Nd? && |t.kids| >= 2 && Slot(t, key) < |t.kids| && SiblingSlot(Slot(t, key)) < |t.kids|
            && var sib := t.kids[SiblingSlot(Slot(t, key))];
            && sib.pid in s && s[sib.pid] == PageOf(sib)
            && (sib.Lf? <==> i + 1 == level) && !sib.Broken? && (sib.Nd? ==> sib.level == level - i - 1)
  {
    SpinePage(c, s, sp, i, level, key);
    var t, min := sp[i], SpineMin(c, level, i, RootFloor(level));
    var lo, hi :| Valid(c, t, level - i, lo, hi, min) && InRange(key, lo, hi);
    var j := SiblingSlot(Slot(t, key));
    RunOfNode(c, t, level - i, lo, hi, min);
    assert KidOk(c, t.kids, j, level - i - 1, lo, hi);
    NodeFacts(c, t.kids[j], level - i - 1, KidLo(t.kids, j, lo), KidHi(t.kids, j, hi), Floor(c, level - i - 1));
    assert Holds(s, t, level - i);
    assert Held(s, t.kids, level - i - 1);
    assert Holds(s, t.kids[j], level - i - 1);
  }

  /** What the planning pass reads at the node k levels above the leaf, its parent and its sibling. */
  lemma {:induction false} PlanFacts(c: Config, s: Store, header: PageId, key: Key, k: nat)
    requires IndexOk(c, s, header) && k + 1 < |Spine(TreeAt(s, header), key)|
    ensures var sp, level := Spine(TreeAt(s, header), key), s[header].height - 1;
            && |sp| == level + 1 && k < level
            && var x, parent := sp[level - k], sp[level - k - 1];
            && x.pid in s && EntryCount(s[x.pid]) == Count(x)
            && (if k == 0 then s[x.pid].LeafPage? else s[x.pid].InternalPage? && s[x.pid].level == k)
            && parent.Nd? && parent.pid in s && s[parent.pid].InternalPage?
            && s[parent.pid].entries == EntriesOf(parent.kids)
            && Slot(parent, key) < |parent.kids| && SiblingSlot(Slot(parent, key)) < |parent.kids|
            && var sib := parent.kids[SiblingSlot(Slot(parent, key))];
            && CanFetch(sib.pid) && sib.pid in s && EntryCount(s[sib.pid]) == Count(sib)
            && (if k == 0 then s[sib.pid].LeafPage? else s[sib.pid].InternalPage? && s[sib.pid].level == k)
  {
    hide Trees.Valid, Contents, Spine, Unfold, Distinct, Holds, Covers, Pids, TreeOk, SortedLeaf;
    var sp, level := Spine(TreeAt(s, header), key), s[header].height - 1;
    DescentFacts(c, s, header, key);
    SpineLength(c, s, sp, level, key);
    SpinePage(c, s, sp, level - k, level, key);
    SpinePage(c, s, sp, level - k - 1, level, key);
    SiblingPage(c, s, sp, level - k - 1, level, key);
    var parent := sp[level - k - 1];
    assert IsDataPage(PageOf(parent).entries[SiblingSlot(Slot(parent, key))].child);
  }

  function EntryCount(p: Page): nat {
    match p
    case LeafPage(_, _, es) => |es|
    case InternalPage(_, _, es) => |es|
    case _ => 0
  }

  // ---------- the cascade along the path ----------

  /** Node level - k has lost an entry, and everything below it is done. */
  ghost predicate CascadeAt(c: Config, s0: Store, s: Store, header: PageId, k: nat, key: Key, freed: seq<PageId>) {
    && DeleteCtx(c, s0, header, key)
    && var sp, level := Spine(TreeAt(s0, header), key), LevelAt(s0, header);
    && k <= level && Cascade(c, s0, s, sp, level, key, k, freed)
    && Count(Del(c, sp[level - k], key).t) == Count(sp[level - k]) - 1
  }

  /** Node level - k is legal again, so nothing above it changes. */
  ghost predicate CascadeEnd(c: Config, s0: Store, s: Store, header: PageId, k: nat, key: Key, freed: seq<PageId>) {
    && DeleteCtx(c, s0, header, key)
    && var sp, level := Spine(TreeAt(s0, header), key), LevelAt(s0, header);
    && k <= level && Cascade(c, s0, s, sp, level, key, k, freed)
    && (k < level ==> Count(Del(c, sp[level - k], key).t) >= Floor(c, k))
  }

  /** Node level - k has as many entries as before the delete. */
  ghost predicate Kept(c: Config, s0: Store, header: PageId, k: nat, key: Key) {
    && DeleteCtx(c, s0, header, key)
    && var sp, level := Spine(TreeAt(s0, header), key), LevelAt(s0, header);
    && k <= level && Count(Del(c, sp[level - k], key).t) == Count(sp[level - k])
  }

  lemma {:induction false} CascadeStart(c: Config, s0: Store, s: Store, header: PageId, key: Key)
    requires DeleteCtx(c, s0, header, key)
    requires var sp := Spine(TreeAt(s0, header), key); var leaf := sp[|sp| - 1];
             && leaf.Lf? && LowerIndex(leaf.es, key) < |leaf.es|
             && s == s0[leaf.pid := LeafPage(leaf.level, leaf.next, Removed(leaf.es, LowerIndex(leaf.es, key)))]
    ensures CascadeAt(c, s0, s, header, 0, key, [])
  {
    hide Valid, Contents, Spine, Unfold, Distinct;
    var sp, level := Spine(TreeAt(s0, header), key), LevelAt(s0, header);
    SpinePage(c, s0, sp, level, level, key);
  }

  /** What the code finds on the pages when it applies step k. */
  lemma {:induction false} StepFacts(c: Config, s0: Store, s: Store, header: PageId, k: nat, key: Key,
                                     freed: seq<PageId>, step: DeleteStep)
    requires CascadeAt(c, s0, s, header, k, key, freed) && k < LevelAt(s0, header)
    requires StepOk(c, Spine(TreeAt(s0, header), key), LevelAt(s0, header), key, k, step)
    ensures var sp, level := Spine(TreeAt(s0, header), key), LevelAt(s0, header);
            && |sp| == level + 1
            && StepPages(c, s, sp[level - k - 1], sp[level - k], Slot(sp[level - k - 1], key),
               Del(c, sp[level - k], key).t, k, step)
  {
    hide Valid, Contents, Spine, Unfold, Distinct, DistinctRun, Del, PairOk, Holds, TreeOk, Pids, PageOf,
      InternalNodeOk, LeafShapeOk, Covers, Slot, Conserved, Present, EntriesOf, Written;
    var sp, level := Spine(TreeAt(s0, header), key), LevelAt(s0, header);
    var t, x, i := sp[level - k - 1], sp[level - k], Slot(sp[level - k - 1], key);
    var d := Del(c, x, key);
    SpinePage(c, s0, sp, level - k - 1, level, key);
    SpinePage(c, s0, sp, level - k, level, key);
    SpinePair(c, s0, t, x, k + 1, key, SpineMin(c, level, level - k - 1, RootFloor(level)), Pids(sp[0]));
    SpineDel(c, s0, x, k, key, Floor(c, k), Pids(sp[0]));
    PairPages(c, s0, s, t, i, d, k + 1);
  }

  ghost predicate StepPages(c: Config, s: Store, t: Tree, x: Tree, i: nat, d: Tree, k: nat, step: DeleteStep) {
    && t.Nd? && i < |t.kids| && |t.kids| >= 2 && d.key == x.key && d.pid == x.pid && t.kids[i] == x
    && InternalNodeOk(PageOf(t)) && |t.kids| <= c.internalMax && t.level == k + 1
    && var ks, j := t.kids[i := d], PairAt(i);
    && Short(c, ks, i, k) && PairOk(c, ks[j], ks[j + 1], k)
    && Written(s, [t, ks[j], ks[j + 1]])
    && t.pid != ks[j].pid && t.pid != ks[j + 1].pid && ks[j].pid != ks[j + 1].pid
    && Count(d) == Floor(c, k) - 1 && Count(if i > 0 then ks[j] else ks[j + 1]) >= Floor(c, k)
    && (Lends(c, ks[j], ks[j + 1], k, i > 0) <==> step.fix == Redistribute)
    && step.siblingIsLeft == (i > 0) && step.sibling == (if i > 0 then ks[j] else ks[j + 1]).pid
  }

  /** The pair's page ids and the right one's slot, as the code works them out from the step. */
  lemma StepIds(c: Config, s: Store, t: Tree, x: Tree, i: nat, d: Tree, k: nat, step: DeleteStep)
    requires StepPages(c, s, t, x, i, d, k, step)
    ensures t.Nd? && i < |t.kids| && |t.kids| >= 2 && t.kids[i] == x
    ensures var ks, j := t.kids[i := d], PairAt(i);
            && ks[j].pid == (if step.siblingIsLeft then step.sibling else x.pid)
            && ks[j + 1].pid == t.kids[j + 1].pid == (if step.siblingIsLeft then x.pid else step.sibling)
            && j + 1 == if step.siblingIsLeft then i else i + 1
  {
  }

  /** Parent and pair as stored, with child i already replaced by what is left of it. */
  lemma {:induction false} PairPages(c: Config, s0: Store, s: Store, t: Tree, i: nat, d: Shrunk, level: nat)
    requires t.Nd? && Holds(s0, t, level) && Distinct(t) && i < |t.kids| && |t.kids| >= 2
    requires d.t.key == t.kids[i].key && d.t.pid == t.kids[i].pid && Conserved(t.kids[i], d.t, d.freed)
    requires Holds(s, d.t, level - 1) && SameOff(s0, s, Pids(t.kids[i]))
    ensures var ks, j := t.kids[i := d.t], PairAt(i);
            && Written(s, [t, ks[j], ks[j + 1]])
            && t.pid != ks[j].pid && t.pid != ks[j + 1].pid && ks[j].pid != ks[j + 1].pid
  {
    hide Contents, Unfold, PageOf, EntriesOf, FixedKids, Conserved, SameOff, Distinct, Pids, RunPids, DistinctRun;
    var ks, j := t.kids[i := d.t], PairAt(i);
    HeldOne(s, d.t, level - 1);
    assert Pids(t.kids[i]) + {} == Pids(t.kids[i]);
    HeldSpliced(s0, s, t, i, [d.t], level, {});
    assert Spliced(t.kids, i, i + 1, [d.t]) == ks;
    CascadePids(t, i, d, {ks[j].pid, ks[j + 1].pid, t.pid});
    PairInRun(ks, j);
    assert Holds(s, ks[j], level - 1) && Holds(s, ks[j + 1], level - 1);
  }

  /** The writes of one step: the pair's new pages, and the parent's. */
  ghost predicate StepWrites(c: Config, s: Store, s': Store, t: Tree, i: nat, d: Tree, k: nat)
    requires t.Nd? && i < |t.kids| && |t.kids| >= 2
  {
    var ks, j := t.kids[i := d], PairAt(i);
    && SameOff(s, s', {ks[j].pid, ks[j + 1].pid, t.pid}) && s'.Keys == s.Keys
    && Written(s', PairFix(c, ks[j], ks[j + 1], k, i > 0))
    && t.pid in s' && s'[t.pid] == InternalPage(t.level, t.next, EntriesOf(FixedKids(c, ks, i, k)))
  }

  lemma {:induction false} CascadeStep(c: Config, s0: Store, s: Store, s': Store, header: PageId, k: nat, key: Key,
                                       freed: seq<PageId>, step: DeleteStep)
    requires CascadeAt(c, s0, s, header, k, key, freed) && k < LevelAt(s0, header)
    requires StepOk(c, Spine(TreeAt(s0, header), key), LevelAt(s0, header), key, k, step)
    requires var sp, i := Spine(TreeAt(s0, header), key), LevelAt(s0, header) - k - 1;
             var t, d := sp[i], Del(c, sp[i + 1], key).t;
             && t.Nd? && Slot(t, key) < |t.kids| && |t.kids| >= 2
             && StepWrites(c, s, s', t, Slot(t, key), d, k)
    ensures step.fix == Redistribute ==>
              CascadeEnd(c, s0, s', header, k + 1, key, freed)
              && Kept(c, s0, header, k + 1, key)
    ensures step.fix == MergeNodes ==>
              var t := Spine(TreeAt(s0, header), key)[LevelAt(s0, header) - k - 1];
              CascadeAt(c, s0, s', header, k + 1, key, freed + [t.kids[PairAt(Slot(t, key)) + 1].pid])
  {
    hide Valid, Contents, Spine, Unfold, Distinct, DistinctRun, Del, PairOk, Holds, TreeOk, Pids, PageOf,
      InternalNodeOk, LeafShapeOk, Covers, Slot, Conserved, Present, Written, PairFix, FixedKids;
    var sp, level := Spine(TreeAt(s0, header), key), LevelAt(s0, header);
    var t, x, i := sp[level - k - 1], sp[level - k], Slot(sp[level - k - 1], key);
    var d := Del(c, x, key);
    StepFacts(c, s0, s, header, k, key, freed, step);
    SpinePage(c, s0, sp, level - k - 1, level, key);
    SpinePage(c, s0, sp, level - k, level, key);
    SpineDel(c, s0, x, k, key, Floor(c, k), Pids(sp[0]));
    PairOkKind(c, t.kids[i := d.t][PairAt(i)], t.kids[i := d.t][PairAt(i) + 1], k);
    ParentEntries(c, t.kids[i := d.t], i, k);
    NodeDelPage(c, t, i, d);
    CascadeUp(c, s0, s, s', t, i, d, k + 1);
    DelUnfold(c, t, x, key);
  }

  lemma PairOkKind(c: Config, l: Tree, r: Tree, level: nat)
    requires PairOk(c, l, r, level)
    ensures SameKind(l, r)
  {
  }

  lemma NodeDelPage(c: Config, t: Tree, i: nat, d: Shrunk)
    requires t.Nd? && i < |t.kids| && t.level > 0
    ensures var ks := t.kids[i := d.t]; var n := NodeDel(c, t, i, d);
            && PageOf(n.t) == InternalPage(t.level, t.next, EntriesOf(FixedKids(c, ks, i, t.level - 1)))
            && Count(n.t) == |FixedKids(c, ks, i, t.level - 1)|
            && n.freed == d.freed + FreedBy(c, ks, i, t.level - 1)
  {
  }

  // ---------- the end of the cascade ----------

  ghost function DelSpine(c: Config, sp: seq<Tree>, key: Key): (xs: seq<Tree>)
    ensures |xs| == |sp|
    ensures forall j | 0 <= j < |sp| :: xs[j] == Del(c, sp[j], key).t
  {
    seq(|sp|, j requires 0 <= j < |sp| => Del(c, sp[j], key).t)
  }

  /** A node that is not short leaves its parent as it was, but for the one child. */
  lemma {:induction false} DelStays(c: Config, s: Store, sp: seq<Tree>, j: nat, level: nat, key: Key)
    requires RootSpineOk(c, s, sp, level, key) && j < level
    requires Count(Del(c, sp[j + 1], key).t) >= Floor(c, level - j - 1)
    ensures Replaces(sp, DelSpine(c, sp, key), j, key)
    ensures Del(c, sp[j], key).freed == Del(c, sp[j + 1], key).freed
    ensures Count(Del(c, sp[j], key).t) == Count(sp[j])
    ensures j > 0 ==> Count(sp[j]) >= Floor(c, level - j)
  {
    hide Valid, Contents, Spine, Unfold, Distinct, Del, Holds, Pids, Covers, Slot;
    SpinePage(c, s, sp, j, level, key);
    SpinePage(c, s, sp, j + 1, level, key);
    DelUnfold(c, sp[j], sp[j + 1], key);
  }

  lemma {:induction false} DelStaysAll(c: Config, s: Store, sp: seq<Tree>, i: nat, level: nat, key: Key)
    requires RootSpineOk(c, s, sp, level, key) && i <= level
    requires i > 0 ==> Count(Del(c, sp[i], key).t) >= Floor(c, level - i)
    ensures forall j | 0 <= j < i :: Replaces(sp, DelSpine(c, sp, key), j, key)
    ensures Del(c, sp[0], key).freed == Del(c, sp[i], key).freed
    ensures i > 0 ==> Count(Del(c, sp[0], key).t) == Count(sp[0])
    decreases i
  {
    hide Valid, Contents, Spine, Unfold, Distinct, Del, Holds, Pids, Covers, Slot, SpineOk;
    if i > 0 {
      DelStays(c, s, sp, i - 1, level, key);
      DelStaysAll(c, s, sp, i - 1, level, key);
    }
  }

  lemma {:induction false} DeleteLift(c: Config, s0: Store, s: Store, header: PageId, k: nat, key: Key,
                                      freed: seq<PageId>)
    requires CascadeEnd(c, s0, s, header, k, key, freed)
    ensures var d := Del(c, TreeAt(s0, header), key);
            && Holds(s, d.t, LevelAt(s0, header)) && d.freed == freed
            && (k < LevelAt(s0, header) ==> Count(d.t) == Count(TreeAt(s0, header)))
    ensures SameOff(s0, s, Pids(TreeAt(s0, header))) && s.Keys == s0.Keys
  {
    hide Valid, Contents, Spine, Unfold, Distinct, Del, Holds, Pids, Covers, Slot;
    var sp, level := Spine(TreeAt(s0, header), key), LevelAt(s0, header);
    var i := level - k;
    DelStaysAll(c, s0, sp, i, level, key);
    SpinePage(c, s0, sp, i, level, key);
    SameOffMore(s0, s, Pids(sp[i]), Pids(sp[i]) + {});
    Lift(c, s0, s, sp, DelSpine(c, sp, key), i, level, key, {});
    SameOffMore(s0, s, Pids(sp[i]), Pids(sp[0]));
  }

  // ---------- the whole delete ----------

  /** What the apply phase leaves behind, `freed` being the pages it unlinked. */
  ghost predicate DeleteResult(c: Config, s0: Store, s: Store, header: PageId, key: Key, freed: seq<PageId>)
    requires header in s0 && s0[header].HeaderPage? && s0[header].height >= 1
  {
    && IndexOk(c, s, header)
    && LessKey(Contents(TreeAt(s0, header)), Contents(TreeAt(s, header)), key)
    && Conserved(TreeAt(s0, header), TreeAt(s, header), freed)
    && SameOff(s0, s, Pids(TreeAt(s0, header)) + {header}) && s.Keys == s0.Keys
  }

  lemma {:induction false} DeleteDone(c: Config, s0: Store, s: Store, header: PageId, key: Key)
    requires DeleteCtx(c, s0, header, key)
    requires var d, level := Del(c, TreeAt(s0, header), key), LevelAt(s0, header);
             && Holds(s, d.t, level) && SameOff(s0, s, Pids(TreeAt(s0, header)) + {header}) && s.Keys == s0.Keys
             && header in s
             && s[header] == HeaderPage(Collapsed(d).t.pid, ShrunkLevel(d, level) + 1, c.leafMax, c.internalMax)
    ensures DeleteResult(c, s0, s, header, key, Collapsed(Del(c, TreeAt(s0, header), key)).freed)
  {
    hide Valid, Contents, Spine, Unfold, Distinct, Del, Pids, Covers, Slot, LessKey, Conserved, Present;
    var t, level := TreeAt(s0, header), LevelAt(s0, header);
    var d := Del(c, t, key);
    DeleteTheorem(c, t, level, header, key);
    assert Holds(s, Collapsed(d).t, ShrunkLevel(d, level));
    HoldsUnfold(s, Collapsed(d).t, ShrunkLevel(d, level));
  }

  /** The sizes and page contents the code relies on when it fixes a pair. */
  lemma {:induction false} FixedPages(c: Config, s: Store, t: Tree, i: nat, d: Tree, k: nat, step: DeleteStep)
    requires t.Nd? && i < |t.kids| && |t.kids| >= 2 && StepPages(c, s, t, t.kids[i], i, d, k, step)
    ensures var ks, j := t.kids[i := d], PairAt(i);
            var l, r := ks[j], ks[j + 1];
            var run, es := PairFix(c, l, r, k, i > 0), EntriesOf(FixedKids(c, ks, i, k));
            && t.pid in s && l.pid in s && r.pid in s && s[t.pid] == InternalPage(t.level, t.next, EntriesOf(t.kids))
            && EntriesOf(t.kids)[j + 1] == InternalEntry(r.key, r.pid)
            && (if step.fix == Redistribute
                then |run| == 2 && es == EntriesOf(t.kids)[j + 1 := InternalEntry(run[1].key, r.pid)]
                else |run| == 1 && es == Removed(EntriesOf(t.kids), j + 1))
            && run[0].pid == l.pid && (|run| == 2 ==> run[1].pid == r.pid)
            && t.pid != l.pid && t.pid != r.pid && l.pid != r.pid && |t.kids| <= NODE_CAPACITY
            && (Lends(c, l, r, k, i > 0) <==> step.fix == Redistribute) && step.siblingIsLeft == (i > 0)
            && if k == 0 then LeafFix(c, s, l, r, i > 0, run) else NodeFix(c, s, l, r, k, i > 0, run)
  {
    hide Contents, PairFix, FixedKids, SameKind, Pids, Distinct, RunPids, DistinctRun, Canonical, Joined;
    var ks, j := t.kids[i := d], PairAt(i);
    var l, r := ks[j], ks[j + 1];
    assert EntriesOf(ks) == EntriesOf(t.kids);
    assert [t, l, r][0] == t && [t, l, r][1] == l && [t, l, r][2] == r;
    PairOkKind(c, l, r, k);
    ParentEntries(c, ks, i, k);
    FixedPair(c, s, t, i, d, k, step);
    hide LeafFix, NodeFix, PairOk, Lends;
  }

  /** The part of FixedPages about the two siblings' own pages. */
  lemma {:induction false} FixedPair(c: Config, s: Store, t: Tree, i: nat, d: Tree, k: nat, step: DeleteStep)
    requires t.Nd? && i < |t.kids| && |t.kids| >= 2 && StepPages(c, s, t, t.kids[i], i, d, k, step)
    ensures var ks, j := t.kids[i := d], PairAt(i);
            var run := PairFix(c, ks[j], ks[j + 1], k, i > 0);
            if k == 0 then LeafFix(c, s, ks[j], ks[j + 1], i > 0, run)
            else NodeFix(c, s, ks[j], ks[j + 1], k, i > 0, run)
  {
    hide Contents, PairFix, SameKind, Canonical, Joined;
    var l, r := t.kids[i := d][PairAt(i)], t.kids[i := d][PairAt(i) + 1];
    assert [t, l, r][1] == l && [t, l, r][2] == r;
    PairOkKind(c, l, r, k);
    if k == 0 {
      KindLeaf(l, r);
      LeafPairPages(c, l, r, i > 0);
    } else {
      KindNode(l, r);
      assert l.kids[0].key == EntriesOf(l.kids)[0].key == INT64_MIN;
      NodePairPages(c, l, r, k, i > 0);
    }
  }

  /** The two or three page writes of a step. */
  lemma {:induction false} StepWritten(c: Config, s: Store, s': Store, t: Tree, i: nat, d: Tree, k: nat,
                                       step: DeleteStep)
    requires t.Nd? && i < |t.kids| && |t.kids| >= 2 && StepPages(c, s, t, t.kids[i], i, d, k, step)
    requires var ks, j := t.kids[i := d], PairAt(i);
             var run := PairFix(c, ks[j], ks[j + 1], k, i > 0);
             var parent := InternalPage(t.level, t.next, EntriesOf(FixedKids(c, ks, i, k)));
             if step.fix == Redistribute
             then |run| == 2 && s' == s[ks[j].pid := PageOf(run[0])][ks[j + 1].pid := PageOf(run[1])][t.pid := parent]
             else |run| == 1 && s' == s[ks[j].pid := PageOf(run[0])][t.pid := parent]
    ensures StepWrites(c, s, s', t, i, d, k)
  {
    hide Contents, PairFix, FixedKids, SameKind, Short, PairOk, StepPages, EntriesOf, PageOf, Lends, LeafFix, NodeFix;
    FixedPages(c, s, t, i, d, k, step);
  }

  lemma KindLeaf(l: Tree, r: Tree)
    requires SameKind(l, r) && l.Lf?
    ensures r.Lf?
  {
  }
  lemma KindNode(l: Tree, r: Tree)
    requires SameKind(l, r) && !l.Lf?
    ensures l.Nd? && r.Nd? && l.kids != [] && r.kids != []
  {
  }

  ghost predicate LeafFix(c: Config, s: Store, l: Tree, r: Tree, fromLeft: bool, run: seq<Tree>) {
    && l.Lf? && r.Lf? && l.pid in s && r.pid in s
    && s[l.pid] == LeafPage(l.level, l.next, l.es) && s[r.pid] == LeafPage(r.level, r.next, r.es)
    && |l.es| <= NODE_CAPACITY && |r.es| <= NODE_CAPACITY
    && var all, cut := l.es + r.es, PairCut(|l.es|, fromLeft);
    if Lends(c, l, r, 0, fromLeft) then
      && (if fromLeft then |l.es| >= 2 && |r.es| < NODE_CAPACITY else |r.es| >= 2 && |l.es| < NODE_CAPACITY)
      && cut < |all| && |run| == 2 && run[1].key == all[cut].key
      && PageOf(run[0]) == LeafPage(l.level, l.next, all[..cut])
      && PageOf(run[1]) == LeafPage(r.level, r.next, all[cut..])
    else |all| <= NODE_CAPACITY && |run| == 1 && PageOf(run[0]) == LeafPage(l.level, r.next, all)
  }

  ghost predicate NodeFix(c: Config, s: Store, l: Tree, r: Tree, level: nat, fromLeft: bool, run: seq<Tree>) {
    && l.Nd? && r.Nd? && l.kids != [] && r.kids != [] && l.level == r.level && l.pid in s && r.pid in s
    && s[l.pid] == InternalPage(l.level, l.next, EntriesOf(l.kids))
    && s[r.pid] == InternalPage(r.level, r.next, EntriesOf(r.kids))
    && |l.kids| <= NODE_CAPACITY && |r.kids| <= NODE_CAPACITY
    && var all, cut := Joined(EntriesOf(l.kids), r.key, EntriesOf(r.kids)), PairCut(|l.kids|, fromLeft);
    if Lends(c, l, r, level, fromLeft) then
      && (if fromLeft then |l.kids| >= 2 && |r.kids| < NODE_CAPACITY else |r.kids| >= 2 && |l.kids| < NODE_CAPACITY)
      && 0 < cut < |all| && |run| == 2 && run[1].key == all[cut].key
      && PageOf(run[0]) == InternalPage(l.level, l.next, Canonical(all[..cut]))
      && PageOf(run[1]) == InternalPage(r.level, r.next, Canonical(all[cut..]))
    else |all| <= NODE_CAPACITY && |run| == 1 && PageOf(run[0]) == InternalPage(l.level, l.next, Canonical(all))
  }

  // ---------- around the cascade ----------

  /** When the steps run out the store holds the shrunk tree, and the root collapses exactly when the
      plan says so. */
  lemma {:induction false} CascadeResult(c: Config, s0: Store, s: Store, header: PageId, key: Key, plan: DeletePlan,
                                         ended: bool, freed: seq<PageId>)
    requires DeleteCtx(c, s0, header, key)
    requires PlanOk(c, Spine(TreeAt(s0, header), key), LevelAt(s0, header), key, plan)
    requires var k := |plan.steps|;
             if ended then
               && k > 0 && plan.steps[k - 1].fix == Redistribute
               && CascadeEnd(c, s0, s, header, k, key, freed) && Kept(c, s0, header, k, key)
             else CascadeAt(c, s0, s, header, k, key, freed) && AllMerge(plan.steps)
    ensures var d := Del(c, TreeAt(s0, header), key);
            && Holds(s, d.t, LevelAt(s0, header)) && d.freed == freed
            && (plan.collapseRoot <==> Collapses(d.t)) && SameOff(s0, s, Pids(TreeAt(s0, header))) && s.Keys == s0.Keys
    ensures header in s && s[header] == s0[header]
  {
    hide Valid, Contents, Spine, Unfold, Distinct, Del, Holds, Pids, Covers, Slot, StepOk;
    var sp, level, k := Spine(TreeAt(s0, header), key), LevelAt(s0, header), |plan.steps|;
    assert CascadeEnd(c, s0, s, header, k, key, freed);
    DeleteLift(c, s0, s, header, k, key, freed);
    SpinePage(c, s0, sp, 0, level, key);
    SpineDel(c, s0, sp[0], level, key, RootFloor(level), Pids(sp[0]));
    assert Same(s0, s, header);
  }

  /** A root that Collapses has a page with a single entry. */
  lemma {:induction false} CollapsingRoot(c: Config, s0: Store, s: Store, header: PageId, key: Key)
    requires DeleteCtx(c, s0, header, key)
    requires var d := Del(c, TreeAt(s0, header), key); Holds(s, d.t, LevelAt(s0, header)) && Collapses(d.t)
    ensures var d, root := Del(c, TreeAt(s0, header), key), s0[header].root;
            && root in s && s[root].InternalPage? && |s[root].entries| == 1 && d.t.pid == root
            && s[root].entries[0].child == d.t.kids[0].pid && s0[header].height >= 2 && root != header
  {
    hide Valid, Contents, Spine, Unfold, Distinct, Del, Covers, Slot;
    assert s0[header].root in Pids(TreeAt(s0, header));
  }

  lemma {:induction false} ApplyDone(c: Config, s0: Store, s: Store, s': Store, header: PageId, key: Key)
    requires DeleteCtx(c, s0, header, key)
    requires var d := Del(c, TreeAt(s0, header), key);
             && Holds(s, d.t, LevelAt(s0, header)) && SameOff(s0, s, Pids(TreeAt(s0, header))) && s.Keys == s0.Keys
             && header in s && s[header] == s0[header]
             && (Collapses(d.t) ==> s0[header].height >= 2)
             && var h := s[header];
             && s' == if Collapses(d.t) then s[header := h.(root := d.t.kids[0].pid, height := h.height - 1)] else s
    ensures DeleteResult(c, s0, s', header, key, Collapsed(Del(c, TreeAt(s0, header), key)).freed)
  {
    hide Valid, Contents, Spine, Unfold, Distinct, DistinctRun, Covers, Slot, PageOf, EntriesOf;
    var t, level := TreeAt(s0, header), LevelAt(s0, header);
    var d := Del(c, t, key);
    SpinePage(c, s0, Spine(t, key), 0, level, key);
    SpineDel(c, s0, t, level, key, RootFloor(level), Pids(t));
    assert header !in Pids(d.t);
    HoldsOff(s, s', d.t, level, {header});
    SameOffTrans(s0, s, s', Pids(t), {header}, Pids(t) + {header});
    DeleteDone(c, s0, s', header, key);
  }

  // ---------- freeing ----------

  /** s' is s without some of the freed pages. */
  ghost predicate SomeFreed(s: Store, s': Store, freed: seq<PageId>) {
    && s'.Keys <= s.Keys && s.Keys - s'.Keys <= PageSet(freed)
    && forall p | p in s' :: s'[p] == s[p]
  }

  lemma {:induction false} FreedKeeps(c: Config, s0: Store, s: Store, s': Store, header: PageId, key: Key,
                                      freed: seq<PageId>)
    requires IndexOk(c, s0, header) && DeleteResult(c, s0, s, header, key, freed) && SomeFreed(s, s', freed)
    ensures IndexOk(c, s', header) && TreeAt(s', header) == TreeAt(s, header)
    ensures Pids(TreeAt(s', header)) <= Pids(TreeAt(s0, header)) && s'.Keys <= s0.Keys
    ensures s0.Keys - s'.Keys <= Pids(TreeAt(s0, header)) - Pids(TreeAt(s', header))
    ensures s' == s - PageSet(freed) ==> s0.Keys - s'.Keys == Pids(TreeAt(s0, header)) - Pids(TreeAt(s', header))
    ensures forall p | p in s0 && p !in Pids(TreeAt(s0, header)) && p != header :: p in s' && s'[p] == s0[p]
  {
    hide Valid, Contents, Unfold, Distinct;
    var t := TreeAt(s, header);
    forall p | p in Pids(t) + {header} ensures p !in PageSet(freed) {
    }
    UnfoldFrame(s, s', INT64_MIN, s[header].root, LevelAt(s, header)) by {
      UnfoldHolds(c, s, INT64_MIN, s[header].root, LevelAt(s, header), INT64_MIN, None, RootFloor(LevelAt(s, header)));
      HoldsKeys(s, t, LevelAt(s, header));
    }
    forall p | p in s0 && p !in Pids(TreeAt(s0, header)) && p != header ensures p in s' && s'[p] == s0[p] {
      assert Same(s0, s, p);
    }
    TreeKeys(c, s0, header);
  }

  /** Every page a legal index reaches is in the store. */
  lemma TreeKeys(c: Config, s: Store, header: PageId)
    requires IndexOk(c, s, header)
    ensures Pids(TreeAt(s, header)) <= s.Keys
  {
    var level := LevelAt(s, header);
    UnfoldHolds(c, s, INT64_MIN, s[header].root, level, INT64_MIN, None, RootFloor(level));
    HoldsKeys(s, TreeAt(s, header), level);
  }
}
