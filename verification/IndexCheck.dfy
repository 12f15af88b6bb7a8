/**
 * The whole-tree check, on an arbitrary page store: it accepts exactly the stores in which the declared
 * invariant holds, cyclic child pointers and broken chains included.  A page that cannot be fetched is
 * a page the store does not have.
 */
module IndexCheck {
  import opened Common
  import opened Nodes
  import opened Trees
  import opened TreeRuns
  import opened TreeInsert
  import opened TreeIndex
  import opened BPlusTrees
  import opened IndexScan

  /** What the check decides: header, fanout, the tree invariant, and that every row address is valid. */
  ghost predicate Accepted(c: Config, s: Store, header: PageId) {
    Readable(c, s, header) && RidsValid(Contents(TreeAt(s, header)))
  }

  // ---------- the chain as the check sees it ----------

  /** Pairwise form of Chained: each leaf names its successor in the list. */
  ghost predicate LinksMatch(ls: seq<Tree>, after: PageId) {
    forall i | 0 <= i < |ls| :: LinkMatches(ls, i, after)
  }

  ghost predicate LinkMatches(ls: seq<Tree>, i: nat, after: PageId)
    requires i < |ls|
  {
    ls[i].Lf? && ls[i].next == if i + 1 < |ls| then ls[i + 1].pid else after
  }

  lemma LinksConcat(a: seq<Tree>, b: seq<Tree>, after: PageId)
    requires b != []
    ensures LinksMatch(a + b, after) <==> LinksMatch(a, b[0].pid) && LinksMatch(b, after)
  {
    forall i | 0 <= i < |a| ensures LinkMatches(a + b, i, after) <==> LinkMatches(a, i, b[0].pid) {
    }
    forall i | 0 <= i < |b| ensures LinkMatches(a + b, |a| + i, after) <==> LinkMatches(b, i, after) {
    }
    if LinksMatch(a, b[0].pid) && LinksMatch(b, after) {
      forall i | 0 <= i < |a + b| ensures LinkMatches(a + b, i, after) {
        if i >= |a| { assert LinkMatches(b, i - |a|, after); }
      }
    }
  }

  /** Matching the walk is the same as being chained, level by level. */
  lemma {:induction false} ChainedIffLinks(c: Config, t: Tree, level: nat, lo: Key, hi: Option<Key>, min: nat,
                                           after: PageId)
    requires Valid(c, t, level, lo, hi, min) && (level > 0 ==> min > 0)
    ensures Chained(t, after) <==> LinksMatch(LeafList(t), after)
    ensures LeafList(t) != [] && LeafList(t)[0].pid == First(t)
    decreases level, 0
  {
    if t.Lf? {
      assert LinkMatches([t], 0, after) <==> t.next == after;
    } else {
      assert LeafList(t) == LeavesOf(t.kids) && ValidRun(c, t.kids, level - 1, lo, hi);
      RunChainedIffLinks(c, t.kids, level - 1, lo, hi, after);
    }
  }

  lemma {:induction false} RunChainedIffLinks(c: Config, ks: seq<Tree>, level: nat, lo: Key, hi: Option<Key>,
                                              after: PageId)
    requires ValidRun(c, ks, level, lo, hi) && ks != []
    ensures ChainedRun(ks, after) <==> LinksMatch(LeavesOf(ks), after)
    ensures LeavesOf(ks) != [] && LeavesOf(ks)[0].pid == First(ks[0])
    decreases level, 1, |ks|
  {
    assert KidOk(c, ks, 0, level, lo, hi);
    ChainedIffLinks(c, ks[0], level, lo, KidHi(ks, 0, hi), Floor(c, level), FirstOf(ks[1..], after));
    if |ks| > 1 {
      CutRun(c, ks, 1, level, lo, hi);
      RunChainedIffLinks(c, ks[1..], level, ks[1].key, hi, after);
      LinksConcat(LeafList(ks[0]), LeavesOf(ks[1..]), after);
    } else {
      assert LeavesOf(ks) == LeafList(ks[0]);
    }
  }

  // ---------- one page ----------

  /** What the walk asks of a leaf page where it stands. */
  ghost predicate LeafFits(c: Config, p: Page, lo: Key, hi: Option<Key>, min: nat) {
    && p.LeafPage? && LeafNodeOk(p) && min <= |p.leafEntries| <= c.leafMax
    && forall i | 0 <= i < |p.leafEntries| :: InRange(p.leafEntries[i].key, lo, hi)
  }

  /** What the walk asks of an internal page before it looks at the children. */
  ghost predicate NodeFits(c: Config, p: Page, level: nat, lo: Key, hi: Option<Key>, min: nat) {
    && p.InternalPage? && InternalNodeOk(p) && p.level == level && min <= |p.entries| <= c.internalMax
    && forall i | 1 <= i < |p.entries| :: InRange(p.entries[i].key, lo, hi)
  }

  method CheckLeaf(c: Config, p: Page, lo: Key, hi: Option<Key>, isRoot: bool) returns (ok: bool)
    ensures ok <==> LeafFits(c, p, lo, hi, NodeMin(c, 0, isRoot))
  {
    if !p.LeafPage? { return false; }
    ok := CheckLeafNode(p);
    if !ok { return; }
    var es := p.leafEntries;
    if |es| < NodeMin(c, 0, isRoot) || |es| > c.leafMax { return false; }
    for i := 0 to |es|
      invariant forall k | 0 <= k < i :: InRange(es[k].key, lo, hi)
    {
      if es[i].key < lo || (hi.Some? && es[i].key >= hi.value) { return false; }
    }
  }

  method CheckInternal(c: Config, p: Page, level: nat, lo: Key, hi: Option<Key>, isRoot: bool) returns (ok: bool)
    requires level > 0
    ensures ok <==> NodeFits(c, p, level, lo, hi, NodeMin(c, level, isRoot))
  {
    if !p.InternalPage? { return false; }
    ok := CheckInternalNode(p);
    if !ok { return; }
    var es := p.entries;
    if p.level != level { return false; }
    if |es| < NodeMin(c, level, isRoot) || |es| > c.internalMax { return false; }
    var i := 1;
    while i < |es|
      invariant 1 <= i && forall k | 1 <= k < i && k < |es| :: InRange(es[k].key, lo, hi)
    {
      if es[i].key < lo || (hi.Some? && es[i].key >= hi.value) { return false; }
      i := i + 1;
    }
  }

  // ---------- the walk ----------

  /** The subtree is legal for its place and reaches no page already seen. */
  ghost predicate SubtreeOk(c: Config, t: Tree, level: nat, lo: Key, hi: Option<Key>, min: nat, seen: set<PageId>) {
    && CanFetch(t.pid) && Valid(c, t, level, lo, hi, min) && RidsValid(Contents(t))
    && Distinct(t) && Pids(t) !! seen
  }

  function NodeMin(c: Config, level: nat, isRoot: bool): nat {
    if isRoot then RootFloor(level) else Floor(c, level)
  }

  ghost function Links(ls: seq<Tree>): (r: seq<(PageId, PageId)>)
    ensures |r| == |ls|
  {
    seq(|ls|, i requires 0 <= i < |ls| => (ls[i].pid, if ls[i].Lf? then ls[i].next else INVALID_PAGE))
  }

  /** The first n children are legal for their places, and reach pages apart from each other and from `seen`. */
  ghost predicate KidsOk(c: Config, ks: seq<Tree>, n: nat, level: nat, lo: Key, hi: Option<Key>, seen: set<PageId>)
    requires n <= |ks|
  {
    && (forall i | 0 <= i < n :: KidOk(c, ks, i, level, lo, hi))
    && RidsValid(Flat(ks[..n])) && DistinctRun(ks[..n]) && RunPids(ks[..n]) !! seen
  }

  lemma {:induction false} LeafDecided(c: Config, s: Store, key: Key, pid: PageId, lo: Key, hi: Option<Key>, min: nat,
                                       seen: set<PageId>)
    requires CanFetch(pid) && pid in s && pid !in seen
    ensures var t := Unfold(s, key, pid, 0);
            && (SubtreeOk(c, t, 0, lo, hi, min, seen) <==> LeafFits(c, s[pid], lo, hi, min))
            && (LeafFits(c, s[pid], lo, hi, min) ==>
                Pids(t) == {pid} && LeafList(t) == [t] && t.Lf?
                && t.next == s[pid].next)
  {
    var t := Unfold(s, key, pid, 0);
    if t.Lf? { assert PageOf(t) == s[pid]; }
  }

  /** A page the walk rejects by itself is no legal node. */
  lemma {:induction false} NodeRejected(c: Config, s: Store, key: Key, pid: PageId, level: nat, lo: Key,
                                        hi: Option<Key>, min: nat)
    requires level > 0 && pid in s && Valid(c, Unfold(s, key, pid, level), level, lo, hi, min)
    ensures NodeFits(c, s[pid], level, lo, hi, min)
  {
    var t := Unfold(s, key, pid, level);
    UnfoldPage(s, key, pid, level);
    assert ValidRun(c, t.kids, level - 1, lo, hi);
    assert forall i | 0 <= i < |t.kids| :: s[pid].entries[i].key == t.kids[i].key;
  }

  lemma {:induction false} NodeUnfolds(c: Config, s: Store, key: Key, pid: PageId, level: nat, lo: Key, hi: Option<Key>,
                                       min: nat)
    requires level > 0 && pid in s && NodeFits(c, s[pid], level, lo, hi, min)
    ensures var t, es := Unfold(s, key, pid, level), s[pid].entries;
            && t.Nd? && t.level == level && |t.kids| == |es| && PageOf(t) == s[pid]
            && forall i | 0 <= i < |es| :: t.kids[i] == Unfold(s, es[i].key, es[i].child, level - 1)
  {
    UnfoldPage(s, key, pid, level);
  }

  /** One more child. */
  lemma {:induction false} NextKid(c: Config, ks: seq<Tree>, n: nat, level: nat, lo: Key, hi: Option<Key>,
                                   seen: set<PageId>)
    requires n < |ks| && KidsOk(c, ks, n, level, lo, hi, seen) && IsDataPage(ks[n].pid)
    requires SubtreeOk(c, ks[n], level, KidLo(ks, n, lo), KidHi(ks, n, hi), Floor(c, level), seen + RunPids(ks[..n]))
    ensures KidsOk(c, ks, n + 1, level, lo, hi, seen)
    ensures RunPids(ks[..n + 1]) == RunPids(ks[..n]) + Pids(ks[n])
    ensures Links(LeavesOf(ks[..n + 1])) == Links(LeavesOf(ks[..n])) + Links(LeafList(ks[n]))
  {
    hide Valid, Distinct, Pids, LeafList;
    assert ks[..n + 1] == ks[..n] + [ks[n]];
    PidsOfRun([ks[n]]);
    RunPidsConcat(ks[..n], [ks[n]]);
    DistinctConcat(ks[..n], [ks[n]]);
    LeavesConcat(ks[..n], [ks[n]]);
    assert LeavesOf([ks[n]]) == LeafList(ks[n]) + LeavesOf([]);
    FlatConcat(ks[..n], [ks[n]]);
    assert Flat([ks[n]]) == Contents(ks[n]) + Flat([]);
    RidsValidConcat(Flat(ks[..n]), Contents(ks[n]));
  }

  /** A legal node has legal children, each reaching pages apart from all before it. */
  lemma {:induction false} KidOfLegal(c: Config, t: Tree, n: nat, level: nat, lo: Key, hi: Option<Key>, min: nat,
                                      seen: set<PageId>)
    requires t.Nd? && SubtreeOk(c, t, level, lo, hi, min, seen) && n < |t.kids|
    ensures SubtreeOk(c, t.kids[n], level - 1, KidLo(t.kids, n, lo), KidHi(t.kids, n, hi), Floor(c, level - 1),
            seen + {t.pid} + RunPids(t.kids[..n]))
  {
    var ks := t.kids;
    assert ValidRun(c, ks, level - 1, lo, hi) && DistinctRun(ks);
    assert KidOk(c, ks, n, level - 1, lo, hi) && Pids(ks[n]) <= RunPids(ks);
    forall p | p in RunPids(ks[..n]) ensures p !in Pids(ks[n]) {
      var i: nat :| i < n && p in Pids(ks[..n][i]);
      assert Pids(ks[i]) !! Pids(ks[n]);
    }
    FlatAt(ks, n);
    RidsValidConcat(Flat(ks[..n]) + Contents(ks[n]), Flat(ks[n + 1..]));
    RidsValidConcat(Flat(ks[..n]), Contents(ks[n]));
  }

  lemma KidsMakeRun(c: Config, ks: seq<Tree>, level: nat, lo: Key, hi: Option<Key>)
    requires SeparatorsOk(ks, lo, hi) && forall i | 0 <= i < |ks| :: KidOk(c, ks, i, level, lo, hi)
    ensures ValidRun(c, ks, level, lo, hi)
  {
  }

  /** All children accepted: so is the node. */
  lemma {:induction false} NodeAccepted(c: Config, t: Tree, level: nat, lo: Key, hi: Option<Key>, min: nat,
                                        seen: set<PageId>)
    requires t.Nd? && level > 0 && t.level == level && NodeFits(c, PageOf(t), level, lo, hi, min)
    requires CanFetch(t.pid) && t.pid !in seen
    requires KidsOk(c, t.kids, |t.kids|, level - 1, lo, hi, seen + {t.pid})
    ensures SubtreeOk(c, t, level, lo, hi, min, seen)
  {
    assert t.kids[..|t.kids|] == t.kids;
    assert forall i | 0 <= i < |t.kids| :: PageOf(t).entries[i].key == t.kids[i].key;
    var es := PageOf(t).entries;
    forall i, j | 1 <= i < j < |t.kids| ensures t.kids[i].key < t.kids[j].key {
      assert es[i].key < es[j].key;
    }
    assert SeparatorsOk(t.kids, lo, hi);
    KidsMakeRun(c, t.kids, level - 1, lo, hi);
  }

  /** Check the subtree at pid, children left to right, collecting the leaves and the pages seen.  The
      level falls at every call, so the walk ends on a cyclic store as well. */
  method CheckSubtree(c: Config, s: Store, ghost key: Key, pid: PageId, level: nat, lo: Key, hi: Option<Key>,
                      isRoot: bool,
                      seen: set<PageId>, leaves: seq<(PageId, PageId)>)
    returns (ok: bool, seen': set<PageId>, leaves': seq<(PageId, PageId)>)
    ensures ok <==> SubtreeOk(c, Unfold(s, key, pid, level), level, lo, hi, NodeMin(c, level, isRoot), seen)
    ensures ok ==> var t := Unfold(s, key, pid, level);
                   seen' == seen + Pids(t) && leaves' == leaves + Links(LeafList(t))
    decreases level
  {
    hide Distinct, RunPids, LeafNodeOk, InternalNodeOk, DistinctRun, Links;
    ghost var t, min := Unfold(s, key, pid, level), NodeMin(c, level, isRoot);
    seen', leaves' := seen + {pid}, leaves;
    if pid in seen { assert pid in Pids(t); return false, seen', leaves'; }
    if !CanFetch(pid) || pid !in s { return false, seen', leaves'; }
    var page := s[pid];
    if level == 0 {
      ok := CheckLeaf(c, page, lo, hi, isRoot);
      LeafDecided(c, s, key, pid, lo, hi, min, seen);
      if ok {
        leaves' := leaves + [(pid, page.next)];
        OneLink(t);
      }
      return;
    }
    ok := CheckInternal(c, page, level, lo, hi, isRoot);
    if !ok {
      if Valid(c, t, level, lo, hi, min) { NodeRejected(c, s, key, pid, level, lo, hi, min); }
      return;
    }
    ok, seen', leaves' := CheckChildren(c, s, t, pid, page.entries, level, lo, hi, min, seen, leaves);
  }

  /** The loop over the children of a node that fits its place. */
  method CheckChildren(c: Config, s: Store, ghost t: Tree, pid: PageId, es: seq<InternalEntry>, level: nat, lo: Key,
                       hi: Option<Key>, ghost min: nat,
                       seen: set<PageId>, leaves: seq<(PageId, PageId)>)
    returns (ok: bool, seen': set<PageId>, leaves': seq<(PageId, PageId)>)
    requires level > 0 && t == Unfold(s, t.key, pid, level) && CanFetch(pid) && pid in s && pid !in seen
    requires NodeFits(c, s[pid], level, lo, hi, min) && s[pid].entries == es
    ensures ok <==> SubtreeOk(c, t, level, lo, hi, min, seen)
    ensures ok ==> seen' == seen + Pids(t) && leaves' == leaves + Links(LeafList(t))
    decreases level, 0
  {
    hide Distinct, DistinctRun, RunPids, Pids, Valid, LeafNodeOk, Links, LeafList, LeavesOf, SubtreeOk, KidsOk, Unfold;
    NodeUnfolds(c, s, t.key, pid, level, lo, hi, min);
    seen', leaves' := seen + {pid}, leaves;
    NoKids(c, t.kids, level - 1, lo, hi, seen + {pid});
    var i := 0;
    while i < |es|
      invariant 0 <= i <= |es| == |t.kids| && KidsOk(c, t.kids, i, level - 1, lo, hi, seen + {pid})
      invariant seen' == seen + {pid} + RunPids(t.kids[..i]) && leaves' == leaves + Links(LeavesOf(t.kids[..i]))
    {
      var childLo := if i == 0 then lo else es[i].key;
      var childHi := if i + 1 < |es| then Some(es[i + 1].key) else hi;
      ghost var before := seen';
      ok, seen', leaves' := CheckSubtree(c, s, es[i].key, es[i].child, level - 1, childLo, childHi, false, seen',
          leaves');
      if !ok {
        if SubtreeOk(c, t, level, lo, hi, min, seen) { KidOfLegal(c, t, i, level, lo, hi, min, seen); }
        return;
      }
      NextKid(c, t.kids, i, level - 1, lo, hi, seen + {pid});
      i := i + 1;
    }
    assert t.kids[..|es|] == t.kids;
    NodeAccepted(c, t, level, lo, hi, min, seen);
    NodeReach(t);
    ok := true;
  }

  lemma OneLink(t: Tree)
    requires t.Lf?
    ensures Links([t]) == [(t.pid, t.next)]
  {
  }

  lemma NoKids(c: Config, ks: seq<Tree>, level: nat, lo: Key, hi: Option<Key>, seen: set<PageId>)
    ensures KidsOk(c, ks, 0, level, lo, hi, seen) && RunPids(ks[..0]) == {} && Links(LeavesOf(ks[..0])) == []
  {
  }

  lemma NodeReach(t: Tree)
    requires t.Nd?
    ensures Pids(t) == {t.pid} + RunPids(t.kids) && LeafList(t) == LeavesOf(t.kids)
  {
  }

  /** Header fields first, then CheckSubtree with the header page already in `seen`, then LinksMatch over
      the pairs it collected. */
  method CheckInvariants(c: Config, s: Store, header: PageId) returns (ok: bool)
    ensures ok <==> Accepted(c, s, header)
  {
    hide Valid, Distinct, Pids, Chained, Unfold, Contents, RidsValid, LeafList, Links, LinksMatch;
    if !CanFetch(header) || header !in s || !s[header].HeaderPage? { return false; }
    var root, height := s[header].root, s[header].height;
    if height < 1 || s[header].leafMax != c.leafMax || s[header].internalMax != c.internalMax { return false; }
    ghost var t := TreeAt(s, header);
    var seen, leaves;
    ok, seen, leaves := CheckSubtree(c, s, INT64_MIN, root, height - 1, INT64_MIN, None, true, {header}, []);
    if !ok { return; }
    ChainedIffLinks(c, t, height - 1, INT64_MIN, None, RootFloor(height - 1), INVALID_PAGE);
    assert leaves == Links(LeafList(t));
    AllLeaves(t);
    ok := CheckLinks(LeafList(t), leaves);
  }

  /** The links in the order the walk met them: each names the next leaf, the last one none. */
  method CheckLinks(ghost ls: seq<Tree>, leaves: seq<(PageId, PageId)>) returns (ok: bool)
    requires leaves == Links(ls) && forall l | l in ls :: l.Lf?
    ensures ok <==> LinksMatch(ls, INVALID_PAGE)
  {
    for i := 0 to |leaves|
      invariant forall k | 0 <= k < i :: LinkMatches(ls, k, INVALID_PAGE)
    {
      var expected := if i + 1 < |leaves| then leaves[i + 1].0 else INVALID_PAGE;
      assert ls[i] in ls;
      if leaves[i].1 != expected {
        assert !LinkMatches(ls, i, INVALID_PAGE);
        return false;
      }
    }
    return true;
  }

  /** Everything in the list is a leaf. */
  lemma {:induction false} AllLeaves(t: Tree)
    ensures forall l | l in LeafList(t) :: l.Lf?
    decreases t, 0
  {
    if t.Nd? { AllLeavesOf(t.kids); }
  }

  lemma {:induction false} AllLeavesOf(ks: seq<Tree>)
    ensures forall l | l in LeavesOf(ks) :: l.Lf?
    decreases ks, 1
  {
    if ks != [] { AllLeaves(ks[0]); AllLeavesOf(ks[1..]); }
  }

  // ---------- acceptance in numbers ----------

  /** Page types, levels, order and bounds, with no word about how full a node is. */
  ghost predicate Shaped(t: Tree, level: nat, lo: Key, hi: Option<Key>)
    decreases level
  {
    match t
    case Lf(_, _, _, _, es) =>
      level == 0 && LeafShapeOk(PageOf(t)) && forall i | 0 <= i < |es| :: InRange(es[i].key, lo, hi)
    case Nd(_, _, l, _, ks) =>
      && level > 0 && l == level && InternalNodeOk(PageOf(t)) && SeparatorsOk(ks, lo, hi)
      && forall i | 0 <= i < |ks| ::
           IsDataPage(ks[i].pid) && Shaped(ks[i], level - 1, KidLo(ks, i, lo), KidHi(ks, i, hi))
    case Broken(_, _) => false
  }

  /** How full the nodes are.  Twice a leaf and one more is at least the most it may hold; twice an internal
      node is; and a root is exempt but for needing two children. */
  ghost predicate Filled(c: Config, t: Tree, isRoot: bool) {
    match t
    case Lf(_, _, _, _, es) => |es| <= c.leafMax && (isRoot || c.leafMax <= 2 * |es| + 1)
    case Nd(_, _, _, _, ks) =>
      && |ks| <= c.internalMax && (if isRoot then 2 <= |ks| else c.internalMax <= 2 * |ks|)
      && forall i | 0 <= i < |ks| :: Filled(c, ks[i], false)
    case Broken(_, _) => false
  }

  /** A legal subtree is a well-shaped one that is full enough, in these numbers. */
  lemma {:induction false} ValidByNumbers(c: Config, t: Tree, level: nat, lo: Key, hi: Option<Key>, isRoot: bool)
    ensures Valid(c, t, level, lo, hi, NodeMin(c, level, isRoot)) <==> Shaped(t, level, lo, hi) && Filled(c, t, isRoot)
    decreases level
  {
    if t.Nd? && level > 0 {
      hide Valid, Shaped, Filled, IsDataPage;
      var ks := t.kids;
      var below := level - 1;
      forall i | 0 <= i < |ks| ensures KidByNumbers(c, ks, i, below, lo, hi) {
        ValidByNumbers(c, ks[i], below, KidLo(ks, i, lo), KidHi(ks, i, hi), false);
      }
      NodeByNumbers(c, t, level, lo, hi, isRoot);
    } else {
      LeafByNumbers(c, t, level, lo, hi, isRoot);
    }
  }

  ghost predicate KidByNumbers(c: Config, ks: seq<Tree>, i: nat, level: nat, lo: Key, hi: Option<Key>)
    requires i < |ks|
  {
    KidOk(c, ks, i, level, lo, hi) <==>
      && IsDataPage(ks[i].pid) && Filled(c, ks[i], false)
      && Shaped(ks[i], level, KidLo(ks, i, lo), KidHi(ks, i, hi))
  }

  lemma LeafByNumbers(c: Config, t: Tree, level: nat, lo: Key, hi: Option<Key>, isRoot: bool)
    requires !t.Nd? || level == 0
    ensures Valid(c, t, level, lo, hi, NodeMin(c, level, isRoot)) <==> Shaped(t, level, lo, hi) && Filled(c, t, isRoot)
  {
  }

  lemma NodeByNumbers(c: Config, t: Tree, level: nat, lo: Key, hi: Option<Key>, isRoot: bool)
    requires t.Nd? && level > 0
    requires var below := level - 1; forall i | 0 <= i < |t.kids| :: KidByNumbers(c, t.kids, i, below, lo, hi)
    ensures Valid(c, t, level, lo, hi, NodeMin(c, level, isRoot)) <==> Shaped(t, level, lo, hi) && Filled(c, t, isRoot)
  {
    hide Valid, Shaped, Filled, KidByNumbers;
    var ks, below, min := t.kids, level - 1, NodeMin(c, level, isRoot);
    ValidNode(c, t, level, lo, hi, min);
    ShapedNode(t, level, lo, hi);
    FilledNode(c, t, isRoot);
    if Valid(c, t, level, lo, hi, min) {
      forall i | 0 <= i < |ks| ensures KidShaped(ks, i, below, lo, hi) && Filled(c, ks[i], false) {
        assert KidOk(c, ks, i, below, lo, hi);
        KidNumbers(c, ks, i, below, lo, hi);
      }
    }
    if Shaped(t, level, lo, hi) && Filled(c, t, isRoot) {
      forall i | 0 <= i < |ks| ensures KidOk(c, ks, i, below, lo, hi) {
        assert KidsShaped(ks, below, lo, hi) && KidShaped(ks, i, below, lo, hi) && Filled(c, ks[i], false);
        KidNumbers(c, ks, i, below, lo, hi);
      }
    }
  }

  ghost predicate KidShaped(ks: seq<Tree>, i: nat, level: nat, lo: Key, hi: Option<Key>)
    requires i < |ks|
  {
    IsDataPage(ks[i].pid) && Shaped(ks[i], level, KidLo(ks, i, lo), KidHi(ks, i, hi))
  }

  lemma KidNumbers(c: Config, ks: seq<Tree>, i: nat, level: nat, lo: Key, hi: Option<Key>)
    requires i < |ks| && KidByNumbers(c, ks, i, level, lo, hi)
    ensures KidOk(c, ks, i, level, lo, hi) <==> KidShaped(ks, i, level, lo, hi) && Filled(c, ks[i], false)
  {
    hide Shaped, Filled, KidOk;
  }

  lemma ValidNode(c: Config, t: Tree, level: nat, lo: Key, hi: Option<Key>, min: nat)
    requires t.Nd? && level > 0
    ensures Valid(c, t, level, lo, hi, min) <==>
              && t.level == level && InternalNodeOk(PageOf(t)) && min <= |t.kids| <= c.internalMax
              && SeparatorsOk(t.kids, lo, hi) && KidsAre(c, t.kids, level - 1, lo, hi)
  {
    hide KidOk, InternalNodeOk, SeparatorsOk;
    assert ValidRun(c, t.kids, level - 1, lo, hi) <==>
             SeparatorsOk(t.kids, lo, hi) && KidsAre(c, t.kids, level - 1, lo, hi);
  }

  ghost predicate KidsAre(c: Config, ks: seq<Tree>, level: nat, lo: Key, hi: Option<Key>) {
    forall i | 0 <= i < |ks| :: KidOk(c, ks, i, level, lo, hi)
  }

  ghost predicate KidsShaped(ks: seq<Tree>, level: nat, lo: Key, hi: Option<Key>) {
    forall i | 0 <= i < |ks| :: KidShaped(ks, i, level, lo, hi)
  }

  lemma ShapedNode(t: Tree, level: nat, lo: Key, hi: Option<Key>)
    requires t.Nd? && level > 0
    ensures Shaped(t, level, lo, hi) <==>
              && t.level == level && InternalNodeOk(PageOf(t)) && SeparatorsOk(t.kids, lo, hi)
              && KidsShaped(t.kids, level - 1, lo, hi)
  {
    hide InternalNodeOk, SeparatorsOk, IsDataPage;
    var ks, below := t.kids, level - 1;
    if Shaped(t, level, lo, hi) {
      forall i | 0 <= i < |ks| ensures KidShaped(ks, i, below, lo, hi) {
        assert IsDataPage(ks[i].pid) && Shaped(ks[i], level - 1, KidLo(ks, i, lo), KidHi(ks, i, hi));
      }
    }
    if KidsShaped(ks, below, lo, hi) {
      forall i | 0 <= i < |ks|
        ensures IsDataPage(ks[i].pid) && Shaped(ks[i], below, KidLo(ks, i, lo), KidHi(ks, i, hi))
      {
        assert KidShaped(ks, i, below, lo, hi);
      }
    }
  }

  lemma FilledNode(c: Config, t: Tree, isRoot: bool)
    requires t.Nd?
    ensures Filled(c, t, isRoot) <==>
              && (if isRoot then 2 <= |t.kids| else c.internalMax <= 2 * |t.kids|) && |t.kids| <= c.internalMax
              && forall i | 0 <= i < |t.kids| :: Filled(c, t.kids[i], false)
  {
  }

  /** The check in numbers. */
  lemma {:induction false} AcceptedByNumbers(c: Config, s: Store, header: PageId)
    requires HeaderOk(c, s, header)
    ensures var t, level := TreeAt(s, header), s[header].height - 1;
            Accepted(c, s, header) <==>
              && CanFetch(t.pid) && Shaped(t, level, INT64_MIN, None) && Filled(c, t, true)
              && Distinct(t) && header !in Pids(t) && Chained(t, INVALID_PAGE) && RidsValid(Contents(t))
  {
    hide Distinct, Pids, Chained, Valid, Shaped, Filled, RidsValid, Contents;
    ValidByNumbers(c, TreeAt(s, header), s[header].height - 1, INT64_MIN, None, true);
  }

  /** In an accepted index of height two or more every leaf is at least half full, rounded down. */
  lemma {:induction false} LeavesFilled(c: Config, t: Tree)
    requires Filled(c, t, false) || (Filled(c, t, true) && t.Nd?)
    ensures forall l | l in LeafList(t) :: l.Lf? && c.leafMax <= 2 * |l.es| + 1 && |l.es| <= c.leafMax
    decreases t, 0
  {
    if t.Nd? { RunFilled(c, t.kids); }
  }

  lemma {:induction false} RunFilled(c: Config, ks: seq<Tree>)
    requires forall i | 0 <= i < |ks| :: Filled(c, ks[i], false)
    ensures forall l | l in LeavesOf(ks) :: l.Lf? && c.leafMax <= 2 * |l.es| + 1 && |l.es| <= c.leafMax
    decreases ks, 1
  {
    if ks != [] {
      LeavesFilled(c, ks[0]);
      RunFilled(c, ks[1..]);
    }
  }

  // ---------- what acceptance is worth ----------

  /** The code stores whatever row address it is given.  After an insert the index passes its check
      exactly if it did before and the address was valid; a delete never spoils it. */
  lemma {:induction false} InsertAccepted(c: Config, s: Store, s': Store, header: PageId, i: nat, e: LeafEntry)
    requires IndexOk(c, s, header) && IndexOk(c, s', header)
    requires i <= |Contents(TreeAt(s, header))|
             && Contents(TreeAt(s', header)) == Inserted(Contents(TreeAt(s, header)), i, e)
    ensures Accepted(c, s', header) <==> Accepted(c, s, header) && e.rid.IsValid()
  {
    var es := Contents(TreeAt(s, header));
    RidsValidConcat(es[..i] + [e], es[i..]);
    RidsValidConcat(es[..i], [e]);
    RidsValidConcat(es[..i], es[i..]);
    assert es == es[..i] + es[i..];
    assert RidsValid([e]) <==> [e][0].rid.IsValid();
  }

  lemma {:induction false} DeleteAccepted(c: Config, s: Store, s': Store, header: PageId, i: nat)
    requires Accepted(c, s, header) && IndexOk(c, s', header)
    requires i < |Contents(TreeAt(s, header))|
             && Contents(TreeAt(s', header)) == Removed(Contents(TreeAt(s, header)), i)
    ensures Accepted(c, s', header)
  {
    var es := Contents(TreeAt(s, header));
    RidsValidConcat(es[..i], es[i..]);
    RidsValidConcat([es[i]], es[i + 1..]);
    RidsValidConcat(es[..i], es[i + 1..]);
    assert es == es[..i] + es[i..] && es[i..] == [es[i]] + es[i + 1..];
  }

  lemma {:induction false} WholeRange(es: seq<LeafEntry>)
    ensures Between(es, INT64_MIN, INT64_MAX) == es
  {
    if es != [] {
      WholeRange(es[1..]);
      assert es == [es[0]] + es[1..];
    }
  }

  /** On any pages at all: once the check has accepted them, a lookup of any key returns what a scan of
      the whole index shows for it, and NotFound only for a key the scan does not show. */
  method CheckedLookup(tree: BPlusTree, key: Key)
    returns (ok: bool, found: Result<RID>, all: Result<seq<LeafEntry>>)
    modifies tree`faults
    ensures ok <==> Accepted(tree.cfg, tree.pages, tree.header)
    ensures ok && all.Ok? ==> SortedLeaf(all.value) && RidsValid(all.value)
    ensures ok && all.Ok? && found.Ok? ==> LeafEntry(key, found.value) in all.value
    ensures ok && all.Ok? && found == Err(NotFound) ==> Absent(all.value, key)
    ensures ok && found.Err? ==> found.error == NotFound || found.error == IOError
    ensures ok && all.Err? ==> all.error == IOError
    ensures tree.faults == old(tree.faults)
                           + (if ok && found == Err(IOError) then 1 else 0) + if ok && all.Err? then 1 else 0
  {
    hide TreeOk, Contents, Unfold, Between;
    ok := CheckInvariants(tree.cfg, tree.pages, tree.header);
    found, all := Err(NotFound), Ok([]);
    if ok {
      DescentFacts(tree.cfg, tree.pages, tree.header, key);
      found := tree.Get(key);
      all := Collect(tree, INT64_MIN, INT64_MAX);
      WholeRange(tree.Entries());
    }
  }
}
