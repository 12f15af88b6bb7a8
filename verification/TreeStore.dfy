/**
 * What writing pages does to the tree a store describes.  `Held` says that a store unfolds to given
 * trees; the lemmas follow one level of an insert or a delete through the pages it writes.
 */
module TreeStore {
  import opened Common
  import opened Nodes
  import opened Trees
  import opened TreeRuns
  import opened TreeInsert
  import opened TreeDelete

  /** The store holds the tree page for page. */
  ghost predicate Holds(s: Store, t: Tree, level: nat)
    decreases level, 0
  {
    && !t.Broken? && t.pid in s && s[t.pid] == PageOf(t)
    && if t.Lf? then level == 0 else level > 0 && Held(s, t.kids, level - 1)
  }

  ghost predicate Held(s: Store, ks: seq<Tree>, level: nat)
    decreases level, 1
  {
    forall i | 0 <= i < |ks| :: Holds(s, ks[i], level)
  }

  /** Holding a tree is unfolding to it, when no page is missing. */
  lemma {:induction false} HoldsUnfold(s: Store, t: Tree, level: nat)
    requires Holds(s, t, level)
    ensures Unfold(s, t.key, t.pid, level) == t
    decreases level
  {
    if t.Nd? {
      forall i | 0 <= i < |t.kids| ensures Unfold(s, t.kids[i].key, t.kids[i].pid, level - 1) == t.kids[i] {
        HoldsUnfold(s, t.kids[i], level - 1);
      }
      UnfoldNode(s, t, level);
    }
  }

  lemma {:induction false} UnfoldHolds(c: Config, s: Store, key: Key, pid: PageId, level: nat, lo: Key, hi: Option<Key>,
                                       min: nat)
    requires Valid(c, Unfold(s, key, pid, level), level, lo, hi, min)
    ensures Holds(s, Unfold(s, key, pid, level), level)
    decreases level
  {
    var t := Unfold(s, key, pid, level);
    UnfoldPage(s, key, pid, level);
    if t.Nd? {
      forall i | 0 <= i < |t.kids| ensures Holds(s, t.kids[i], level - 1) {
        assert KidOk(c, t.kids, i, level - 1, lo, hi);
        UnfoldHolds(c, s, t.kids[i].key, t.kids[i].pid, level - 1, KidLo(t.kids, i, lo), KidHi(t.kids, i, hi),
            Floor(c, level - 1));
      }
    }
  }

  ghost predicate Same(s: Store, s': Store, p: PageId) {
    (p in s <==> p in s') && (p in s ==> s[p] == s'[p])
  }

  /** The two stores agree on every page outside ps. */
  ghost predicate SameOff(s: Store, s': Store, ps: set<PageId>) {
    forall p | p !in ps :: Same(s, s', p)
  }

  lemma {:induction false} HoldsOff(s: Store, s': Store, t: Tree, level: nat, ps: set<PageId>)
    requires Holds(s, t, level) && SameOff(s, s', ps) && Pids(t) !! ps
    ensures Holds(s', t, level)
    decreases level, 0
  {
    assert Same(s, s', t.pid);
    if t.Nd? {
      HeldOff(s, s', t.kids, level - 1, ps);
    }
  }

  lemma {:induction false} HeldOff(s: Store, s': Store, ks: seq<Tree>, level: nat, ps: set<PageId>)
    requires Held(s, ks, level) && SameOff(s, s', ps) && RunPids(ks) !! ps
    ensures Held(s', ks, level)
    decreases level, 1
  {
    forall i | 0 <= i < |ks| ensures Holds(s', ks[i], level) {
      assert Pids(ks[i]) <= RunPids(ks);
      HoldsOff(s, s', ks[i], level, ps);
    }
  }

  lemma HeldRekey(s: Store, ks: seq<Tree>, k: Key, level: nat)
    requires ks != [] && Held(s, ks, level)
    ensures Held(s, ks[0 := ks[0].(key := k)], level)
  {
    assert PageOf(ks[0].(key := k)) == PageOf(ks[0]);
    assert Holds(s, ks[0], level);
    assert Holds(s, ks[0].(key := k), level);
  }

  lemma {:induction false} HeldCanonical(s: Store, ks: seq<Tree>, level: nat)
    requires Held(s, ks, level)
    ensures Held(s, CanonicalRun(ks), level)
  {
    if ks != [] { HeldRekey(s, ks, INT64_MIN, level); }
  }

  lemma HeldConcat(s: Store, a: seq<Tree>, b: seq<Tree>, level: nat)
    requires Held(s, a, level) && Held(s, b, level)
    ensures Held(s, a + b, level)
  {
  }

  lemma HeldSlice(s: Store, ks: seq<Tree>, i: nat, j: nat, level: nat)
    requires Held(s, ks, level) && i <= j <= |ks|
    ensures Held(s, ks[i..j], level)
  {
  }

  lemma {:induction false} HeldAround(s: Store, s': Store, ks: seq<Tree>, i: nat, j: nat, q: seq<Tree>, level: nat,
                                      ps: set<PageId>)
    requires i <= j <= |ks| && Held(s, ks, level) && SameOff(s, s', ps) && Held(s', q, level)
    requires RunPids(ks[..i]) !! ps && RunPids(ks[j..]) !! ps
    ensures Held(s', Spliced(ks, i, j, q), level)
  {
    HeldSlice(s, ks, 0, i, level);
    HeldSlice(s, ks, j, |ks|, level);
    assert ks[0..i] == ks[..i] && ks[j..|ks|] == ks[j..];
    HeldOff(s, s', ks[..i], level, ps);
    HeldOff(s, s', ks[j..], level, ps);
    HeldConcat(s', ks[..i], q, level);
    HeldConcat(s', ks[..i] + q, ks[j..], level);
  }

  /** Only pages of child i and pages new to the tree were written, so putting the run q in child
      i's place gives children the store holds. */
  lemma {:induction false} HeldSpliced(s0: Store, s: Store, t: Tree, i: nat, q: seq<Tree>, level: nat,
                                       more: set<PageId>)
    requires t.Nd? && Holds(s0, t, level) && Distinct(t) && i < |t.kids|
    requires Held(s, q, level - 1) && SameOff(s0, s, Pids(t.kids[i]) + more) && more !! Pids(t)
    ensures Held(s, Spliced(t.kids, i, i + 1, q), level - 1)
    ensures t.pid in s && s[t.pid] == PageOf(t)
  {
    hide DistinctRun, RunPids, Held, PageOf, Spliced;
    var ks := t.kids;
    DistinctParts(ks, i, i + 1);
    assert ks[i..i + 1] == [ks[i]];
    PidsOfRun([ks[i]]);
    assert t.pid !in Pids(ks[i]) + more && Same(s0, s, t.pid);
    hide Distinct, SameOff;
    HeldAround(s0, s, ks, i, i + 1, q, level - 1, Pids(ks[i]) + more);
  }

  // ---------- insert ----------

  /** Writing the node, or both halves of it, makes the store hold the result one level up. */
  lemma {:induction false} HeldNodeIns(c: Config, s: Store, s': Store, t: Tree, all: seq<Tree>, level: nat,
                                       spare: seq<PageId>, w: set<PageId>)
    requires t.Nd? && t.kids != [] && |t.kids| <= |all| <= |t.kids| + 1 && level > 0
    requires Held(s, all, level - 1) && SameOff(s, s', w) && w !! RunPids(all)
    requires var r := NodeIns(c, t, all, spare);
             forall i | 0 <= i < |r| :: r[i].pid in s' && s'[r[i].pid] == PageOf(r[i])
    ensures Held(s', NodeIns(c, t, all, spare), level)
  {
    var r := NodeIns(c, t, all, spare);
    HeldOff(s, s', all, level - 1, w);
    if |r| == 2 {
      HeldCut(s', all, SplitPoint(|t.kids|), level - 1);
      assert Holds(s', r[1], level);
    }
    assert Holds(s', r[0], level);
  }

  lemma {:induction false} HeldCut(s: Store, all: seq<Tree>, m: nat, level: nat)
    requires Held(s, all, level) && m <= |all|
    ensures Held(s, all[..m], level) && Held(s, CanonicalRun(all[m..]), level)
  {
    HeldSlice(s, all, m, |all|, level);
    assert all[m..|all|] == all[m..];
    HeldCanonical(s, all[m..], level);
  }

  // ---------- delete ----------

  /** The children the two nodes of a pair have between them, held under the new separator. */
  lemma {:induction false} HeldJoined(s: Store, l: Tree, r: Tree, level: nat)
    requires l.Nd? && r.Nd? && r.kids != [] && Holds(s, l, level) && Holds(s, r, level)
    ensures Held(s, JoinedKids(l, r), level - 1)
  {
    HeldRekey(s, r.kids, r.key, level - 1);
    HeldConcat(s, l.kids, r.kids[0 := r.kids[0].(key := r.key)], level - 1);
  }

  ghost predicate Written(s: Store, run: seq<Tree>) {
    forall i | 0 <= i < |run| :: run[i].pid in s && s[run[i].pid] == PageOf(run[i])
  }

  /** Writing only the pages of a pair, and pages outside it, leaves the pair's children alone. */
  lemma KidsOff(l: Tree, r: Tree, w: set<PageId>)
    requires l.Nd? && r.Nd? && DistinctRun([l, r]) && w - {l.pid, r.pid} !! RunPids([l, r])
    ensures RunPids(JoinedKids(l, r)) !! w
  {
    hide JoinedKids, RunPids;
    JoinedPids(l, r);
    PidsOfRun([l, r]);
  }

  /** Writing the fixed pair's pages makes the store hold the fixed pair. */
  lemma {:induction false} HeldPairFix(c: Config, s: Store, s': Store, l: Tree, r: Tree, level: nat, fromLeft: bool,
                                       w: set<PageId>)
    requires SameKind(l, r) && Holds(s, l, level) && Holds(s, r, level) && DistinctRun([l, r])
    requires SameOff(s, s', w) && w - {l.pid, r.pid} !! RunPids([l, r])
             && Written(s', PairFix(c, l, r, level, fromLeft))
    ensures Held(s', PairFix(c, l, r, level, fromLeft), level)
  {
    hide PairFix, JoinedKids, Held, RunPids, Distinct, DistinctRun, SameOff, Written;
    if l.Nd? {
      HeldJoined(s, l, r, level);
      KidsOff(l, r, w);
      HeldOff(s, s', JoinedKids(l, r), level - 1, w);
      HeldRunOver(c, s', l, r, level, fromLeft);
    } else {
      LeavesHeld(s', PairFix(c, l, r, level, fromLeft), level) by { FixedLeaves(c, l, r, level, fromLeft); }
    }
  }

  /** Leaves are held as soon as they are written. */
  lemma LeavesHeld(s: Store, run: seq<Tree>, level: nat)
    requires Written(s, run) && level == 0 && forall i | 0 <= i < |run| :: run[i].Lf?
    ensures Held(s, run, level)
  {
  }

  lemma FixedLeaves(c: Config, l: Tree, r: Tree, level: nat, fromLeft: bool)
    requires l.Lf? && r.Lf?
    ensures forall x | x in PairFix(c, l, r, level, fromLeft) :: x.Lf?
  {
  }

  lemma {:induction false} HeldRunOver(c: Config, s: Store, l: Tree, r: Tree, level: nat, fromLeft: bool)
    requires l.Nd? && r.Nd? && l.kids != [] && r.kids != [] && level > 0
    requires Held(s, JoinedKids(l, r), level - 1) && Written(s, PairFix(c, l, r, level, fromLeft))
    ensures Held(s, PairFix(c, l, r, level, fromLeft), level)
  {
    var run := PairFix(c, l, r, level, fromLeft);
    if Lends(c, l, r, level, fromLeft) {
      HeldCut(s, JoinedKids(l, r), if fromLeft then Count(l) - 1 else Count(l) + 1, level - 1);
      assert Holds(s, run[1], level);
    }
    assert Holds(s, run[0], level);
  }

  /** One level of the delete cascade: the pair's pages are written, the rest of the run is not. */
  lemma OwnPid(t: Tree)
    ensures t.pid in Pids(t)
  {
  }

  lemma {:induction false} HeldFixedKids(c: Config, s: Store, s': Store, ks: seq<Tree>, i: nat, level: nat,
                                         w: set<PageId>)
    requires Short(c, ks, i, level) && SameKind(ks[PairAt(i)], ks[PairAt(i) + 1])
    requires Held(s, ks, level) && DistinctRun(ks)
    requires SameOff(s, s', w) && w - {ks[PairAt(i)].pid, ks[PairAt(i) + 1].pid} !! RunPids(ks)
    requires Written(s', PairFix(c, ks[PairAt(i)], ks[PairAt(i) + 1], level, i > 0))
    ensures Held(s', FixedKids(c, ks, i, level), level)
  {
    hide PairFix, SameKind, Distinct, Contents, DistinctRun, RunPids, Pids, SameOff, Written, Holds;
    var j := PairAt(i);
    var l, r := ks[j], ks[j + 1];
    DistinctParts(ks, j, j + 2);
    assert ks[j..j + 2] == [l, r];
    PidsOfRun([l, r]);
    OwnPid(l);
    OwnPid(r);
    HeldPairFix(c, s, s', l, r, level, i > 0, w);
    HeldAround(s, s', ks, j, j + 2, PairFix(c, l, r, level, i > 0), level, w);
  }
}
