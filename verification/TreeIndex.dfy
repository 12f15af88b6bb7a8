/**
 * A page store with an index header in it, and what each write of an insert leaves the store holding.
 */
module TreeIndex {
  import opened Common
  import opened Nodes
  import opened Trees
  import opened TreeRuns
  import opened TreeInsert
  import opened TreeDelete
  import opened TreeStore
  import opened TreeSpine

  ghost predicate HeaderOk(c: Config, s: Store, header: PageId) {
    && CanFetch(header) && header in s && s[header].HeaderPage? && s[header].height >= 1
    && s[header].leafMax == c.leafMax && s[header].internalMax == c.internalMax
  }

  ghost function TreeAt(s: Store, header: PageId): Tree
    requires header in s && s[header].HeaderPage? && s[header].height >= 1
  {
    Unfold(s, INT64_MIN, s[header].root, s[header].height - 1)
  }

  /** The header and the whole-tree invariant: all that lookups and scans rely on. */
  ghost predicate Readable(c: Config, s: Store, header: PageId) {
    && HeaderOk(c, s, header) && CanFetch(s[header].root)
    && TreeOk(c, TreeAt(s, header), s[header].height - 1, header)
  }

  /** A root that splits becomes a child, so the write operations need it to be a data page. */
  ghost predicate IndexOk(c: Config, s: Store, header: PageId) {
    Readable(c, s, header) && IsDataPage(s[header].root)
  }

  /** The facts about the descent for `key` that every operation starts from. */
  lemma {:induction false} DescentFacts(c: Config, s: Store, header: PageId, key: Key)
    requires Readable(c, s, header)
    ensures var t, level := TreeAt(s, header), s[header].height - 1;
            var sp := Spine(t, key);
            && Holds(s, t, level) && RootSpineOk(c, s, sp, level, key) && sp[0] == t && sp[level].Lf?
            && (forall e: LeafEntry | e.key == key :: e in Contents(t) <==> e in sp[level].es)
            && SortedLeaf(Contents(t))
  {
    var t, level := TreeAt(s, header), s[header].height - 1;
    UnfoldHolds(c, s, INT64_MIN, s[header].root, level, INT64_MIN, None, RootFloor(level));
    RootSpine(c, s, t, level, header, key);
    LookupInLeaf(c, t, level, INT64_MIN, None, RootFloor(level), key);
    ContentsInRange(c, t, level, INT64_MIN, None, RootFloor(level));
  }

  // ---------- what the mutate phase of Insert writes ----------

  /** The leaf with the entry in it, or the two leaves it splits into. */
  lemma LeafIns(c: Config, t: Tree, key: Key, rid: RID, spare: seq<PageId>)
    requires t.Lf? && t.level == 0
    ensures var all := Inserted(t.es, LowerIndex(t.es, key), LeafEntry(key, rid));
            var m := SplitPoint(|t.es|);
            if |t.es| < c.leafMax then Splits(c, t, key) == 0 && Ins(c, t, key, rid, spare) == [t.(es := all)]
            else Splits(c, t, key) == 1 && Ins(c, t, key, rid, spare)
                 == [t.(next := Spare(spare, 0), es := all[..m]), Lf(all[m].key, Spare(spare, 0), 0, t.next, all[m..])]
  {
  }

  lemma {:induction false} NodeInsPagesOf(c: Config, t: Tree, k: nat, q: seq<Tree>, spare: seq<PageId>)
    requires t.Nd? && k < |t.kids| && InternalNodeOk(PageOf(t))
    requires |q| == 2 && q[0].key == t.kids[k].key && q[0].pid == t.kids[k].pid
    ensures var es := Inserted(EntriesOf(t.kids), k + 1, InternalEntry(q[1].key, q[1].pid));
            var m := SplitPoint(|t.kids|);
            var r := NodeIns(c, t, Spliced(t.kids, k, k + 1, q), spare);
            if |t.kids| < c.internalMax then |r| == 1 && PageOf(r[0]) == InternalPage(t.level, t.next, es)
            else
              && |r| == 2 && PageOf(r[0]) == InternalPage(t.level, t.next, Canonical(es[..m]))
              && PageOf(r[1]) == InternalPage(t.level, INVALID_PAGE, Canonical(es[m..]))
              && r[1].pid == Spare(spare, t.level) && r[1].key == es[m].key
  {
    var all, m := Spliced(t.kids, k, k + 1, q), SplitPoint(|t.kids|);
    var es := Inserted(EntriesOf(t.kids), k + 1, InternalEntry(q[1].key, q[1].pid));
    SplicedEntries(t.kids, k, q);
    DealtEntries(all, m);
    assert es[0] == EntriesOf(t.kids)[0];
    assert es[..m] == Canonical(es[..m]);
  }

  lemma SplicedEntries(ks: seq<Tree>, k: nat, q: seq<Tree>)
    requires k < |ks| && |q| == 2 && q[0].key == ks[k].key && q[0].pid == ks[k].pid
    ensures EntriesOf(Spliced(ks, k, k + 1, q)) == Inserted(EntriesOf(ks), k + 1, InternalEntry(q[1].key, q[1].pid))
  {
    var all, es := EntriesOf(Spliced(ks, k, k + 1, q)),
        Inserted(EntriesOf(ks), k + 1, InternalEntry(q[1].key, q[1].pid));
    assert |all| == |es|;
    forall i | 0 <= i < |es| ensures all[i] == es[i] {
      var x := Spliced(ks, k, k + 1, q)[i];
      assert x == if i < k then ks[i] else if i < k + 2 then q[i - k] else ks[i - 1];
    }
  }

  lemma DealtEntries(all: seq<Tree>, m: nat)
    requires m <= |all|
    ensures EntriesOf(all[..m]) == EntriesOf(all)[..m] && EntriesOf(all[m..]) == EntriesOf(all)[m..]
    ensures EntriesOf(CanonicalRun(all[m..])) == Canonical(EntriesOf(all)[m..])
  {
  }

  /** Once the store holds the grown tree and the header names its root, the index is valid again. */
  lemma {:induction false} InsertDone(c: Config, s0: Store, s: Store, header: PageId, key: Key, rid: RID,
                                      spare: seq<PageId>)
    requires IndexOk(c, s0, header) && Absent(Contents(TreeAt(s0, header)), key)
    requires var t, level := TreeAt(s0, header), s0[header].height - 1;
             var t', level' := Grown(c, t, level, key, rid, spare), GrownLevel(c, t, level, key);
             && |spare| == PagesNeeded(c, t, level, key) && AllDistinct(spare)
             && (forall i | 0 <= i < |spare| :: IsDataPage(spare[i]) && spare[i] !in Pids(t) && spare[i] != header)
             && Holds(s, t', level') && header in s
             && s[header] == HeaderPage(t'.pid, level' + 1, c.leafMax, c.internalMax)
    ensures IndexOk(c, s, header)
    ensures var es := Contents(TreeAt(s0, header));
            Contents(TreeAt(s, header)) == Inserted(es, LowerIndex(es, key), LeafEntry(key, rid))
    ensures Pids(TreeAt(s, header)) == Pids(TreeAt(s0, header)) + PageSet(spare)
  {
    hide Valid, Contents, Ins, Splits, Spine, Unfold;
    var t, level := TreeAt(s0, header), s0[header].height - 1;
    InsertTheorem(c, t, level, header, key, rid, spare);
    HoldsUnfold(s, Grown(c, t, level, key, rid, spare), GrownLevel(c, t, level, key));
    assert Taken(spare, |spare|) == PageSet(spare);
  }

  lemma AbsentFromLeaf(es: seq<LeafEntry>, leaf: seq<LeafEntry>, key: Key)
    requires Absent(leaf, key) && forall e: LeafEntry | e.key == key :: e in es <==> e in leaf
    ensures Absent(es, key)
  {
    forall i | 0 <= i < |es| ensures es[i].key != key {
      assert es[i] in es;
    }
  }

  /** What the lower bound in the leaf says about the whole tree. */
  lemma LeafDecides(es: seq<LeafEntry>, leaf: seq<LeafEntry>, idx: nat, key: Key)
    requires SortedLeaf(leaf) && IsLowerBound(leaf, key, idx)
    requires forall e: LeafEntry | e.key == key :: e in es <==> e in leaf
    ensures if idx < |leaf| && leaf[idx].key == key then Present(es, key) else Absent(es, key)
  {
    if idx < |leaf| && leaf[idx].key == key {
      assert leaf[idx] in es;
    } else {
      AbsentFromLeaf(es, leaf, key);
    }
  }

  /** An entry added to a leaf with room: one page written. */
  lemma {:induction false} PlainInsert(c: Config, s0: Store, s: Store, header: PageId, key: Key, rid: RID)
    requires IndexOk(c, s0, header) && Absent(Contents(TreeAt(s0, header)), key)
    requires var sp := Spine(TreeAt(s0, header), key); var leaf := sp[|sp| - 1];
             && leaf.Lf? && |leaf.es| < c.leafMax
             && s == s0[leaf.pid := LeafPage(leaf.level, leaf.next,
                Inserted(leaf.es, LowerIndex(leaf.es, key), LeafEntry(key, rid)))]
    ensures IndexOk(c, s, header)
    ensures var es := Contents(TreeAt(s0, header));
            Contents(TreeAt(s, header)) == Inserted(es, LowerIndex(es, key), LeafEntry(key, rid))
    ensures Pids(TreeAt(s, header)) == Pids(TreeAt(s0, header)) && s.Keys == s0.Keys
    ensures SameOff(s0, s, Pids(TreeAt(s, header)) + {header})
  {
    hide Valid, Contents, Ins, Splits, Spine, Unfold;
    var t, level := TreeAt(s0, header), s0[header].height - 1;
    var sp := Spine(t, key);
    DescentFacts(c, s0, header, key);
    SpinePage(c, s0, sp, level, level, key);
    var leaf := sp[level];
    LeafIns(c, leaf, key, rid, []);
    assert SameOff(s0, s, Pids(leaf) + {});
    InsertLift(c, s0, s, sp, level, level, key, rid, [], {});
    assert Grown(c, t, level, key, rid, []) == Ins(c, t, key, rid, [])[0];
    InsertDone(c, s0, s, header, key, rid, []);
  }

  /** Adding pages that did not exist changes nothing about the tree. */
  lemma {:induction false} AllocatedKeeps(c: Config, s: Store, s': Store, header: PageId)
    requires IndexOk(c, s, header) && forall p | p in s :: p in s' && s'[p] == s[p]
    ensures IndexOk(c, s', header) && TreeAt(s', header) == TreeAt(s, header) && s'[header] == s[header]
    ensures Pids(TreeAt(s, header)) <= s.Keys
  {
    var t, level := TreeAt(s, header), s[header].height - 1;
    UnfoldHolds(c, s, INT64_MIN, s[header].root, level, INT64_MIN, None, RootFloor(level));
    HoldsKeys(s, t, level);
    UnfoldFrame(s, s', INT64_MIN, s[header].root, level);
  }

  lemma {:induction false} HoldsKeys(s: Store, t: Tree, level: nat)
    requires Holds(s, t, level)
    ensures Pids(t) <= s.Keys
    decreases level
  {
    if t.Nd? {
      forall i | 0 <= i < |t.kids| ensures Pids(t.kids[i]) <= s.Keys { HoldsKeys(s, t.kids[i], level - 1); }
    }
  }

  // ---------- the climb of a splitting insert ----------

  ghost function LevelAt(s: Store, header: PageId): nat
    requires header in s && s[header].HeaderPage? && s[header].height >= 1
  {
    s[header].height - 1
  }

  /** The state in which the mutate phase of a splitting insert starts. */
  ghost predicate InsertCtx(c: Config, s0: Store, header: PageId, key: Key, rid: RID, ids: seq<PageId>) {
    && IndexOk(c, s0, header) && Absent(Contents(TreeAt(s0, header)), key)
    && |ids| == PagesNeeded(c, TreeAt(s0, header), LevelAt(s0, header), key) && AllDistinct(ids)
    && (forall i | 0 <= i < |ids| :: SpareId(s0, header, ids[i]))
    && RootSpineOk(c, s0, Spine(TreeAt(s0, header), key), LevelAt(s0, header), key)
    && Spine(TreeAt(s0, header), key)[0] == TreeAt(s0, header)
  }

  ghost predicate SpareId(s0: Store, header: PageId, p: PageId)
    requires header in s0 && s0[header].HeaderPage? && s0[header].height >= 1
  {
    IsDataPage(p) && p in s0 && p !in Pids(TreeAt(s0, header)) && p != header
  }

  /** Everything on the path below node i has been rewritten, as the pair q in place of node i + 1. */
  ghost predicate Climb(c: Config, s0: Store, s: Store, sp: seq<Tree>, i: int, level: nat, q: seq<Tree>,
                        ids: seq<PageId>)
    requires |sp| == level + 1 && -1 <= i < level
  {
    var n := level - i;
    && |q| == 2 && n <= |ids| && Held(s, q, n - 1) && PagesOk(q, sp[i + 1], n - 1, ids, n)
    && q[0].key == sp[i + 1].key && q[0].pid == sp[i + 1].pid
    && SameOff(s0, s, Pids(sp[i + 1]) + Taken(ids, n)) && s.Keys == s0.Keys
  }

  lemma {:induction false} SplitsGrow(c: Config, s: Store, sp: seq<Tree>, i: nat, level: nat, key: Key)
    requires RootSpineOk(c, s, sp, level, key) && i <= level
    ensures Splits(c, sp[i], key) <= Splits(c, sp[0], key)
    decreases i
  {
    hide Valid, Contents, Spine, Unfold, Pids, SpineAt;
    if i > 0 {
      SpinePage(c, s, sp, i - 1, level, key);
      InsUnfold(c, sp[i - 1], sp[i], key, RID(0, 0), []);
      SplitsGrow(c, s, sp, i - 1, level, key);
    }
  }

  lemma {:induction false} SpareOff(c: Config, s0: Store, header: PageId, key: Key, rid: RID, ids: seq<PageId>, n: nat)
    requires InsertCtx(c, s0, header, key, rid, ids) && n <= |ids|
    ensures Taken(ids, n) !! Pids(TreeAt(s0, header)) && header !in Taken(ids, n)
    ensures n < |ids| ==> ids[n] !in Taken(ids, n)
  {
    forall p | p in Taken(ids, n) ensures p !in Pids(TreeAt(s0, header)) && p != header {
      var i: nat :| i < n && p == ids[i];
      assert SpareId(s0, header, ids[i]);
    }
  }

  /** The leaf split into its two pages. */
  lemma {:induction false} LeafClimb(c: Config, s0: Store, s: Store, header: PageId, key: Key, rid: RID,
                                     ids: seq<PageId>)
    requires InsertCtx(c, s0, header, key, rid, ids)
    requires Splits(c, TreeAt(s0, header), key) > 0
    requires var sp, level := Spine(TreeAt(s0, header), key), LevelAt(s0, header);
             var q := Ins(c, sp[level], key, rid, ids);
             |ids| > 0 && |q| == 2 && s == s0[q[0].pid := PageOf(q[0])][q[1].pid := PageOf(q[1])]
    ensures var sp, level := Spine(TreeAt(s0, header), key), LevelAt(s0, header);
            Climb(c, s0, s, sp, level - 1, level, Ins(c, sp[level], key, rid, ids), ids)
  {
    var sp, level := Spine(TreeAt(s0, header), key), LevelAt(s0, header);
    SpinePage(c, s0, sp, level, level, key);
    var q := Ins(c, sp[level], key, rid, ids);
    SpareOff(c, s0, header, key, rid, ids, 1);
    assert ids[0] in Taken(ids, 1) && SpareId(s0, header, ids[0]);
    SpinePages(c, s0, sp[level], 0, key, rid, ids, SpineMin(c, level, level, RootFloor(level)), Pids(sp[0]));
    assert Holds(s, q[0], 0) && Holds(s, q[1], 0);
  }

  /** Spare pages suffice for the leaf exactly because the leaf is full. */
  lemma {:induction false} LeafSplits(c: Config, s0: Store, header: PageId, key: Key, rid: RID, ids: seq<PageId>)
    requires InsertCtx(c, s0, header, key, rid, ids) && Splits(c, TreeAt(s0, header), key) > 0
    ensures var sp, level := Spine(TreeAt(s0, header), key), LevelAt(s0, header);
            && |sp| == level + 1 && sp[level].Lf? && |sp[level].es| == c.leafMax && |ids| > 0
            && Splits(c, sp[level], key) == 1 && sp[level].pid != ids[0]
  {
    var sp, level := Spine(TreeAt(s0, header), key), LevelAt(s0, header);
    SpinePage(c, s0, sp, level, level, key);
    if |sp[level].es| < c.leafMax {
      SplitsStay(c, s0, sp, level, level, key);
    }
    assert SpareId(s0, header, ids[0]) && sp[level].pid in Pids(sp[level]);
  }

  /** The node above the rewritten part is still the page it was. */
  lemma {:induction false} ParentPage(c: Config, s0: Store, s: Store, header: PageId, i: nat, key: Key, rid: RID,
                                      q: seq<Tree>, ids: seq<PageId>)
    requires InsertCtx(c, s0, header, key, rid, ids) && i < LevelAt(s0, header)
    requires Climb(c, s0, s, Spine(TreeAt(s0, header), key), i, LevelAt(s0, header), q, ids)
    ensures var sp := Spine(TreeAt(s0, header), key);
            sp[i].pid in s && s[sp[i].pid] == PageOf(sp[i])
  {
    var sp, level := Spine(TreeAt(s0, header), key), LevelAt(s0, header);
    SpinePage(c, s0, sp, i, level, key);
    SpareOff(c, s0, header, key, rid, ids, level - i);
    assert sp[i].pid in Pids(sp[i]) && Pids(sp[i + 1]) <= RunPids(sp[i].kids);
    assert Same(s0, s, sp[i].pid);
  }

  /** A full parent has a page waiting for its right half. */
  lemma {:induction false} ClimbRoom(c: Config, s0: Store, header: PageId, i: nat, key: Key, rid: RID, ids: seq<PageId>)
    requires InsertCtx(c, s0, header, key, rid, ids) && i < LevelAt(s0, header)
    requires var sp := Spine(TreeAt(s0, header), key);
             && Splits(c, sp[i + 1], key) == LevelAt(s0, header) - i
             && sp[i].Nd? && |sp[i].kids| >= c.internalMax
    ensures var sp, n := Spine(TreeAt(s0, header), key), LevelAt(s0, header) - i;
            n < |ids| && Splits(c, sp[i], key) == n + 1
  {
    var sp, level := Spine(TreeAt(s0, header), key), LevelAt(s0, header);
    SpinePage(c, s0, sp, i, level, key);
    InsUnfold(c, sp[i], sp[i + 1], key, rid, ids);
    SplitsGrow(c, s0, sp, i, level, key);
  }

  lemma {:induction false} ClimbStep(c: Config, s0: Store, s: Store, s': Store, header: PageId, i: nat, key: Key,
                                     rid: RID, q: seq<Tree>, ids: seq<PageId>)
    requires InsertCtx(c, s0, header, key, rid, ids) && i < LevelAt(s0, header)
    requires var sp, level := Spine(TreeAt(s0, header), key), LevelAt(s0, header);
             && q == Ins(c, sp[i + 1], key, rid, ids) && Climb(c, s0, s, sp, i, level, q, ids)
             && sp[i].Nd? && |sp[i].kids| >= c.internalMax && level - i < |ids|
             && Splits(c, sp[i], key) == level - i + 1
    requires var r := Ins(c, Spine(TreeAt(s0, header), key)[i], key, rid, ids);
             && |r| == 2 && r[1].pid == ids[LevelAt(s0, header) - i]
             && s' == s[r[0].pid := PageOf(r[0])][r[1].pid := PageOf(r[1])]
    ensures var sp, level := Spine(TreeAt(s0, header), key), LevelAt(s0, header);
            Climb(c, s0, s', sp, i - 1, level, Ins(c, sp[i], key, rid, ids), ids)
  {
    hide Valid, Contents, Ins, Splits, Spine, Unfold, TreeOk, NodeIns, Distinct, DistinctRun, Held, Holds, Absent,
      PageOf, Covers, Slot, PagesNeeded;
    var sp, level := Spine(TreeAt(s0, header), key), LevelAt(s0, header);
    var t, k, n := sp[i], Slot(sp[i], key), level - i;
    SpinePage(c, s0, sp, i, level, key);
    InsUnfold(c, t, sp[i + 1], key, rid, ids);
    SpareOff(c, s0, header, key, rid, ids, n);
    assert SpareId(s0, header, ids[n]);
    var w := {t.pid, ids[n]};
    assert t.pid in Pids(t);
    InsertUp(c, s0, s, s', t, k, q, n, ids, n, w);
    SpinePages(c, s0, t, n, key, rid, ids, SpineMin(c, level, i, RootFloor(level)), Pids(sp[0]));
    TakenNext(ids, n);
    SameOffMore(s0, s', Pids(t) + Taken(ids, n) + w, Pids(t) + Taken(ids, n + 1));
    assert s'.Keys == s0.Keys by { ParentPage(c, s0, s, header, i, key, rid, q, ids); }
  }

  /** A parent with room takes the new child, and the climb is over. */
  lemma {:induction false} ClimbEnds(c: Config, s0: Store, s: Store, s': Store, header: PageId, i: nat, key: Key,
                                     rid: RID, q: seq<Tree>, ids: seq<PageId>)
    requires InsertCtx(c, s0, header, key, rid, ids) && i < LevelAt(s0, header)
    requires var sp, level := Spine(TreeAt(s0, header), key), LevelAt(s0, header);
             && q == Ins(c, sp[i + 1], key, rid, ids) && Climb(c, s0, s, sp, i, level, q, ids)
             && sp[i].Nd? && |sp[i].kids| < c.internalMax && Splits(c, sp[i + 1], key) == level - i
    requires var r := Ins(c, Spine(TreeAt(s0, header), key)[i], key, rid, ids);
             |r| == 1 && s' == s[r[0].pid := PageOf(r[0])]
    ensures InsertResult(c, s0, s', header, key, rid, ids)
  {
    hide Valid, Contents, Ins, Splits, Spine, Unfold, NodeIns, Distinct, DistinctRun, Absent, PageOf, Covers, Slot;
    var t0, sp, level := TreeAt(s0, header), Spine(TreeAt(s0, header), key), LevelAt(s0, header);
    var t, k, n := sp[i], Slot(sp[i], key), level - i;
    SpinePage(c, s0, sp, i, level, key);
    InsUnfold(c, t, sp[i + 1], key, rid, ids);
    SpareOff(c, s0, header, key, rid, ids, n);
    assert t.pid in Pids(t);
    InsertUp(c, s0, s, s', t, k, q, n, ids, n, {t.pid});
    assert Holds(s', Ins(c, t, key, rid, ids)[0], n);
    SameOffMore(s0, s', Pids(t) + Taken(ids, n) + {t.pid}, Pids(t) + Taken(ids, n));
    InsertLift(c, s0, s', sp, i, level, key, rid, ids, Taken(ids, n));
    assert s'.Keys == s0.Keys by { ParentPage(c, s0, s, header, i, key, rid, q, ids); }
    assert Same(s0, s', header);
    InsertDone(c, s0, s', header, key, rid, ids);
    SameOffMore(s0, s', Pids(t) + Taken(ids, n), Pids(TreeAt(s', header)) + {header});
  }

  /** The root split: a new root over the pair, and the header pointed at it. */
  lemma {:induction false} ClimbRoot(c: Config, s0: Store, s: Store, s': Store, header: PageId, key: Key, rid: RID,
                                     q: seq<Tree>, ids: seq<PageId>)
    requires InsertCtx(c, s0, header, key, rid, ids)
    requires var sp, level := Spine(TreeAt(s0, header), key), LevelAt(s0, header);
             && q == Ins(c, sp[0], key, rid, ids) && Climb(c, s0, s, sp, -1, level, q, ids)
             && |ids| == level + 2
             && s' == s[ids[level + 1] := InternalPage(level + 1, INVALID_PAGE, Canonical(EntriesOf(q)))]
                       [header := HeaderPage(ids[level + 1], level + 2, c.leafMax, c.internalMax)]
    ensures InsertResult(c, s0, s', header, key, rid, ids)
  {
    hide Valid, Contents, Ins, Splits, Spine, Unfold, NodeIns, Distinct, DistinctRun, Absent, Covers, Slot, Pids;
    var t0, level := TreeAt(s0, header), LevelAt(s0, header);
    SpinePage(c, s0, Spine(t0, key), 0, level, key);
    var n := level + 1;
    SpareOff(c, s0, header, key, rid, ids, n);
    assert SpareId(s0, header, ids[n]);
    var t' := RootOver(q, level, ids);
    HeldOff(s, s', q, level, {ids[n], header});
    HeldCanonical(s', q, level);
    assert Holds(s', t', n);
    SplitsBound(c, s0, t0, level, key, rid, ids, RootFloor(level), Pids(t0));
    InsertDone(c, s0, s', header, key, rid, ids);
    SameOffTrans(s0, s, s', Pids(t0) + Taken(ids, n), {ids[n], header}, Pids(TreeAt(s', header)) + {header});
  }

  /** What a successful insert leaves behind. */
  ghost predicate InsertResult(c: Config, s0: Store, s: Store, header: PageId, key: Key, rid: RID, ids: seq<PageId>)
    requires header in s0 && s0[header].HeaderPage? && s0[header].height >= 1
  {
    && IndexOk(c, s, header)
    && var es := Contents(TreeAt(s0, header));
    && Contents(TreeAt(s, header)) == Inserted(es, LowerIndex(es, key), LeafEntry(key, rid))
    && Pids(TreeAt(s, header)) == Pids(TreeAt(s0, header)) + PageSet(ids)
    && SameOff(s0, s, Pids(TreeAt(s, header)) + {header}) && s.Keys == s0.Keys
  }

  /** The climb as the code sees it: the new separator and right page still to be put into node i. */
  ghost predicate ClimbAt(c: Config, s0: Store, s: Store, header: PageId, i: int, key: Key, rid: RID, ids: seq<PageId>,
                          sep: Key, rightId: PageId) {
    && InsertCtx(c, s0, header, key, rid, ids)
    && var sp, level := Spine(TreeAt(s0, header), key), LevelAt(s0, header);
    && -1 <= i < level
    && var q := Ins(c, sp[i + 1], key, rid, ids);
    && Climb(c, s0, s, sp, i, level, q, ids) && Splits(c, sp[i + 1], key) == level - i
    && sep == q[1].key && rightId == q[1].pid
  }

  lemma {:induction false} ClimbParent(c: Config, s0: Store, s: Store, header: PageId, i: nat, key: Key, rid: RID,
                                       ids: seq<PageId>, sep: Key, rightId: PageId)
    requires ClimbAt(c, s0, s, header, i, key, rid, ids, sep, rightId)
    ensures var sp, level := Spine(TreeAt(s0, header), key), LevelAt(s0, header);
            && i < level && |sp| == level + 1 && sp[i].Nd? && sp[i].pid in s && s[sp[i].pid] == PageOf(sp[i])
            && InternalNodeOk(PageOf(sp[i])) && 2 <= |sp[i].kids| <= c.internalMax && Slot(sp[i], key) < |sp[i].kids|
    ensures var sp, level := Spine(TreeAt(s0, header), key), LevelAt(s0, header);
            |sp[i].kids| >= c.internalMax ==> level - i < |ids| && ids[level - i] != sp[i].pid && ids[level - i] in s
  {
    hide Valid, Contents, Ins, Splits, Spine, Unfold, NodeIns, Distinct, DistinctRun, Held, Holds, Absent, Covers,
      PagesNeeded;
    var sp, level := Spine(TreeAt(s0, header), key), LevelAt(s0, header);
    var q := Ins(c, sp[i + 1], key, rid, ids);
    ParentPage(c, s0, s, header, i, key, rid, q, ids);
    SpinePage(c, s0, sp, i, level, key);
    if |sp[i].kids| >= c.internalMax {
      ClimbRoom(c, s0, header, i, key, rid, ids);
      assert SpareId(s0, header, ids[level - i]);
      assert sp[i].pid in Pids(sp[i]);
    }
  }

  lemma {:induction false} ClimbEndsAt(c: Config, s0: Store, s: Store, s': Store, header: PageId, i: nat, key: Key,
                                       rid: RID, ids: seq<PageId>, sep: Key, rightId: PageId)
    requires ClimbAt(c, s0, s, header, i, key, rid, ids, sep, rightId)
    requires var t := Spine(TreeAt(s0, header), key)[i];
             && t.Nd? && |t.kids| < c.internalMax && Slot(t, key) < |t.kids|
             && s' == s[t.pid := InternalPage(t.level, t.next,
                Inserted(EntriesOf(t.kids), Slot(t, key) + 1, InternalEntry(sep, rightId)))]
    ensures InsertResult(c, s0, s', header, key, rid, ids)
  {
    hide Valid, Contents, Ins, Splits, Spine, Unfold, NodeIns, Distinct, DistinctRun, Held, Holds, Absent, Covers,
      PagesNeeded, Pids;
    var sp, level := Spine(TreeAt(s0, header), key), LevelAt(s0, header);
    var t, q := sp[i], Ins(c, sp[i + 1], key, rid, ids);
    SpinePage(c, s0, sp, i, level, key);
    NodeInsPagesOf(c, t, Slot(t, key), q, ids);
    InsUnfold(c, t, sp[i + 1], key, rid, ids);
    ClimbEnds(c, s0, s, s', header, i, key, rid, q, ids);
  }

  lemma {:induction false} ClimbStepAt(c: Config, s0: Store, s: Store, s': Store, header: PageId, i: nat, key: Key,
                                       rid: RID, ids: seq<PageId>, sep: Key, rightId: PageId, sep': Key)
    requires ClimbAt(c, s0, s, header, i, key, rid, ids, sep, rightId)
    requires var t, n := Spine(TreeAt(s0, header), key)[i], LevelAt(s0, header) - i;
             && t.Nd? && |t.kids| >= c.internalMax && Slot(t, key) < |t.kids| && n < |ids|
             && var all, m := Inserted(EntriesOf(t.kids), Slot(t, key) + 1, InternalEntry(sep, rightId)),
                SplitPoint(|t.kids|);
             && s' == s[t.pid := InternalPage(t.level, t.next, Canonical(all[..m]))]
                       [ids[n] := InternalPage(t.level, INVALID_PAGE, Canonical(all[m..]))]
             && sep' == all[m].key
    ensures ClimbAt(c, s0, s', header, i - 1, key, rid, ids, sep', ids[LevelAt(s0, header) - i])
  {
    hide Valid, Contents, Ins, Splits, Spine, Unfold, NodeIns, Distinct, DistinctRun, Held, Holds, Absent, Covers,
      PagesNeeded, Pids;
    var sp, level := Spine(TreeAt(s0, header), key), LevelAt(s0, header);
    var t, q := sp[i], Ins(c, sp[i + 1], key, rid, ids);
    SpinePage(c, s0, sp, i, level, key);
    NodeInsPagesOf(c, t, Slot(t, key), q, ids);
    InsUnfold(c, t, sp[i + 1], key, rid, ids);
    ClimbRoom(c, s0, header, i, key, rid, ids);
    ClimbStep(c, s0, s, s', header, i, key, rid, q, ids);
  }

  lemma {:induction false} RootClimbed(c: Config, s0: Store, s: Store, header: PageId, key: Key, rid: RID,
                                       ids: seq<PageId>, sep: Key, rightId: PageId)
    requires ClimbAt(c, s0, s, header, -1, key, rid, ids, sep, rightId)
    ensures header in s && s[header] == s0[header] && |ids| == LevelAt(s0, header) + 2
            && ids[LevelAt(s0, header) + 1] != header
  {
    hide Valid, Contents, Ins, Splits, Spine, Unfold, Distinct, DistinctRun, Held, Holds, Absent, Covers, Pids;
    SpareOff(c, s0, header, key, rid, ids, LevelAt(s0, header) + 1);
    assert Same(s0, s, header);
    assert SpareId(s0, header, ids[LevelAt(s0, header) + 1]);
  }

  lemma {:induction false} RootGrown(c: Config, s0: Store, s: Store, s': Store, header: PageId, key: Key, rid: RID,
                                     ids: seq<PageId>, sep: Key, rightId: PageId)
    requires ClimbAt(c, s0, s, header, -1, key, rid, ids, sep, rightId)
    requires var h, n := s0[header], LevelAt(s0, header) + 1;
             && |ids| == n + 1
             && s' == s[ids[n] := InternalPage(h.height, INVALID_PAGE,
                [InternalEntry(INT64_MIN, h.root), InternalEntry(sep, rightId)])]
                       [header := h.(root := ids[n], height := h.height + 1)]
    ensures InsertResult(c, s0, s', header, key, rid, ids)
  {
    hide Valid, Contents, Ins, Splits, Spine, Unfold, Distinct, DistinctRun, Held, Holds, Absent, Covers, Pids;
    var sp := Spine(TreeAt(s0, header), key);
    var q := Ins(c, sp[0], key, rid, ids);
    assert Canonical(EntriesOf(q)) == [InternalEntry(INT64_MIN, s0[header].root), InternalEntry(sep, rightId)];
    ClimbRoot(c, s0, s, s', header, key, rid, q, ids);
  }

  /** After a successful allocation the mutate phase may start. */
  lemma {:induction false} InsertReady(c: Config, s: Store, s0: Store, header: PageId, key: Key, rid: RID,
                                       ids: seq<PageId>)
    requires IndexOk(c, s, header) && Absent(Contents(TreeAt(s, header)), key)
    requires (forall p | p in s :: p in s0 && s0[p] == s[p]) && s0.Keys == s.Keys + PageSet(ids)
    requires |ids| == PagesNeeded(c, TreeAt(s, header), LevelAt(s, header), key) && AllDistinct(ids)
    requires forall i | 0 <= i < |ids| :: IsDataPage(ids[i]) && ids[i] !in s
    requires var sp := Spine(TreeAt(s, header), key); var leaf := sp[|sp| - 1]; leaf.Lf? && |leaf.es| >= c.leafMax
    ensures InsertCtx(c, s0, header, key, rid, ids)
    ensures TreeAt(s0, header) == TreeAt(s, header) && Splits(c, TreeAt(s, header), key) > 0
    ensures s0[header] == s[header]
  {
    hide Valid, Contents, Ins, Spine, Unfold, Distinct, DistinctRun, Held, Holds, Absent, Covers, Pids;
    AllocatedKeeps(c, s, s0, header);
    DescentFacts(c, s0, header, key);
    var sp, level := Spine(TreeAt(s0, header), key), LevelAt(s0, header);
    SpinePage(c, s0, sp, level, level, key);
    SplitsGrow(c, s0, sp, level, level, key);
    forall i | 0 <= i < |ids| ensures SpareId(s0, header, ids[i]) {
      assert ids[i] in PageSet(ids);
    }
  }

  /** The whole insert, from the store before the allocation to the store after the last write. */
  lemma {:induction false} InsertOutcome(c: Config, s: Store, s0: Store, s': Store, header: PageId, key: Key, rid: RID,
                                         ids: seq<PageId>)
    requires IndexOk(c, s, header) && IndexOk(c, s0, header) && TreeAt(s0, header) == TreeAt(s, header)
    requires (forall p | p in s :: p in s0 && s0[p] == s[p]) && s0.Keys == s.Keys + PageSet(ids)
    requires forall i | 0 <= i < |ids| :: ids[i] !in s
    requires InsertResult(c, s0, s', header, key, rid, ids)
    ensures Pids(TreeAt(s', header)) == Pids(TreeAt(s, header)) + (s'.Keys - s.Keys)
    ensures s.Keys <= s'.Keys && SameOff(s, s', Pids(TreeAt(s', header)) + {header})
  {
    hide Valid, Contents, Unfold, Distinct, Pids;
    assert s'.Keys - s.Keys == PageSet(ids);
    forall p | p !in Pids(TreeAt(s', header)) + {header} ensures Same(s, s', p) {
      assert Same(s0, s', p);
    }
  }
}
