/** How big a legal tree must be for its height, and so how tall it can get. */
module TreeBounds {
  import opened Common
  import opened Nodes
  import opened Trees
  import opened TreeRuns
  import opened TreeInsert
  import opened TreeSpine
  import opened TreeIndex
  import opened TreeApply
  import opened IndexScan

  function Power(b: nat, n: nat): nat {
    if n == 0 then 1 else b * Power(b, n - 1)
  }

  /** The fewest leaves under a legal node `level` levels above the leaves, which has `min` children or more. */
  function FewestLeaves(c: Config, level: nat, min: nat): nat {
    if level == 0 then 1 else min * Power(InternalMinChildren(c.internalMax), level - 1)
  }

  lemma {:induction false} LeavesOfNode(c: Config, t: Tree, level: nat, lo: Key, hi: Option<Key>, min: nat)
    requires Valid(c, t, level, lo, hi, min)
    ensures FewestLeaves(c, level, min) <= |LeafList(t)|
    ensures level == 0 ==> min <= |Contents(t)| && |LeafList(t)| == 1
    ensures level > 0 ==> Times(LeafMinEntries(c.leafMax), |LeafList(t)|) <= |Contents(t)|
    decreases level, 0
  {
    if t.Nd? {
      LeavesOfRun(c, t.kids, level - 1, lo, hi, 0);
      var w := Power(InternalMinChildren(c.internalMax), level - 1);
      assert FewestLeaves(c, level - 1, Floor(c, level - 1)) == w;
      assert t.kids[0..] == t.kids;
      MulMono(min, |t.kids|, w);
    }
  }

  lemma MulMono(a: nat, b: nat, w: nat)
    requires a <= b
    ensures a * w <= Times(b, w)
  {
  }

  function Times(a: nat, b: nat): nat { a * b }

  /** The last siblings of a run, from the i-th on. */
  lemma {:induction false} LeavesOfRun(c: Config, ks: seq<Tree>, level: nat, lo: Key, hi: Option<Key>, i: nat)
    requires ValidRun(c, ks, level, lo, hi) && i <= |ks|
    ensures Times(|ks| - i, FewestLeaves(c, level, Floor(c, level))) <= |LeavesOf(ks[i..])|
    ensures Times(LeafMinEntries(c.leafMax), |LeavesOf(ks[i..])|) <= |Flat(ks[i..])|
    decreases level, 1, |ks| - i
  {
    hide Trees.Valid, LeavesOf, Flat, LeafList, Contents, FewestLeaves, LeafMinEntries, Times;
    var w, e := FewestLeaves(c, level, Floor(c, level)), LeafMinEntries(c.leafMax);
    if i == |ks| {
      RunEnd(ks, w, e);
    } else {
      assert KidOk(c, ks, i, level, lo, hi);
      LeavesOfNode(c, ks[i], level, KidLo(ks, i, lo), KidHi(ks, i, hi), Floor(c, level));
      LeavesOfRun(c, ks, level, lo, hi, i + 1);
      RunAt(ks, i);
      TimesSum(|ks| - i - 1, w, e, |LeafList(ks[i])|, |LeavesOf(ks[i + 1..])|);
      OneLeafKid(c, ks[i], level, KidLo(ks, i, lo), KidHi(ks, i, hi), Floor(c, level));
    }
  }

  lemma TimesSum(n: nat, w: nat, e: nat, a: nat, b: nat)
    ensures Times(n + 1, w) == Times(n, w) + w && Times(e, a + b) == Times(e, a) + Times(e, b)
  {
  }

  /** A legal non-root node holds at least the floor's worth of keys for each of its leaves. */
  lemma OneLeafKid(c: Config, t: Tree, level: nat, lo: Key, hi: Option<Key>, min: nat)
    requires Valid(c, t, level, lo, hi, min) && min == Floor(c, level)
    requires level > 0 ==> Times(LeafMinEntries(c.leafMax), |LeafList(t)|) <= |Contents(t)|
    ensures Times(LeafMinEntries(c.leafMax), |LeafList(t)|) <= |Contents(t)|
  {
  }

  lemma RunEnd(ks: seq<Tree>, w: nat, e: nat)
    ensures LeavesOf(ks[|ks|..]) == [] && Flat(ks[|ks|..]) == [] && Times(0, w) == 0 && Times(e, 0) == 0
  {
  }

  lemma RunAt(ks: seq<Tree>, i: nat)
    requires i < |ks|
    ensures LeavesOf(ks[i..]) == LeafList(ks[i]) + LeavesOf(ks[i + 1..])
    ensures Flat(ks[i..]) == Contents(ks[i]) + Flat(ks[i + 1..])
  {
    hide LeafList, Contents;
    assert ks[i..][0] == ks[i] && ks[i..][1..] == ks[i + 1..];
  }

  /** A legal tree of height two or more: its leaves and its keys. */
  lemma {:induction false} TreeSize(c: Config, s: Store, header: PageId)
    requires IndexOk(c, s, header) && s[header].height >= 2
    ensures var t := TreeAt(s, header);
            && 2 * Power((c.internalMax + 1) / 2, s[header].height - 2) <= |LeafList(t)|
            && (c.leafMax / 2) * |LeafList(t)| <= |Contents(t)|
  {
    var level := s[header].height - 1;
    LeavesOfNode(c, TreeAt(s, header), level, INT64_MIN, None, RootFloor(level));
  }

  // ---------- pages bound leaves ----------

  ghost function LeafPids(ls: seq<Tree>): set<PageId> {
    set l | l in ls :: l.pid
  }

  /** Distinct leaves of a tree that reaches no page twice are on distinct pages. */
  lemma {:induction false} LeavesAreDistinct(t: Tree)
    requires Distinct(t)
    ensures LeafPids(LeafList(t)) <= Pids(t) && |LeafPids(LeafList(t))| == |LeafList(t)|
    decreases t, 0
  {
    if t.Lf? {
      assert LeafPids([t]) == {t.pid};
    } else if t.Nd? {
      RunLeavesAreDistinct(t.kids);
    } else {
      assert LeafPids(LeafList(t)) == {};
    }
  }

  lemma {:induction false} RunLeavesAreDistinct(ks: seq<Tree>)
    requires DistinctRun(ks)
    ensures LeafPids(LeavesOf(ks)) <= RunPids(ks) && |LeafPids(LeavesOf(ks))| == |LeavesOf(ks)|
    decreases ks, 1
  {
    hide Distinct, DistinctRun, Pids, RunPids, LeafPids;
    if ks == [] {
      NoLeafPids();
    } else {
      FirstApart(ks);
      LeavesAreDistinct(ks[0]);
      RunLeavesAreDistinct(ks[1..]);
      LeafPidsConcat(LeafList(ks[0]), LeavesOf(ks[1..]));
    }
  }

  lemma NoLeafPids()
    ensures LeafPids([]) == {}
  {
  }

  lemma LeafPidsConcat(a: seq<Tree>, b: seq<Tree>)
    ensures LeafPids(a + b) == LeafPids(a) + LeafPids(b)
  {
  }

  lemma FirstApart(ks: seq<Tree>)
    requires DistinctRun(ks) && ks != []
    ensures Distinct(ks[0]) && DistinctRun(ks[1..]) && Pids(ks[0]) !! RunPids(ks[1..])
    ensures Pids(ks[0]) + RunPids(ks[1..]) <= RunPids(ks)
  {
    assert ks == [ks[0]] + ks[1..];
    PidsOfRun([ks[0]]);
    RunPidsConcat([ks[0]], ks[1..]);
    forall p | p in RunPids(ks[1..]) ensures p !in Pids(ks[0]) {
      var i: nat :| i < |ks[1..]| && p in Pids(ks[1..][i]);
      assert Pids(ks[0]) !! Pids(ks[i + 1]);
    }
  }

  const PAGE_ID_LIMIT: nat := 0x8000_0000

  lemma {:induction false} FewIds(ps: set<PageId>, n: nat)
    requires forall p | p in ps :: 0 <= p < n
    ensures |ps| <= n
  {
    if n == 0 {
      assert forall p: PageId :: p !in ps;
    } else {
      FewIds(ps - {n - 1}, n - 1);
    }
  }

  lemma {:induction false} PowerGrows(b: nat, n: nat)
    requires b >= 2
    ensures Power(b, n) >= Power(2, n) > 0
  {
    if n > 0 { PowerGrows(b, n - 1); MulBoth(b, Power(b, n - 1), Power(2, n - 1)); }
  }

  lemma MulBoth(b: nat, x: nat, y: nat)
    requires b >= 2 && x >= y
    ensures b * x >= 2 * y
  {
  }

  lemma {:induction false} PowerMono(n: nat, m: nat)
    requires n <= m
    ensures Power(2, n) <= Power(2, m)
  {
    if n < m { PowerMono(n, m - 1); }
  }

  lemma PowerThirty()
    ensures Power(2, 30) == 0x4000_0000
  {
    assert Power(2, 6) == 64;
    PowerAdd(6, 6);
    PowerAdd(12, 12);
    PowerAdd(24, 6);
  }

  lemma {:induction false} PowerAdd(n: nat, m: nat)
    ensures Power(2, n + m) == Power(2, n) * Power(2, m)
  {
    if n > 0 { PowerAdd(n - 1, m); }
  }

  /** Page ids are non-negative 32-bit integers, so no legal tree is taller than 32 levels: the 16-bit
      height and the 16-bit levels never wrap, and the pinned path is short. */
  lemma {:induction false} HeightBounded(c: Config, s: Store, header: PageId)
    requires IndexOk(c, s, header)
    requires forall p | p in Pids(TreeAt(s, header)) :: 0 <= p < PAGE_ID_LIMIT
    ensures s[header].height <= 32
  {
    var t, h := TreeAt(s, header), s[header].height;
    if h > 32 {
      TreeSize(c, s, header);
      LeavesAreDistinct(t);
      var ls := LeafPids(LeafList(t));
      assert forall p | p in ls :: p in Pids(t);
      FewIds(ls, PAGE_ID_LIMIT);
      var m := InternalMinChildren(c.internalMax);
      PowerGrows(m, h - 2);
      PowerMono(31, h - 2);
      PowerAdd(1, 30);
      PowerThirty();
      assert false;
    }
  }

  // ---------- pages held at once ----------

  /** Insert holds the header, the path, and the pages it allocates: one for each split and one for a
      new root. */
  lemma {:induction false} InsertFootprint(c: Config, s: Store, header: PageId, key: Key)
    requires IndexOk(c, s, header)
    ensures var t, h := TreeAt(s, header), s[header].height;
            var n := Splits(c, t, key);
            1 + |Spine(t, key)| + n + (if n == h then 1 else 0) <= 2 * h + 2
  {
    hide Trees.Valid, Contents, Spine, Unfold, Distinct, Covers, Pids, Splits, Ins;
    var t, level := TreeAt(s, header), s[header].height - 1;
    DescentFacts(c, s, header, key);
    SpineLength(c, s, Spine(t, key), level, key);
    SplitsExact(c, t, level, INT64_MIN, None, RootFloor(level), key, RID(0, 0), []);
  }

  /** Delete holds the header, the path, and one sibling for each planned step. */
  lemma {:induction false} DeleteFootprint(c: Config, s: Store, header: PageId, key: Key, plan: DeletePlan)
    requires IndexOk(c, s, header) && PlanOk(c, Spine(TreeAt(s, header), key), s[header].height - 1, key, plan)
    ensures 1 + |Spine(TreeAt(s, header), key)| + |plan.steps| <= 2 * s[header].height
  {
    hide Trees.Valid, Contents, Spine, Unfold, Distinct, Covers, Pids;
    DescentFacts(c, s, header, key);
    SpineLength(c, s, Spine(TreeAt(s, header), key), s[header].height - 1, key);
  }
}
