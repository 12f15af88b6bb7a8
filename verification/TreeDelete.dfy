/**
 * Delete on trees.  Removing an entry may leave a node one short of its floor; its parent then
 * either moves one entry over from a sibling or merges the two, which may in turn leave the parent
 * one short.
 */
module TreeDelete {
  import opened Common
  import opened Nodes
  import opened Trees
  import opened TreeRuns
  import opened TreeInsert

  /** A subtree after a delete, and the pages it no longer reaches in the order they were dropped. */
  datatype Shrunk = Shrunk(t: Tree, freed: seq<PageId>)

  /** The children of two adjacent nodes, with the separator between the nodes brought down. */
  ghost function JoinedKids(l: Tree, r: Tree): seq<Tree>
    requires l.Nd? && r.Nd?
  {
    l.kids + if r.kids == [] then [] else r.kids[0 := r.kids[0].(key := r.key)]
  }

  /** Two siblings dealt out again, `cut` entries to the left one. */
  ghost function Redeal(l: Tree, r: Tree, cut: nat): (run: seq<Tree>)
    ensures run != [] && run[0].key == l.key && run[0].pid == l.pid
  {
    if l.Lf? && r.Lf? && cut < |l.es + r.es| then
      var all := l.es + r.es;
      [l.(es := all[..cut]), r.(key := all[cut].key, es := all[cut..])]
    else if l.Nd? && r.Nd? && cut < |JoinedKids(l, r)| then
      var all := JoinedKids(l, r);
      [l.(kids := all[..cut]), r.(key := all[cut].key, kids := CanonicalRun(all[cut..]))]
    else [l, r]
  }

  /** The right sibling's contents appended to the left one, which takes over its leaf link. */
  ghost function Merge(l: Tree, r: Tree): (t: Tree)
    ensures t.key == l.key && t.pid == l.pid
  {
    if l.Lf? && r.Lf? then l.(es := l.es + r.es, next := r.next)
    else if l.Nd? && r.Nd? then l.(kids := JoinedKids(l, r))
    else l
  }

  /** Whether the sibling (the left one if fromLeft) can lend: it is above its floor. */
  ghost predicate Lends(c: Config, l: Tree, r: Tree, level: nat, fromLeft: bool) {
    Count(if fromLeft then l else r) > Floor(c, level)
  }

  /** The run that replaces an underfull node and its sibling. */
  ghost function PairFix(c: Config, l: Tree, r: Tree, level: nat, fromLeft: bool): (run: seq<Tree>)
    ensures run != [] && run[0].key == l.key && run[0].pid == l.pid
  {
    if Lends(c, l, r, level, fromLeft)
    then Redeal(l, r, if fromLeft && Count(l) > 0 then Count(l) - 1 else Count(l) + 1)
    else [Merge(l, r)]
  }

  ghost function Del(c: Config, t: Tree, key: Key): (d: Shrunk)
    ensures d.t.key == t.key && d.t.pid == t.pid
  {
    match t
    case Lf(_, _, _, _, es) =>
      var i := LowerIndex(es, key);
      Shrunk(if i < |es| then t.(es := Removed(es, i)) else t, [])
    case Nd(_, _, _, _, ks) =>
      if ks == [] then Shrunk(t, [])
      else
        var i := ChildIndex(EntriesOf(ks), key);
        NodeDel(c, t, i, Del(c, ks[i], key))
    case Broken(_, _) => Shrunk(t, [])
  }

  /** Whether child i of a run is one short and has a sibling to be fixed from. */
  ghost predicate Short(c: Config, ks: seq<Tree>, i: nat, level: nat) {
    |ks| >= 2 && i < |ks| && Count(ks[i]) < Floor(c, level)
  }

  /** The left one of the pair a short child is fixed in: its left sibling when there is one. */
  function PairAt(i: nat): nat { if i > 0 then i - 1 else 0 }

  ghost function FixedKids(c: Config, ks: seq<Tree>, i: nat, level: nat): seq<Tree> {
    if !Short(c, ks, i, level) then ks
    else
      var j := PairAt(i);
      Spliced(ks, j, j + 2, PairFix(c, ks[j], ks[j + 1], level, i > 0))
  }

  /** The page a merge drops, if the fix is one. */
  ghost function FreedBy(c: Config, ks: seq<Tree>, i: nat, level: nat): seq<PageId> {
    var j := PairAt(i);
    if !Short(c, ks, i, level) || Lends(c, ks[j], ks[j + 1], level, i > 0) then [] else [ks[j + 1].pid]
  }

  /** Child i replaced by what is left of it, and fixed if that is one short. */
  ghost function NodeDel(c: Config, t: Tree, i: nat, d: Shrunk): (r: Shrunk)
    requires t.Nd? && i < |t.kids|
    ensures r.t.key == t.key && r.t.pid == t.pid
  {
    var ks, level := t.kids[i := d.t], if t.level > 0 then t.level - 1 else 0;
    Shrunk(t.(kids := FixedKids(c, ks, i, level)), d.freed + FreedBy(c, ks, i, level))
  }

  // ---------- the invariant ----------

  /** At most one entry short of before, and legal but for that. */
  ghost predicate ShrunkOk(c: Config, t: Tree, t': Tree, level: nat, lo: Key, hi: Option<Key>) {
    Valid(c, t', level, lo, hi, Count(t')) && Count(t) <= Count(t') + 1
  }

  lemma {:induction false} LeafPairOk(c: Config, l: Tree, r: Tree, lo: Key, hi: Option<Key>, ml: nat, mr: nat)
    requires l.Lf? && r.Lf? && Valid(c, l, 0, lo, Some(r.key), ml) && Valid(c, r, 0, r.key, hi, mr)
    requires lo <= r.key && Below(r.key, hi)
    ensures EntriesOk(l.es + r.es, lo, hi)
  {
    var all := l.es + r.es;
    forall i, j | 0 <= i < j < |all| ensures all[i].key < all[j].key {
      if i < |l.es| <= j {
        assert InRange(l.es[i].key, lo, Some(r.key)) && InRange(r.es[j - |l.es|].key, r.key, hi);
      }
    }
    forall k | 0 <= k < |all| ensures InRange(all[k].key, lo, hi) {
      var e := all[k];
      assert if k < |l.es| then e == l.es[k] else e == r.es[k - |l.es|];
      assert InRange(e.key, lo, Some(r.key)) || InRange(e.key, r.key, hi);
    }
  }

  lemma {:induction false} NodePairOk(c: Config, l: Tree, r: Tree, level: nat, lo: Key, hi: Option<Key>, ml: nat,
                                      mr: nat)
    requires l.Nd? && r.Nd? && Valid(c, l, level, lo, Some(r.key), ml) && Valid(c, r, level, r.key, hi, mr)
    requires l.kids != [] && r.kids != []
    ensures ValidRun(c, JoinedKids(l, r), level - 1, lo, hi)
    ensures JoinedKids(l, r)[0].key == INT64_MIN
  {
    var b, kl := r.kids[0 := r.kids[0].(key := r.key)], level - 1;
    assert EntriesOf(l.kids)[0].key == INT64_MIN;
    forall i | 0 <= i < |b| ensures KidOk(c, b, i, kl, r.key, hi) {
      assert KidOk(c, r.kids, i, kl, r.key, hi);
      RekeyValid(c, r.kids[0], r.key, kl, r.key, KidHi(r.kids, 0, hi), Floor(c, kl));
    }
    JoinRun(c, l.kids, b, r.key, kl, lo, hi);
  }

  lemma {:induction false} RedealValid(c: Config, l: Tree, r: Tree, cut: nat, level: nat, lo: Key, hi: Option<Key>,
                                       ml: nat, mr: nat)
    requires Valid(c, l, level, lo, Some(r.key), ml) && Valid(c, r, level, r.key, hi, mr)
    requires lo <= r.key && Below(r.key, hi) && IsDataPage(r.pid) && (level > 0 ==> ml > 0 && mr > 0)
    requires Floor(c, level) <= cut <= (if level == 0 then c.leafMax else c.internalMax)
    requires Floor(c, level) <= Count(l) + Count(r) - cut <= (if level == 0 then c.leafMax else c.internalMax)
    ensures |Redeal(l, r, cut)| == 2 && RunOk(c, Redeal(l, r, cut), level, lo, hi, 0)
  {
    if level == 0 {
      var all := l.es + r.es;
      LeafPairOk(c, l, r, lo, hi, ml, mr);
      LeafHalf(c, all, 0, cut, l.key, l.pid, l.next, lo, hi);
      LeafHalf(c, all, cut, |all|, all[cut].key, r.pid, r.next, lo, hi);
      assert all[..cut] == all[0..cut] && all[cut..] == all[cut..|all|];
      assert all[cut - 1].key < all[cut].key;
    } else {
      NodePairOk(c, l, r, level, lo, hi, ml, mr);
      CutIntoTwo(c, l.key, l.pid, r.pid, JoinedKids(l, r), cut, level, lo, hi);
    }
  }

  lemma {:induction false} MergeValid(c: Config, l: Tree, r: Tree, level: nat, lo: Key, hi: Option<Key>, ml: nat,
                                      mr: nat)
    requires Valid(c, l, level, lo, Some(r.key), ml) && Valid(c, r, level, r.key, hi, mr)
    requires lo <= r.key && Below(r.key, hi) && (level > 0 ==> ml > 0 && mr > 0)
    requires Floor(c, level) <= Count(l) + Count(r) <= (if level == 0 then c.leafMax else c.internalMax)
    ensures Valid(c, Merge(l, r), level, lo, hi, Floor(c, level))
  {
    if level == 0 {
      LeafPairOk(c, l, r, lo, hi, ml, mr);
      assert EntriesOk(Merge(l, r).es, lo, hi);
    } else {
      NodePairOk(c, l, r, level, lo, hi, ml, mr);
      MakeNode(c, l.key, l.pid, JoinedKids(l, r), level, lo, hi, Floor(c, level));
    }
  }

  /** Whichever node is underfull, the fixed pair is legal again. */
  lemma {:induction false} PairFixValid(c: Config, l: Tree, r: Tree, level: nat, fromLeft: bool, lo: Key,
                                        hi: Option<Key>)
    requires Valid(c, l, level, lo, Some(r.key), Count(l)) && Valid(c, r, level, r.key, hi, Count(r))
    requires lo <= r.key && Below(r.key, hi) && IsDataPage(l.pid) && IsDataPage(r.pid)
    requires Count(if fromLeft then r else l) == Floor(c, level) - 1
    requires Count(if fromLeft then l else r) >= Floor(c, level)
    ensures ValidRun(c, PairFix(c, l, r, level, fromLeft), level, lo, hi)
    ensures |PairFix(c, l, r, level, fromLeft)| == if Lends(c, l, r, level, fromLeft) then 2 else 1
  {
    var run := PairFix(c, l, r, level, fromLeft);
    if Lends(c, l, r, level, fromLeft) {
      RedealValid(c, l, r, if fromLeft then Count(l) - 1 else Count(l) + 1, level, lo, hi, Count(l), Count(r));
      RunOkValidRun(c, run, level, lo, hi, 0);
    } else {
      MergeValid(c, l, r, level, lo, hi, Count(l), Count(r));
      RunOkValidRun(c, run, level, lo, hi, Floor(c, level));
    }
  }

  lemma {:induction false} NodeDelValid(c: Config, t: Tree, i: nat, d: Shrunk, level: nat, lo: Key, hi: Option<Key>,
                                        min: nat)
    requires t.Nd? && Valid(c, t, level, lo, hi, min) && |t.kids| >= 2 && i < |t.kids|
    requires d.t.key == t.kids[i].key && d.t.pid == t.kids[i].pid
    requires ShrunkOk(c, t.kids[i], d.t, level - 1, KidLo(t.kids, i, lo), KidHi(t.kids, i, hi))
    ensures ShrunkOk(c, t, NodeDel(c, t, i, d).t, level, lo, hi)
  {
    assert t.kids[0].key == EntriesOf(t.kids)[0].key == INT64_MIN;
    FixedKidsValid(c, t.kids, i, d.t, level - 1, lo, hi);
    var ks' := FixedKids(c, t.kids[i := d.t], i, level - 1);
    MakeNode(c, t.key, t.pid, ks', level, lo, hi, |ks'|);
    assert NodeDel(c, t, i, d).t == t.(kids := ks');
  }

  /** A child that is not short takes the old one's place as it is. */
  lemma {:induction false} LongKidValid(c: Config, ks: seq<Tree>, i: nat, k: Tree, level: nat, lo: Key, hi: Option<Key>)
    requires ValidRun(c, ks, level, lo, hi) && i < |ks| && k.key == ks[i].key && k.pid == ks[i].pid
    requires ShrunkOk(c, ks[i], k, level, KidLo(ks, i, lo), KidHi(ks, i, hi)) && Count(k) >= Floor(c, level)
    ensures ValidRun(c, ks[i := k], level, lo, hi)
  {
    hide Valid;
    assert KidOk(c, ks, i, level, lo, hi);
    RunOkValidRun(c, [k], level, KidLo(ks, i, lo), KidHi(ks, i, hi), Count(k));
    hide ValidRun;
    SpliceValid(c, ks, i, i + 1, [k], level, lo, hi);
    assert ks[i := k] == Spliced(ks, i, i + 1, [k]);
  }

  lemma {:induction false} FixedKidsValid(c: Config, ks: seq<Tree>, i: nat, k: Tree, level: nat, lo: Key,
                                          hi: Option<Key>)
    requires ValidRun(c, ks, level, lo, hi) && |ks| >= 2 && i < |ks| && k.key == ks[i].key && k.pid == ks[i].pid
    requires ShrunkOk(c, ks[i], k, level, KidLo(ks, i, lo), KidHi(ks, i, hi))
    ensures var ks' := FixedKids(c, ks[i := k], i, level);
            && |ks| - 1 <= |ks'| <= |ks| && ks'[0].key == ks[0].key
            && ValidRun(c, ks', level, lo, hi)
  {
    hide PairFix, Contents, Pids, Distinct, Chained, Valid, ValidRun;
    if Count(k) >= Floor(c, level) {
      LongKidValid(c, ks, i, k, level, lo, hi);
    } else {
      FixedPairValid(c, ks, i, k, level, lo, hi);
      var j := PairAt(i);
      var run := PairFix(c, ks[i := k][j], ks[i := k][j + 1], level, i > 0);
      SpliceValid(c, ks, j, j + 2, run, level, lo, hi);
      assert Spliced(ks[i := k], j, j + 2, run) == Spliced(ks, j, j + 2, run);
    }
  }

  lemma {:induction false} FixedPairValid(c: Config, ks: seq<Tree>, i: nat, k: Tree, level: nat, lo: Key,
                                          hi: Option<Key>)
    requires ValidRun(c, ks, level, lo, hi) && |ks| >= 2 && i < |ks| && k.key == ks[i].key && k.pid == ks[i].pid
    requires ShrunkOk(c, ks[i], k, level, KidLo(ks, i, lo), KidHi(ks, i, hi)) && Count(k) < Floor(c, level)
    ensures var j := PairAt(i);
            var run := PairFix(c, ks[i := k][j], ks[i := k][j + 1], level, i > 0);
            1 <= |run| <= 2 && ValidRun(c, run, level, KidLo(ks, j, lo), KidHi(ks, j + 1, hi))
  {
    var j := PairAt(i);
    var fl := Floor(c, level);
    assert KidOk(c, ks, j, level, lo, hi) && KidOk(c, ks, j + 1, level, lo, hi);
    KidInterval(c, ks, j, level, lo, hi);
    KidInterval(c, ks, j + 1, level, lo, hi);
    CountIsMin(c, ks[j], level, KidLo(ks, j, lo), KidHi(ks, j, hi), fl);
    CountIsMin(c, ks[j + 1], level, KidLo(ks, j + 1, lo), KidHi(ks, j + 1, hi), fl);
    PairFixValid(c, ks[i := k][j], ks[i := k][j + 1], level, i > 0, KidLo(ks, j, lo), KidHi(ks, j + 1, hi));
  }

  /** Any floor a node meets can be replaced by its own count. */
  lemma CountIsMin(c: Config, t: Tree, level: nat, lo: Key, hi: Option<Key>, min: nat)
    requires Valid(c, t, level, lo, hi, min)
    ensures Valid(c, t, level, lo, hi, Count(t)) && Count(t) >= min
  {
  }

  lemma {:induction false} LeafDelValid(c: Config, t: Tree, lo: Key, hi: Option<Key>, min: nat, i: nat)
    requires t.Lf? && Valid(c, t, 0, lo, hi, min)
    ensures ShrunkOk(c, t, if i < |t.es| then t.(es := Removed(t.es, i)) else t, 0, lo, hi)
  {
    if i < |t.es| {
      var es := Removed(t.es, i);
      assert forall k | 0 <= k < |es| :: es[k] == t.es[if k < i then k else k + 1];
    }
  }

  lemma {:induction false} DelValid(c: Config, t: Tree, level: nat, lo: Key, hi: Option<Key>, min: nat, key: Key)
    requires Valid(c, t, level, lo, hi, min) && InRange(key, lo, hi) && (level > 0 ==> min >= 2)
    ensures ShrunkOk(c, t, Del(c, t, key).t, level, lo, hi)
    decreases level
  {
    if t.Lf? {
      LeafDelValid(c, t, lo, hi, min, LowerIndex(t.es, key));
    } else {
      var ks := t.kids;
      ChildCovers(c, ks, key, level - 1, lo, hi);
      var i := ChildIndex(EntriesOf(ks), key);
      DelValid(c, ks[i], level - 1, KidLo(ks, i, lo), KidHi(ks, i, hi), Floor(c, level - 1), key);
      NodeDelValid(c, t, i, Del(c, ks[i], key), level, lo, hi, min);
    }
  }

  // ---------- the contents ----------

  lemma {:induction false} RedealFlat(l: Tree, r: Tree, cut: nat)
    ensures Flat(Redeal(l, r, cut)) == Contents(l) + Contents(r)
  {
    hide Flat, JoinedKids, CanonicalRun;
    FlatRun(Redeal(l, r, cut));
    if l.Nd? && r.Nd? && cut < |JoinedKids(l, r)| {
      JoinedFlat(l, r);
      DealtFlat(JoinedKids(l, r), cut);
    }
  }

  lemma {:induction false} DealtFlat(all: seq<Tree>, cut: nat)
    requires cut <= |all|
    ensures Flat(all[..cut]) + Flat(CanonicalRun(all[cut..])) == Flat(all)
  {
    hide Flat, CanonicalRun;
    CanonicalRunKeeps(all[cut..], INVALID_PAGE);
    FlatConcat(all[..cut], all[cut..]);
    assert all[..cut] + all[cut..] == all;
  }

  lemma {:induction false} JoinedFlat(l: Tree, r: Tree)
    requires l.Nd? && r.Nd?
    ensures Flat(JoinedKids(l, r)) == Contents(l) + Contents(r)
  {
    if r.kids != [] {
      var b := r.kids[0 := r.kids[0].(key := r.key)];
      FlatConcat(l.kids, b);
      RekeyKeeps(r.kids[0], r.key, INVALID_PAGE);
      assert b[1..] == r.kids[1..];
    } else {
      assert JoinedKids(l, r) == l.kids;
    }
  }

  /** Both nodes of a pair at the same level, so that a merge has something to merge. */
  ghost predicate SameKind(l: Tree, r: Tree) { (l.Lf? && r.Lf?) || (l.Nd? && r.Nd? && l.kids != [] && r.kids != []) }

  lemma {:induction false} PairFixFlat(c: Config, l: Tree, r: Tree, level: nat, fromLeft: bool)
    requires SameKind(l, r)
    ensures Flat(PairFix(c, l, r, level, fromLeft)) == Contents(l) + Contents(r)
  {
    if Lends(c, l, r, level, fromLeft) {
      RedealFlat(l, r, if fromLeft && Count(l) > 0 then Count(l) - 1 else Count(l) + 1);
    } else {
      FlatRun([Merge(l, r)]);
      if l.Nd? { JoinedFlat(l, r); }
    }
  }

  lemma {:induction false} FixedKidsFlat(c: Config, ks: seq<Tree>, i: nat, level: nat)
    requires Short(c, ks, i, level) ==> SameKind(ks[PairAt(i)], ks[PairAt(i) + 1])
    ensures Flat(FixedKids(c, ks, i, level)) == Flat(ks)
  {
    hide PairFix, Redeal, Merge, SameKind, Flat, Contents, Spliced;
    if Short(c, ks, i, level) {
      var j := PairAt(i);
      PairFixFlat(c, ks[j], ks[j + 1], level, i > 0);
      PairSpliceFlat(ks, j, PairFix(c, ks[j], ks[j + 1], level, i > 0));
    }
  }

  /** A pair of siblings replaced by a run with the same entries. */
  lemma {:induction false} PairSpliceFlat(ks: seq<Tree>, j: nat, run: seq<Tree>)
    requires j + 2 <= |ks| && Flat(run) == Contents(ks[j]) + Contents(ks[j + 1])
    ensures Flat(Spliced(ks, j, j + 2, run)) == Flat(ks)
  {
    hide Contents, Flat;
    var pair := [ks[j], ks[j + 1]];
    SpliceFlat(ks, j, j + 2, run);
    SpliceFlat(ks, j, j + 2, pair);
    FlatRun(pair);
    assert Spliced(ks, j, j + 2, pair) == ks;
  }

  /** The pair a short child is fixed in is of one kind. */
  lemma {:induction false} PairKind(c: Config, ks: seq<Tree>, i: nat, k: Tree, level: nat, lo: Key, hi: Option<Key>)
    requires ValidRun(c, ks, level, lo, hi) && i < |ks|
    requires ShrunkOk(c, ks[i], k, level, KidLo(ks, i, lo), KidHi(ks, i, hi))
    ensures |ks| >= 2 ==> SameKind(ks[i := k][PairAt(i)], ks[i := k][PairAt(i) + 1])
  {
    if |ks| >= 2 {
      var j := PairAt(i);
      assert KidOk(c, ks, j, level, lo, hi) && KidOk(c, ks, j + 1, level, lo, hi);
      CountIsMin(c, ks[j], level, KidLo(ks, j, lo), KidHi(ks, j, hi), Floor(c, level));
      CountIsMin(c, ks[j + 1], level, KidLo(ks, j + 1, lo), KidHi(ks, j + 1, hi), Floor(c, level));
    }
  }

  /** es' is es without the entry at the lower bound of `key`. */
  ghost predicate LessKey(es: seq<LeafEntry>, es': seq<LeafEntry>, key: Key) {
    LowerIndex(es, key) < |es| && es' == Removed(es, LowerIndex(es, key))
  }

  lemma RemovedInMiddle<T>(a: seq<T>, b: seq<T>, d: seq<T>, p: nat)
    requires p < |b|
    ensures a + Removed(b, p) + d == Removed(a + b + d, |a| + p)
  {
  }

  lemma {:induction false} NodeDelContents(c: Config, t: Tree, i: nat, d: Shrunk, key: Key)
    requires t.Nd? && i < |t.kids| && t.level > 0
    requires |t.kids| >= 2 ==> SameKind(t.kids[i := d.t][PairAt(i)], t.kids[i := d.t][PairAt(i) + 1])
    requires AllBelow(Flat(t.kids[..i]), key) && AllAbove(Flat(t.kids[i + 1..]), key)
    requires SortedLeaf(Contents(t.kids[i])) && LessKey(Contents(t.kids[i]), Contents(d.t), key)
    ensures LessKey(Contents(t), Contents(NodeDel(c, t, i, d).t), key)
  {
    hide Flat, LowerIndex, LessKey, SortedLeaf, AllBelow, AllAbove, SameKind, FixedKids;
    var ks, ks1 := t.kids, t.kids[i := d.t];
    FlatAt(ks, i);
    FlatAt(ks1, i);
    assert ks1[..i] == ks[..i] && ks1[i + 1..] == ks[i + 1..];
    LessKeyInMiddle(Flat(ks[..i]), Contents(ks[i]), Contents(d.t), Flat(ks[i + 1..]), key);
    FixedKidsFlat(c, ks1, i, t.level - 1);
  }

  lemma LessKeyInMiddle(a: seq<LeafEntry>, b: seq<LeafEntry>, b': seq<LeafEntry>, d: seq<LeafEntry>, key: Key)
    requires AllBelow(a, key) && AllAbove(d, key) && SortedLeaf(b) && LessKey(b, b', key)
    ensures LessKey(a + b + d, a + b' + d, key)
  {
    LowerIndexMiddle(a, b, d, key);
    RemovedInMiddle(a, b, d, LowerIndex(b, key));
  }

  /** Exactly the entry with the key is removed. */
  /** One level of the descent of a delete. */
  lemma {:induction false} DelDescend(c: Config, t: Tree, level: nat, lo: Key, hi: Option<Key>, min: nat, key: Key)
    requires Valid(c, t, level, lo, hi, min) && InRange(key, lo, hi) && (level > 0 ==> min >= 2)
    ensures !t.Broken? && (t.Nd? <==> level > 0)
    ensures t.Nd? ==>
              var ks, i := t.kids, ChildIndex(EntriesOf(t.kids), key);
              && ValidRun(c, ks, level - 1, lo, hi) && t.level == level && i < |ks| && |ks| >= 2
              && Valid(c, ks[i], level - 1, KidLo(ks, i, lo), KidHi(ks, i, hi), Floor(c, level - 1))
              && InRange(key, KidLo(ks, i, lo), KidHi(ks, i, hi)) && (level > 1 ==> Floor(c, level - 1) >= 2)
              && Del(c, t, key) == NodeDel(c, t, i, Del(c, ks[i], key)) && Contents(t) == Flat(ks)
  {
    hide NodeDel, Flat;
    if t.Nd? { ChildCovers(c, t.kids, key, level - 1, lo, hi); }
  }

  lemma {:induction false} DelContents(c: Config, t: Tree, level: nat, lo: Key, hi: Option<Key>, min: nat, key: Key)
    requires Valid(c, t, level, lo, hi, min) && InRange(key, lo, hi) && (level > 0 ==> min >= 2)
    requires Present(Contents(t), key)
    ensures LessKey(Contents(t), Contents(Del(c, t, key).t), key)
    decreases level
  {
    hide Valid, Del, NodeDel, Flat, Contents, LowerIndex, LessKey, Present, SortedLeaf, AllBelow, AllAbove, SameKind,
      ShrunkOk;
    DelDescend(c, t, level, lo, hi, min, key);
    if t.Nd? {
      var ks, i := t.kids, ChildIndex(EntriesOf(t.kids), key);
      AroundChild(c, ks, i, key, level - 1, lo, hi);
      FlatAt(ks, i);
      PresentInMiddle(Flat(ks[..i]), Contents(ks[i]), Flat(ks[i + 1..]), key);
      DelContents(c, ks[i], level - 1, KidLo(ks, i, lo), KidHi(ks, i, hi), Floor(c, level - 1), key);
      DelValid(c, ks[i], level - 1, KidLo(ks, i, lo), KidHi(ks, i, hi), Floor(c, level - 1), key);
      PairKind(c, ks, i, Del(c, ks[i], key).t, level - 1, lo, hi);
      NodeDelContents(c, t, i, Del(c, ks[i], key), key);
    } else {
      LeafDelContents(c, t, key);
    }
  }

  lemma LeafDelContents(c: Config, t: Tree, key: Key)
    requires t.Lf? && Present(Contents(t), key)
    ensures LessKey(Contents(t), Contents(Del(c, t, key).t), key)
  {
  }

  lemma PresentInMiddle(a: seq<LeafEntry>, b: seq<LeafEntry>, d: seq<LeafEntry>, key: Key)
    requires Present(a + b + d, key) && AllBelow(a, key) && AllAbove(d, key)
    ensures Present(b, key)
  {
    var i :| 0 <= i < |a + b + d| && (a + b + d)[i].key == key;
    assert i >= |a| && i < |a| + |b|;
    assert b[i - |a|].key == key;
  }

  // ---------- pages ----------

  ghost function PageSet(ps: seq<PageId>): set<PageId> { set p | p in ps }

  /** t' and the freed pages are exactly the pages of t, with no page twice. */
  ghost predicate Conserved(t: Tree, t': Tree, freed: seq<PageId>) {
    && Pids(t) == Pids(t') + PageSet(freed) && Pids(t') !! PageSet(freed)
    && AllDistinct(freed) && Distinct(t')
  }

  ghost predicate RunConserved(ks: seq<Tree>, ks': seq<Tree>, freed: seq<PageId>) {
    && RunPids(ks) == RunPids(ks') + PageSet(freed) && RunPids(ks') !! PageSet(freed)
    && AllDistinct(freed) && DistinctRun(ks')
  }

  lemma {:induction false} RekeyFirst(ks: seq<Tree>, k: Key)
    requires ks != []
    ensures var b := ks[0 := ks[0].(key := k)]; RunPids(b) == RunPids(ks) && DistinctRun(b) == DistinctRun(ks)
  {
    var b := ks[0 := ks[0].(key := k)];
    RekeyKeeps(ks[0], k, INVALID_PAGE);
    assert forall i | 0 <= i < |b| :: Pids(b[i]) == Pids(ks[i]) && Distinct(b[i]) == Distinct(ks[i]);
  }

  lemma {:induction false} JoinedPids(l: Tree, r: Tree)
    requires l.Nd? && r.Nd?
    ensures RunPids(JoinedKids(l, r)) == RunPids(l.kids) + RunPids(r.kids)
    ensures DistinctRun([l, r]) ==> DistinctRun(JoinedKids(l, r))
  {
    PidsOfRun([l, r]);
    var b := if r.kids == [] then [] else r.kids[0 := r.kids[0].(key := r.key)];
    if r.kids != [] { RekeyFirst(r.kids, r.key); }
    RunPidsConcat(l.kids, b);
    DistinctConcat(l.kids, b);
  }

  lemma {:induction false} RedealPids(l: Tree, r: Tree, cut: nat)
    requires SameKind(l, r) && DistinctRun([l, r])
    ensures RunConserved([l, r], Redeal(l, r, cut), [])
  {
    PidsOfRun([l, r]);
    var run := Redeal(l, r, cut);
    if l.Nd? && cut < |JoinedKids(l, r)| {
      JoinedPids(l, r);
      DealtPids(JoinedKids(l, r), cut);
      TwoNodes(run[0], run[1]);
    } else {
      PidsOfRun(run);
    }
  }

  lemma {:induction false} MergePids(l: Tree, r: Tree)
    requires SameKind(l, r) && DistinctRun([l, r])
    ensures RunConserved([l, r], [Merge(l, r)], [r.pid])
  {
    PidsOfRun([l, r]);
    PidsOfRun([Merge(l, r)]);
    if l.Nd? { JoinedPids(l, r); }
  }

  lemma {:induction false} FixedKidsPids(c: Config, ks: seq<Tree>, i: nat, level: nat)
    requires Short(c, ks, i, level) ==> SameKind(ks[PairAt(i)], ks[PairAt(i) + 1])
    requires DistinctRun(ks)
    ensures RunConserved(ks, FixedKids(c, ks, i, level), FreedBy(c, ks, i, level))
  {
    if Short(c, ks, i, level) {
      var j := PairAt(i);
      var l, r := ks[j], ks[j + 1];
      DistinctParts(ks, j, j + 2);
      assert ks[j..j + 2] == [l, r];
      if Lends(c, l, r, level, i > 0) {
        RedealPids(l, r, if i > 0 && Count(l) > 0 then Count(l) - 1 else Count(l) + 1);
      } else {
        MergePids(l, r);
      }
      SpliceConserved(ks, j, j + 2, PairFix(c, l, r, level, i > 0), FreedBy(c, ks, i, level));
    }
  }

  lemma {:induction false} SpliceConserved(ks: seq<Tree>, i: nat, j: nat, r: seq<Tree>, freed: seq<PageId>)
    requires i <= j <= |ks| && DistinctRun(ks) && RunConserved(ks[i..j], r, freed)
    ensures RunConserved(ks, Spliced(ks, i, j, r), freed)
  {
    DistinctParts(ks, i, j);
    SpliceDistinct(ks, i, j, r);
    SplicePids(ks, i, j, r);
  }

  lemma {:induction false} NodeDelPages(c: Config, t: Tree, i: nat, d: Shrunk)
    requires t.Nd? && i < |t.kids| && t.level > 0 && Distinct(t)
    requires |t.kids| >= 2 ==> SameKind(t.kids[i := d.t][PairAt(i)], t.kids[i := d.t][PairAt(i) + 1])
    requires Conserved(t.kids[i], d.t, d.freed)
    ensures Conserved(t, NodeDel(c, t, i, d).t, NodeDel(c, t, i, d).freed)
  {
    hide FixedKids, FreedBy, SameKind;
    var ks, ks1 := t.kids, t.kids[i := d.t];
    KidConserved(ks, i, d.t, d.freed);
    FixedKidsPids(c, ks1, i, t.level - 1);
    ConservedTwice(ks, ks1, FixedKids(c, ks1, i, t.level - 1), d.freed, FreedBy(c, ks1, i, t.level - 1));
  }

  lemma {:induction false} KidConserved(ks: seq<Tree>, i: nat, k: Tree, freed: seq<PageId>)
    requires DistinctRun(ks) && i < |ks| && Conserved(ks[i], k, freed)
    ensures RunConserved(ks, ks[i := k], freed)
  {
    assert ks[i..i + 1] == [ks[i]] && ks[i := k] == Spliced(ks, i, i + 1, [k]);
    PidsOfRun([ks[i]]);
    PidsOfRun([k]);
    SpliceConserved(ks, i, i + 1, [k], freed);
  }

  lemma ConservedTwice(a: seq<Tree>, b: seq<Tree>, d: seq<Tree>, p: seq<PageId>, q: seq<PageId>)
    requires RunConserved(a, b, p) && RunConserved(b, d, q)
    ensures RunConserved(a, d, p + q)
  {
    assert PageSet(p + q) == PageSet(p) + PageSet(q);
    forall i, j | 0 <= i < j < |p + q| ensures (p + q)[i] != (p + q)[j] {
      if i < |p| <= j { assert p[i] in PageSet(p) && q[j - |p|] in PageSet(q); }
    }
  }

  lemma {:induction false} DelPages(c: Config, t: Tree, level: nat, lo: Key, hi: Option<Key>, min: nat, key: Key)
    requires Valid(c, t, level, lo, hi, min) && InRange(key, lo, hi) && (level > 0 ==> min >= 2) && Distinct(t)
    ensures Conserved(t, Del(c, t, key).t, Del(c, t, key).freed)
    decreases level
  {
    if t.Nd? {
      var ks := t.kids;
      ChildCovers(c, ks, key, level - 1, lo, hi);
      var i := ChildIndex(EntriesOf(ks), key);
      DelPages(c, ks[i], level - 1, KidLo(ks, i, lo), KidHi(ks, i, hi), Floor(c, level - 1), key);
      DelValid(c, ks[i], level - 1, KidLo(ks, i, lo), KidHi(ks, i, hi), Floor(c, level - 1), key);
      PairKind(c, ks, i, Del(c, ks[i], key).t, level - 1, lo, hi);
      NodeDelPages(c, t, i, Del(c, ks[i], key));
      assert Del(c, t, key) == NodeDel(c, t, i, Del(c, ks[i], key));
    }
  }

  // ---------- the leaf chain ----------

  lemma {:induction false} JoinedChained(l: Tree, r: Tree, after: PageId)
    requires l.Nd? && r.Nd? && l.kids != [] && r.kids != []
    requires Chained(l, First(r)) && Chained(r, after)
    ensures ChainedRun(JoinedKids(l, r), after) && FirstOf(JoinedKids(l, r), after) == First(l)
  {
    var b := r.kids[0 := r.kids[0].(key := r.key)];
    RekeyKeeps(r.kids[0], r.key, FirstOf(r.kids[1..], after));
    assert b[1..] == r.kids[1..];
    ChainedConcat(l.kids, b, after);
  }

  /** A chained run dealt to two nodes. */
  lemma {:induction false} CutChained(all: seq<Tree>, cut: nat, after: PageId)
    requires ChainedRun(all, after)
    ensures cut < |all| ==>
              var rest := CanonicalRun(all[cut..]);
              ChainedRun(all[..cut], FirstOf(rest, after)) && ChainedRun(rest, after)
  {
    hide Chained, CanonicalRun;
    if cut < |all| {
      assert all == all[..cut] + all[cut..];
      ChainedConcat(all[..cut], all[cut..], after);
      CanonicalRunKeeps(all[cut..], after);
    }
  }

  lemma {:induction false} PairFixChained(c: Config, l: Tree, r: Tree, level: nat, fromLeft: bool, after: PageId)
    requires SameKind(l, r) && Chained(l, First(r)) && Chained(r, after)
    requires fromLeft && l.Nd? ==> Lends(c, l, r, level, fromLeft) ==> Count(l) >= 2
    ensures ChainedRun(PairFix(c, l, r, level, fromLeft), after)
    ensures First(PairFix(c, l, r, level, fromLeft)[0]) == First(l)
  {
    ChainedPair(PairFix(c, l, r, level, fromLeft), after);
    if l.Nd? {
      JoinedChained(l, r, after);
      if Lends(c, l, r, level, fromLeft) {
        CutChained(JoinedKids(l, r), if fromLeft then Count(l) - 1 else Count(l) + 1, after);
      }
    }
  }

  lemma {:induction false} FixedKidsChained(c: Config, ks: seq<Tree>, i: nat, level: nat, after: PageId)
    requires Short(c, ks, i, level) ==> SameKind(ks[PairAt(i)], ks[PairAt(i) + 1])
    requires ks != [] && ChainedRun(ks, after) && (level > 0 ==> Floor(c, level) >= 2)
    requires Short(c, ks, i, level) && ks[PairAt(i)].Nd? ==> level > 0
    ensures ChainedRun(FixedKids(c, ks, i, level), after)
    ensures FirstOf(FixedKids(c, ks, i, level), after) == FirstOf(ks, after)
  {
    if Short(c, ks, i, level) {
      var j := PairAt(i);
      var l, r := ks[j], ks[j + 1];
      ChainedAt(ks, j, after);
      ChainedAt(ks, j + 1, after);
      PairFixChained(c, l, r, level, i > 0, FirstOf(ks[j + 2..], after));
      SpliceChained(ks, j, j + 2, PairFix(c, l, r, level, i > 0), after);
    }
  }

  lemma {:induction false} DelChained(c: Config, t: Tree, level: nat, lo: Key, hi: Option<Key>, min: nat, key: Key,
                                      after: PageId)
    requires Valid(c, t, level, lo, hi, min) && InRange(key, lo, hi) && (level > 0 ==> min >= 2) && Chained(t, after)
    ensures Chained(Del(c, t, key).t, after) && First(Del(c, t, key).t) == First(t)
    decreases level
  {
    if t.Lf? {
      return;
    }
    hide Valid, Del, NodeDel, First, Contents, SameKind;
    DelDescend(c, t, level, lo, hi, min, key);
    if t.Nd? {
      var ks, i := t.kids, ChildIndex(EntriesOf(t.kids), key);
      ChainedAt(ks, i, after);
      DelChained(c, ks[i], level - 1, KidLo(ks, i, lo), KidHi(ks, i, hi), Floor(c, level - 1), key,
          FirstOf(ks[i + 1..], after));
      DelValid(c, ks[i], level - 1, KidLo(ks, i, lo), KidHi(ks, i, hi), Floor(c, level - 1), key);
      var d := Del(c, ks[i], key);
      PairKind(c, ks, i, d.t, level - 1, lo, hi);
      NodeDelChained(c, t, i, d, level, after);
    }
  }

  lemma {:induction false} NodeDelChained(c: Config, t: Tree, i: nat, d: Shrunk, level: nat, after: PageId)
    requires t.Nd? && i < |t.kids| && t.level == level > 0 && Chained(t, after)
    requires |t.kids| >= 2 ==> SameKind(t.kids[i := d.t][PairAt(i)], t.kids[i := d.t][PairAt(i) + 1])
    requires d.t.Nd? ==> level > 1
    requires Chained(d.t, FirstOf(t.kids[i + 1..], after)) && First(d.t) == First(t.kids[i])
    ensures Chained(NodeDel(c, t, i, d).t, after) && First(NodeDel(c, t, i, d).t) == First(t)
  {
    var ks := t.kids;
    ChainedPair([d.t], FirstOf(ks[i + 1..], after));
    SpliceChained(ks, i, i + 1, [d.t], after);
    assert ks[i := d.t] == Spliced(ks, i, i + 1, [d.t]);
    FixedKidsChained(c, ks[i := d.t], i, level - 1, after);
  }

  // ---------- the whole tree ----------

  /** The case in which Collapsed lowers the tree by one level. */
  ghost predicate Collapses(t: Tree) { t.Nd? && |t.kids| == 1 }

  ghost function Collapsed(d: Shrunk): Shrunk {
    if Collapses(d.t) then Shrunk(d.t.kids[0], d.freed + [d.t.pid]) else d
  }

  ghost function ShrunkLevel(d: Shrunk, level: nat): nat {
    if Collapses(d.t) && level > 0 then level - 1 else level
  }

  /** Delete on any valid tree removes exactly the key's entry, keeps the whole invariant through any
      cascade of merges, a last rotation or a root collapse, and splits the old pages exactly into
      the pages of the new tree and the freed ones. */
  lemma {:induction false} DeleteTheorem(c: Config, t: Tree, level: nat, header: PageId, key: Key)
    requires TreeOk(c, t, level, header) && IsDataPage(t.pid) && t.key == INT64_MIN
    requires Present(Contents(t), key)
    ensures var d := Del(c, t, key);
            && TreeOk(c, Collapsed(d).t, ShrunkLevel(d, level), header)
            && IsDataPage(Collapsed(d).t.pid) && Collapsed(d).t.key == INT64_MIN
            && LessKey(Contents(t), Contents(Collapsed(d).t), key)
            && Conserved(t, Collapsed(d).t, Collapsed(d).freed)
  {
    var d, min := Del(c, t, key), RootFloor(level);
    DelValid(c, t, level, INT64_MIN, None, min, key);
    DelContents(c, t, level, INT64_MIN, None, min, key);
    DelPages(c, t, level, INT64_MIN, None, min, key);
    DelChained(c, t, level, INT64_MIN, None, min, key, INVALID_PAGE);
    CollapseKeeps(c, t, d, level, header);
  }

  lemma {:induction false} CollapseKeeps(c: Config, t: Tree, d: Shrunk, level: nat, header: PageId)
    requires ShrunkOk(c, t, d.t, level, INT64_MIN, None) && (level > 0 ==> Count(t) >= 2)
    requires Conserved(t, d.t, d.freed) && Chained(d.t, INVALID_PAGE) && header !in Pids(t)
    requires IsDataPage(d.t.pid) && d.t.key == INT64_MIN
    ensures TreeOk(c, Collapsed(d).t, ShrunkLevel(d, level), header)
    ensures IsDataPage(Collapsed(d).t.pid) && Collapsed(d).t.key == INT64_MIN
    ensures Contents(Collapsed(d).t) == Contents(d.t)
    ensures Conserved(t, Collapsed(d).t, Collapsed(d).freed)
  {
    if Collapses(d.t) {
      OnlyChild(c, d.t, level);
      CollapseConserved(t, d);
    }
  }

  lemma {:induction false} OnlyChild(c: Config, t: Tree, level: nat)
    requires Valid(c, t, level, INT64_MIN, None, 1) && Collapses(t) && Chained(t, INVALID_PAGE)
    ensures var k := t.kids[0];
            && level > 0 && Valid(c, k, level - 1, INT64_MIN, None, RootFloor(level - 1))
            && IsDataPage(k.pid) && k.key == INT64_MIN
            && Chained(k, INVALID_PAGE) && Contents(k) == Contents(t)
  {
    var ks, kl := t.kids, level - 1;
    assert ValidRun(c, ks, kl, INT64_MIN, None);
    assert KidOk(c, ks, 0, kl, INT64_MIN, None);
    assert KidHi(ks, 0, None) == None;
    LowerMin(c, ks[0], kl, INT64_MIN, None, Floor(c, kl), RootFloor(kl));
    assert EntriesOf(ks)[0].key == INT64_MIN;
    FlatRun(ks);
    ChainedPair(ks, INVALID_PAGE);
  }

  lemma LowerMin(c: Config, t: Tree, level: nat, lo: Key, hi: Option<Key>, min: nat, min': nat)
    requires Valid(c, t, level, lo, hi, min) && min' <= min
    ensures Valid(c, t, level, lo, hi, min')
  {
  }

  lemma {:induction false} CollapseConserved(t: Tree, d: Shrunk)
    requires Collapses(d.t) && Conserved(t, d.t, d.freed)
    ensures Conserved(t, d.t.kids[0], d.freed + [d.t.pid])
  {
    PidsOfRun(d.t.kids);
    PidsOfRun([t]);
    PidsOfRun([d.t]);
    PidsOfRun([d.t.kids[0]]);
    ConservedTwice([t], [d.t], [d.t.kids[0]], d.freed, [d.t.pid]);
  }
}
