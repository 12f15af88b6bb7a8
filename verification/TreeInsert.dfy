/**
 * Insert on trees: the run of one or two siblings that replaces a subtree once an entry has been
 * added to it.  A node at level L that splits takes page spare[L] for its right half, the order in
 * which the imperative code hands out the pages it allocated.
 */
module TreeInsert {
  import opened Common
  import opened Nodes
  import opened Trees
  import opened TreeRuns

  function Spare(spare: seq<PageId>, level: nat): PageId {
    if level < |spare| then spare[level] else INVALID_PAGE
  }

  ghost function Ins(c: Config, t: Tree, key: Key, rid: RID, spare: seq<PageId>): (r: seq<Tree>)
    ensures 1 <= |r| <= 2 && r[0].key == t.key && r[0].pid == t.pid
  {
    match t
    case Lf(k, p, l, n, es) =>
      var all := Inserted(es, LowerIndex(es, key), LeafEntry(key, rid));
      if |es| < c.leafMax then [Lf(k, p, l, n, all)]
      else
        var m := SplitPoint(|es|);
        [Lf(k, p, l, Spare(spare, 0), all[..m]), Lf(all[m].key, Spare(spare, 0), 0, n, all[m..])]
    case Nd(k, p, l, n, ks) =>
      if ks == [] then [t]
      else
        var i := ChildIndex(EntriesOf(ks), key);
        NodeIns(c, t, Spliced(ks, i, i + 1, Ins(c, ks[i], key, rid, spare)), spare)
    case Broken(_, _) => [t]
  }

  /** A node given one more child than before, split if that is more than it may hold. */
  ghost function NodeIns(c: Config, t: Tree, all: seq<Tree>, spare: seq<PageId>): (r: seq<Tree>)
    requires t.Nd? && t.kids != [] && |t.kids| <= |all| <= |t.kids| + 1
    ensures 1 <= |r| <= 2 && r[0].key == t.key && r[0].pid == t.pid
  {
    if |all| == |t.kids| || |t.kids| < c.internalMax then [t.(kids := all)]
    else
      var m := SplitPoint(|t.kids|);
      [t.(kids := all[..m]), Nd(all[m].key, Spare(spare, t.level), t.level, INVALID_PAGE, CanonicalRun(all[m..]))]
  }

  /** How many nodes on the spine split. */
  ghost function Splits(c: Config, t: Tree, key: Key): nat {
    match t
    case Lf(_, _, _, _, es) => if |es| < c.leafMax then 0 else 1
    case Nd(_, _, l, _, ks) =>
      if ks == [] then 0
      else
        var s := Splits(c, ks[ChildIndex(EntriesOf(ks), key)], key);
        if s == l && |ks| >= c.internalMax then s + 1 else s
    case Broken(_, _) => 0
  }

  /** The whole tree after an insert: a root that split gets a new root above it. */
  ghost function Grown(c: Config, t: Tree, level: nat, key: Key, rid: RID, spare: seq<PageId>): Tree {
    RootOver(Ins(c, t, key, rid, spare), level, spare)
  }

  ghost function RootOver(r: seq<Tree>, level: nat, spare: seq<PageId>): Tree
    requires r != []
  {
    if |r| == 1 then r[0]
    else Nd(INT64_MIN, Spare(spare, level + 1), level + 1, INVALID_PAGE, CanonicalRun(r))
  }

  ghost predicate Absent(es: seq<LeafEntry>, key: Key) {
    forall i | 0 <= i < |es| :: es[i].key != key
  }

  /** The child the descent takes covers the key. */
  lemma ChildCovers(c: Config, ks: seq<Tree>, key: Key, level: nat, lo: Key, hi: Option<Key>)
    requires ValidRun(c, ks, level, lo, hi) && ks != [] && InRange(key, lo, hi)
    ensures var i := ChildIndex(EntriesOf(ks), key);
            i < |ks| && KidOk(c, ks, i, level, lo, hi) && InRange(key, KidLo(ks, i, lo), KidHi(ks, i, hi))
  {
    var es := EntriesOf(ks);
    var i := ChildIndex(es, key);
    assert i + 1 < |ks| ==> key < es[i + 1].key;
  }

  // ---------- the invariant ----------

  /** One node in place of t, or two that meet at the second one's key. */
  ghost predicate RunOk(c: Config, r: seq<Tree>, level: nat, lo: Key, hi: Option<Key>, min: nat) {
    if |r| == 1 then Valid(c, r[0], level, lo, hi, min)
    else
      && |r| == 2
      && lo < r[1].key && Below(r[1].key, hi) && IsDataPage(r[1].pid)
      && Valid(c, r[0], level, lo, Some(r[1].key), Floor(c, level))
      && Valid(c, r[1], level, r[1].key, hi, Floor(c, level))
  }

  lemma RunOkValidRun(c: Config, r: seq<Tree>, level: nat, lo: Key, hi: Option<Key>, min: nat)
    requires RunOk(c, r, level, lo, hi, min) && (|r| == 1 ==> min >= Floor(c, level)) && IsDataPage(r[0].pid)
    ensures ValidRun(c, r, level, lo, hi)
  {
    if |r| == 1 {
      assert Valid(c, r[0], level, lo, hi, Floor(c, level));
      assert KidOk(c, r, 0, level, lo, hi);
    } else {
      assert KidOk(c, r, 0, level, lo, hi);
      assert KidOk(c, r, 1, level, lo, hi);
    }
  }

  lemma {:induction false} LeafInsValid(c: Config, t: Tree, lo: Key, hi: Option<Key>, min: nat, key: Key, rid: RID,
                                        spare: seq<PageId>)
    requires t.Lf? && Valid(c, t, 0, lo, hi, min) && InRange(key, lo, hi) && Absent(t.es, key)
    requires |t.es| >= c.leafMax ==> |spare| > 0 && IsDataPage(spare[0])
    ensures RunOk(c, Ins(c, t, key, rid, spare), 0, lo, hi, min)
  {
    var all := Inserted(t.es, LowerIndex(t.es, key), LeafEntry(key, rid));
    LeafWithEntry(t.es, key, rid, lo, hi);
    if |t.es| >= c.leafMax {
      var m := SplitPoint(|t.es|);
      LeafHalf(c, all, 0, m, t.key, t.pid, spare[0], lo, hi);
      LeafHalf(c, all, m, |all|, all[m].key, spare[0], t.next, lo, hi);
      assert all[..m] == all[0..m] && all[m..] == all[m..|all|];
      assert all[m - 1].key < all[m].key;
    }
  }

  ghost predicate EntriesOk(es: seq<LeafEntry>, lo: Key, hi: Option<Key>) {
    SortedLeaf(es) && forall i | 0 <= i < |es| :: InRange(es[i].key, lo, hi)
  }

  lemma LeafWithEntry(es: seq<LeafEntry>, key: Key, rid: RID, lo: Key, hi: Option<Key>)
    requires EntriesOk(es, lo, hi) && InRange(key, lo, hi) && Absent(es, key)
    ensures EntriesOk(Inserted(es, LowerIndex(es, key), LeafEntry(key, rid)), lo, hi)
  {
    var i, e := LowerIndex(es, key), LeafEntry(key, rid);
    var all := Inserted(es, i, e);
    assert |all| == |es| + 1;
    forall j | 0 <= j < |all| ensures all[j] == WithEntryAt(es, i, e, j) {
    }
    SortedAround(es, all, i, e);
  }

  function WithEntryAt(es: seq<LeafEntry>, i: nat, e: LeafEntry, j: nat): LeafEntry
    requires i <= |es| && j <= |es|
  {
    if j < i then es[j] else if j == i then e else es[j - 1]
  }

  lemma SortedAround(es: seq<LeafEntry>, all: seq<LeafEntry>, i: nat, e: LeafEntry)
    requires SortedLeaf(es) && i <= |es| && |all| == |es| + 1
    requires forall j | 0 <= j < |all| :: all[j] == WithEntryAt(es, i, e, j)
    requires forall j | 0 <= j < i :: es[j].key < e.key
    requires forall j | i <= j < |es| :: e.key < es[j].key
    ensures SortedLeaf(all)
  {
    forall j, k | 0 <= j < k < |all| ensures all[j].key < all[k].key {
      assert all[j] == WithEntryAt(es, i, e, j) && all[k] == WithEntryAt(es, i, e, k);
    }
  }

  /** A stretch of legal entries of legal length is a legal leaf over the stretch's own interval. */
  lemma LeafHalf(c: Config, all: seq<LeafEntry>, i: nat, j: nat, key: Key, pid: PageId, next: PageId, lo: Key,
                 hi: Option<Key>)
    requires i < j <= |all| && EntriesOk(all, lo, hi)
    requires LeafMinEntries(c.leafMax) <= j - i <= c.leafMax && (next == INVALID_PAGE || IsDataPage(next))
    ensures Valid(c, Lf(key, pid, 0, next, all[i..j]), 0, if i == 0 then lo else all[i].key,
                  if j == |all| then hi else Some(all[j].key), Floor(c, 0))
  {
    var es := all[i..j];
    assert forall k | 0 <= k < |es| :: es[k] == all[i + k];
  }

  lemma {:induction false} NodeInsValid(c: Config, t: Tree, all: seq<Tree>, level: nat, lo: Key, hi: Option<Key>,
                                        min: nat, spare: seq<PageId>)
    requires t.Nd? && Valid(c, t, level, lo, hi, min) && t.kids != []
    requires |t.kids| <= |all| <= |t.kids| + 1 && all[0].key == t.kids[0].key && ValidRun(c, all, level - 1, lo, hi)
    requires |all| > |t.kids| >= c.internalMax ==> |spare| > level && IsDataPage(spare[level])
    ensures RunOk(c, NodeIns(c, t, all, spare), level, lo, hi, min)
  {
    assert t.kids[0].key == EntriesOf(t.kids)[0].key == INT64_MIN;
    if |all| == |t.kids| || |t.kids| < c.internalMax {
      MakeNode(c, t.key, t.pid, all, level, lo, hi, min);
    } else {
      CutIntoTwo(c, t.key, t.pid, spare[level], all, SplitPoint(|t.kids|), level, lo, hi);
    }
  }

  /** A valid run too long for one node, dealt out to two. */
  lemma {:induction false} CutIntoTwo(c: Config, key: Key, left: PageId, right: PageId, all: seq<Tree>, m: nat,
                                      level: nat, lo: Key, hi: Option<Key>)
    requires level > 0 && 0 < m < |all| && ValidRun(c, all, level - 1, lo, hi) && all[0].key == INT64_MIN
    requires InternalMinChildren(c.internalMax) <= m <= c.internalMax && IsDataPage(right)
    requires InternalMinChildren(c.internalMax) <= |all| - m <= c.internalMax
    ensures RunOk(c, [Nd(key, left, level, INVALID_PAGE, all[..m]),
                      Nd(all[m].key, right, level, INVALID_PAGE, CanonicalRun(all[m..]))], level, lo, hi, 0)
  {
    var sep := all[m].key;
    CutRun(c, all, m, level - 1, lo, hi);
    KidInterval(c, all, m, level - 1, lo, hi);
    assert InRange(sep, lo, hi);
    CanonicalRunValid(c, all[m..], level - 1, sep, hi);
    MakeNode(c, key, left, all[..m], level, lo, Some(sep), Floor(c, level));
    MakeNode(c, sep, right, CanonicalRun(all[m..]), level, sep, hi, Floor(c, level));
  }

  lemma {:induction false} NodeStepValid(c: Config, t: Tree, i: nat, r: seq<Tree>, level: nat, lo: Key, hi: Option<Key>,
                                         min: nat, spare: seq<PageId>)
    requires t.Nd? && Valid(c, t, level, lo, hi, min) && i < |t.kids|
    requires 1 <= |r| <= 2 && r[0].key == t.kids[i].key && r[0].pid == t.kids[i].pid
    requires RunOk(c, r, level - 1, KidLo(t.kids, i, lo), KidHi(t.kids, i, hi), Floor(c, level - 1))
    requires |r| == 2 && |t.kids| >= c.internalMax ==> |spare| > level && IsDataPage(spare[level])
    ensures RunOk(c, NodeIns(c, t, Spliced(t.kids, i, i + 1, r), spare), level, lo, hi, min)
  {
    assert KidOk(c, t.kids, i, level - 1, lo, hi);
    RunOkValidRun(c, r, level - 1, KidLo(t.kids, i, lo), KidHi(t.kids, i, hi), Floor(c, level - 1));
    SpliceValid(c, t.kids, i, i + 1, r, level - 1, lo, hi);
    NodeInsValid(c, t, Spliced(t.kids, i, i + 1, r), level, lo, hi, min, spare);
  }

  /** One level of the descent: the child it takes is legal and covers the key. */
  lemma {:induction false} Descend(c: Config, t: Tree, level: nat, lo: Key, hi: Option<Key>, min: nat, key: Key)
    requires Valid(c, t, level, lo, hi, min) && InRange(key, lo, hi) && (level > 0 ==> min > 0)
    ensures (t.Nd? <==> level > 0) && (t.Lf? <==> level == 0)
    ensures t.Nd? ==>
              var ks, i := t.kids, ChildIndex(EntriesOf(t.kids), key);
              && t.level == level && ValidRun(c, ks, level - 1, lo, hi) && min <= |ks| <= c.internalMax
              && i < |ks| && KidOk(c, ks, i, level - 1, lo, hi) && InRange(key, KidLo(ks, i, lo), KidHi(ks, i, hi))
              && Floor(c, level - 1) > 0
  {
    if t.Nd? { ChildCovers(c, t.kids, key, level - 1, lo, hi); }
  }

  lemma InsAt(c: Config, t: Tree, key: Key, rid: RID, spare: seq<PageId>)
    requires t.Nd? && ChildIndex(EntriesOf(t.kids), key) < |t.kids|
    ensures var i := ChildIndex(EntriesOf(t.kids), key);
            var q, n := Ins(c, t.kids[i], key, rid, spare), Splits(c, t.kids[i], key);
            && 1 <= |q| <= 2 && q[0].key == t.kids[i].key && q[0].pid == t.kids[i].pid
            && Ins(c, t, key, rid, spare) == NodeIns(c, t, Spliced(t.kids, i, i + 1, q), spare)
            && Splits(c, t, key) == if n == t.level && |t.kids| >= c.internalMax then n + 1 else n
  {
  }

  lemma LeafInsCount(c: Config, t: Tree, key: Key, rid: RID, spare: seq<PageId>)
    requires t.Lf?
    ensures Splits(c, t, key) == (if |t.es| < c.leafMax then 0 else 1)
            && |Ins(c, t, key, rid, spare)| == Splits(c, t, key) + 1
    ensures t.pid in Pids(t)
  {
  }

  /** A subtree splits exactly when a node split at every level below. */
  lemma {:induction false} SplitsExact(c: Config, t: Tree, level: nat, lo: Key, hi: Option<Key>, min: nat, key: Key,
                                       rid: RID, spare: seq<PageId>)
    requires Valid(c, t, level, lo, hi, min) && InRange(key, lo, hi) && (level > 0 ==> min > 0)
    ensures Splits(c, t, key) <= level + 1
    ensures |Ins(c, t, key, rid, spare)| == 2 <==> Splits(c, t, key) == level + 1
    decreases level
  {
    hide Trees.Valid, Ins, Splits, ChildIndex;
    Descend(c, t, level, lo, hi, min, key);
    if t.Lf? {
      LeafInsCount(c, t, key, rid, spare);
    } else {
      var ks := t.kids;
      var i := ChildIndex(EntriesOf(ks), key);
      InsAt(c, t, key, rid, spare);
      SplitsExact(c, ks[i], level - 1, KidLo(ks, i, lo), KidHi(ks, i, hi), Floor(c, level - 1), key, rid, spare);
    }
  }

  /** Every level keeps order, bounds, levels and occupancy, whatever splits below it. */
  lemma {:induction false} InsValid(c: Config, t: Tree, level: nat, lo: Key, hi: Option<Key>, min: nat, key: Key,
                                    rid: RID, spare: seq<PageId>)
    requires Valid(c, t, level, lo, hi, min) && InRange(key, lo, hi)
    requires Absent(Contents(t), key) && (level > 0 ==> min > 0)
    requires |spare| >= Splits(c, t, key) && forall i | 0 <= i < |spare| :: IsDataPage(spare[i])
    ensures RunOk(c, Ins(c, t, key, rid, spare), level, lo, hi, min)
    decreases level
  {
    hide Trees.Valid, Ins, Splits, ChildIndex, NodeIns, RunOk;
    Descend(c, t, level, lo, hi, min, key);
    if t.Lf? {
      LeafInsCount(c, t, key, rid, spare);
      LeafInsValid(c, t, lo, hi, min, key, rid, spare);
    } else {
      var ks := t.kids;
      var i := ChildIndex(EntriesOf(ks), key);
      InsAt(c, t, key, rid, spare);
      AbsentBelow(ks, i, key);
      SplitsExact(c, ks[i], level - 1, KidLo(ks, i, lo), KidHi(ks, i, hi), Floor(c, level - 1), key, rid, spare);
      InsValid(c, ks[i], level - 1, KidLo(ks, i, lo), KidHi(ks, i, hi), Floor(c, level - 1), key, rid, spare);
      var q := Ins(c, ks[i], key, rid, spare);
      assert Splits(c, t, key) == if |q| == 2 && |ks| >= c.internalMax then level + 1 else Splits(c, ks[i], key);
      NodeStepValid(c, t, i, q, level, lo, hi, min, spare);
    }
  }

  lemma {:induction false} AbsentBelow(ks: seq<Tree>, i: nat, key: Key)
    requires i < |ks| && Absent(Flat(ks), key)
    ensures Absent(Contents(ks[i]), key)
  {
    FlatAt(ks, i);
    AbsentParts(Flat(ks[..i]), Contents(ks[i]), Flat(ks[i + 1..]), key);
  }

  lemma AbsentParts(a: seq<LeafEntry>, b: seq<LeafEntry>, d: seq<LeafEntry>, key: Key)
    requires Absent(a + b + d, key)
    ensures Absent(b, key)
  {
    assert forall i | 0 <= i < |b| :: b[i] == (a + b + d)[|a| + i];
  }

  // ---------- the contents ----------

  lemma LowerIndexUnique(es: seq<LeafEntry>, key: Key, i: nat)
    requires IsLowerBound(es, key, i)
    ensures LowerIndex(es, key) == i
  {
    var j := LowerIndex(es, key);
    assert !(i < j) by { if i < |es| { assert key <= es[i].key; } }
  }

  ghost predicate AllBelow(es: seq<LeafEntry>, key: Key) { forall j | 0 <= j < |es| :: es[j].key < key }
  ghost predicate AllAbove(es: seq<LeafEntry>, key: Key) { forall j | 0 <= j < |es| :: key < es[j].key }

  lemma LowerIndexMiddle(a: seq<LeafEntry>, b: seq<LeafEntry>, d: seq<LeafEntry>, key: Key)
    requires AllBelow(a, key) && AllAbove(d, key) && SortedLeaf(b)
    ensures LowerIndex(a + b + d, key) == |a| + LowerIndex(b, key)
  {
    var all, q := a + b + d, LowerIndex(b, key);
    assert forall j | q <= j < |b| :: key <= b[j].key;
    forall j | |a| + q <= j < |all| ensures key <= all[j].key {
      if j < |a| + |b| { assert all[j] == b[j - |a|]; }
    }
    LowerIndexUnique(all, key, |a| + q);
  }

  /** Left of child i everything is below a key the child covers, right of it everything is above. */
  lemma {:induction false} AroundChild(c: Config, ks: seq<Tree>, i: nat, key: Key, level: nat, lo: Key, hi: Option<Key>)
    requires ValidRun(c, ks, level, lo, hi) && i < |ks| && InRange(key, KidLo(ks, i, lo), KidHi(ks, i, hi))
    ensures AllBelow(Flat(ks[..i]), key) && AllAbove(Flat(ks[i + 1..]), key)
    ensures SortedLeaf(Contents(ks[i]))
  {
    assert KidOk(c, ks, i, level, lo, hi);
    ContentsInRange(c, ks[i], level, KidLo(ks, i, lo), KidHi(ks, i, hi), Floor(c, level));
    if i > 0 {
      CutRun(c, ks, i, level, lo, hi);
      FlatInRange(c, ks[..i], level, lo, Some(ks[i].key));
      var a := Flat(ks[..i]);
      assert forall j | 0 <= j < |a| :: InRange(a[j].key, lo, Some(ks[i].key));
    }
    if i + 1 < |ks| {
      CutRun(c, ks, i + 1, level, lo, hi);
      FlatInRange(c, ks[i + 1..], level, ks[i + 1].key, hi);
      var d := Flat(ks[i + 1..]);
      assert forall j | 0 <= j < |d| :: InRange(d[j].key, ks[i + 1].key, hi);
    }
  }

  /** Exactly the new entry is added, at the position its key orders it. */
  lemma {:induction false} InsContents(c: Config, t: Tree, level: nat, lo: Key, hi: Option<Key>, min: nat, key: Key,
                                       rid: RID, spare: seq<PageId>)
    requires Valid(c, t, level, lo, hi, min) && InRange(key, lo, hi) && (level > 0 ==> min > 0)
    ensures Flat(Ins(c, t, key, rid, spare)) == Inserted(Contents(t), LowerIndex(Contents(t), key), LeafEntry(key, rid))
    decreases level
  {
    hide Trees.Valid, Ins, Splits, ChildIndex, NodeIns, Flat, Contents, LowerIndex, Inserted, SortedLeaf, AllBelow,
      AllAbove, Spliced;
    Descend(c, t, level, lo, hi, min, key);
    if t.Lf? {
      LeafInsContents(c, t, key, rid, spare);
    } else {
      var ks := t.kids;
      var i := ChildIndex(EntriesOf(ks), key);
      InsAt(c, t, key, rid, spare);
      InsContents(c, ks[i], level - 1, KidLo(ks, i, lo), KidHi(ks, i, hi), Floor(c, level - 1), key, rid, spare);
      AroundChild(c, ks, i, key, level - 1, lo, hi);
      var q := Ins(c, ks[i], key, rid, spare);
      NodeStepContents(c, t, i, q, key, LeafEntry(key, rid), spare);
    }
  }

  lemma {:induction false} LeafInsContents(c: Config, t: Tree, key: Key, rid: RID, spare: seq<PageId>)
    requires t.Lf?
    ensures Contents(t) == t.es
    ensures Flat(Ins(c, t, key, rid, spare)) == Inserted(t.es, LowerIndex(t.es, key), LeafEntry(key, rid))
  {
    FlatRun(Ins(c, t, key, rid, spare));
  }

  lemma {:induction false} NodeStepContents(c: Config, t: Tree, i: nat, q: seq<Tree>, key: Key, e: LeafEntry,
                                            spare: seq<PageId>)
    requires t.Nd? && i < |t.kids| && 1 <= |q| <= 2
    requires AllBelow(Flat(t.kids[..i]), key) && AllAbove(Flat(t.kids[i + 1..]), key)
    requires SortedLeaf(Contents(t.kids[i]))
    requires Flat(q) == Inserted(Contents(t.kids[i]), LowerIndex(Contents(t.kids[i]), key), e)
    ensures Flat(NodeIns(c, t, Spliced(t.kids, i, i + 1, q), spare))
            == Inserted(Contents(t), LowerIndex(Contents(t), key), e)
  {
    var ks := t.kids;
    var a, b, d := Flat(ks[..i]), Contents(ks[i]), Flat(ks[i + 1..]);
    FlatAt(ks, i);
    LowerIndexMiddle(a, b, d, key);
    SpliceFlat(ks, i, i + 1, q);
    InsertedInMiddle(a, b, d, LowerIndex(b, key), e);
    NodeInsFlat(c, t, Spliced(ks, i, i + 1, q), spare);
  }

  lemma {:induction false} FlatRun(r: seq<Tree>)
    requires 1 <= |r| <= 2
    ensures Flat(r) == if |r| == 1 then Contents(r[0]) else Contents(r[0]) + Contents(r[1])
  {
    assert r[1..] == if |r| == 1 then [] else [r[1]];
    assert |r| == 2 ==> Flat(r[1..]) == Contents(r[1]) + Flat([]);
  }

  lemma {:induction false} NodeInsFlat(c: Config, t: Tree, all: seq<Tree>, spare: seq<PageId>)
    requires t.Nd? && t.kids != [] && |t.kids| <= |all| <= |t.kids| + 1
    ensures Flat(NodeIns(c, t, all, spare)) == Flat(all)
  {
    hide SplitPoint, Flat, CanonicalRun;
    var r := NodeIns(c, t, all, spare);
    FlatRun(r);
    if |r| == 2 {
      var m := SplitPoint(|t.kids|);
      CanonicalRunKeeps(all[m..], INVALID_PAGE);
      FlatConcat(all[..m], all[m..]);
      assert all[..m] + all[m..] == all;
    }
  }

  lemma InsertedInMiddle<T>(a: seq<T>, b: seq<T>, d: seq<T>, p: nat, e: T)
    requires p <= |b|
    ensures a + Inserted(b, p, e) + d == Inserted(a + b + d, |a| + p, e)
  {
  }

  // ---------- pages ----------

  ghost function Taken(spare: seq<PageId>, n: nat): set<PageId>
    requires n <= |spare|
  {
    set i: nat | i < n :: spare[i]
  }

  ghost predicate AllDistinct(ps: seq<PageId>) {
    forall i, j | 0 <= i < j < |ps| :: ps[i] != ps[j]
  }

  lemma PidsOfRun(r: seq<Tree>)
    requires 1 <= |r| <= 2
    ensures RunPids(r) == if |r| == 1 then Pids(r[0]) else Pids(r[0]) + Pids(r[1])
    ensures DistinctRun(r) <==> Distinct(r[0]) && (|r| == 2 ==> Distinct(r[1]) && Pids(r[0]) !! Pids(r[1]))
  {
    hide Pids, Distinct;
    forall p ensures p in RunPids(r) <==> p in Pids(r[0]) || (|r| == 2 && p in Pids(r[1])) {
      if p in RunPids(r) { var i: nat :| i < |r| && p in Pids(r[i]); }
    }
  }

  /** The pages of r are those of t plus exactly the first n spare ones, none of them reached twice;
      r is a pair exactly when a node split at every level up to this one. */
  ghost predicate PagesOk(r: seq<Tree>, t: Tree, level: nat, spare: seq<PageId>, n: nat) {
    && n <= level + 1 && n <= |spare| && (|r| == 2 <==> n == level + 1)
    && RunPids(r) == Pids(t) + Taken(spare, n) && DistinctRun(r)
  }

  lemma {:induction false} InsPages(c: Config, t: Tree, level: nat, lo: Key, hi: Option<Key>, min: nat, key: Key,
                                    rid: RID, spare: seq<PageId>)
    requires Valid(c, t, level, lo, hi, min) && InRange(key, lo, hi) && (level > 0 ==> min > 0)
    requires Distinct(t) && |spare| >= Splits(c, t, key) && AllDistinct(spare)
    requires forall i | 0 <= i < |spare| :: spare[i] !in Pids(t)
    ensures PagesOk(Ins(c, t, key, rid, spare), t, level, spare, Splits(c, t, key))
    decreases level
  {
    hide Trees.Valid, Ins, Splits, ChildIndex, NodeIns, Distinct, Pids, Contents, Chained, Taken, AllDistinct;
    Descend(c, t, level, lo, hi, min, key);
    if t.Lf? {
      LeafInsCount(c, t, key, rid, spare);
      LeafInsPages(c, t, key, rid, spare);
    } else {
      var ks := t.kids;
      var i := ChildIndex(EntriesOf(ks), key);
      InsAt(c, t, key, rid, spare);
      KidDistinct(t, i);
      InsPages(c, ks[i], level - 1, KidLo(ks, i, lo), KidHi(ks, i, hi), Floor(c, level - 1), key, rid, spare);
      var q, n := Ins(c, ks[i], key, rid, spare), Splits(c, ks[i], key);
      NodeStepPages(c, t, i, q, level, spare, n);
    }
  }

  lemma KidDistinct(t: Tree, i: nat)
    requires t.Nd? && i < |t.kids| && Distinct(t)
    ensures Distinct(t.kids[i]) && Pids(t.kids[i]) <= Pids(t)
  {
  }

  lemma TakenNext(spare: seq<PageId>, n: nat)
    requires n < |spare|
    ensures Taken(spare, n + 1) == Taken(spare, n) + {spare[n]}
  {
  }

  lemma LeafInsPages(c: Config, t: Tree, key: Key, rid: RID, spare: seq<PageId>)
    requires t.Lf? && |spare| >= Splits(c, t, key) && (|spare| > 0 ==> spare[0] != t.pid)
    ensures PagesOk(Ins(c, t, key, rid, spare), t, 0, spare, Splits(c, t, key))
  {
    PidsOfRun(Ins(c, t, key, rid, spare));
    if |spare| > 0 { TakenNext(spare, 0); }
  }

  lemma {:induction false} NodeStepPages(c: Config, t: Tree, i: nat, q: seq<Tree>, level: nat, spare: seq<PageId>,
                                         n: nat)
    requires t.Nd? && i < |t.kids| && Distinct(t) && 1 <= |q| <= 2 && 0 < level == t.level
    requires n == level && |t.kids| >= c.internalMax ==> level < |spare|
    requires AllDistinct(spare) && forall i | 0 <= i < |spare| :: spare[i] !in Pids(t)
    requires PagesOk(q, t.kids[i], level - 1, spare, n) && |t.kids| <= c.internalMax
    ensures PagesOk(NodeIns(c, t, Spliced(t.kids, i, i + 1, q), spare), t, level, spare,
                    if n == level && |t.kids| >= c.internalMax then n + 1 else n)
  {
    if n == level < |spare| { TakenNext(spare, n); }
    assert Taken(spare, n) !! Pids(t);
    SpliceTaken(t.kids, i, q, Taken(spare, n));
    NodeInsPages(c, t, Spliced(t.kids, i, i + 1, q), spare, n);
  }

  lemma {:induction false} SpliceTaken(ks: seq<Tree>, i: nat, q: seq<Tree>, more: set<PageId>)
    requires DistinctRun(ks) && i < |ks| && DistinctRun(q) && more !! RunPids(ks)
    requires RunPids(q) == Pids(ks[i]) + more
    ensures DistinctRun(Spliced(ks, i, i + 1, q)) && RunPids(Spliced(ks, i, i + 1, q)) == RunPids(ks) + more
  {
    DistinctParts(ks, i, i + 1);
    assert ks[i..i + 1] == [ks[i]];
    PidsOfRun([ks[i]]);
    SpliceDistinct(ks, i, i + 1, q);
    SplicePids(ks, i, i + 1, q);
  }

  lemma {:induction false} NodeInsPages(c: Config, t: Tree, all: seq<Tree>, spare: seq<PageId>, n: nat)
    requires t.Nd? && t.kids != [] && |t.kids| <= |all| <= |t.kids| + 1
    requires n <= t.level && n <= |spare| && AllDistinct(spare)
    requires |all| > |t.kids| >= c.internalMax ==> t.level < |spare| && spare[t.level] !in Pids(t)
    requires RunPids(all) == RunPids(t.kids) + Taken(spare, n) && t.pid !in RunPids(all) && DistinctRun(all)
    ensures var r := NodeIns(c, t, all, spare);
            && RunPids(r) == Pids(t) + Taken(spare, n) + (if |r| == 2 then {spare[t.level]} else {})
            && DistinctRun(r)
  {
    var r := NodeIns(c, t, all, spare);
    if |r| == 1 {
      PidsOfRun(r);
    } else {
      DealtPids(all, SplitPoint(|t.kids|));
      assert spare[t.level] !in Taken(spare, n);
      TwoNodes(r[0], r[1]);
    }
  }

  lemma {:induction false} TwoNodes(x: Tree, y: Tree)
    requires x.Nd? && y.Nd? && DistinctRun(x.kids) && DistinctRun(y.kids) && RunPids(x.kids) !! RunPids(y.kids)
    requires x.pid != y.pid && {x.pid, y.pid} !! RunPids(x.kids) + RunPids(y.kids)
    ensures RunPids([x, y]) == {x.pid, y.pid} + RunPids(x.kids) + RunPids(y.kids) && DistinctRun([x, y])
  {
    PidsOfRun([x, y]);
  }

  // ---------- the leaf chain ----------

  lemma {:induction false} ChainedPair(r: seq<Tree>, after: PageId)
    requires 1 <= |r| <= 2
    ensures ChainedRun(r, after) <==>
            if |r| == 1 then Chained(r[0], after) else Chained(r[0], First(r[1])) && Chained(r[1], after)
  {
    assert r == r[..1] + r[1..];
    ChainedConcat(r[..1], r[1..], after);
    assert r[..1][1..] == [] && (|r| == 2 ==> r[1..][1..] == []);
  }

  /** The chain still visits the leaves in order and starts at the same leaf. */
  lemma {:induction false} InsChained(c: Config, t: Tree, level: nat, lo: Key, hi: Option<Key>, min: nat, key: Key,
                                      rid: RID, spare: seq<PageId>, after: PageId)
    requires Valid(c, t, level, lo, hi, min) && InRange(key, lo, hi) && (level > 0 ==> min > 0)
    requires Chained(t, after)
    ensures ChainedRun(Ins(c, t, key, rid, spare), after)
    ensures First(Ins(c, t, key, rid, spare)[0]) == First(t)
    decreases level
  {
    hide Trees.Valid, Ins, Splits, ChildIndex, NodeIns;
    Descend(c, t, level, lo, hi, min, key);
    if t.Lf? {
      LeafInsChained(c, t, key, rid, spare, after);
    } else {
      var ks := t.kids;
      var i := ChildIndex(EntriesOf(ks), key);
      InsAt(c, t, key, rid, spare);
      ChainedAt(ks, i, after);
      InsChained(c, ks[i], level - 1, KidLo(ks, i, lo), KidHi(ks, i, hi), Floor(c, level - 1), key, rid, spare,
          FirstOf(ks[i + 1..], after));
      NodeStepChained(c, t, i, Ins(c, ks[i], key, rid, spare), spare, after);
    }
  }

  lemma {:induction false} LeafInsChained(c: Config, t: Tree, key: Key, rid: RID, spare: seq<PageId>, after: PageId)
    requires t.Lf? && Chained(t, after)
    ensures ChainedRun(Ins(c, t, key, rid, spare), after) && First(Ins(c, t, key, rid, spare)[0]) == First(t)
  {
    ChainedPair(Ins(c, t, key, rid, spare), after);
  }

  lemma {:induction false} NodeStepChained(c: Config, t: Tree, i: nat, q: seq<Tree>, spare: seq<PageId>, after: PageId)
    requires t.Nd? && i < |t.kids| && 1 <= |q| <= 2 && Chained(t, after)
    requires ChainedRun(q, FirstOf(t.kids[i + 1..], after)) && First(q[0]) == First(t.kids[i])
    ensures var r := NodeIns(c, t, Spliced(t.kids, i, i + 1, q), spare);
            ChainedRun(r, after) && First(r[0]) == First(t)
  {
    SpliceChained(t.kids, i, i + 1, q, after);
    NodeInsChained(c, t, Spliced(t.kids, i, i + 1, q), spare, after);
  }

  lemma {:induction false} ChainedAt(ks: seq<Tree>, i: nat, after: PageId)
    requires i < |ks| && ChainedRun(ks, after)
    ensures Chained(ks[i], FirstOf(ks[i + 1..], after))
  {
    assert ks == ks[..i] + ks[i..] && ks[i..][1..] == ks[i + 1..];
    ChainedConcat(ks[..i], ks[i..], after);
  }

  lemma {:induction false} NodeInsChained(c: Config, t: Tree, all: seq<Tree>, spare: seq<PageId>, after: PageId)
    requires t.Nd? && t.kids != [] && |t.kids| <= |all| <= |t.kids| + 1
    requires ChainedRun(all, after) && FirstOf(all, after) == First(t)
    ensures ChainedRun(NodeIns(c, t, all, spare), after) && First(NodeIns(c, t, all, spare)[0]) == First(t)
  {
    var r := NodeIns(c, t, all, spare);
    ChainedPair(r, after);
    if |r| == 2 {
      var m := SplitPoint(|t.kids|);
      CanonicalRunKeeps(all[m..], after);
      assert all == all[..m] + all[m..];
      ChainedConcat(all[..m], all[m..], after);
    }
  }

  // ---------- the whole tree ----------

  /** Pages an insert takes: one for each split and one more for a new root. */
  ghost function PagesNeeded(c: Config, t: Tree, level: nat, key: Key): nat {
    var n := Splits(c, t, key);
    if n == level + 1 then n + 1 else n
  }

  /** The level of the root after an insert. */
  ghost function GrownLevel(c: Config, t: Tree, level: nat, key: Key): nat {
    if Splits(c, t, key) == level + 1 then level + 1 else level
  }

  /** Insert on any valid tree adds exactly the new entry, keeps the whole invariant through any run
      of splits up to a new root, and reaches the old pages plus exactly the pages it asked for. */
  lemma {:induction false} InsertTheorem(c: Config, t: Tree, level: nat, header: PageId, key: Key, rid: RID,
                                         spare: seq<PageId>)
    requires TreeOk(c, t, level, header) && IsDataPage(t.pid) && t.key == INT64_MIN
    requires Absent(Contents(t), key)
    requires |spare| >= PagesNeeded(c, t, level, key) && AllDistinct(spare)
    requires forall i | 0 <= i < |spare| :: IsDataPage(spare[i]) && spare[i] !in Pids(t) && spare[i] != header
    ensures TreeOk(c, Grown(c, t, level, key, rid, spare), GrownLevel(c, t, level, key), header)
    ensures IsDataPage(Grown(c, t, level, key, rid, spare).pid)
    ensures Grown(c, t, level, key, rid, spare).key == INT64_MIN
    ensures Contents(Grown(c, t, level, key, rid, spare))
            == Inserted(Contents(t), LowerIndex(Contents(t), key), LeafEntry(key, rid))
    ensures Pids(Grown(c, t, level, key, rid, spare)) == Pids(t) + Taken(spare, PagesNeeded(c, t, level, key))
  {
    var r, n := Ins(c, t, key, rid, spare), Splits(c, t, key);
    InsValid(c, t, level, INT64_MIN, None, RootFloor(level), key, rid, spare);
    InsContents(c, t, level, INT64_MIN, None, RootFloor(level), key, rid, spare);
    InsPages(c, t, level, INT64_MIN, None, RootFloor(level), key, rid, spare);
    InsChained(c, t, level, INT64_MIN, None, RootFloor(level), key, rid, spare, INVALID_PAGE);
    RootFromRun(c, t, r, level, header, spare, n);
  }

  lemma {:induction false} RootFromRun(c: Config, t: Tree, r: seq<Tree>, level: nat, header: PageId, spare: seq<PageId>,
                                       n: nat)
    requires 1 <= |r| <= 2 && RunOk(c, r, level, INT64_MIN, None, RootFloor(level))
    requires IsDataPage(r[0].pid) && r[0].key == INT64_MIN
    requires PagesOk(r, t, level, spare, n) && ChainedRun(r, INVALID_PAGE)
    requires AllDistinct(spare) && (|r| == 2 ==> |spare| >= level + 2) && header !in Pids(t)
    requires forall i | 0 <= i < |spare| :: IsDataPage(spare[i]) && spare[i] !in Pids(t) && spare[i] != header
    ensures TreeOk(c, RootOver(r, level, spare), if |r| == 2 then level + 1 else level, header)
    ensures IsDataPage(RootOver(r, level, spare).pid) && RootOver(r, level, spare).key == INT64_MIN
    ensures Contents(RootOver(r, level, spare)) == Flat(r)
    ensures Pids(RootOver(r, level, spare)) == Pids(t) + Taken(spare, if |r| == 2 then n + 1 else n)
  {
    if |r| == 1 {
      FlatRun(r);
      PidsOfRun(r);
      ChainedPair(r, INVALID_PAGE);
    } else {
      TakenNext(spare, n);
      assert spare[n] !in RunPids(r);
      NewRoot(c, r, level, spare[n]);
    }
  }

  lemma {:induction false} NewRoot(c: Config, r: seq<Tree>, level: nat, pid: PageId)
    requires |r| == 2 && RunOk(c, r, level, INT64_MIN, None, RootFloor(level)) && IsDataPage(r[0].pid)
    requires DistinctRun(r) && ChainedRun(r, INVALID_PAGE) && pid !in RunPids(r)
    ensures var t' := Nd(INT64_MIN, pid, level + 1, INVALID_PAGE, CanonicalRun(r));
            && Valid(c, t', level + 1, INT64_MIN, None, 2) && Distinct(t') && Chained(t', INVALID_PAGE)
            && Contents(t') == Flat(r) && Pids(t') == RunPids(r) + {pid}
  {
    RunOkValidRun(c, r, level, INT64_MIN, None, RootFloor(level));
    CanonicalRunValid(c, r, level, INT64_MIN, None);
    CanonicalRunKeeps(r, INVALID_PAGE);
    MakeNode(c, INT64_MIN, pid, CanonicalRun(r), level + 1, INT64_MIN, None, 2);
  }
}
