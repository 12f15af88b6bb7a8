/**
 * The root-to-leaf path of a key, and how a change made at some level of it shows at the root.
 */
module TreeSpine {
  import opened Common
  import opened Nodes
  import opened Trees
  import opened TreeRuns
  import opened TreeInsert
  import opened TreeStore

  /** The child slot the descent follows. */
  ghost function Slot(t: Tree, key: Key): nat {
    if t.Nd? then ChildIndex(EntriesOf(t.kids), key) else 0
  }

  ghost function Spine(t: Tree, key: Key): seq<Tree> {
    if t.Nd? && t.kids != [] then [t] + Spine(t.kids[Slot(t, key)], key) else [t]
  }

  /** A legal subtree whose interval covers the key; a root may be below the non-root floor. */
  ghost predicate Covers(c: Config, t: Tree, level: nat, key: Key, min: nat) {
    exists lo, hi :: Valid(c, t, level, lo, hi, min) && InRange(key, lo, hi)
  }

  function SpineMin(c: Config, level: nat, i: nat, min: nat): nat
    requires i <= level
  {
    if i == 0 then min else Floor(c, level - i)
  }

  ghost predicate SpineAt(c: Config, s: Store, x: Tree, level: nat, key: Key, min: nat, top: set<PageId>) {
    Covers(c, x, level, key, min) && Holds(s, x, level) && Distinct(x) && Pids(x) <= top
  }

  ghost predicate SpineLink(t: Tree, k: Tree, key: Key) {
    t.Nd? && t.kids != [] && Slot(t, key) < |t.kids| && k == t.kids[Slot(t, key)]
  }

  /** Everything the path operations need to know about the path of a key: each node is legal, covers
      the key and is held by the store, and each is the child of the one before that the descent takes. */
  ghost predicate SpineOk(c: Config, s: Store, sp: seq<Tree>, level: nat, key: Key, min: nat, top: set<PageId>) {
    && |sp| == level + 1
    && (forall i | 0 <= i <= level :: SpineAt(c, s, sp[i], level - i, key, SpineMin(c, level, i, min), top))
    && (forall i | 0 <= i < level :: SpineLink(sp[i], sp[i + 1], key))
  }

  lemma {:induction false} SpineIsOk(c: Config, s: Store, t: Tree, level: nat, key: Key, lo: Key, hi: Option<Key>,
                                     min: nat, top: set<PageId>)
    requires Valid(c, t, level, lo, hi, min) && InRange(key, lo, hi) && (level > 0 ==> min >= 2)
    requires Holds(s, t, level) && Distinct(t) && Pids(t) <= top
    ensures SpineOk(c, s, Spine(t, key), level, key, min, top) && Spine(t, key)[0] == t
    decreases level
  {
    assert SpineAt(c, s, t, level, key, min, top);
    if t.Nd? {
      var ks := t.kids;
      ChildCovers(c, ks, key, level - 1, lo, hi);
      var k := ks[Slot(t, key)];
      assert Pids(k) <= Pids(t);
      SpineIsOk(c, s, k, level - 1, key, KidLo(ks, Slot(t, key), lo), KidHi(ks, Slot(t, key), hi), Floor(c, level - 1),
          top);
      SpineGrow(c, s, t, Spine(k, key), level, key, min, top);
      assert Spine(t, key) == [t] + Spine(k, key);
    }
  }

  lemma {:induction false} SpineGrow(c: Config, s: Store, t: Tree, rest: seq<Tree>, level: nat, key: Key, min: nat,
                                     top: set<PageId>)
    requires level > 0 && SpineAt(c, s, t, level, key, min, top)
    requires SpineOk(c, s, rest, level - 1, key, Floor(c, level - 1), top) && SpineLink(t, rest[0], key)
    ensures SpineOk(c, s, [t] + rest, level, key, min, top)
  {
    var sp := [t] + rest;
    forall i | 0 <= i <= level ensures SpineAt(c, s, sp[i], level - i, key, SpineMin(c, level, i, min), top) {
      if i > 0 {
        assert SpineAt(c, s, rest[i - 1], level - 1 - (i - 1), key, SpineMin(c, level - 1, i - 1, Floor(c, level - 1)),
            top);
      }
    }
    forall i | 0 <= i < level ensures SpineLink(sp[i], sp[i + 1], key) {
      if i > 0 { assert SpineLink(rest[i - 1], rest[i], key); }
    }
  }

  ghost predicate RootSpineOk(c: Config, s: Store, sp: seq<Tree>, level: nat, key: Key) {
    |sp| > 0 && SpineOk(c, s, sp, level, key, RootFloor(level), Pids(sp[0]))
  }

  lemma {:induction false} RootSpine(c: Config, s: Store, t: Tree, level: nat, header: PageId, key: Key)
    requires TreeOk(c, t, level, header) && Holds(s, t, level)
    ensures RootSpineOk(c, s, Spine(t, key), level, key) && Spine(t, key)[0] == t
  {
    SpineIsOk(c, s, t, level, key, INT64_MIN, None, RootFloor(level), Pids(t));
  }

  lemma SpineLength(c: Config, s: Store, sp: seq<Tree>, level: nat, key: Key)
    requires RootSpineOk(c, s, sp, level, key)
    ensures |sp| == level + 1
  {
  }

  /** What a spine node's page tells the code that reads it. */
  lemma {:induction false} SpinePage(c: Config, s: Store, sp: seq<Tree>, i: nat, level: nat, key: Key)
    requires RootSpineOk(c, s, sp, level, key) && i <= level
    ensures SpineAt(c, s, sp[i], level - i, key, SpineMin(c, level, i, RootFloor(level)), Pids(sp[0]))
    ensures sp[i].pid in s && s[sp[i].pid] == PageOf(sp[i])
    ensures sp[i].Nd? <==> i < level
    ensures sp[i].Lf? <==> i == level
    ensures sp[i].Nd? ==> InternalNodeOk(PageOf(sp[i])) && sp[i].level == level - i && SpineLink(sp[i], sp[i + 1], key)
    ensures sp[i].Lf? ==> LeafShapeOk(PageOf(sp[i]))
    ensures SpineMin(c, level, i, RootFloor(level)) <= Count(sp[i]) <= if i == level then c.leafMax else c.internalMax
  {
    var min := SpineMin(c, level, i, RootFloor(level));
    assert SpineAt(c, s, sp[i], level - i, key, min, Pids(sp[0]));
    var lo, hi :| Valid(c, sp[i], level - i, lo, hi, min) && InRange(key, lo, hi);
    assert i < level ==> SpineLink(sp[i], sp[i + 1], key);
  }

  /** One hop of the descent, as the code that reads the page sees it. */
  lemma {:induction false} SpineHop(c: Config, s: Store, sp: seq<Tree>, i: nat, level: nat, key: Key)
    requires RootSpineOk(c, s, sp, level, key) && i < level
    ensures sp[i].pid in s && s[sp[i].pid].InternalPage?
    ensures var es := s[sp[i].pid].entries;
            && es != [] && SortedSeparators(es) && ChildIndex(es, key) == Slot(sp[i], key) < |es|
            && es[Slot(sp[i], key)].child == sp[i + 1].pid && CanFetch(sp[i + 1].pid)
  {
    SpinePage(c, s, sp, i, level, key);
    var es := PageOf(sp[i]).entries;
    assert IsDataPage(es[Slot(sp[i], key)].child);
  }

  // ---------- a change that stays in one child ----------

  /** A child replaced under its own key and page id: the parent's page is already right. */
  lemma {:induction false} LiftNode(s0: Store, s: Store, t: Tree, k: nat, x: Tree, level: nat, more: set<PageId>)
    requires t.Nd? && Holds(s0, t, level) && Distinct(t) && k < |t.kids|
    requires x.key == t.kids[k].key && x.pid == t.kids[k].pid && Holds(s, x, level - 1)
    requires SameOff(s0, s, Pids(t.kids[k]) + more) && more !! Pids(t)
    ensures Holds(s, t.(kids := t.kids[k := x]), level)
  {
    assert Held(s, [x], level - 1);
    HeldSpliced(s0, s, t, k, [x], level, more);
    assert Spliced(t.kids, k, k + 1, [x]) == t.kids[k := x];
    assert EntriesOf(t.kids[k := x]) == EntriesOf(t.kids);
  }

  /** xs[j] is sp[j] with its path child replaced by xs[j + 1]. */
  ghost predicate Replaces(sp: seq<Tree>, xs: seq<Tree>, j: nat, key: Key)
    requires j + 1 < |sp| == |xs|
  {
    && sp[j].Nd? && Slot(sp[j], key) < |sp[j].kids|
    && xs[j] == sp[j].(kids := sp[j].kids[Slot(sp[j], key) := xs[j + 1]])
    && xs[j + 1].key == sp[j + 1].key && xs[j + 1].pid == sp[j + 1].pid
  }

  /** A node put in place of sp[i] is seen from the root with no further page written. */
  lemma {:induction false} Lift(c: Config, s0: Store, s: Store, sp: seq<Tree>, xs: seq<Tree>, i: nat, level: nat,
                                key: Key, more: set<PageId>)
    requires RootSpineOk(c, s0, sp, level, key) && i <= level && |xs| == |sp|
    requires forall j | 0 <= j < i :: Replaces(sp, xs, j, key)
    requires Holds(s, xs[i], level - i) && SameOff(s0, s, Pids(sp[i]) + more) && more !! Pids(sp[0])
    ensures Holds(s, xs[0], level)
    decreases i
  {
    hide Trees.Valid, Holds, Distinct, SameOff, RootSpineOk, SpineOk, Slot;
    SpineLength(c, s0, sp, level, key);
    if i > 0 {
      var t := sp[i - 1];
      SpinePage(c, s0, sp, i - 1, level, key);
      assert Replaces(sp, xs, i - 1, key);
      LiftNode(s0, s, t, Slot(t, key), xs[i], level - i + 1, more);
      assert Pids(sp[i]) <= Pids(t);
      SameOffMore(s0, s, Pids(sp[i]) + more, Pids(t) + more);
      Lift(c, s0, s, sp, xs, i - 1, level, key, more);
    }
  }

  lemma SameOffMore(a: Store, b: Store, p: set<PageId>, q: set<PageId>)
    requires SameOff(a, b, p) && p <= q
    ensures SameOff(a, b, q)
  {
  }

  lemma SameOffTrans(a: Store, b: Store, d: Store, p: set<PageId>, q: set<PageId>, all: set<PageId>)
    requires SameOff(a, b, p) && SameOff(b, d, q) && p + q <= all
    ensures SameOff(a, d, all)
  {
    forall x | x !in all ensures Same(a, d, x) {
      assert Same(a, b, x) && Same(b, d, x);
    }
  }

  // ---------- insert ----------

  lemma {:induction false} InsUnfold(c: Config, t: Tree, k: Tree, key: Key, rid: RID, spare: seq<PageId>)
    requires SpineLink(t, k, key)
    ensures var q, i := Ins(c, k, key, rid, spare), Slot(t, key);
            Ins(c, t, key, rid, spare) == NodeIns(c, t, Spliced(t.kids, i, i + 1, q), spare)
    ensures var n := Splits(c, k, key);
            Splits(c, t, key) == if n == t.level && |t.kids| >= c.internalMax then n + 1 else n
  {
  }

  lemma {:induction false} SplitsBound(c: Config, s: Store, x: Tree, level: nat, key: Key, rid: RID, spare: seq<PageId>,
                                       min: nat, top: set<PageId>)
    requires SpineAt(c, s, x, level, key, min, top) && (level > 0 ==> min > 0)
    ensures Splits(c, x, key) <= level + 1
    ensures |Ins(c, x, key, rid, spare)| == 2 <==> Splits(c, x, key) == level + 1
  {
    var lo, hi :| Valid(c, x, level, lo, hi, min) && InRange(key, lo, hi);
    SplitsExact(c, x, level, lo, hi, min, key, rid, spare);
  }

  lemma {:induction false} SpinePages(c: Config, s: Store, x: Tree, level: nat, key: Key, rid: RID, spare: seq<PageId>,
                                      min: nat, top: set<PageId>)
    requires SpineAt(c, s, x, level, key, min, top) && (level > 0 ==> min > 0)
    requires |spare| >= Splits(c, x, key) && AllDistinct(spare) && forall j | 0 <= j < |spare| :: spare[j] !in top
    ensures PagesOk(Ins(c, x, key, rid, spare), x, level, spare, Splits(c, x, key))
  {
    var lo, hi :| Valid(c, x, level, lo, hi, min) && InRange(key, lo, hi);
    InsPages(c, x, level, lo, hi, min, key, rid, spare);
  }

  /** Once a node takes the entry without splitting, nothing above it splits. */
  lemma {:induction false} SplitsStay(c: Config, s: Store, sp: seq<Tree>, i: nat, level: nat, key: Key)
    requires RootSpineOk(c, s, sp, level, key) && i <= level && Splits(c, sp[i], key) <= level - i
    ensures forall j | 0 <= j <= i :: Splits(c, sp[j], key) == Splits(c, sp[i], key)
    decreases i
  {
    hide Trees.Valid, Holds, Distinct, Ins, Splits, Slot, SpineOk, Pids, Count, SpineAt, PageOf;
    SpineLength(c, s, sp, level, key);
    if i > 0 {
      SpinePage(c, s, sp, i - 1, level, key);
      InsUnfold(c, sp[i - 1], sp[i], key, RID(0, 0), []);
      SplitsStay(c, s, sp, i - 1, level, key);
    }
  }

  ghost function InsSpine(c: Config, sp: seq<Tree>, key: Key, rid: RID, spare: seq<PageId>): (xs: seq<Tree>)
    ensures |xs| == |sp|
    ensures forall j | 0 <= j < |sp| :: xs[j] == Ins(c, sp[j], key, rid, spare)[0]
  {
    seq(|sp|, j requires 0 <= j < |sp| => Ins(c, sp[j], key, rid, spare)[0])
  }

  lemma {:induction false} InsertLift(c: Config, s0: Store, s: Store, sp: seq<Tree>, i: nat, level: nat, key: Key,
                                      rid: RID, spare: seq<PageId>, more: set<PageId>)
    requires RootSpineOk(c, s0, sp, level, key) && i <= level
    requires Splits(c, sp[i], key) <= level - i && Holds(s, Ins(c, sp[i], key, rid, spare)[0], level - i)
    requires SameOff(s0, s, Pids(sp[i]) + more) && more !! Pids(sp[0])
    ensures Splits(c, sp[0], key) == Splits(c, sp[i], key)
    ensures |Ins(c, sp[0], key, rid, spare)| == 1 && Holds(s, Ins(c, sp[0], key, rid, spare)[0], level)
  {
    var xs := InsSpine(c, sp, key, rid, spare);
    SplitsStay(c, s0, sp, i, level, key);
    forall j | 0 <= j < i ensures Replaces(sp, xs, j, key) {
      InsStays(c, s0, sp, j, level, key, rid, spare, xs);
    }
    Lift(c, s0, s, sp, xs, i, level, key, more);
    SpinePage(c, s0, sp, 0, level, key);
    SplitsBound(c, s0, sp[0], level, key, rid, spare, RootFloor(level), Pids(sp[0]));
  }

  lemma {:induction false} InsStays(c: Config, s: Store, sp: seq<Tree>, j: nat, level: nat, key: Key, rid: RID,
                                    spare: seq<PageId>, xs: seq<Tree>)
    requires RootSpineOk(c, s, sp, level, key) && j < level && xs == InsSpine(c, sp, key, rid, spare)
    requires Splits(c, sp[j + 1], key) < level - j
    ensures Replaces(sp, xs, j, key)
  {
    hide Trees.Valid, Holds, Distinct, Ins, Splits, Slot, SpineOk, Pids, Count, SpineAt, PageOf;
    SpineLength(c, s, sp, level, key);
    SpinePage(c, s, sp, j, level, key);
    SpinePage(c, s, sp, j + 1, level, key);
    SplitsBound(c, s, sp[j + 1], level - j - 1, key, rid, spare, Floor(c, level - j - 1), Pids(sp[0]));
    InsOneKid(c, sp[j], sp[j + 1], key, rid, spare);
  }

  lemma {:induction false} InsOneKid(c: Config, t: Tree, k: Tree, key: Key, rid: RID, spare: seq<PageId>)
    requires SpineLink(t, k, key) && |Ins(c, k, key, rid, spare)| == 1
    ensures Ins(c, t, key, rid, spare) == [t.(kids := t.kids[Slot(t, key) := Ins(c, k, key, rid, spare)[0]])]
  {
    InsUnfold(c, t, k, key, rid, spare);
    var q := Ins(c, k, key, rid, spare);
    assert Spliced(t.kids, Slot(t, key), Slot(t, key) + 1, q) == t.kids[Slot(t, key) := q[0]];
  }

  /** A node whose path child split, once its own pages are written. */
  lemma {:induction false} InsertUp(c: Config, s0: Store, s: Store, s': Store, t: Tree, k: nat, q: seq<Tree>,
                                    level: nat, spare: seq<PageId>, n: nat, w: set<PageId>)
    requires t.Nd? && Holds(s0, t, level) && Distinct(t) && k < |t.kids| && t.level == level == n
    requires n <= |spare| && Taken(spare, n) !! Pids(t) && |q| == 2
    requires Held(s, q, level - 1) && PagesOk(q, t.kids[k], level - 1, spare, n)
    requires SameOff(s0, s, Pids(t.kids[k]) + Taken(spare, n))
    requires Written(s', NodeIns(c, t, Spliced(t.kids, k, k + 1, q), spare))
    requires SameOff(s, s', w) && t.pid in w && w - {t.pid} !! Pids(t) && w !! Taken(spare, n)
    ensures Held(s', NodeIns(c, t, Spliced(t.kids, k, k + 1, q), spare), level)
    ensures SameOff(s0, s', Pids(t) + Taken(spare, n) + w)
  {
    var all := Spliced(t.kids, k, k + 1, q);
    HeldSpliced(s0, s, t, k, q, level, Taken(spare, n));
    SpliceTaken(t.kids, k, q, Taken(spare, n));
    assert w !! RunPids(all);
    HeldNodeIns(c, s, s', t, all, level, spare, w);
    assert Pids(t.kids[k]) <= Pids(t);
    SameOffTrans(s0, s, s', Pids(t.kids[k]) + Taken(spare, n), w, Pids(t) + Taken(spare, n) + w);
  }

  // ---------- point lookup ----------

  /** An entry with the key is in the tree exactly when it is in the leaf the descent reaches. */
  lemma {:induction false} LookupInLeaf(c: Config, t: Tree, level: nat, lo: Key, hi: Option<Key>, min: nat, key: Key)
    requires Valid(c, t, level, lo, hi, min) && InRange(key, lo, hi) && (level > 0 ==> min > 0)
    ensures var sp := Spine(t, key); var leaf := sp[|sp| - 1];
            && leaf.Lf?
            && forall e: LeafEntry | e.key == key :: e in Contents(t) <==> e in leaf.es
    decreases level
  {
    if t.Nd? {
      var ks := t.kids;
      ChildCovers(c, ks, key, level - 1, lo, hi);
      var i := Slot(t, key);
      LookupInLeaf(c, ks[i], level - 1, KidLo(ks, i, lo), KidHi(ks, i, hi), Floor(c, level - 1), key);
      AroundChild(c, ks, i, key, level - 1, lo, hi);
      FlatAt(ks, i);
      var rest := Spine(ks[i], key);
      assert Spine(t, key) == [t] + rest;
      MiddleMember(Flat(ks[..i]), Contents(ks[i]), Flat(ks[i + 1..]), key);
    }
  }

  lemma MiddleMember(a: seq<LeafEntry>, b: seq<LeafEntry>, d: seq<LeafEntry>, key: Key)
    requires AllBelow(a, key) && AllAbove(d, key)
    ensures forall e: LeafEntry | e.key == key :: e in a + b + d <==> e in b
  {
  }
}
