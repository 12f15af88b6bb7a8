/**
 * The tree a page store describes.  `Unfold` follows child pointers from a page down a given number
 * of levels; everything the index promises is stated about the tree it returns.
 */
module Trees {
  import opened Common
  import opened Nodes

  type Store = map<PageId, Page>

  type Fanout = n: nat | MIN_FANOUT <= n <= NODE_CAPACITY witness MIN_FANOUT
  datatype Config = Config(leafMax: Fanout, internalMax: Fanout)

  /** `key` is the separator under which the parent lists this node; it bounds the node from below
      except in a node's first child, where it is the unread slot. */
  datatype Tree =
    | Lf(key: Key, pid: PageId, level: nat, next: PageId, es: seq<LeafEntry>)
    | Nd(key: Key, pid: PageId, level: nat, next: PageId, kids: seq<Tree>)
    | Broken(key: Key, pid: PageId)

  /** A page that is missing or of the wrong type for its level unfolds to `Broken`.  Recursion is on
      the level, so a cyclic store unfolds too. */
  ghost function Unfold(s: Store, key: Key, pid: PageId, level: nat): (t: Tree)
    ensures t.pid == pid && t.key == key
    decreases level
  {
    if pid !in s then Broken(key, pid)
    else match s[pid]
      case LeafPage(l, n, es) =>
        if level == 0 then Lf(key, pid, l, n, es) else Broken(key, pid)
      case InternalPage(l, n, es) =>
        if level == 0 then Broken(key, pid)
        else Nd(key, pid, l, n, seq(|es|, i requires 0 <= i < |es| => Unfold(s, es[i].key, es[i].child, level - 1)))
      case _ => Broken(key, pid)
  }

  function EntriesOf(ks: seq<Tree>): (es: seq<InternalEntry>)
    ensures |es| == |ks|
    ensures forall i | 0 <= i < |ks| :: es[i] == InternalEntry(ks[i].key, ks[i].pid)
  {
    seq(|ks|, i requires 0 <= i < |ks| => InternalEntry(ks[i].key, ks[i].pid))
  }

  function PageOf(t: Tree): Page {
    match t
    case Lf(_, _, l, n, es) => LeafPage(l, n, es)
    case Nd(_, _, l, n, ks) => InternalPage(l, n, EntriesOf(ks))
    case Broken(_, _) => OtherPage
  }

  function Count(t: Tree): nat {
    match t
    case Lf(_, _, _, _, es) => |es|
    case Nd(_, _, _, _, ks) => |ks|
    case Broken(_, _) => 0
  }

  function Floor(c: Config, level: nat): nat {
    if level == 0 then LeafMinEntries(c.leafMax) else InternalMinChildren(c.internalMax)
  }

  /** The root may be an empty leaf; an internal root needs two children. */
  function RootFloor(level: nat): nat { if level == 0 then 0 else 2 }

  // ---------- the declared invariant ----------

  predicate Below(k: Key, hi: Option<Key>) { hi.Some? ==> k < hi.value }
  predicate InRange(k: Key, lo: Key, hi: Option<Key>) { lo <= k && Below(k, hi) }

  /** A child's interval runs from its own key to its right sibling's; the outermost bounds are `lo` and `hi`. */
  function KidLo(ks: seq<Tree>, i: nat, lo: Key): Key
    requires i < |ks|
  {
    if i == 0 then lo else ks[i].key
  }

  function KidHi(ks: seq<Tree>, i: nat, hi: Option<Key>): Option<Key>
    requires i < |ks|
  {
    if i + 1 < |ks| then Some(ks[i + 1].key) else hi
  }

  /** All of the invariant that a subtree can show by itself; `min` is the least its top node may hold. */
  ghost predicate Valid(c: Config, t: Tree, level: nat, lo: Key, hi: Option<Key>, min: nat)
    decreases level, 0
  {
    match t
    case Lf(_, _, _, _, es) =>
      && level == 0
      && LeafShapeOk(PageOf(t))
      && min <= |es| <= c.leafMax
      && forall i | 0 <= i < |es| :: InRange(es[i].key, lo, hi)
    case Nd(_, _, l, _, ks) =>
      && level > 0
      && l == level
      && InternalNodeOk(PageOf(t))
      && min <= |ks| <= c.internalMax
      && ValidRun(c, ks, level - 1, lo, hi)
    case Broken(_, _) => false
  }

  /** The part of the invariant about a run of adjacent siblings, whatever node holds them. */
  ghost predicate ValidRun(c: Config, ks: seq<Tree>, level: nat, lo: Key, hi: Option<Key>)
    decreases level, 2
  {
    && SeparatorsOk(ks, lo, hi)
    && forall i | 0 <= i < |ks| :: KidOk(c, ks, i, level, lo, hi)
  }

  ghost predicate SeparatorsOk(ks: seq<Tree>, lo: Key, hi: Option<Key>) {
    && (forall i | 1 <= i < |ks| :: InRange(ks[i].key, lo, hi))
    && (forall i, j | 1 <= i < j < |ks| :: ks[i].key < ks[j].key)
  }

  ghost predicate KidOk(c: Config, ks: seq<Tree>, i: nat, level: nat, lo: Key, hi: Option<Key>)
    requires i < |ks|
    decreases level, 1
  {
    && IsDataPage(ks[i].pid)
    && Valid(c, ks[i], level, KidLo(ks, i, lo), KidHi(ks, i, hi), Floor(c, level))
  }

  /** Every page the tree reaches, missing ones included. */
  ghost function Pids(t: Tree): set<PageId> {
    {t.pid} + if t.Nd? then RunPids(t.kids) else {}
  }

  ghost function RunPids(ks: seq<Tree>): set<PageId> {
    set i: nat, p | i < |ks| && p in Pids(ks[i]) :: p
  }

  /** No page is reached twice. */
  ghost predicate Distinct(t: Tree) {
    t.Nd? ==> t.pid !in RunPids(t.kids) && DistinctRun(t.kids)
  }

  ghost predicate DistinctRun(ks: seq<Tree>) {
    && (forall i | 0 <= i < |ks| :: Distinct(ks[i]))
    && (forall i, j | 0 <= i < j < |ks| :: Pids(ks[i]) !! Pids(ks[j]))
  }

  /** The leftmost leaf. */
  ghost function First(t: Tree): PageId {
    if t.Nd? && t.kids != [] then First(t.kids[0]) else t.pid
  }

  ghost function FirstOf(ks: seq<Tree>, after: PageId): PageId {
    if ks == [] then after else First(ks[0])
  }

  /** Each leaf links to the leaf after it in key order; the last one links to `after`. */
  ghost predicate Chained(t: Tree, after: PageId) {
    match t
    case Lf(_, _, _, n, _) => n == after
    case Nd(_, _, _, _, ks) => ChainedRun(ks, after)
    case Broken(_, _) => false
  }

  ghost predicate ChainedRun(ks: seq<Tree>, after: PageId) {
    ks != [] ==> ChainedRun(ks[1..], after) && Chained(ks[0], FirstOf(ks[1..], after))
  }

  /** The whole-tree invariant of an index whose header page is `header`. */
  ghost predicate TreeOk(c: Config, t: Tree, level: nat, header: PageId) {
    && Valid(c, t, level, INT64_MIN, None, RootFloor(level))
    && Distinct(t) && header !in Pids(t)
    && Chained(t, INVALID_PAGE)
  }

  /** The entries of all leaves, left to right. */
  ghost function Contents(t: Tree): seq<LeafEntry> {
    match t
    case Lf(_, _, _, _, es) => es
    case Nd(_, _, _, _, ks) => Flat(ks)
    case Broken(_, _) => []
  }

  ghost function Flat(ks: seq<Tree>): seq<LeafEntry> {
    if ks == [] then [] else Contents(ks[0]) + Flat(ks[1..])
  }

  ghost predicate Present(es: seq<LeafEntry>, key: Key) {
    exists i | 0 <= i < |es| :: es[i].key == key
  }

  /** The entries and the map hold the same keys with the same row addresses. */
  ghost predicate Describes(es: seq<LeafEntry>, m: map<Key, RID>) {
    && (forall i | 0 <= i < |es| :: es[i].key in m && m[es[i].key] == es[i].rid)
    && (forall k | k in m :: Present(es, k))
  }

  /** The finite map a sorted run of entries stands for. */
  ghost function AsMap(es: seq<LeafEntry>): (m: map<Key, RID>)
    requires SortedLeaf(es)
    ensures Describes(es, m)
  {
    if es == [] then map[] else
    var n := |es| - 1;
    DescribesLast(es, n, AsMap(es[..n]));
    AsMap(es[..n])[es[n].key := es[n].rid]
  }

  lemma DescribesLast(es: seq<LeafEntry>, n: nat, m: map<Key, RID>)
    requires SortedLeaf(es) && n + 1 == |es| && Describes(es[..n], m)
    ensures Describes(es, m[es[n].key := es[n].rid])
  {
    var m' := m[es[n].key := es[n].rid];
    forall k | k in m' ensures Present(es, k) {
      if k != es[n].key {
        var i :| 0 <= i < n && es[..n][i].key == k;
        assert es[i].key == k;
      }
    }
    forall i | 0 <= i < |es| ensures es[i].key in m' && m'[es[i].key] == es[i].rid {
      if i < n { assert es[..n][i] == es[i]; }
    }
  }

  // ---------- unfolding ----------

  /** Unfolding depends on the reached pages only. */
  lemma {:induction false} UnfoldFrame(s: Store, s': Store, key: Key, pid: PageId, level: nat)
    requires forall p | p in Pids(Unfold(s, key, pid, level)) :: (p in s <==> p in s') && (p in s ==> s[p] == s'[p])
    ensures Unfold(s', key, pid, level) == Unfold(s, key, pid, level)
    decreases level
  {
    var t := Unfold(s, key, pid, level);
    assert pid in Pids(t);
    if t.Nd? {
      var t' := Unfold(s', key, pid, level);
      forall i | 0 <= i < |t.kids|
        ensures t'.kids[i] == t.kids[i]
      {
        assert Pids(t.kids[i]) <= Pids(t);
        UnfoldFrame(s, s', t.kids[i].key, t.kids[i].pid, level - 1);
      }
      assert t'.kids == t.kids;
    }
  }

  /** An unbroken node of an unfolded tree is the page stored under its id. */
  lemma {:induction false} UnfoldPage(s: Store, key: Key, pid: PageId, level: nat)
    requires !Unfold(s, key, pid, level).Broken?
    ensures pid in s && PageOf(Unfold(s, key, pid, level)) == s[pid]
  {
    var t := Unfold(s, key, pid, level);
    if t.Nd? {
      assert EntriesOf(t.kids) == s[pid].entries;
    }
  }

  /** To unfold to a given node it is enough to store its page and unfold its children. */
  lemma {:induction false} UnfoldNode(s: Store, t: Tree, level: nat)
    requires t.Nd? && level > 0
    requires t.pid in s && s[t.pid] == PageOf(t)
    requires forall i | 0 <= i < |t.kids| :: Unfold(s, t.kids[i].key, t.kids[i].pid, level - 1) == t.kids[i]
    ensures Unfold(s, t.key, t.pid, level) == t
  {
    assert Unfold(s, t.key, t.pid, level).kids == t.kids;
  }

  // ---------- runs of siblings ----------

  lemma {:induction false} FlatConcat(a: seq<Tree>, b: seq<Tree>)
    ensures Flat(a + b) == Flat(a) + Flat(b)
  {
    hide Flat, Contents;
    if a == [] {
      assert a + b == b;
      FlatNil();
    } else {
      FlatConcat(a[1..], b);
      FlatCons(a[0], a[1..]);
      FlatCons(a[0], a[1..] + b);
      assert a == [a[0]] + a[1..] && a + b == [a[0]] + (a[1..] + b);
    }
  }

  lemma FlatNil()
    ensures Flat([]) == []
  {
  }

  lemma FlatCons(t: Tree, ks: seq<Tree>)
    ensures Flat([t] + ks) == Contents(t) + Flat(ks)
  {
    hide Contents;
    assert ([t] + ks)[1..] == ks;
  }

  lemma {:induction false} FlatAt(ks: seq<Tree>, i: nat)
    requires i < |ks|
    ensures Flat(ks) == Flat(ks[..i]) + Contents(ks[i]) + Flat(ks[i + 1..])
  {
    FlatConcat(ks[..i], ks[i..]);
    assert ks[..i] + ks[i..] == ks;
    assert ks[i..][1..] == ks[i + 1..];
  }

  /** A non-root subtree holds a key, so its interval is not empty. */
  lemma {:induction false} IntervalNotEmpty(c: Config, t: Tree, level: nat, lo: Key, hi: Option<Key>, min: nat)
    requires Valid(c, t, level, lo, hi, min) && min >= 1
    ensures Below(lo, hi)
    decreases level
  {
    if t.Lf? {
      assert InRange(t.es[0].key, lo, hi);
    } else {
      assert KidOk(c, t.kids, 0, level - 1, lo, hi);
      IntervalNotEmpty(c, t.kids[0], level - 1, lo, KidHi(t.kids, 0, hi), Floor(c, level - 1));
      if |t.kids| > 1 { assert InRange(t.kids[1].key, lo, hi); }
    }
  }

  /** Child i of a valid run, with its interval non-empty. */
  lemma {:induction false} KidInterval(c: Config, ks: seq<Tree>, i: nat, level: nat, lo: Key, hi: Option<Key>)
    requires ValidRun(c, ks, level, lo, hi) && i < |ks|
    ensures lo <= KidLo(ks, i, lo) && Below(KidLo(ks, i, lo), KidHi(ks, i, hi))
    ensures i > 0 ==> lo < ks[i].key
  {
    assert KidOk(c, ks, i, level, lo, hi);
    IntervalNotEmpty(c, ks[i], level, KidLo(ks, i, lo), KidHi(ks, i, hi), Floor(c, level));
    if i > 0 {
      assert InRange(ks[i].key, lo, hi);
      assert KidOk(c, ks, 0, level, lo, hi);
      IntervalNotEmpty(c, ks[0], level, lo, Some(ks[1].key), Floor(c, level));
    }
  }

  /** A valid run cut at separator m is two valid runs. */
  lemma {:induction false} CutRun(c: Config, ks: seq<Tree>, m: nat, level: nat, lo: Key, hi: Option<Key>)
    requires ValidRun(c, ks, level, lo, hi) && 0 < m < |ks|
    ensures ValidRun(c, ks[..m], level, lo, Some(ks[m].key))
    ensures ValidRun(c, ks[m..], level, ks[m].key, hi)
  {
    var a, b, mid := ks[..m], ks[m..], ks[m].key;
    forall i | 0 <= i < |a|
      ensures KidOk(c, a, i, level, lo, Some(mid))
    {
      assert KidOk(c, ks, i, level, lo, hi);
    }
    forall i | 0 <= i < |b|
      ensures KidOk(c, b, i, level, mid, hi)
    {
      assert KidOk(c, ks, m + i, level, lo, hi);
    }
  }

  /** Two valid runs that meet at `sep` are one valid run once `sep` is written between them. */
  lemma {:induction false} JoinRun(c: Config, a: seq<Tree>, b: seq<Tree>, sep: Key, level: nat, lo: Key,
                                   hi: Option<Key>)
    requires a != [] && b != [] && b[0].key == sep
    requires ValidRun(c, a, level, lo, Some(sep)) && ValidRun(c, b, level, sep, hi)
    ensures ValidRun(c, a + b, level, lo, hi)
  {
    var ks, m := a + b, |a|;
    KidInterval(c, a, m - 1, level, lo, Some(sep));
    KidInterval(c, b, 0, level, sep, hi);
    forall i | 1 <= i < |b| ensures sep < b[i].key { KidInterval(c, b, i, level, sep, hi); }
    JoinSeparators(a, b, sep, lo, hi);
    forall i | 0 <= i < |ks|
      ensures KidOk(c, ks, i, level, lo, hi)
    {
      if i < m {
        assert KidOk(c, a, i, level, lo, Some(sep));
      } else {
        assert KidOk(c, b, i - m, level, sep, hi);
      }
    }
  }

  lemma JoinSeparators(a: seq<Tree>, b: seq<Tree>, sep: Key, lo: Key, hi: Option<Key>)
    requires a != [] && b != [] && b[0].key == sep && lo < sep && Below(sep, hi)
    requires SeparatorsOk(a, lo, Some(sep)) && SeparatorsOk(b, sep, hi)
    requires forall i | 1 <= i < |b| :: sep < b[i].key
    ensures SeparatorsOk(a + b, lo, hi)
  {
  }

  // ---------- order and range of the contents ----------

  /** A subtree's entries lie in its interval, in strictly increasing key order. */
  lemma {:induction false} ContentsInRange(c: Config, t: Tree, level: nat, lo: Key, hi: Option<Key>, min: nat)
    requires Valid(c, t, level, lo, hi, min)
    ensures SortedLeaf(Contents(t))
    ensures forall i | 0 <= i < |Contents(t)| :: InRange(Contents(t)[i].key, lo, hi)
    decreases level, 0
  {
    if t.Nd? {
      FlatInRange(c, t.kids, level - 1, lo, hi);
    }
  }

  lemma {:induction false} FlatInRange(c: Config, ks: seq<Tree>, level: nat, lo: Key, hi: Option<Key>)
    requires ValidRun(c, ks, level, lo, hi)
    ensures SortedLeaf(Flat(ks))
    ensures forall i | 0 <= i < |Flat(ks)| :: InRange(Flat(ks)[i].key, lo, hi)
    decreases level, 1, |ks|
  {
    if ks != [] {
      assert KidOk(c, ks, 0, level, lo, hi);
      ContentsInRange(c, ks[0], level, lo, KidHi(ks, 0, hi), Floor(c, level));
      if |ks| > 1 {
        CutRun(c, ks, 1, level, lo, hi);
        FlatInRange(c, ks[1..], level, ks[1].key, hi);
        assert InRange(ks[1].key, lo, hi);
      } else {
        assert Flat(ks) == Contents(ks[0]);
      }
    }
  }
}
