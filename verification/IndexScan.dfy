/** Range scans: the leaf chain in key order, and the cursor that walks it one leaf at a time. */
module IndexScan {
  import opened Common
  import opened Nodes
  import opened Trees
  import opened TreeInsert
  import opened TreeStore
  import opened TreeSpine
  import opened TreeIndex
  import opened BPlusTrees

  // ---------- the leaves of a tree ----------

  ghost function LeafList(t: Tree): seq<Tree> {
    match t
    case Lf(_, _, _, _, _) => [t]
    case Nd(_, _, _, _, ks) => LeavesOf(ks)
    case Broken(_, _) => []
  }

  ghost function LeavesOf(ks: seq<Tree>): seq<Tree> {
    if ks == [] then [] else LeafList(ks[0]) + LeavesOf(ks[1..])
  }

  /** Leaves the store holds, each linking to the next and the last one to `after`. */
  ghost predicate LeafChain(s: Store, ls: seq<Tree>, after: PageId) {
    forall i | 0 <= i < |ls| :: LinkOk(s, ls, i, after)
  }

  ghost predicate LinkOk(s: Store, ls: seq<Tree>, i: nat, after: PageId)
    requires i < |ls|
  {
    && ls[i].Lf? && ls[i].pid in s && s[ls[i].pid] == PageOf(ls[i]) && CanFetch(ls[i].pid)
    && ls[i].next == if i + 1 < |ls| then ls[i + 1].pid else after
  }

  lemma {:induction false} LeavesConcat(a: seq<Tree>, b: seq<Tree>)
    ensures LeavesOf(a + b) == LeavesOf(a) + LeavesOf(b)
  {
    hide LeafList, LeavesOf;
    if a == [] {
      assert a + b == b;
      NoLeaves();
    } else {
      LeavesConcat(a[1..], b);
      LeavesCons(a[0], a[1..]);
      LeavesCons(a[0], a[1..] + b);
      assert a == [a[0]] + a[1..] && a + b == [a[0]] + (a[1..] + b);
    }
  }

  lemma NoLeaves()
    ensures LeavesOf([]) == []
  {
  }

  lemma LeavesCons(t: Tree, ks: seq<Tree>)
    ensures LeavesOf([t] + ks) == LeafList(t) + LeavesOf(ks)
  {
    hide LeafList;
    assert ([t] + ks)[1..] == ks;
  }

  lemma {:induction false} LeavesAt(ks: seq<Tree>, i: nat)
    requires i < |ks|
    ensures LeavesOf(ks) == LeavesOf(ks[..i]) + LeafList(ks[i]) + LeavesOf(ks[i + 1..])
  {
    LeavesConcat(ks[..i], ks[i..]);
    assert ks[..i] + ks[i..] == ks && ks[i..][1..] == ks[i + 1..];
  }

  /** The leaves hold the tree's entries in order. */
  lemma {:induction false} LeavesHoldContents(t: Tree)
    ensures Flat(LeafList(t)) == Contents(t)
    decreases t, 0
  {
    match t
    case Lf(_, _, _, _, es) => assert [t][1..] == [];
    case Nd(_, _, _, _, ks) => RunLeavesHoldContents(ks);
    case Broken(_, _) =>
  }

  lemma {:induction false} RunLeavesHoldContents(ks: seq<Tree>)
    ensures Flat(LeavesOf(ks)) == Flat(ks)
    decreases ks, 1
  {
    if ks != [] {
      LeavesHoldContents(ks[0]);
      RunLeavesHoldContents(ks[1..]);
      FlatConcat(LeafList(ks[0]), LeavesOf(ks[1..]));
    }
  }

  /** In a held, chained tree the leaves form one chain from the leftmost leaf to `after`. */
  lemma {:induction false} LeavesChained(c: Config, s: Store, t: Tree, level: nat, lo: Key, hi: Option<Key>, min: nat,
                                         after: PageId)
    requires Valid(c, t, level, lo, hi, min) && Holds(s, t, level) && Chained(t, after) && CanFetch(t.pid)
    requires level > 0 ==> min > 0
    ensures LeafChain(s, LeafList(t), after) && LeafList(t) != [] && LeafList(t)[0].pid == First(t)
    decreases level, 0
  {
    if t.Nd? {
      assert LeafList(t) == LeavesOf(t.kids);
      RunLeavesChained(c, s, t.kids, level - 1, lo, hi, after);
    }
  }

  lemma {:induction false} RunLeavesChained(c: Config, s: Store, ks: seq<Tree>, level: nat, lo: Key, hi: Option<Key>,
                                            after: PageId)
    requires ValidRun(c, ks, level, lo, hi) && Held(s, ks, level) && ChainedRun(ks, after) && ks != []
    ensures LeafChain(s, LeavesOf(ks), after) && LeavesOf(ks) != [] && LeavesOf(ks)[0].pid == First(ks[0])
    decreases level, 1, |ks|
  {
    assert KidOk(c, ks, 0, level, lo, hi);
    LeavesChained(c, s, ks[0], level, lo, KidHi(ks, 0, hi), Floor(c, level), FirstOf(ks[1..], after));
    if |ks| > 1 {
      CutRun(c, ks, 1, level, lo, hi);
      assert Held(s, ks[1..], level);
      RunLeavesChained(c, s, ks[1..], level, ks[1].key, hi, after);
      ChainConcat(s, LeafList(ks[0]), LeavesOf(ks[1..]), after);
    } else {
      assert LeavesOf(ks) == LeafList(ks[0]);
    }
  }

  lemma ChainConcat(s: Store, a: seq<Tree>, b: seq<Tree>, after: PageId)
    requires b != [] && LeafChain(s, a, b[0].pid) && LeafChain(s, b, after)
    ensures LeafChain(s, a + b, after)
  {
    forall i | 0 <= i < |a + b| ensures LinkOk(s, a + b, i, after) {
      if i < |a| { assert LinkOk(s, a, i, b[0].pid); } else { assert LinkOk(s, b, i - |a|, after); }
    }
  }

  lemma ChainTail(s: Store, ls: seq<Tree>, n: nat, after: PageId)
    requires LeafChain(s, ls, after) && n <= |ls|
    ensures LeafChain(s, ls[n..], after)
  {
    forall i | 0 <= i < |ls| - n ensures LinkOk(s, ls[n..], i, after) {
      assert LinkOk(s, ls, n + i, after);
    }
  }

  /** The leaf the descent for `key` reaches, among all the leaves: everything left of it is below the
      key and everything right of it above. */
  ghost predicate LeafSplit(ls: seq<Tree>, n: nat, leaf: Tree, key: Key) {
    n < |ls| && ls[n] == leaf && AllBelow(Flat(ls[..n]), key) && AllAbove(Flat(ls[n + 1..]), key)
  }

  lemma {:induction false} DescentLeaf(c: Config, t: Tree, level: nat, lo: Key, hi: Option<Key>, min: nat, key: Key)
      returns (n: nat)
    requires Valid(c, t, level, lo, hi, min) && InRange(key, lo, hi) && (level > 0 ==> min > 0)
    ensures var sp := Spine(t, key); LeafSplit(LeafList(t), n, sp[|sp| - 1], key)
    decreases level
  {
    hide Flat, Contents, LeafSplit, AllBelow, AllAbove, Distinct, LeavesOf, LeafList, Spine, Slot, Trees.Valid;
    DescentStep(c, t, level, lo, hi, min, key);
    if t.Lf? {
      n := 0;
      OneLeafSplit(t, key);
    } else {
      var ks, i := t.kids, Slot(t, key);
      var m := DescentLeaf(c, ks[i], level - 1, KidLo(ks, i, lo), KidHi(ks, i, hi), Floor(c, level - 1), key);
      AroundChild(c, ks, i, key, level - 1, lo, hi);
      var rest := Spine(ks[i], key);
      n := |LeavesOf(ks[..i])| + m;
      LeavesAt(ks, i);
      RunLeavesHoldContents(ks[..i]);
      RunLeavesHoldContents(ks[i + 1..]);
      SplitInMiddle(LeavesOf(ks[..i]), LeafList(ks[i]), LeavesOf(ks[i + 1..]), m, rest[|rest| - 1], key);
    }
  }

  /** One level of the descent. */
  lemma {:induction false} DescentStep(c: Config, t: Tree, level: nat, lo: Key, hi: Option<Key>, min: nat, key: Key)
    requires Valid(c, t, level, lo, hi, min) && InRange(key, lo, hi) && (level > 0 ==> min > 0)
    ensures !t.Broken? && (t.Nd? <==> level > 0) && Spine(t, key) != []
    ensures t.Lf? ==> LeafList(t) == [t] == Spine(t, key)
    ensures t.Nd? ==>
              var ks, i := t.kids, Slot(t, key);
              && ValidRun(c, ks, level - 1, lo, hi) && LeafList(t) == LeavesOf(ks)
              && i < |ks| && i == ChildIndex(EntriesOf(ks), key) && KidOk(c, ks, i, level - 1, lo, hi)
              && InRange(key, KidLo(ks, i, lo), KidHi(ks, i, hi)) && Floor(c, level - 1) > 0
              && Spine(ks[i], key) != [] && Spine(t, key) == [t] + Spine(ks[i], key)
  {
    if t.Nd? { ChildCovers(c, t.kids, key, level - 1, lo, hi); }
  }

  lemma OneLeafSplit(t: Tree, key: Key)
    ensures LeafSplit([t], 0, t, key)
  {
    assert [t][..0] == [] && [t][1..] == [];
  }

  lemma {:induction false} SplitInMiddle(a: seq<Tree>, b: seq<Tree>, d: seq<Tree>, m: nat, leaf: Tree, key: Key)
    requires LeafSplit(b, m, leaf, key) && AllBelow(Flat(a), key) && AllAbove(Flat(d), key)
    ensures LeafSplit(a + b + d, |a| + m, leaf, key)
  {
    hide Flat;
    var ls, n := a + b + d, |a| + m;
    assert ls[..n] == a + b[..m] && ls[n + 1..] == b[m + 1..] + d;
    FlatConcat(a, b[..m]);
    FlatConcat(b[m + 1..], d);
  }

  // ---------- what a scan returns ----------

  /** The entries with lo <= key <= hi, in order. */
  function Between(es: seq<LeafEntry>, lo: Key, hi: Key): seq<LeafEntry> {
    if es == [] then []
    else if lo <= es[0].key <= hi then [es[0]] + Between(es[1..], lo, hi)
    else Between(es[1..], lo, hi)
  }

  /** The leading entries with key <= hi. */
  function UpTo(es: seq<LeafEntry>, hi: Key): seq<LeafEntry> {
    if es == [] || hi < es[0].key then [] else [es[0]] + UpTo(es[1..], hi)
  }

  /** On entries in key order, skipping to the lower bound of lo and stopping at hi is the filter. */
  lemma {:induction false} UpToIsBetween(es: seq<LeafEntry>, lo: Key, hi: Key)
    requires SortedLeaf(es)
    ensures UpTo(es[LowerIndex(es, lo)..], hi) == Between(es, lo, hi)
    decreases |es|
  {
    if es != [] {
      if es[0].key < lo {
        UpToIsBetween(es[1..], lo, hi);
        assert es[1..][LowerIndex(es[1..], lo)..] == es[LowerIndex(es, lo)..];
      } else {
        assert es[LowerIndex(es, lo)..] == es;
        SortedTail(es, lo, hi);
      }
    }
  }

  lemma {:induction false} SortedTail(es: seq<LeafEntry>, lo: Key, hi: Key)
    requires SortedLeaf(es) && forall i | 0 <= i < |es| :: lo <= es[i].key
    ensures UpTo(es, hi) == Between(es, lo, hi)
  {
    if es != [] {
      SortedTail(es[1..], lo, hi);
      if hi < es[0].key {
        assert UpTo(es[1..], hi) == [];
      }
    }
  }

  /** Everything from entry `index` of the first of these leaves on. */
  ghost function RestOf(ls: seq<Tree>, index: nat): seq<LeafEntry> {
    if ls == [] || !ls[0].Lf? || index > |ls[0].es| then [] else ls[0].es[index..] + Flat(ls[1..])
  }

  lemma {:induction false} RestAtEnd(ls: seq<Tree>)
    requires ls != [] && ls[0].Lf? && (|ls| > 1 ==> ls[1].Lf?)
    ensures RestOf(ls, |ls[0].es|) == RestOf(ls[1..], 0)
  {
    var b := ls[1..];
    assert ls[0].es[|ls[0].es|..] == [];
    if b != [] { assert b[0].es[0..] == b[0].es && Flat(b) == Contents(b[0]) + Flat(b[1..]); }
  }

  lemma {:induction false} RestStep(ls: seq<Tree>, index: nat)
    requires ls != [] && ls[0].Lf? && index < |ls[0].es|
    ensures RestOf(ls, index) == [ls[0].es[index]] + RestOf(ls, index + 1)
  {
  }

  class IndexIterator {
    const tree: BPlusTree
    var pageId: PageId      // INVALID_PAGE once exhausted
    var index: nat          // into ahead[0]
    const hi: Key
    var guard: Option<Page> // the leaf page held, if one is
    var current: LeafEntry
    ghost var ahead: seq<Tree>  // the current leaf and those after it

    ghost predicate Valid()
      reads this, tree`pages
    {
      && LeafChain(tree.pages, ahead, INVALID_PAGE)
      && (pageId == INVALID_PAGE <==> ahead == [])
      && (ahead != [] ==>
          LinkOk(tree.pages, ahead, 0, INVALID_PAGE) && ahead[0].pid == pageId
          && index <= |ahead[0].es|)
      && (guard.Some? ==> ahead != [] && guard.value == PageOf(ahead[0]))
    }

    /** What the scan has still to report. */
    ghost function Pending(): seq<LeafEntry>
      requires Valid()
      reads this, tree`pages
    {
      UpTo(RestOf(ahead, index), hi)
    }

    constructor (tree: BPlusTree, leafPageId: PageId, index: nat, hi: Key, ghost ahead: seq<Tree>)
      requires LeafChain(tree.pages, ahead, INVALID_PAGE) && ahead != [] && ahead[0].pid == leafPageId
               && CanFetch(leafPageId)
      requires ahead[0].Lf? && index <= |ahead[0].es|
      ensures Valid() && this.tree == tree && this.hi == hi
      ensures Pending() == UpTo(RestOf(ahead, index), hi)
    {
      this.tree, this.pageId, this.index, this.hi, this.ahead := tree, leafPageId, index, hi, ahead;
      this.guard, this.current := None, ZERO_LEAF_ENTRY;
      assert LinkOk(tree.pages, ahead, 0, INVALID_PAGE);
    }

    /** True delivers exactly the first pending entry.  False means nothing was pending.  After a false or
        an error every later call answers false. */
    method Next() returns (r: Result<bool>)
      requires Valid()
      modifies this, tree`faults
      ensures Valid() && tree.faults == old(tree.faults) + if r.Err? then 1 else 0
      ensures r == Ok(true) ==> old(Pending()) != [] && current == old(Pending())[0] && Pending() == old(Pending())[1..]
      ensures r == Ok(false) ==> old(Pending()) == [] && Pending() == []
      ensures r.Err? || r == Ok(false) ==> pageId == INVALID_PAGE && guard == None
      ensures old(pageId) == INVALID_PAGE ==> r == Ok(false)
      ensures r.Err? ==> r.error == IOError
    {
      hide Flat, Contents, RestOf;
      ghost var was := Pending();
      while pageId != INVALID_PAGE
        invariant Valid() && Pending() == was && tree.faults == old(tree.faults)
        invariant old(pageId) == INVALID_PAGE ==> pageId == INVALID_PAGE
        decreases |ahead|
      {
        if guard.None? {
          var page := tree.Fetch(pageId);
          if page.Err? {
            pageId, ahead := INVALID_PAGE, [];
            return Err(page.error);
          }
          guard := Some(page.value);
        }
        var leaf := guard.value;
        if index >= |leaf.leafEntries| {
          NextLeaf(tree.pages, ahead);
          var next := leaf.next;
          guard, pageId, index, ahead := None, next, 0, ahead[1..];
        } else {
          var entry := leaf.leafEntries[index];
          RestStep(ahead, index);
          if entry.key > hi {
            guard, pageId, ahead := None, INVALID_PAGE, [];
            EmptyRest(index);
            return Ok(false);
          }
          current := entry;
          index := index + 1;
          return Ok(true);
        }
      }
      EmptyRest(index);
      return Ok(false);
    }
  }

  lemma EmptyRest(index: nat)
    ensures RestOf([], index) == []
  {
  }

  lemma {:induction false} NextLeaf(s: Store, ls: seq<Tree>)
    requires LeafChain(s, ls, INVALID_PAGE) && ls != []
    ensures ls[0].Lf? && LeafChain(s, ls[1..], INVALID_PAGE) && RestOf(ls, |ls[0].es|) == RestOf(ls[1..], 0)
    ensures if |ls| == 1 then ls[0].next == INVALID_PAGE
            else ls[0].next == ls[1..][0].pid != INVALID_PAGE && LinkOk(s, ls[1..], 0, INVALID_PAGE)
  {
    assert LinkOk(s, ls, 0, INVALID_PAGE);
    ChainTail(s, ls, 1, INVALID_PAGE);
    if |ls| > 1 {
      assert LinkOk(s, ls, 1, INVALID_PAGE);
      assert LinkOk(s, ls[1..], 0, INVALID_PAGE);
    }
    RestAtEnd(ls);
  }

  /** Position a cursor before the first entry at or above lo. */
  method Scan(tree: BPlusTree, lo: Key, hi: Key) returns (r: Result<IndexIterator>)
    requires tree.Readable()
    modifies tree`faults
    ensures tree.faults == old(tree.faults) + if r.Err? then 1 else 0
    ensures r.Ok? ==> fresh(r.value) && r.value.tree == tree && r.value.Valid() && r.value.hi == hi
    ensures r.Ok? ==> r.value.Pending() == Between(tree.Entries(), lo, hi)
    ensures r.Err? ==> r.error == IOError
  {
    hide Flat, Contents, RestOf, Spine, Trees.Valid, Unfold, TreeOk, LeafChain;
    var found := tree.FindLeafRead(lo);
    if found.Err? { return Err(found.error); }
    ghost var ls := ScanStart(tree.cfg, tree.pages, tree.header, lo);
    var leafId, leaf := found.value.0, found.value.1;
    if !leaf.LeafPage? { return Err(Corruption); }
    var idx := LowerBound(leaf.leafEntries, lo);
    var it := new IndexIterator(tree, leafId, idx, hi, ls);
    UpToIsBetween(tree.Entries(), lo, hi);
    return Ok(it);
  }

  /** Where a scan for `lo` starts, and that from there the chain holds exactly the entries from the
      lower bound of lo on. */
  lemma {:induction false} ScanStart(c: Config, s: Store, header: PageId, lo: Key) returns (ls: seq<Tree>)
    requires Readable(c, s, header)
    ensures var t := TreeAt(s, header); var sp := Spine(t, lo);
            && ls != [] && ls[0] == sp[|sp| - 1] && ls[0].Lf? && CanFetch(ls[0].pid) && LeafChain(s, ls, INVALID_PAGE)
            && SortedLeaf(ls[0].es) && SortedLeaf(Contents(t))
            && RestOf(ls, LowerIndex(ls[0].es, lo)) == Contents(t)[LowerIndex(Contents(t), lo)..]
  {
    hide Valid, Contents, Flat, Unfold, Spine, Distinct, Pids, Holds, LeafList, Covers;
    var t, level := TreeAt(s, header), LevelAt(s, header);
    var sp := Spine(t, lo);
    DescentFacts(c, s, header, lo);
    SpinePage(c, s, sp, level, level, lo);
    var all := LeafList(t);
    var n := DescentLeaf(c, t, level, INT64_MIN, None, RootFloor(level), lo);
    LeavesChained(c, s, t, level, INT64_MIN, None, RootFloor(level), INVALID_PAGE);
    LeavesHoldContents(t);
    assert LinkOk(s, all, n, INVALID_PAGE);
    SplitContents(all, n, lo) by { LeafContents(all[n]); }
    LeafContents(all[n]);
    ChainTail(s, all, n, INVALID_PAGE);
    ls := all[n..];
    assert ls[1..] == all[n + 1..];
  }

  lemma LeafContents(t: Tree)
    requires t.Lf?
    ensures Contents(t) == t.es
  {
  }

  lemma {:induction false} SplitContents(ls: seq<Tree>, n: nat, key: Key)
    requires n < |ls| && LeafSplit(ls, n, ls[n], key) && SortedLeaf(Contents(ls[n]))
    ensures var es, b := Flat(ls), Contents(ls[n]);
            b[LowerIndex(b, key)..] + Flat(ls[n + 1..]) == es[LowerIndex(es, key)..]
  {
    hide Flat, Contents, LowerIndex;
    var a, b, d := Flat(ls[..n]), Contents(ls[n]), Flat(ls[n + 1..]);
    FlatAt(ls, n);
    LowerIndexMiddle(a, b, d, key);
  }

  /** Scan(lo, hi) followed by Next until false yields exactly the entries in the interval. */
  method Collect(tree: BPlusTree, lo: Key, hi: Key) returns (r: Result<seq<LeafEntry>>)
    requires tree.Readable()
    modifies tree`faults
    ensures tree.faults == old(tree.faults) + if r.Err? then 1 else 0
    ensures r.Ok? ==> r.value == Between(tree.Entries(), lo, hi)
    ensures r.Err? ==> r.error == IOError
  {
    hide Flat, Contents, RestOf, Spine, Trees.Valid, Unfold, TreeOk, LeafChain, Between, UpTo, IndexIterator.Pending;
    var it := Scan(tree, lo, hi);
    if it.Err? { return Err(it.error); }
    var cursor, out := it.value, [];
    while true
      invariant cursor.Valid() && cursor.tree == tree && fresh(cursor) && tree.faults == old(tree.faults)
      invariant out + cursor.Pending() == Between(tree.Entries(), lo, hi)
      decreases |cursor.Pending()|
    {
      ghost var was := cursor.Pending();
      var more := cursor.Next();
      if more.Err? { return Err(more.error); }
      if !more.value { return Ok(out); }
      assert was == [was[0]] + was[1..];
      out := out + [cursor.current];
    }
  }
}
