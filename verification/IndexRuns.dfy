/** The index as a finite map from keys to row addresses: creation, and whole runs of operations. */
module IndexRuns {
  import opened Common
  import opened Nodes
  import opened Trees
  import opened TreeInsert
  import opened TreeDelete
  import opened TreeIndex
  import opened BPlusTrees

  // ---------- creation ----------

  /** The pool before there is an index to reach it through. */
  class PageSource {
    var pages: Store
    ghost var faults: nat
    ghost var leaks: nat

    constructor (pages: Store)
      ensures this.pages == pages
    {
      this.pages, faults, leaks := pages, 0, 0;
    }

    method NewPage() returns (r: Result<PageId>)
      modifies this`pages, this`faults
      ensures r.Ok? ==>
                && IsDataPage(r.value) && r.value !in old(pages) && pages == old(pages)[r.value := OtherPage]
                && faults == old(faults)
      ensures r.Err? ==> r.error == BufferPoolFull && pages == old(pages) && faults == old(faults) + 1
    {
      var p: PageId := *;
      if p in pages || !IsDataPage(p) {
        faults := faults + 1;
        return Err(BufferPoolFull);
      }
      pages := pages[p := OtherPage];
      return Ok(p);
    }

    method DeletePage(p: PageId)
      modifies this`pages, this`leaks
      ensures leaks == old(leaks) || leaks == old(leaks) + 1
      ensures pages == if leaks == old(leaks) then old(pages) - {p} else old(pages)
    {
      var fault: bool := *;
      if fault {
        leaks := leaks + 1;
      } else {
        pages := pages - {p};
      }
    }
  }

  /** A new, empty index.  A bad fanout is refused before anything is allocated; any other error is a
      failed allocation, after which a page already obtained is given back. */
  method Create(pool: PageSource, leafMax: nat, internalMax: nat) returns (r: Result<BPlusTree>)
    modifies pool
    ensures r == Err(InvalidArgument) <==> !(FanoutInRange(leafMax) && FanoutInRange(internalMax))
    ensures r.Ok? ==>
              && fresh(r.value) && r.value.Valid() && r.value.Entries() == []
              && r.value.pages == pool.pages && r.value.cfg == Config(leafMax, internalMax)
              && pool.pages.Keys == old(pool.pages).Keys + {r.value.header} + Pids(r.value.Root())
    ensures pool.faults == old(pool.faults) + if r.Err? && r.error != InvalidArgument then 1 else 0
    ensures r.Err? && pool.leaks == old(pool.leaks) ==> pool.pages == old(pool.pages)
    ensures forall p | p in old(pool.pages) :: p in pool.pages && pool.pages[p] == old(pool.pages)[p]
  {
    if !FanoutInRange(leafMax) { return Err(InvalidArgument); }
    if !FanoutInRange(internalMax) { return Err(InvalidArgument); }
    var header := pool.NewPage();
    if header.Err? { return Err(header.error); }
    var root := pool.NewPage();
    if root.Err? {
      pool.DeletePage(header.value);
      return Err(root.error);
    }
    pool.pages := pool.pages[root.value := LeafPage(0, INVALID_PAGE, [])];
    pool.pages := pool.pages[header.value := HeaderPage(root.value, 1, leafMax, internalMax)];
    var tree := new BPlusTree(pool.pages, header.value, Config(leafMax, internalMax));
    assert TreeAt(pool.pages, header.value) == Lf(INT64_MIN, root.value, 0, INVALID_PAGE, []);
    return Ok(tree);
  }

  // ---------- the map ----------

  lemma AsMapAt(es: seq<LeafEntry>, key: Key)
    requires SortedLeaf(es)
    ensures Describes(es, AsMap(es))
    ensures key in AsMap(es) <==> Present(es, key)
    ensures Present(es, key) <==> !Absent(es, key)
    ensures forall rid | LeafEntry(key, rid) in es :: AsMap(es)[key] == rid
  {
    hide AsMap;
  }

  lemma DescribesOnce(es: seq<LeafEntry>, m: map<Key, RID>, m': map<Key, RID>)
    requires Describes(es, m) && Describes(es, m')
    ensures m == m'
  {
    forall k | k in m || k in m' ensures k in m && k in m' && m[k] == m'[k] {
      assert Present(es, k);
      var i :| 0 <= i < |es| && es[i].key == k;
    }
  }

  lemma {:induction false} InsertedDescribed(es: seq<LeafEntry>, m: map<Key, RID>, n: nat, key: Key, rid: RID)
    requires Describes(es, m) && Absent(es, key) && n <= |es|
    ensures Describes(Inserted(es, n, LeafEntry(key, rid)), m[key := rid])
  {
    var es', m' := Inserted(es, n, LeafEntry(key, rid)), m[key := rid];
    forall i | 0 <= i < |es'| ensures es'[i].key in m' && m'[es'[i].key] == es'[i].rid {
      assert i != n ==> es'[i] == es[if i < n then i else i - 1];
    }
    forall k | k in m' ensures Present(es', k) {
      if k == key {
        assert es'[n].key == k;
      } else {
        var i :| 0 <= i < |es| && es[i].key == k;
        assert es'[if i < n then i else i + 1].key == k;
      }
    }
  }

  lemma {:induction false} RemovedDescribed(es: seq<LeafEntry>, m: map<Key, RID>, n: nat)
    requires Describes(es, m) && SortedLeaf(es) && n < |es|
    ensures Describes(Removed(es, n), m - {es[n].key})
  {
    var es', m' := Removed(es, n), m - {es[n].key};
    assert |es'| == |es| - 1;
    forall i | 0 <= i < |es'| ensures es'[i].key in m' && m'[es'[i].key] == es'[i].rid {
      var j := if i < n then i else i + 1;
      assert es'[i] == es[j] && es[j].key != es[n].key;
    }
    forall k | k in m' ensures Present(es', k) {
      assert Present(es, k);
      var i :| 0 <= i < |es| && es[i].key == k;
      assert es'[if i < n then i else i - 1].key == k;
    }
  }

  lemma {:induction false} InsertedMap(es: seq<LeafEntry>, es': seq<LeafEntry>, key: Key, rid: RID)
    requires SortedLeaf(es) && SortedLeaf(es') && Absent(es, key)
    requires es' == Inserted(es, LowerIndex(es, key), LeafEntry(key, rid))
    ensures AsMap(es') == AsMap(es)[key := rid]
  {
    hide AsMap;
    AsMapAt(es, key);
    AsMapAt(es', key);
    InsertedDescribed(es, AsMap(es), LowerIndex(es, key), key, rid);
    DescribesOnce(es', AsMap(es'), AsMap(es)[key := rid]);
  }

  lemma LowerIndexFinds(es: seq<LeafEntry>, key: Key)
    requires SortedLeaf(es) && Present(es, key)
    ensures LowerIndex(es, key) < |es| && es[LowerIndex(es, key)].key == key
  {
    var i :| 0 <= i < |es| && es[i].key == key;
    assert es[i].key >= key;
  }

  lemma {:induction false} RemovedMap(es: seq<LeafEntry>, es': seq<LeafEntry>, key: Key)
    requires SortedLeaf(es) && SortedLeaf(es') && Present(es, key) && LessKey(es, es', key)
    ensures AsMap(es') == AsMap(es) - {key}
  {
    hide AsMap, LowerIndex, Removed, Describes, Present;
    var n := LowerIndex(es, key);
    LowerIndexFinds(es, key);
    AsMapAt(es, key);
    AsMapAt(es', key);
    RemovedDescribed(es, AsMap(es), n);
    DescribesOnce(es', AsMap(es'), AsMap(es) - {es[n].key});
  }

  // ---------- runs ----------

  datatype Operation =
    | Lookup(key: Key)
    | Insertion(key: Key, rid: RID)
    | Deletion(key: Key)

  type Outcome = Result<Option<RID>>

  /** The map after an operation that succeeded or failed: a failure changes nothing. */
  function Next(m: map<Key, RID>, op: Operation, out: Outcome): map<Key, RID> {
    if out.Err? then m
    else match op
      case Lookup(_) => m
      case Insertion(k, rid) => m[k := rid]
      case Deletion(k) => m - {k}
  }

  /** What a map itself answers. */
  function Answer(m: map<Key, RID>, op: Operation): Outcome {
    match op
    case Lookup(k) => if k in m then Ok(Some(m[k])) else Err(NotFound)
    case Insertion(k, _) => if k in m then Err(DuplicateKey) else Ok(None)
    case Deletion(k) => if k in m then Ok(None) else Err(NotFound)
  }

  /** An operation that a failed fetch or allocation cut short. */
  predicate CutShort(op: Operation, out: Outcome) {
    out == Err(IOError) || (op.Insertion? && out == Err(BufferPoolFull))
  }

  /** The map's own answer, or none because of a fault. */
  predicate Truthful(m: map<Key, RID>, op: Operation, out: Outcome) {
    out == Answer(m, op) || CutShort(op, out)
  }

  /** How many operations of a run were cut short. */
  function Cuts(ops: seq<Operation>, outs: seq<Outcome>): nat
    requires |ops| == |outs|
  {
    if ops == [] then 0
    else var n := |ops| - 1; Cuts(ops[..n], outs[..n]) + if CutShort(ops[n], outs[n]) then 1 else 0
  }

  /** Run ops one after another, from m, with these outcomes, ending in m'. */
  ghost predicate Explains(m: map<Key, RID>, ops: seq<Operation>, outs: seq<Outcome>, m': map<Key, RID>)
    decreases |ops|
  {
    if ops == [] then outs == [] && m == m'
    else outs != [] && Truthful(m, ops[0], outs[0]) && Explains(Next(m, ops[0], outs[0]), ops[1..], outs[1..], m')
  }

  lemma {:induction false} ExplainsOneMore(m: map<Key, RID>, ops: seq<Operation>, outs: seq<Outcome>, m1: map<Key, RID>,
                                           op: Operation, out: Outcome)
    requires Explains(m, ops, outs, m1) && Truthful(m1, op, out)
    ensures Explains(m, ops + [op], outs + [out], Next(m1, op, out))
    decreases |ops|
  {
    if ops == [] {
      assert (ops + [op])[1..] == [] && (outs + [out])[1..] == [];
    } else {
      ExplainsOneMore(Next(m, ops[0], outs[0]), ops[1..], outs[1..], m1, op, out);
      assert (ops + [op])[1..] == ops[1..] + [op] && (outs + [out])[1..] == outs[1..] + [out];
    }
  }

  ghost function Map(tree: BPlusTree): map<Key, RID>
    requires tree.Valid()
    reads tree`pages
  {
    EntriesSorted(tree);
    AsMap(tree.Entries())
  }

  lemma EntriesSorted(tree: BPlusTree)
    requires tree.Valid()
    ensures SortedLeaf(tree.Entries())
  {
    var level := tree.pages[tree.header].height - 1;
    ContentsInRange(tree.cfg, tree.Root(), level, INT64_MIN, None, RootFloor(level));
  }

  method Execute(tree: BPlusTree, op: Operation) returns (out: Outcome)
    requires tree.Valid()
    modifies tree
    ensures tree.Valid() && Truthful(old(Map(tree)), op, out) && Map(tree) == Next(old(Map(tree)), op, out)
    ensures tree.faults == old(tree.faults) + if CutShort(op, out) then 1 else 0
  {
    hide AsMap, TreeIndex.Readable, Contents, Pids, Absent, Present, LessKey, SortedLeaf, Inserted;
    ghost var es := tree.Entries();
    EntriesSorted(tree);
    AsMapAt(es, op.key);
    match op
    case Lookup(key) =>
      var r := tree.Get(key);
      out := if r.Ok? then Ok(Some(r.value)) else Err(r.error);
    case Insertion(key, rid) =>
      var r := tree.Insert(key, rid);
      out := if r.Ok? then Ok(None) else Err(r.error);
      EntriesSorted(tree);
      if r.Ok? {
        InsertedMap(es, tree.Entries(), key, rid);
      }
    case Deletion(key) =>
      var r := tree.Delete(key);
      out := if r.Ok? then Ok(None) else Err(r.error);
      EntriesSorted(tree);
      if r.Ok? {
        RemovedMap(es, tree.Entries(), key);
      }
  }

  /** Any run of operations is a run of the map.  Each outcome is the map's own answer but for the
      operations that a fault cut short, which are as many as there were faults; without a fault, all are. */
  method ExecuteAll(tree: BPlusTree, ops: seq<Operation>) returns (outs: seq<Outcome>)
    requires tree.Valid()
    modifies tree
    ensures tree.Valid() && |outs| == |ops| && Explains(old(Map(tree)), ops, outs, Map(tree))
    ensures tree.faults == old(tree.faults) + Cuts(ops, outs)
  {
    hide Truthful, Next, Map, BPlusTree.Valid, CutShort;
    outs := [];
    for i := 0 to |ops|
      invariant tree.Valid() && Explains(old(Map(tree)), ops[..i], outs, Map(tree))
      invariant |outs| == i && tree.faults == old(tree.faults) + Cuts(ops[..i], outs)
    {
      ghost var m := Map(tree);
      var out := Execute(tree, ops[i]);
      ExplainsOneMore(old(Map(tree)), ops[..i], outs, m, ops[i], out);
      assert ops[..i + 1] == ops[..i] + [ops[i]];
      assert ops[..i + 1][..i] == ops[..i] && (outs + [out])[..i] == outs;
      outs := outs + [out];
    }
    assert ops[..|ops|] == ops;
  }

  /** Without a fault a run has the outcomes and the end that the map alone determines. */
  lemma {:induction false} NoCutsExact(m: map<Key, RID>, ops: seq<Operation>, outs: seq<Outcome>, m': map<Key, RID>)
    requires |ops| == |outs| && Explains(m, ops, outs, m') && Cuts(ops, outs) == 0
    ensures outs == Replayed(m, ops).0 && m' == Replayed(m, ops).1
    decreases |ops|
  {
    if ops != [] {
      NoCutFirst(ops, outs);
      NoCutsExact(Next(m, ops[0], outs[0]), ops[1..], outs[1..], m');
      assert outs == [outs[0]] + outs[1..];
    }
  }

  function Replayed(m: map<Key, RID>, ops: seq<Operation>): (seq<Outcome>, map<Key, RID>)
    decreases |ops|
  {
    if ops == [] then ([], m)
    else
      var out := Answer(m, ops[0]);
      var rest := Replayed(Next(m, ops[0], out), ops[1..]);
      ([out] + rest.0, rest.1)
  }

  lemma {:induction false} NoCutFirst(ops: seq<Operation>, outs: seq<Outcome>)
    requires |ops| == |outs| > 0 && Cuts(ops, outs) == 0
    ensures !CutShort(ops[0], outs[0]) && Cuts(ops[1..], outs[1..]) == 0
  {
    var n := |ops| - 1;
    if n > 0 {
      NoCutFirst(ops[..n], outs[..n]);
      assert ops[1..][..n - 1] == ops[..n][1..] && outs[1..][..n - 1] == outs[..n][1..];
    }
  }
}
