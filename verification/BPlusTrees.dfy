/**
 * The index itself: a header page, and a tree of pages reached from it through the buffer pool.
 * A fetch or an allocation may fail at any time; everything the code does is stated over the pages
 * as the pool would serve them.
 */
module BPlusTrees {
  import opened Common
  import opened Nodes
  import opened NodeViews
  import opened Trees
  import opened TreeInsert
  import opened TreeDelete
  import opened TreeStore
  import opened TreeSpine
  import opened TreeIndex
  import opened TreeApply

  /** The pages of a spine, and for each but the last the Slot through which the spine goes on. */
  datatype WritePath = WritePath(nodes: seq<PageId>, childIndexes: seq<nat>)

  /** The path of a key, as the descent records it. */
  ghost predicate IsPath(path: WritePath, sp: seq<Tree>, key: Key) {
    && |path.nodes| == |sp| && |path.childIndexes| + 1 == |sp|
    && (forall i | 0 <= i < |sp| :: path.nodes[i] == sp[i].pid)
    && (forall i | 0 <= i < |sp| - 1 :: path.childIndexes[i] == Slot(sp[i], key))
  }

  /** The part of the path recorded after h hops. */
  ghost predicate IsPrefix(nodes: seq<PageId>, childIndexes: seq<nat>, sp: seq<Tree>, h: nat, key: Key) {
    && |nodes| == |childIndexes| == h < |sp|
    && forall i | 0 <= i < h :: nodes[i] == sp[i].pid && childIndexes[i] == Slot(sp[i], key)
  }

  lemma PrefixGrows(nodes: seq<PageId>, childIndexes: seq<nat>, sp: seq<Tree>, h: nat, key: Key)
    requires IsPrefix(nodes, childIndexes, sp, h, key) && h + 1 < |sp|
    ensures IsPrefix(nodes + [sp[h].pid], childIndexes + [Slot(sp[h], key)], sp, h + 1, key)
  {
  }

  lemma PrefixEnds(nodes: seq<PageId>, childIndexes: seq<nat>, sp: seq<Tree>, h: nat, key: Key)
    requires IsPrefix(nodes, childIndexes, sp, h, key) && h + 1 == |sp|
    ensures IsPath(WritePath(nodes + [sp[h].pid], childIndexes), sp, key)
  {
  }

  lemma SameMap(a: Store, b: Store)
    requires (forall p | p in a :: p in b && b[p] == a[p]) && forall p | p in b :: p in a
    ensures a == b
  {
    forall p: PageId ensures p in a.Keys <==> p in b.Keys {
      assert p in b ==> p in a;
      assert p in a ==> p in b;
    }
    assert a.Keys == b.Keys;
    assert forall p | p in b :: a[p] == b[p];
  }

  method OpenLeaf(p: Page) returns (v: NodeView<LeafEntry>)
    requires p.LeafPage? && |p.leafEntries| <= NODE_CAPACITY
    ensures fresh(v) && fresh(v.slots) && v.Valid() && LeafPageOf(v) == p
  {
    v := new NodeView(p.level, p.next, p.leafEntries, ZERO_LEAF_ENTRY);
  }

  function LeafPageOf(v: NodeView<LeafEntry>): Page
    requires v.Valid()
    reads v, v.slots
  {
    LeafPage(v.level, v.next, v.Entries())
  }

  method OpenInternal(p: Page) returns (v: NodeView<InternalEntry>)
    requires p.InternalPage? && |p.entries| <= NODE_CAPACITY
    ensures fresh(v) && fresh(v.slots) && v.Valid() && InternalPageOf(v) == p
  {
    v := new NodeView(p.level, p.next, p.entries, ZERO_INTERNAL_ENTRY);
  }

  function InternalPageOf(v: NodeView<InternalEntry>): Page
    requires v.Valid()
    reads v, v.slots
  {
    InternalPage(v.level, v.next, v.Entries())
  }

  class BPlusTree {
    var pages: Store
    const header: PageId
    const cfg: Config

    /** How many fetches of a page that is there and how many allocations have failed, and how many pages
        could not be given back.  The three pool calls below count, and nothing else does. */
    ghost var faults: nat
    ghost var leaks: nat

    constructor (pages: Store, header: PageId, cfg: Config)
      ensures this.pages == pages && this.header == header && this.cfg == cfg
    {
      this.pages, this.header, this.cfg := pages, header, cfg;
      faults, leaks := 0, 0;
    }

    ghost predicate Valid()
      reads this`pages
    {
      IndexOk(cfg, pages, header)
    }

    /** Enough for lookups and scans, and what the whole-tree check establishes. */
    ghost predicate Readable()
      reads this`pages
    {
      TreeIndex.Readable(cfg, pages, header)
    }

    ghost function Root(): Tree
      requires Readable()
      reads this`pages
    {
      TreeAt(pages, header)
    }

    /** The abstract state: the indexed entries in key order. */
    ghost function Entries(): seq<LeafEntry>
      requires Readable()
      reads this`pages
    {
      Contents(Root())
    }

    // ---------- the buffer pool, as this layer sees it ----------

    method Fetch(p: PageId) returns (r: Result<Page>)
      modifies this`faults
      ensures r.Ok? ==> CanFetch(p) && p in pages && r.value == pages[p]
      ensures r.Err? ==> r.error == if CanFetch(p) then IOError else InvalidArgument
      ensures faults == old(faults) + if r.Err? && CanFetch(p) && p in pages then 1 else 0
    {
      if !CanFetch(p) { return Err(InvalidArgument); }
      if p !in pages { return Err(IOError); }
      var fault: bool := *;
      if fault {
        faults := faults + 1;
        return Err(IOError);
      }
      return Ok(pages[p]);
    }

    method NewPage() returns (r: Result<PageId>)
      modifies this`pages, this`faults
      ensures r.Ok? ==>
                && IsDataPage(r.value) && r.value !in old(pages) && pages == old(pages)[r.value := OtherPage]
                && faults == old(faults)
      ensures r.Err? ==> r.error == BufferPoolFull && pages == old(pages) && faults == old(faults) + 1
    {
      var p: PageId := *;
      if p in pages || !IsDataPage(p) {
        faults := faults + 1;
        return Err(BufferPoolFull);
      }
      pages := pages[p := OtherPage];
      return Ok(p);
    }

    /** Best effort: a failed delete leaks the page. */
    method DeletePage(p: PageId)
      modifies this`pages, this`leaks
      ensures leaks == old(leaks) || leaks == old(leaks) + 1
      ensures pages == if leaks == old(leaks) then old(pages) - {p} else old(pages)
    {
      var fault: bool := *;
      if fault {
        leaks := leaks + 1;
      } else {
        pages := pages - {p};
      }
    }

    /** `count` new pages, or an error because an allocation failed; then the pages already obtained are
        given back, and only one that could not be is left behind. */
    method AllocatePages(count: nat) returns (r: Result<seq<PageId>>)
      modifies this`pages, this`faults, this`leaks
      ensures r.Ok? ==>
                && |r.value| == count && AllDistinct(r.value)
                && (forall i | 0 <= i < count :: IsDataPage(r.value[i]) && r.value[i] !in old(pages))
                && pages.Keys == old(pages).Keys + PageSet(r.value)
                && faults == old(faults) && leaks == old(leaks)
      ensures r.Err? ==>
                && r.error == BufferPoolFull && faults == old(faults) + 1
                && leaks >= old(leaks) && (leaks == old(leaks) ==> pages == old(pages))
      ensures forall p | p in old(pages) :: p in pages && pages[p] == old(pages)[p]
    {
      var ids: seq<PageId> := [];
      while |ids| < count
        invariant |ids| <= count && AllDistinct(ids) && faults == old(faults) && leaks == old(leaks)
        invariant forall i | 0 <= i < |ids| :: IsDataPage(ids[i]) && ids[i] !in old(pages)
        invariant pages.Keys == old(pages).Keys + PageSet(ids)
        invariant forall p | p in old(pages) :: p in pages && pages[p] == old(pages)[p]
      {
        var page := NewPage();
        if page.Err? {
          GiveBack(ids, old(pages));
          return Err(page.error);
        }
        assert page.value !in PageSet(ids);
        ids := ids + [page.value];
      }
      return Ok(ids);
    }

    method GiveBack(ids: seq<PageId>, ghost before: Store)
      requires pages.Keys == before.Keys + PageSet(ids) && (forall i | 0 <= i < |ids| :: ids[i] !in before)
      requires forall p | p in before :: p in pages && pages[p] == before[p]
      modifies this`pages, this`leaks
      ensures leaks >= old(leaks) && (leaks == old(leaks) ==> pages == before)
      ensures forall p | p in before :: p in pages && pages[p] == before[p]
    {
      var i := 0;
      while i < |ids|
        invariant 0 <= i <= |ids| && leaks >= old(leaks)
        invariant leaks == old(leaks) ==> forall p | p in pages && p !in before :: p in ids[i..]
        invariant forall p | p in before :: p in pages && pages[p] == before[p]
      {
        assert ids[i..] == [ids[i]] + ids[i + 1..];
        DeletePage(ids[i]);
        i := i + 1;
      }
      if leaks == old(leaks) { SameMap(before, pages); }
    }

    // ---------- reading ----------

    /** Follows ChildIndexFor from the root; the invariant ties each hop to the next node of the spine. */
    method FindLeafRead(key: Key) returns (r: Result<(PageId, Page)>)
      requires Readable()
      modifies this`faults
      ensures r.Ok? ==> var sp := Spine(Root(), key); var leaf := sp[|sp| - 1];
                        r.value == (leaf.pid, PageOf(leaf))
      ensures r.Err? ==> r.error == IOError
      ensures faults == old(faults) + if r.Err? then 1 else 0
    {
      hide Trees.Valid, Contents, Spine, Unfold, Distinct, Holds, Covers, Pids;
      var idxHeader := Fetch(header);
      if idxHeader.Err? { return Err(idxHeader.error); }
      var root, treeHeight := idxHeader.value.root, idxHeader.value.height;
      ghost var sp, level := Spine(Root(), key), treeHeight - 1;
      DescentFacts(cfg, pages, header, key);
      if treeHeight == 0 { return Err(Corruption); }
      var next := root;
      for h := 0 to treeHeight - 1
        invariant next == sp[h].pid && CanFetch(next) && faults == old(faults)
      {
        SpineHop(cfg, pages, sp, h, level, key);
        var page := Fetch(next);
        if page.Err? { return Err(page.error); }
        if !page.value.InternalPage? { return Err(Corruption); }
        var child := ChildIndexFor(page.value.entries, key);
        next := page.value.entries[child].child;
      }
      SpinePage(cfg, pages, sp, level, level, key);
      var leaf := Fetch(next);
      if leaf.Err? { return Err(leaf.error); }
      return Ok((next, leaf.value));
    }

    /** Point lookup: the RID stored under the key, or NotFound exactly when the key is absent. */
    method Get(key: Key) returns (r: Result<RID>)
      requires Readable()
      modifies this`faults
      ensures r.Ok? ==> LeafEntry(key, r.value) in Entries()
      ensures r.Err? ==> r.error == IOError || (r.error == NotFound && Absent(Entries(), key))
      ensures faults == old(faults) + if r == Err(IOError) then 1 else 0
    {
      hide Trees.Valid, Contents, Spine, Unfold, Distinct, Holds, Covers, Pids;
      var found := FindLeafRead(key);
      if found.Err? { return Err(found.error); }
      DescentFacts(cfg, pages, header, key);
      ghost var sp, level := Spine(Root(), key), pages[header].height - 1;
      SpinePage(cfg, pages, sp, level, level, key);
      var leaf := found.value.1;
      if !leaf.LeafPage? { return Err(Corruption); }
      var idx := LowerBound(leaf.leafEntries, key);
      if idx == |leaf.leafEntries| || leaf.leafEntries[idx].key != key {
        assert forall i | 0 <= i < |leaf.leafEntries| :: leaf.leafEntries[i].key != key;
        forall i | 0 <= i < |Entries()| ensures Entries()[i].key != key {
          assert Entries()[i] in Contents(Root());
        }
        return Err(NotFound);
      }
      return Ok(leaf.leafEntries[idx].rid);
    }

    // ---------- insert ----------

    /** As FindLeafRead, and returns the whole path. */
    method FindLeafWrite(key: Key) returns (r: Result<WritePath>)
      requires Valid()
      modifies this`faults
      ensures r.Ok? ==> IsPath(r.value, Spine(Root(), key), key)
      ensures r.Err? ==> r.error == IOError
      ensures faults == old(faults) + if r.Err? then 1 else 0
    {
      hide Trees.Valid, Contents, Spine, Unfold, Distinct, Holds, Covers, Pids;
      var idxHeader := Fetch(header);
      if idxHeader.Err? { return Err(idxHeader.error); }
      var treeHeight, next := idxHeader.value.height, idxHeader.value.root;
      ghost var sp, level := Spine(Root(), key), treeHeight - 1;
      DescentFacts(cfg, pages, header, key);
      SpineLength(cfg, pages, sp, level, key);
      if treeHeight == 0 { return Err(Corruption); }
      var nodes: seq<PageId>, childIndexes: seq<nat> := [], [];
      assert IsPrefix(nodes, childIndexes, sp, 0, key);
      hide RootSpineOk, PageOf, Count, Slot, IsDataPage, IsPrefix, IsPath, SortedSeparators;
      for h := 0 to treeHeight - 1
        invariant next == sp[h].pid && CanFetch(next) && IsPrefix(nodes, childIndexes, sp, h, key)
        invariant faults == old(faults)
      {
        PrefixGrows(nodes, childIndexes, sp, h, key);
        SpineHop(cfg, pages, sp, h, level, key);
        var page := Fetch(next);
        if page.Err? { return Err(page.error); }
        if !page.value.InternalPage? { return Err(Corruption); }
        var child := ChildIndexFor(page.value.entries, key);
        nodes, childIndexes := nodes + [next], childIndexes + [child];
        next := page.value.entries[child].child;
      }
      SpinePage(cfg, pages, sp, level, level, key);
      var leaf := Fetch(next);
      if leaf.Err? { return Err(leaf.error); }
      if !leaf.value.LeafPage? { return Err(Corruption); }
      PrefixEnds(nodes, childIndexes, sp, level, key);
      return Ok(WritePath(nodes + [next], childIndexes));
    }

    /** Counts full pages from the end of the path backwards; the result is Splits of the whole tree. */
    method CountSplits(path: WritePath, ghost key: Key) returns (splits: nat)
      requires Valid() && IsPath(path, Spine(Root(), key), key)
      ensures splits == Splits(cfg, Root(), key) <= |path.nodes|
    {
      ghost var sp, level := Spine(Root(), key), pages[header].height - 1;
      DescentFacts(cfg, pages, header, key);
      var i := |path.nodes| - 1;
      SpinePage(cfg, pages, sp, i, level, key);
      if |pages[path.nodes[i]].leafEntries| < cfg.leafMax {
        SplitsStay(cfg, pages, sp, level, level, key);
        return 0;
      }
      splits := 1;
      i := i - 1;
      while i >= 0
        invariant -1 <= i < level && splits == level - i == Splits(cfg, sp[i + 1], key)
      {
        SpinePage(cfg, pages, sp, i, level, key);
        InsUnfold(cfg, sp[i], sp[i + 1], key, RID(0, 0), []);
        if |pages[path.nodes[i]].entries| < cfg.internalMax {
          SplitsStay(cfg, pages, sp, i, level, key);
          return;
        }
        splits := splits + 1;
        i := i - 1;
      }
    }

    // ---------- page writes, through the in-place views ----------

    method WriteLeafInsert(leafId: PageId, idx: nat, entry: LeafEntry)
      requires leafId in pages && pages[leafId].LeafPage? && idx <= |pages[leafId].leafEntries| < NODE_CAPACITY
      modifies this`pages
      ensures var p := old(pages)[leafId];
              pages == old(pages)[leafId := LeafPage(p.level, p.next, Inserted(p.leafEntries, idx, entry))]
    {
      var leaf := OpenLeaf(pages[leafId]);
      leaf.InsertAt(idx, entry);
      pages := pages[leafId := LeafPageOf(leaf)];
    }

    method WriteLeafSplit(leafId: PageId, rightId: PageId, idx: nat, entry: LeafEntry) returns (sep: Key)
      requires leafId in pages && pages[leafId].LeafPage? && leafId != rightId
      requires 1 <= |pages[leafId].leafEntries| <= NODE_CAPACITY && idx <= |pages[leafId].leafEntries|
      modifies this`pages
      ensures var p := old(pages)[leafId];
              var all, m := Inserted(p.leafEntries, idx, entry), SplitPoint(|p.leafEntries|);
              && pages == old(pages)[leafId := LeafPage(p.level, rightId, all[..m])]
                 [rightId := LeafPage(0, p.next, all[m..])]
              && sep == all[m].key
    {
      var left := OpenLeaf(pages[leafId]);
      var right := OpenLeaf(LeafPage(0, INVALID_PAGE, []));
      sep := SplitLeaf(left, right, rightId, idx, entry);
      pages := pages[leafId := LeafPageOf(left)][rightId := LeafPageOf(right)];
    }

    method WriteChildInsert(nodeId: PageId, pos: nat, entry: InternalEntry)
      requires nodeId in pages && pages[nodeId].InternalPage? && 1 <= pos <= |pages[nodeId].entries| < NODE_CAPACITY
      modifies this`pages
      ensures var p := old(pages)[nodeId];
              pages == old(pages)[nodeId := InternalPage(p.level, p.next, Inserted(p.entries, pos, entry))]
    {
      var node := OpenInternal(pages[nodeId]);
      node.InsertAt(pos, entry);
      pages := pages[nodeId := InternalPageOf(node)];
    }

    method WriteNodeSplit(nodeId: PageId, rightId: PageId, pos: nat, entry: InternalEntry) returns (sep: Key)
      requires nodeId in pages && pages[nodeId].InternalPage? && nodeId != rightId
      requires 2 <= |pages[nodeId].entries| <= NODE_CAPACITY && 1 <= pos <= |pages[nodeId].entries|
      modifies this`pages
      ensures var p := old(pages)[nodeId];
              var all, m := Inserted(p.entries, pos, entry), SplitPoint(|p.entries|);
              && pages == old(pages)[nodeId := InternalPage(p.level, p.next, Canonical(all[..m]))]
                                    [rightId := InternalPage(p.level, INVALID_PAGE, Canonical(all[m..]))]
              && sep == all[m].key
    {
      var left := OpenInternal(pages[nodeId]);
      var right := OpenInternal(InternalPage(left.level, INVALID_PAGE, []));
      sep := SplitInternal(left, right, pos, entry);
      pages := pages[nodeId := InternalPageOf(left)][rightId := InternalPageOf(right)];
    }

    method WriteNewRoot(rootId: PageId, sep: Key, rightId: PageId)
      requires header in pages && pages[header].HeaderPage? && rootId != header
      modifies this`pages
      ensures var h := old(pages)[header];
              pages == old(pages)[rootId := InternalPage(h.height, INVALID_PAGE,
                  [InternalEntry(INT64_MIN, h.root), InternalEntry(sep, rightId)])]
                                 [header := h.(root := rootId, height := h.height + 1)]
    {
      var h := pages[header];
      var root := OpenInternal(InternalPage(h.height, INVALID_PAGE, []));
      var children := new InternalEntry[2];
      children[0], children[1] := InternalEntry(INT64_MIN, h.root), InternalEntry(sep, rightId);
      assert children[0..2] == [children[0], children[1]];
      AssignInternal(root, children, 0, 2);
      assert root.Entries() == [InternalEntry(INT64_MIN, h.root), InternalEntry(sep, rightId)];
      pages := pages[rootId := InternalPageOf(root)][header := h.(root := rootId, height := h.height + 1)];
    }

    /** One level of the climb: put the new child into node i, splitting it if it is full. */
    method ClimbOne(ghost s0: Store, i: nat, key: Key, rid: RID, path: WritePath, ids: seq<PageId>, sep: Key,
                    rightId: PageId)
      returns (done: bool, sep': Key, rightId': PageId)
      requires ClimbAt(cfg, s0, pages, header, i, key, rid, ids, sep, rightId)
      requires IsPath(path, Spine(TreeAt(s0, header), key), key)
      modifies this`pages
      ensures done ==> InsertResult(cfg, s0, pages, header, key, rid, ids)
      ensures !done ==> ClimbAt(cfg, s0, pages, header, i - 1, key, rid, ids, sep', rightId')
    {
      hide Trees.Valid, Contents, Ins, Splits, Spine, Unfold, NodeIns, Distinct, DistinctRun, Held, Holds, Absent,
        Covers, Pids, TreeOk, PagesNeeded, SpineOk, PagesOk, ClimbAt, InsertResult, Slot;
      ClimbParent(cfg, s0, pages, header, i, key, rid, ids, sep, rightId);
      var parentId, pos, entry := path.nodes[i], path.childIndexes[i] + 1, InternalEntry(sep, rightId);
      if |pages[parentId].entries| < cfg.internalMax {
        WriteChildInsert(parentId, pos, entry);
        ClimbEndsAt(cfg, s0, old(pages), pages, header, i, key, rid, ids, sep, rightId);
        return true, sep, rightId;
      }
      rightId' := ids[|path.nodes| - 1 - i];
      sep' := WriteNodeSplit(parentId, rightId', pos, entry);
      ClimbStepAt(cfg, s0, old(pages), pages, header, i, key, rid, ids, sep, rightId, sep');
      done := false;
    }

    /** The mutate phase of a splitting insert.  Nothing here can fail: every page it writes is on the
        path or was allocated for it. */
    method GrowPath(key: Key, rid: RID, path: WritePath, idx: nat, ids: seq<PageId>)
      requires InsertCtx(cfg, pages, header, key, rid, ids) && Splits(cfg, TreeAt(pages, header), key) > 0
      requires IsPath(path, Spine(TreeAt(pages, header), key), key)
      requires var sp := Spine(TreeAt(pages, header), key);
               var leaf := sp[|sp| - 1];
               leaf.Lf? && idx == LowerIndex(leaf.es, key)
      modifies this`pages
      ensures InsertResult(cfg, old(pages), pages, header, key, rid, ids)
    {
      hide Trees.Valid, Contents, Ins, Splits, Spine, Unfold, Distinct, DistinctRun, Held, Holds, Absent, Covers, Pids,
        TreeOk, PagesNeeded, SpineOk, PagesOk;
      ghost var s0, sp, level := pages, Spine(TreeAt(pages, header), key), LevelAt(pages, header);
      LeafSplits(cfg, s0, header, key, rid, ids);
      SpinePage(cfg, s0, sp, level, level, key);
      var leafId := path.nodes[|path.nodes| - 1];
      assert SpareId(s0, header, ids[0]);
      var sep := WriteLeafSplit(leafId, ids[0], idx, LeafEntry(key, rid));
      var rightId := ids[0];
      LeafIns(cfg, sp[level], key, rid, ids);
      LeafClimb(cfg, s0, pages, header, key, rid, ids);

      var i := |path.nodes| - 2;
      while i >= 0
        invariant -1 <= i < level
        invariant ClimbAt(cfg, s0, pages, header, i, key, rid, ids, sep, rightId)
      {
        var done: bool;
        done, sep, rightId := ClimbOne(s0, i, key, rid, path, ids, sep, rightId);
        if done { return; }
        i := i - 1;
      }

      // ClimbAt holds at -1: two subtrees and no parent, so RootOver puts a node above them.
      RootClimbed(cfg, s0, pages, header, key, rid, ids, sep, rightId);
      ghost var s1 := pages;
      WriteNewRoot(ids[|path.nodes|], sep, rightId);
      RootGrown(cfg, s0, s1, pages, header, key, rid, ids, sep, rightId);
    }

    /** The beginning of both writers: the path of the key, and the key's place in the leaf at its end. */
    method Locate(key: Key) returns (r: Result<(WritePath, nat)>)
      requires Valid()
      modifies this`faults
      ensures r.Err? ==> r.error == IOError
      ensures faults == old(faults) + if r.Err? then 1 else 0
      ensures r.Ok? ==>
                var path, idx, sp := r.value.0, r.value.1, Spine(Root(), key);
                && IsPath(path, sp, key) && sp != [] && sp[|sp| - 1].Lf?
                && var leaf := sp[|sp| - 1];
                && leaf.pid in pages && pages[leaf.pid] == LeafPage(leaf.level, leaf.next, leaf.es)
                && idx == LowerIndex(leaf.es, key) && |leaf.es| <= cfg.leafMax
                && if idx < |leaf.es| && leaf.es[idx].key == key then Present(Entries(), key)
                   else Absent(Entries(), key)
    {
      hide Trees.Valid, Contents, Spine, Unfold, Distinct, Holds, Covers, Pids, TreeOk;
      var found := FindLeafWrite(key);
      if found.Err? { return Err(found.error); }
      var path := found.value;
      ghost var sp, level := Spine(Root(), key), pages[header].height - 1;
      DescentFacts(cfg, pages, header, key);
      SpineLength(cfg, pages, sp, level, key);
      SpinePage(cfg, pages, sp, level, level, key);
      var es := pages[path.nodes[|path.nodes| - 1]].leafEntries;
      var idx := LowerBound(es, key);
      LeafDecides(Contents(Root()), es, idx, key);
      return Ok((path, idx));
    }

    /** One entry more, or an error with every page that was in the store unchanged.  The row address is
        stored as given, valid or not. */
    method Insert(key: Key, rid: RID) returns (st: Result<()>)
      requires Valid()
      modifies this
      ensures Valid()
      ensures st.Ok? ==>
                && Absent(old(Entries()), key)
                && Entries() == Inserted(old(Entries()), LowerIndex(old(Entries()), key), LeafEntry(key, rid))
                && old(pages).Keys <= pages.Keys
                && Pids(Root()) == old(Pids(Root())) + (pages.Keys - old(pages).Keys)
                && SameOff(old(pages), pages, Pids(Root()) + {header})
      ensures st.Err? ==>
                && Entries() == old(Entries())
                && (forall p | p in old(pages) :: p in pages && pages[p] == old(pages)[p])
                && (st.error == DuplicateKey ==> Present(old(Entries()), key))
                && (st.error != DuplicateKey ==> st.error == IOError || st.error == BufferPoolFull)
                && leaks >= old(leaks) && (leaks == old(leaks) ==> pages == old(pages))
      ensures faults == old(faults) + if st.Err? && st.error != DuplicateKey then 1 else 0
      ensures st.Ok? ==> leaks == old(leaks)
    {
      hide Trees.Valid, Contents, Ins, Splits, Spine, Unfold, Distinct, Holds, Covers, Pids, TreeOk, LowerIndex, Absent,
        Present, SameOff, Inserted;
      var found := Locate(key);
      if found.Err? { return Err(found.error); }
      var (path, idx) := found.value;
      var leafId := path.nodes[|path.nodes| - 1];
      var es := pages[leafId].leafEntries;
      if idx < |es| && es[idx].key == key { return Err(DuplicateKey); }

      if |es| < cfg.leafMax {
        WriteLeafInsert(leafId, idx, LeafEntry(key, rid));
        PlainInsert(cfg, old(pages), pages, header, key, rid);
        return Ok(());
      }

      st := SplitInsert(key, rid, path, idx);
    }

    /** The insert into a full leaf: all the pages it takes are allocated before the first write. */
    method SplitInsert(key: Key, rid: RID, path: WritePath, idx: nat) returns (st: Result<()>)
      requires Valid() && IsPath(path, Spine(Root(), key), key) && Absent(Entries(), key)
      requires var sp := Spine(Root(), key);
               var leaf := sp[|sp| - 1];
               leaf.Lf? && idx == LowerIndex(leaf.es, key) && |leaf.es| >= cfg.leafMax
      modifies this
      ensures Valid()
      ensures st.Ok? ==>
                && Entries() == Inserted(old(Entries()), LowerIndex(old(Entries()), key), LeafEntry(key, rid))
                && old(pages).Keys <= pages.Keys
                && Pids(Root()) == old(Pids(Root())) + (pages.Keys - old(pages).Keys)
                && SameOff(old(pages), pages, Pids(Root()) + {header})
      ensures st.Err? ==>
                && st.error == BufferPoolFull && Entries() == old(Entries())
                && leaks >= old(leaks) && (leaks == old(leaks) ==> pages == old(pages))
                && forall p | p in old(pages) :: p in pages && pages[p] == old(pages)[p]
      ensures faults == old(faults) + if st.Err? then 1 else 0
      ensures st.Ok? ==> leaks == old(leaks)
    {
      hide Trees.Valid, Contents, Ins, Splits, Spine, Unfold, Distinct, Holds, Covers, Pids, TreeOk;
      DescentFacts(cfg, pages, header, key);
      SpineLength(cfg, pages, Spine(Root(), key), pages[header].height - 1, key);
      var splits := CountSplits(path, key);
      var newRoot := splits == |path.nodes|;
      var ids := AllocatePages(splits + if newRoot then 1 else 0);
      AllocatedKeeps(cfg, old(pages), pages, header);
      if ids.Err? { return Err(ids.error); }
      InsertReady(cfg, old(pages), pages, header, key, rid, ids.value);
      ghost var s0 := pages;
      GrowPath(key, rid, path, idx, ids.value);
      InsertOutcome(cfg, old(pages), s0, pages, header, key, rid, ids.value);
      return Ok(());
    }

    // ---------- delete ----------

    method WriteLeafRemove(leafId: PageId, idx: nat)
      requires leafId in pages && pages[leafId].LeafPage? && idx < |pages[leafId].leafEntries| <= NODE_CAPACITY
      modifies this`pages
      ensures var p := old(pages)[leafId];
              pages == old(pages)[leafId := LeafPage(p.level, p.next, Removed(p.leafEntries, idx))]
    {
      var leaf := OpenLeaf(pages[leafId]);
      leaf.RemoveAt(idx);
      pages := pages[leafId := LeafPageOf(leaf)];
    }

    /** A rotation between two leaves: the pair's entries are dealt out again, one moved over. */
    method WriteLeafRotate(leftId: PageId, rightId: PageId, fromLeft: bool) returns (sep: Key)
      requires leftId in pages && rightId in pages && leftId != rightId && pages[leftId].LeafPage?
               && pages[rightId].LeafPage?
      requires |pages[leftId].leafEntries| <= NODE_CAPACITY && |pages[rightId].leafEntries| <= NODE_CAPACITY
      requires if fromLeft then |pages[leftId].leafEntries| >= 2 && |pages[rightId].leafEntries| < NODE_CAPACITY
               else |pages[rightId].leafEntries| >= 2 && |pages[leftId].leafEntries| < NODE_CAPACITY
      modifies this`pages
      ensures var l, r := old(pages)[leftId], old(pages)[rightId];
              var all, cut := l.leafEntries + r.leafEntries, PairCut(|l.leafEntries|, fromLeft);
              && pages == old(pages)[leftId := LeafPage(l.level, l.next, all[..cut])]
                 [rightId := LeafPage(r.level, r.next, all[cut..])]
              && sep == all[cut].key
    {
      var left := OpenLeaf(pages[leftId]);
      var right := OpenLeaf(pages[rightId]);
      ghost var all, cut := left.Entries() + right.Entries(), PairCut(left.count, fromLeft);
      if fromLeft {
        assert cut == left.count - 1;
        sep := RotateLeafRight(left, right);
      } else {
        assert cut == left.count + 1;
        sep := RotateLeafLeft(left, right);
      }
      assert left.Entries() == all[..cut] && right.Entries() == all[cut..] && sep == all[cut].key;
      pages := pages[leftId := LeafPageOf(left)][rightId := LeafPageOf(right)];
    }

    method WriteLeafMerge(leftId: PageId, rightId: PageId)
      requires leftId in pages && rightId in pages && leftId != rightId && pages[leftId].LeafPage?
               && pages[rightId].LeafPage?
      requires |pages[leftId].leafEntries| + |pages[rightId].leafEntries| <= NODE_CAPACITY
      modifies this`pages
      ensures var l, r := old(pages)[leftId], old(pages)[rightId];
              pages == old(pages)[leftId := LeafPage(l.level, r.next, l.leafEntries + r.leafEntries)]
    {
      var left := OpenLeaf(pages[leftId]);
      var right := OpenLeaf(pages[rightId]);
      MergeLeaf(left, right);
      pages := pages[leftId := LeafPageOf(left)];
    }

    /** A rotation through the parent's separator. */
    method WriteNodeRotate(leftId: PageId, rightId: PageId, separator: Key, fromLeft: bool) returns (sep: Key)
      requires leftId in pages && rightId in pages && leftId != rightId && pages[leftId].InternalPage?
               && pages[rightId].InternalPage?
      requires 1 <= |pages[leftId].entries| <= NODE_CAPACITY && 1 <= |pages[rightId].entries| <= NODE_CAPACITY
      requires if fromLeft then |pages[leftId].entries| >= 2 && |pages[rightId].entries| < NODE_CAPACITY
               else |pages[rightId].entries| >= 2 && |pages[leftId].entries| < NODE_CAPACITY
      requires pages[leftId].level == pages[rightId].level
      modifies this`pages
      ensures var l, r := old(pages)[leftId], old(pages)[rightId];
              var all, cut := Joined(l.entries, separator, r.entries), PairCut(|l.entries|, fromLeft);
              && pages == old(pages)[leftId := InternalPage(l.level, l.next, Canonical(all[..cut]))]
                                    [rightId := InternalPage(r.level, r.next, Canonical(all[cut..]))]
              && sep == all[cut].key
    {
      hide Canonical, Joined;
      var left := OpenInternal(pages[leftId]);
      var right := OpenInternal(pages[rightId]);
      ghost var all, cut := Joined(left.Entries(), separator, right.Entries()), PairCut(left.count, fromLeft);
      if fromLeft {
        sep := RotateInternalRight(left, right, separator);
      } else {
        sep := RotateInternalLeft(left, right, separator);
      }
      assert left.Entries() == Canonical(all[..cut]) && right.Entries() == Canonical(all[cut..]) && sep == all[cut].key;
      pages := pages[leftId := InternalPageOf(left)][rightId := InternalPageOf(right)];
    }

    method WriteNodeMerge(leftId: PageId, rightId: PageId, separator: Key)
      requires leftId in pages && rightId in pages && leftId != rightId && pages[leftId].InternalPage?
               && pages[rightId].InternalPage?
      requires 1 <= |pages[leftId].entries| && 1 <= |pages[rightId].entries|
      requires |pages[leftId].entries| + |pages[rightId].entries| <= NODE_CAPACITY
               && pages[leftId].level == pages[rightId].level
      modifies this`pages
      ensures var l, r := old(pages)[leftId], old(pages)[rightId];
              pages == old(pages)[leftId := InternalPage(l.level, l.next,
                  Canonical(Joined(l.entries, separator, r.entries)))]
    {
      var left := OpenInternal(pages[leftId]);
      var right := OpenInternal(pages[rightId]);
      MergeInternal(left, right, separator);
      pages := pages[leftId := InternalPageOf(left)];
    }

    method WriteSeparator(nodeId: PageId, index: nat, key: Key)
      requires nodeId in pages && pages[nodeId].InternalPage? && 1 <= index < |pages[nodeId].entries| <= NODE_CAPACITY
      modifies this`pages
      ensures var p := old(pages)[nodeId];
              pages == old(pages)[nodeId := InternalPage(p.level, p.next,
                  p.entries[index := InternalEntry(key, p.entries[index].child)])]
    {
      var node := OpenInternal(pages[nodeId]);
      assert node.slots[index] == node.Entries()[index];
      SetKeyAt(node, index, key);
      pages := pages[nodeId := InternalPageOf(node)];
    }

    method WriteChildRemove(nodeId: PageId, index: nat)
      requires nodeId in pages && pages[nodeId].InternalPage? && 1 <= index < |pages[nodeId].entries| <= NODE_CAPACITY
      modifies this`pages
      ensures var p := old(pages)[nodeId];
              pages == old(pages)[nodeId := InternalPage(p.level, p.next, Removed(p.entries, index))]
    {
      var node := OpenInternal(pages[nodeId]);
      node.RemoveAt(index);
      pages := pages[nodeId := InternalPageOf(node)];
    }

    /** One level of the planning pass: nothing to do, or the sibling to fix from and how. */
    method PlanStep(path: WritePath, k: nat, ghost key: Key) returns (r: Result<Option<DeleteStep>>)
      requires Valid() && IsPath(path, Spine(Root(), key), key) && k + 1 < |path.nodes|
      modifies this`faults
      ensures var sp, level := Spine(Root(), key), pages[header].height - 1;
              && |sp| == level + 1 && k < level
              && (r.Ok? ==> if r.value.None? then !AtFloor(cfg, sp[level - k], k)
                 else StepOk(cfg, sp, level, key, k, r.value.value))
      ensures r.Err? ==> r.error == IOError
      ensures faults == old(faults) + if r.Err? then 1 else 0
    {
      hide Contents, Spine, TreeOk, Unfold, PageOf, Slot;
      ghost var sp, level := Spine(Root(), key), pages[header].height - 1;
      PlanFacts(cfg, pages, header, key, k);
      var lv := |path.nodes| - 1 - k;
      var node := pages[path.nodes[lv]];
      var atFloor := if k == 0 then |node.leafEntries| <= LeafMinEntries(cfg.leafMax)
                     else |node.entries| <= InternalMinChildren(cfg.internalMax);
      if !atFloor { return Ok(None); }

      // The neighbour SiblingSlot names.
      var parent, childIndex := pages[path.nodes[lv - 1]], path.childIndexes[lv - 1];
      var siblingIsLeft := childIndex > 0;
      var siblingId := parent.entries[if siblingIsLeft then childIndex - 1 else childIndex + 1].child;
      var sibling := Fetch(siblingId);
      if sibling.Err? { return Err(sibling.error); }
      var siblingAtFloor: bool;
      if k == 0 {
        if !sibling.value.LeafPage? { return Err(Corruption); }
        siblingAtFloor := |sibling.value.leafEntries| <= LeafMinEntries(cfg.leafMax);
      } else {
        if !sibling.value.InternalPage? || sibling.value.level != node.level { return Err(Corruption); }
        siblingAtFloor := |sibling.value.entries| <= InternalMinChildren(cfg.internalMax);
      }
      return Ok(Some(DeleteStep(siblingId, siblingIsLeft, if siblingAtFloor then MergeNodes else Redistribute)));
    }

    /** One StepOk step per level, leaf first, up to where the cascade stops.  No page is written: only
        counts are read. */
    method PlanDelete(path: WritePath, ghost key: Key) returns (r: Result<DeletePlan>)
      requires Valid() && IsPath(path, Spine(Root(), key), key)
      modifies this`faults
      ensures r.Ok? ==> PlanOk(cfg, Spine(Root(), key), pages[header].height - 1, key, r.value)
      ensures r.Ok? && pages[header].height > 1 ==>
                var sp := Spine(Root(), key);
                sp != [] && (r.value.steps != [] <==> 2 * Count(sp[|sp| - 1]) <= cfg.leafMax)
      ensures r.Err? ==> r.error == IOError
      ensures faults == old(faults) + if r.Err? then 1 else 0
    {
      hide Trees.Valid, Contents, Spine, Unfold, Distinct, Holds, Covers, Pids, TreeOk, StepOk, SpineLink;
      ghost var sp, level := Spine(Root(), key), pages[header].height - 1;
      DescentFacts(cfg, pages, header, key);
      SpineLength(cfg, pages, sp, level, key);
      SpinePage(cfg, pages, sp, 0, level, key);
      var steps: seq<DeleteStep> := [];
      assert PlanSoFar(cfg, sp, level, key, steps);
      hide RootSpineOk, SpineAt, SortedLeaf, LeafShapeOk, InternalNodeOk, AtFloor, PlanOk, PlanSoFar;
      while |steps| < |path.nodes| - 1
        invariant |steps| <= |path.nodes| - 1 == level && PlanSoFar(cfg, sp, level, key, steps)
        invariant faults == old(faults)
      {
        var step := PlanStep(path, |steps|, key);
        if step.Err? { return Err(step.error); }
        if step.value.None? {
          PlanStops(cfg, sp, level, key, steps);
          PlanFixesLeaf(cfg, sp, level, key, DeletePlan(steps, false));
          return Ok(DeletePlan(steps, false));
        }
        PlanGrows(cfg, sp, level, key, steps, step.value.value);
        steps := steps + [step.value.value];
        if step.value.value.fix == Redistribute {
          PlanFixesLeaf(cfg, sp, level, key, DeletePlan(steps, false));
          return Ok(DeletePlan(steps, false));
        }
      }
      PlanReachesRoot(cfg, sp, level, key, steps);
      if level > 0 { PlanFixesLeaf(cfg, sp, level, key, DeletePlan(steps, steps != [] && Count(sp[0]) == 2)); }
      return Ok(DeletePlan(steps, steps != [] && |pages[path.nodes[0]].entries| == 2));
    }

    /** Fix one level: rotate an entry over from the sibling, or merge right into left. */
    method ApplyStep(ghost s0: Store, k: nat, key: Key, path: WritePath, step: DeleteStep, toFree: seq<PageId>)
      returns (toFree': seq<PageId>)
      requires CascadeAt(cfg, s0, pages, header, k, key, toFree) && k < LevelAt(s0, header)
      requires IsPath(path, Spine(TreeAt(s0, header), key), key)
      requires StepOk(cfg, Spine(TreeAt(s0, header), key), LevelAt(s0, header), key, k, step)
      modifies this`pages
      ensures step.fix == Redistribute ==>
                CascadeEnd(cfg, s0, pages, header, k + 1, key, toFree')
                && Kept(cfg, s0, header, k + 1, key)
      ensures step.fix == MergeNodes ==> CascadeAt(cfg, s0, pages, header, k + 1, key, toFree')
    {
      hide Trees.Valid, Contents, Spine, Unfold, Distinct, Holds, Covers, Pids, TreeOk, Del, PairOk, DistinctRun, Short,
        Written, FixedKids, StepWrites, StepPages, PairAt, Slot, Cascade, CascadeEnd, StepOk, Lends, InternalNodeOk;
      StepFacts(cfg, s0, pages, header, k, key, toFree, step);
      ghost var sp, lv := Spine(TreeAt(s0, header), key), LevelAt(s0, header) - k;
      ghost var t, i, d := sp[lv - 1], Slot(sp[lv - 1], key), Del(cfg, sp[lv], key).t;
      StepIds(cfg, pages, t, sp[lv], i, d, k, step);
      hide CascadeAt, Kept, RootSpineOk;
      var nodeId, parentId, childIndex := path.nodes[|path.nodes| - 1 - k], path.nodes[|path.nodes| - 2 - k],
          path.childIndexes[|path.nodes| - 2 - k];
      var leftId, rightId, rightSlot := if step.siblingIsLeft then step.sibling else nodeId,
                                        if step.siblingIsLeft then nodeId else step.sibling,
                                        if step.siblingIsLeft then childIndex else childIndex + 1;
      FixPair(t, i, d, k, step, leftId, rightId, parentId, rightSlot);
      CascadeStep(cfg, s0, old(pages), pages, header, k, key, toFree, step);
      toFree' := if step.fix == MergeNodes then toFree + [rightId] else toFree;
    }

    method FixPair(ghost t: Tree, ghost i: nat, ghost d: Tree, k: nat, step: DeleteStep,
                   leftId: PageId, rightId: PageId, parentId: PageId, rightSlot: nat)
      requires t.Nd? && i < |t.kids| && |t.kids| >= 2 && StepPages(cfg, pages, t, t.kids[i], i, d, k, step)
      requires parentId == t.pid && rightSlot == PairAt(i) + 1
      requires leftId == t.kids[i := d][PairAt(i)].pid && rightId == t.kids[i := d][PairAt(i) + 1].pid
      modifies this`pages
      ensures StepWrites(cfg, old(pages), pages, t, i, d, k)
    {
      hide Contents, PairFix, FixedKids, SameKind, Short, PairOk, StepPages, EntriesOf, PageOf, Canonical, Joined,
        Count, Lends, LeafFix, NodeFix, StepWrites;
      FixedPages(cfg, pages, t, i, d, k, step);
      ghost var l, r := t.kids[i := d][PairAt(i)], t.kids[i := d][PairAt(i) + 1];
      var separator := pages[parentId].entries[rightSlot].key;
      if step.fix == Redistribute {
        var newSeparator := RotatePair(l, r, k, step.siblingIsLeft, leftId, rightId, separator);
        WriteSeparator(parentId, rightSlot, newSeparator);
      } else {
        MergePair(l, r, k, step.siblingIsLeft, leftId, rightId, separator);
        WriteChildRemove(parentId, rightSlot);
      }
      StepWritten(cfg, old(pages), pages, t, i, d, k, step);
    }

    method RotatePair(ghost l: Tree, ghost r: Tree, k: nat, fromLeft: bool, leftId: PageId, rightId: PageId,
                      separator: Key)
      returns (newSeparator: Key)
      requires l.pid == leftId && r.pid == rightId && leftId != rightId && separator == r.key
               && Lends(cfg, l, r, k, fromLeft)
      requires var run := PairFix(cfg, l, r, k, fromLeft);
               if k == 0 then LeafFix(cfg, pages, l, r, fromLeft, run) else NodeFix(cfg, pages, l, r, k, fromLeft, run)
      modifies this`pages
      ensures var run := PairFix(cfg, l, r, k, fromLeft);
              && |run| == 2 && newSeparator == run[1].key
              && pages == old(pages)[leftId := PageOf(run[0])][rightId := PageOf(run[1])]
    {
      hide PairFix, EntriesOf, PageOf, Canonical, Joined, Lends;
      if k == 0 {
        newSeparator := WriteLeafRotate(leftId, rightId, fromLeft);
      } else {
        newSeparator := WriteNodeRotate(leftId, rightId, separator, fromLeft);
      }
    }

    method MergePair(ghost l: Tree, ghost r: Tree, k: nat, ghost fromLeft: bool, leftId: PageId, rightId: PageId,
                     separator: Key)
      requires l.pid == leftId && r.pid == rightId && leftId != rightId && separator == r.key
               && !Lends(cfg, l, r, k, fromLeft)
      requires var run := PairFix(cfg, l, r, k, fromLeft);
               if k == 0 then LeafFix(cfg, pages, l, r, fromLeft, run) else NodeFix(cfg, pages, l, r, k, fromLeft, run)
      modifies this`pages
      ensures var run := PairFix(cfg, l, r, k, fromLeft);
              |run| == 1 && pages == old(pages)[leftId := PageOf(run[0])]
    {
      hide PairFix, EntriesOf, PageOf, Canonical, Joined, Lends;
      if k == 0 {
        WriteLeafMerge(leftId, rightId);
      } else {
        WriteNodeMerge(leftId, rightId, separator);
      }
    }

    /** Apply a plan bottom-up, after the entry has left the leaf.  Nothing here can fail.  Frees
        nothing: returns the pages it unlinked. */
    method ApplyDeletePlan(ghost s0: Store, key: Key, path: WritePath, plan: DeletePlan) returns (toFree: seq<PageId>)
      requires CascadeAt(cfg, s0, pages, header, 0, key, []) && IsPath(path, Spine(TreeAt(s0, header), key), key)
      requires PlanOk(cfg, Spine(TreeAt(s0, header), key), LevelAt(s0, header), key, plan)
      modifies this`pages
      ensures DeleteResult(cfg, s0, pages, header, key, toFree)
    {
      hide Trees.Valid, Contents, Spine, Unfold, Distinct, Holds, Covers, Pids, TreeOk, Del, StepOk, Cascade, Slot,
        DeleteResult;
      toFree := [];
      var k := 0;
      var ended := false;
      while k < |plan.steps| && !ended
        invariant k <= |plan.steps|
        invariant if ended then && k == |plan.steps| > 0 && plan.steps[k - 1].fix == Redistribute
                                && CascadeEnd(cfg, s0, pages, header, k, key, toFree) && Kept(cfg, s0, header, k, key)
                  else CascadeAt(cfg, s0, pages, header, k, key, toFree) && AllMerge(plan.steps[..k])
        decreases |plan.steps| - k
      {
        var step := plan.steps[k];
        assert StepOk(cfg, Spine(TreeAt(s0, header), key), LevelAt(s0, header), key, k, step);
        toFree := ApplyStep(s0, k, key, path, step, toFree);
        ended := step.fix == Redistribute;
        k := k + 1;
      }
      assert plan.steps[..k] == plan.steps;
      CascadeResult(cfg, s0, pages, header, key, plan, ended, toFree);
      ghost var s1 := pages;
      if plan.collapseRoot {
        CollapsingRoot(cfg, s0, pages, header, key);
        var rootId := path.nodes[0];
        var h, root := pages[header], pages[rootId];
        pages := pages[header := h.(root := root.entries[0].child, height := h.height - 1)];
        toFree := toFree + [rootId];
      }
      ApplyDone(cfg, s0, s1, pages, header, key);
    }

    /** Removes these pages, but for those whose deletion fails. */
    method FreePages(toFree: seq<PageId>)
      modifies this`pages, this`leaks
      ensures SomeFreed(old(pages), pages, toFree) && leaks >= old(leaks)
      ensures leaks == old(leaks) ==> pages == old(pages) - PageSet(toFree)
    {
      for i := 0 to |toFree|
        invariant SomeFreed(old(pages), pages, toFree) && leaks >= old(leaks)
        invariant leaks == old(leaks) ==> pages == old(pages) - PageSet(toFree[..i])
      {
        assert toFree[i] in PageSet(toFree);
        assert PageSet(toFree[..i + 1]) == PageSet(toFree[..i]) + {toFree[i]};
        DeletePage(toFree[i]);
      }
      assert toFree[..|toFree|] == toFree;
    }

    /** Remove the key.  Any error means no page has changed; on success exactly the key's entry is
        gone, and a page disappears only if the tree no longer reaches it. */
    method Delete(key: Key) returns (st: Result<()>)
      requires Valid()
      modifies this
      ensures Valid()
      ensures st.Err? ==>
                pages == old(pages) && leaks == old(leaks)
                && (st.error == IOError || (st.error == NotFound && Absent(Entries(), key)))
      ensures faults == old(faults) + if st == Err(IOError) then 1 else 0
      ensures st.Ok? ==>
                && Present(old(Entries()), key) && LessKey(old(Entries()), Entries(), key)
                && Pids(Root()) <= old(Pids(Root()))
                && pages.Keys <= old(pages).Keys
                && old(pages).Keys - pages.Keys <= old(Pids(Root())) - Pids(Root()) && leaks >= old(leaks)
                && (leaks == old(leaks) ==> old(pages).Keys - pages.Keys == old(Pids(Root())) - Pids(Root()))
                && (forall p | p in old(pages) && p !in old(Pids(Root())) && p != header ::
                   p in pages && pages[p] == old(pages)[p])
    {
      hide Trees.Valid, Contents, Spine, Unfold, Distinct, Holds, Covers, Pids, TreeOk, Del, StepOk, PlanOk, CascadeAt,
        PageSet, LowerIndex, Absent, Present, RootSpineOk, SortedLeaf;
      var found := Locate(key);
      if found.Err? { return Err(found.error); }
      var (path, idx) := found.value;
      ghost var s0 := pages;
      DescentFacts(cfg, s0, header, key);
      var leafId := path.nodes[|path.nodes| - 1];
      var es := pages[leafId].leafEntries;
      if idx == |es| || es[idx].key != key { return Err(NotFound); }

      // From here on PlanOk discharges every precondition, so no branch returns an error.
      var plan := PlanDelete(path, key);
      if plan.Err? { return Err(plan.error); }

      WriteLeafRemove(leafId, idx);
      CascadeStart(cfg, s0, pages, header, key);
      var toFree := ApplyDeletePlan(s0, key, path, plan.value);

      // FreedKeeps: none of toFree is in Pids(Root()), whichever of them are in fact removed.
      ghost var s1 := pages;
      FreePages(toFree);
      FreedKeeps(cfg, s0, s1, pages, header, key, toFree);
      return Ok(());
    }
  }
}
