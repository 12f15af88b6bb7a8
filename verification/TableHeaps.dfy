/**
 * One table's rows: a chain of heap pages, a cursor that looks for space along it, and an append path
 * that extends it.  One caller at a time; a fetch or an allocation may fail at any point.
 */
module TableHeaps {
  import opened Common
  import opened HeapPages

  const INSERT_PROBE_LIMIT: nat := 4
  const COMPACT_THRESHOLD: nat := BODY / 8

  datatype Page = Heap(next: PageId, image: Image) | Other
  type Store = map<PageId, Page>

  ghost predicate IsHeap(s: Store, p: PageId) { p in s && s[p].Heap? && ImageOk(s[p].image) }

  /** The row a RID names, if any. */
  ghost function RowAt(s: Store, rid: RID): Option<seq<Byte>> {
    if IsHeap(s, rid.pageId) && rid.slot < |s[rid.pageId].image.slots| then TuplesOf(s[rid.pageId].image)[rid.slot]
      else None
  }

  /** ps is the table's chain: heap pages, each linking to the next, none twice. */
  ghost predicate IsChain(s: Store, ps: seq<PageId>) {
    && ps != []
    && (forall i | 0 <= i < |ps| :: IsHeap(s, ps[i]) && s[ps[i]].next == Follower(ps, i))
    && (forall i, j | 0 <= i < j < |ps| :: ps[i] != ps[j])
    && (forall p | p in ps :: CanFetch(p))
  }

  function Follower(ps: seq<PageId>, i: nat): PageId
    requires i < |ps|
  {
    if i + 1 < |ps| then ps[i + 1] else INVALID_PAGE
  }

  /** The page at the end of the chain. */
  ghost function Final(s: Store, ps: seq<PageId>): Page {
    if ps != [] && ps[|ps| - 1] in s then s[ps[|ps| - 1]] else Other
  }

  /** The rows are as before but for one. */
  ghost predicate RowSet(s: Store, s': Store, rid: RID, row: Option<seq<Byte>>) {
    forall r: RID :: RowAt(s', r) == if r == rid then row else RowAt(s, r)
  }

  // ---------- what the table answers when nothing fails ----------

  /** What a fetch of the page and a look at the slot give. */
  ghost function Lookup(s: Store, rid: RID): Result<seq<Byte>> {
    if !CanFetch(rid.pageId) then Err(InvalidArgument)
    else if rid.pageId !in s then Err(IOError)
    else if !s[rid.pageId].Heap? then Err(Corruption)
    else if RowAt(s, rid).Some? then Ok(RowAt(s, rid).value)
    else Err(NotFound)
  }

  predicate SizeOk(tuple: seq<Byte>) { 0 < |tuple| <= 2000 }

  /** The new tuple can take the old one's place: the page's free and dead bytes and its own make room. */
  ghost predicate FitsAt(s: Store, rid: RID, tuple: seq<Byte>) {
    && rid.pageId in s && s[rid.pageId].Heap? && RowAt(s, rid).Some?
    && var m := s[rid.pageId].image;
    |tuple| <= FreeSpace(m) + m.dead + |RowAt(s, rid).value|
  }

  /** What an update on the row's own page gives. */
  ghost function UpdateAnswer(s: Store, rid: RID, tuple: seq<Byte>): Result<UpdateOutcome> {
    match Lookup(s, rid)
    case Ok(_) =>
      if !SizeOk(tuple) then Err(InvalidArgument) else Ok(if FitsAt(s, rid, tuple) then SamePage else DoesNotFit)
    case Err(e) => if e == NotFound && !SizeOk(tuple) then Err(InvalidArgument) else Err(e)
  }

  // ---------- where the cursor goes ----------

  /** k pages on from the i-th, around the chain. */
  function Around(n: nat, i: nat, k: nat): (j: nat)
    requires i < n
    ensures j < n
  {
    if k == 0 then i else
    var j := Around(n, i, k - 1);
    if j + 1 < n then j + 1 else 0
  }

  /** A page that a probe passes over: too little room as it is, and none to be had by compaction or less
      than an eighth of the page in dead bytes. */
  predicate PassedOver(s: Store, p: PageId, size: nat) {
    p in s && s[p].Heap? && Refuses(FreeSpace(s[p].image), s[p].image.dead, size, 508)
  }

  /** The hint leads nowhere, which costs one probe. */
  predicate BadHint(s: Store, hint: PageId) {
    hint != INVALID_PAGE && !(CanFetch(hint) && hint in s && s[hint].Heap?)
  }

  function Budget(s: Store, hint: PageId): nat { if BadHint(s, hint) then 3 else 4 }

  /** From the at-th page, where the hint sends it, the walk has passed `tried` pages over and come to `page`. */
  ghost predicate Sweeping(s: Store, ps: seq<PageId>, hint: PageId, size: nat, at: nat, tried: nat, page: PageId) {
    && at < |ps| && ps[at] == (if hint == INVALID_PAGE || BadHint(s, hint) then ps[0] else hint)
    && page == ps[Around(|ps|, at, tried)]
    && forall k | 0 <= k < tried :: PassedOver(s, ps[Around(|ps|, at, k)], size)
  }

  /** The walk ends on the first page that does not pass the tuple over, or with its budget spent; the cursor
      is left where it ended. */
  ghost predicate Swept(s: Store, ps: seq<PageId>, hint: PageId, size: nat, hint': PageId, placed: Option<PageId>) {
    exists at: nat, tried: nat ::
      && Sweeping(s, ps, hint, size, at, tried, hint')
      && if placed.None? then tried == Budget(s, hint)
         else tried < Budget(s, hint) && placed.value == hint' && !PassedOver(s, hint', size)
  }

  lemma SweepStarts(s: Store, ps: seq<PageId>, hint: PageId, size: nat, page: PageId) returns (at: nat)
    requires page in ps && page == (if hint == INVALID_PAGE || BadHint(s, hint) then ps[0] else hint)
    ensures Sweeping(s, ps, hint, size, at, 0, page)
  {
    at :| 0 <= at < |ps| && ps[at] == page;
  }

  lemma SweepOn(s: Store, ps: seq<PageId>, hint: PageId, size: nat, at: nat, tried: nat, page: PageId)
    requires IsChain(s, ps) && Sweeping(s, ps, hint, size, at, tried, page) && page in s && s[page].Heap?
    requires Refuses(FreeSpace(s[page].image), s[page].image.dead, size, COMPACT_THRESHOLD)
    ensures Sweeping(s, ps, hint, size, at, tried + 1, if s[page].next == INVALID_PAGE then ps[0] else s[page].next)
  {
    assert PassedOver(s, page, size);
    hide PassedOver;
    var j := Around(|ps|, at, tried);
    assert IsHeap(s, ps[j]) && s[ps[j]].next == Follower(ps, j);
    if j + 1 < |ps| { assert ps[j + 1] in ps; }
  }

  lemma SweepEnds(s: Store, ps: seq<PageId>, hint: PageId, size: nat, at: nat, tried: nat, page: PageId,
                  placed: Option<PageId>)
    requires Sweeping(s, ps, hint, size, at, tried, page)
    requires if placed.None? then tried == Budget(s, hint)
             else
               && tried < Budget(s, hint) && placed.value == page && page in s && s[page].Heap?
               && !Refuses(FreeSpace(s[page].image), s[page].image.dead, size, COMPACT_THRESHOLD)
    ensures Swept(s, ps, hint, size, page, placed)
  {
    hide Sweeping;
  }

  lemma BudgetOf(s: Store, hint: PageId)
    ensures Budget(s, hint) == if BadHint(s, hint) then 3 else 4
  {
  }

  /** Rewriting one page's image, link kept. */
  lemma {:induction false} RewriteChain(s: Store, ps: seq<PageId>, p: PageId, m: Image)
    requires IsChain(s, ps) && IsHeap(s, p) && ImageOk(m)
    ensures IsChain(s[p := Heap(s[p].next, m)], ps)
  {
  }

  /** One slot's worth of change in one page is one row's worth of change in the table. */
  lemma RewriteRow(s: Store, p: PageId, m: Image, i: nat, row: Option<seq<Byte>>)
    requires IsHeap(s, p) && ImageOk(m)
    requires var c, c' := TuplesOf(s[p].image), TuplesOf(m);
             || (i < |c| && c' == c[i := row])
             || (i == |c| && c' == c + [row])
    ensures RowSet(s, s[p := Heap(s[p].next, m)], RID(p, i), row)
  {
    var s' := s[p := Heap(s[p].next, m)];
    forall r: RID ensures RowAt(s', r) == if r == RID(p, i) then row else RowAt(s, r) {
      if r.pageId == p { assert r == RID(p, r.slot); }
    }
  }

  /** When a page is passed over: no room as it is, and none after compaction or too little to gain. */
  predicate Refuses(contiguous: int, dead: nat, size: nat, threshold: nat) {
    contiguous < size + SLOT_SIZE && (contiguous + dead < size + SLOT_SIZE || dead < threshold)
  }

  function FreeSpace(m: Image): int { m.start - (SUB_HEADER + |m.slots| * SLOT_SIZE) }

  /** Not even compaction makes room for a tuple of this size and a slot. */
  predicate NoRoom(m: Image, size: nat) { FreeSpace(m) + m.dead < size + SLOT_SIZE }

  /** Place the tuple on a page already held: a slot, or None exactly if the page refuses it. */
  method TryInsertOnPage(page: HeapPage, tuple: seq<Byte>, threshold: nat) returns (r: Result<Option<nat>>)
    requires page.Valid()
    modifies page, page.body
    ensures page.Valid()
    ensures r.Ok? && r.value.Some? ==>
              var i, c := r.value.value, old(page.Contents());
              if i < |c| then c[i] == None && page.Contents() == c[i := Some(tuple)]
              else i == |c| && page.Contents() == c + [Some(tuple)]
    ensures r == Ok(None) <==> Refuses(old(page.Contiguous()), old(page.dead), |tuple|, threshold)
    ensures r == Ok(None) ==> page.AsImage() == old(page.AsImage())
    ensures r.Err? ==> page.Contents() == old(page.Contents())
    ensures r.Err? ==> r.error == InvalidArgument && (|tuple| == 0 || |tuple| > MAX_TUPLE_SIZE)
  {
    var need := |tuple| + SLOT_SIZE;
    if page.Contiguous() < need {
      if page.Contiguous() + page.dead < need { return Ok(None); }
      if page.dead < threshold { return Ok(None); }
      page.Compact();
    }
    var slot := page.Insert(tuple);
    if slot.Err? {
      if slot.error == PageFull { return Ok(None); }
      return Err(slot.error);
    }
    return Ok(Some(slot.value));
  }

  // ---------- opening a page, working on it in place, and writing it back ----------

  method PlaceIn(m: Image, tuple: seq<Byte>, threshold: nat) returns (r: Option<nat>, m': Image)
    requires ImageOk(m) && 0 < |tuple| <= MAX_TUPLE_SIZE
    ensures ImageOk(m')
    ensures var c, c' := TuplesOf(m), TuplesOf(m');
            match r
            case None => m' == m && Refuses(FreeSpace(m), m.dead, |tuple|, threshold)
            case Some(i) =>
              && !Refuses(FreeSpace(m), m.dead, |tuple|, threshold)
              && if i < |c| then c[i] == None && c' == c[i := Some(tuple)] else i == |c| && c' == c + [Some(tuple)]
  {
    var view := new HeapPage.Over(m);
    var slot := TryInsertOnPage(view, tuple, threshold);
    m' := view.Store();
    r := slot.value;
  }

  method FreshWith(tuple: seq<Byte>) returns (m: Image)
    requires 0 < |tuple| <= MAX_TUPLE_SIZE
    ensures ImageOk(m) && TuplesOf(m) == [Some(tuple)]
  {
    var view := new HeapPage();
    var slot := view.Insert(tuple);
    m := view.Store();
  }

  method DeleteFrom(m: Image, i: nat) returns (st: Result<()>, m': Image)
    requires ImageOk(m)
    ensures ImageOk(m')
    ensures st.Ok? ==> i < |TuplesOf(m)| && TuplesOf(m)[i].Some? && TuplesOf(m') == TuplesOf(m)[i := None]
    ensures st.Err? ==> st.error == NotFound && (i < |TuplesOf(m)| ==> TuplesOf(m)[i] == None)
  {
    var view := new HeapPage.Over(m);
    st := view.Delete(i);
    m' := view.Store();
  }

  method UpdateIn(m: Image, i: nat, tuple: seq<Byte>) returns (r: Result<UpdateOutcome>, m': Image)
    requires ImageOk(m)
    ensures ImageOk(m')
    ensures r.Ok? ==>
              && i < |TuplesOf(m)| && TuplesOf(m)[i].Some?
              && (r.value == SamePage <==> |tuple| <= FreeSpace(m) + m.dead + |TuplesOf(m)[i].value|)
    ensures r.Ok? && r.value == SamePage ==> TuplesOf(m') == TuplesOf(m)[i := Some(tuple)]
    ensures r.Err? || r.value == DoesNotFit ==> m' == m
    ensures r == Err(InvalidArgument) <==> |tuple| == 0 || |tuple| > MAX_TUPLE_SIZE
    ensures r.Err? && r.error != InvalidArgument
            ==> r.error == NotFound && (i < |TuplesOf(m)| ==> TuplesOf(m)[i] == None)
  {
    var view := new HeapPage.Over(m);
    r := view.Update(i, tuple);
    m' := view.Store();
  }

  /** A new page at the end of the chain, holding one row. */
  lemma {:induction false} ExtendChain(s: Store, ps: seq<PageId>, p: PageId, m: Image, row: seq<Byte>)
    requires IsChain(s, ps) && p !in s && CanFetch(p) && ImageOk(m) && TuplesOf(m) == [Some(row)]
    ensures var last := ps[|ps| - 1];
            var s' := s[p := Heap(INVALID_PAGE, m)][last := Heap(p, s[last].image)];
            IsChain(s', ps + [p]) && RowSet(s, s', RID(p, 0), Some(row)) && RowAt(s, RID(p, 0)) == None
  {
    var last, qs := ps[|ps| - 1], ps + [p];
    assert IsHeap(s, last);
    var s' := s[p := Heap(INVALID_PAGE, m)][last := Heap(p, s[last].image)];
    forall i | 0 <= i < |qs| ensures IsHeap(s', qs[i]) && s'[qs[i]].next == Follower(qs, i) {
      if i < |ps| { assert IsHeap(s, ps[i]) && s[ps[i]].next == Follower(ps, i); }
    }
    assert forall i | 0 <= i < |ps| :: IsHeap(s, ps[i]);
    forall r: RID ensures RowAt(s', r) == if r == RID(p, 0) then Some(row) else RowAt(s, r) {
      if r.pageId == p { assert r == RID(p, r.slot); }
    }
  }

  class TableHeap {
    var pages: Store
    const first: PageId
    var last: PageId
    var hint: PageId
    ghost var chain: seq<PageId>

    /** How many fetches of a page that is there and how many allocations have failed. */
    ghost var faults: nat

    /** `last` names a chain page, not always the final one; the hint may name anything but another
        table's heap page. */
    ghost predicate Valid()
      reads this`pages, this`last, this`hint, this`chain
    {
      IsChain(pages, chain) && chain[0] == first && last in chain && Ours(hint)
    }

    /** Not a heap page of some other table. */
    ghost predicate Ours(p: PageId)
      reads this`pages, this`chain
    {
      p in pages && pages[p].Heap? ==> p in chain
    }

    /** Take up an existing table from the two page ids a catalog keeps. */
    constructor Open(pages: Store, first: PageId, last: PageId, ghost chain: seq<PageId>)
      requires IsChain(pages, chain) && chain[0] == first && last in chain
      ensures Valid() && this.pages == pages && this.chain == chain && this.first == first
    {
      this.pages, this.first, this.last, hint := pages, first, last, first;
      this.chain, faults := chain, 0;
    }

    // ---------- the pool, as this layer sees it ----------

    method Fetch(p: PageId) returns (r: Result<Page>)
      modifies this`faults
      ensures r.Ok? ==> CanFetch(p) && p in pages && r.value == pages[p]
      ensures r.Err? ==> r.error == if CanFetch(p) then IOError else InvalidArgument
      ensures faults == old(faults) + if r.Err? && CanFetch(p) && p in pages then 1 else 0
    {
      if !CanFetch(p) { return Err(InvalidArgument); }
      if p !in pages { return Err(IOError); }
      var fault: bool := *;
      if fault {
        faults := faults + 1;
        return Err(IOError);
      }
      return Ok(pages[p]);
    }

    method NewPage() returns (r: Result<PageId>)
      modifies this`pages, this`faults
      ensures r.Ok? ==>
                && IsDataPage(r.value) && r.value !in old(pages) && pages == old(pages)[r.value := Other]
                && faults == old(faults)
      ensures r.Err? ==> r.error == BufferPoolFull && pages == old(pages) && faults == old(faults) + 1
    {
      var p: PageId := *;
      if p in pages || !IsDataPage(p) {
        faults := faults + 1;
        return Err(BufferPoolFull);
      }
      pages := pages[p := Other];
      return Ok(p);
    }

    // ---------- reading ----------

    /** Lookup's answer, unless the fetch fails. */
    method Get(rid: RID) returns (r: Result<seq<Byte>>)
      requires Valid() && Ours(rid.pageId)
      modifies this`faults
      ensures faults == old(faults) || faults == old(faults) + 1
      ensures r == if faults == old(faults) then Lookup(pages, rid) else Err(IOError)
    {
      var page := Fetch(rid.pageId);
      if page.Err? { return Err(page.error); }
      if !page.value.Heap? { return Err(Corruption); }
      var view := new HeapPage.Over(page.value.image);
      r := view.Get(rid.slot);
    }

    // ---------- inserting ----------

    /** One page of the chain: write the row there if it fits, or leave every row as it was. */
    method PlaceOn(p: PageId, tuple: seq<Byte>, threshold: nat) returns (r: Option<nat>)
      requires Valid() && p in chain && 0 < |tuple| <= MAX_TUPLE_SIZE
      modifies this`pages
      ensures Valid() && pages.Keys == old(pages).Keys
      ensures r.Some? ==>
                RowAt(old(pages), RID(p, r.value)) == None
                && RowSet(old(pages), pages, RID(p, r.value), Some(tuple))
      ensures p in old(pages) && old(pages)[p].Heap?
      ensures r.None? <==> Refuses(FreeSpace(old(pages)[p].image), old(pages)[p].image.dead, |tuple|, threshold)
      ensures r.None? ==> pages == old(pages)
    {
      hide TuplesOf, ImageOk, RowSet;
      assert IsHeap(pages, p);
      var m;
      r, m := PlaceIn(pages[p].image, tuple, threshold);
      RewriteChain(pages, chain, p, m);
      if r.Some? { RewriteRow(pages, p, m, r.value, Some(tuple)); }
      pages := pages[p := Heap(pages[p].next, m)];
    }

    /** Rows before and after an insert that may still be looking. */
    ghost predicate Inserted(s: Store, rid: RID, tuple: seq<Byte>)
      reads this`pages, this`chain
    {
      RowAt(s, rid) == None && RowSet(s, pages, rid, Some(tuple)) && rid.pageId in chain
    }

    /** The rotating cursor: a bounded walk along the chain from the hint, wrapping at the end.  A hint
        that does not resolve sends the walk to the front; a link that does not resolve is an error. */
    method Probe(tuple: seq<Byte>) returns (r: Result<Option<RID>>)
      requires Valid() && 0 < |tuple| <= MAX_TUPLE_SIZE
      modifies this`pages, this`hint, this`faults
      ensures Valid() && faults >= old(faults)
      ensures r.Ok? && r.value.Some? ==> Inserted(old(pages), r.value.value, tuple) && hint == r.value.value.pageId
      ensures r.Err? || r.value.None? ==> pages == old(pages)
      ensures r.Err? ==> r.error == IOError && faults > old(faults)
      ensures faults == old(faults) ==>
                Swept(old(pages), chain, old(hint), |tuple|, hint,
                  if r.value.Some? then Some(r.value.value.pageId) else None)
    {
      hide RowSet, RowAt, ImageOk, IsChain, Around, Refuses, Sweeping, PassedOver, Budget, Swept;
      ChainPage(first);
      BudgetOf(pages, hint);
      var page := if hint == INVALID_PAGE then first else hint;
      var fromHint := true;
      var probe := 0;
      ghost var at, tried := 0, 0;
      while probe < INSERT_PROBE_LIMIT && page != INVALID_PAGE
        invariant Valid() && pages == old(pages) && faults >= old(faults) && page != INVALID_PAGE
        invariant if fromHint then Ours(page) && probe == 0 == tried && page == if old(hint) == INVALID_PAGE then first
                  else old(hint)
                  else page in chain
        invariant !fromHint && faults == old(faults) ==>
                    && Sweeping(pages, chain, old(hint), |tuple|, at, tried, page) && (tried > 0 ==> hint == page)
                    && probe == tried + 4 - Budget(pages, old(hint)) && probe <= 4
      {
        probe := probe + 1;
        var recoverable := fromHint && page != first;
        var guard := Fetch(page);
        if guard.Err? || !guard.value.Heap? {
          if !recoverable {
            ChainPage(page);
            return Err(if guard.Err? then guard.error else Corruption);
          }
          page, fromHint := first, false;
          if faults == old(faults) { at := SweepStarts(pages, chain, old(hint), |tuple|, first); }
          continue;
        }
        if fromHint { at := SweepStarts(pages, chain, old(hint), |tuple|, page); }
        fromHint := false;
        var slot := PlaceOn(page, tuple, COMPACT_THRESHOLD);
        if slot.Some? {
          hint := page;
          if faults == old(faults) {
            SweepEnds(old(pages), chain, old(hint), |tuple|, at, tried, page, Some(page));
          }
          return Ok(Some(RID(page, slot.value)));
        }
        ChainPage(page);
        if faults == old(faults) { SweepOn(pages, chain, old(hint), |tuple|, at, tried, page); }
        var next := pages[page].next;
        page := if next == INVALID_PAGE then first else next;
        hint := page;
        tried := tried + 1;
      }
      if faults == old(faults) { SweepEnds(pages, chain, old(hint), |tuple|, at, tried, page, None); }
      return Ok(None);
    }

    /** The final page takes the row, or refuses it even after compaction and the chain grows by one. */
    method Append(tuple: seq<Byte>) returns (r: Result<RID>)
      requires Valid() && 0 < |tuple| <= MAX_TUPLE_SIZE
      modifies this
      ensures Valid()
      ensures Final(old(pages), old(chain)).Heap?
      ensures r.Ok? ==>
                && Inserted(old(pages), r.value, tuple) && hint == r.value.pageId == chain[|chain| - 1]
                && chain == old(chain) + if NoRoom(Final(old(pages), old(chain)).image, |tuple|) then [r.value.pageId]
                   else []
      ensures r.Err? ==> pages == old(pages) && chain == old(chain) && (r.error == IOError || r.error == BufferPoolFull)
      ensures faults == old(faults) + if r.Err? then 1 else 0
    {
      hide RowSet, RowAt, ImageOk, IsChain;
      ChainPage(chain[|chain| - 1]);
      var lastId := last;
      ghost var i :| 0 <= i < |chain| && chain[i] == lastId;
      while true
        invariant 0 <= i < |chain| && chain[i] == lastId
        invariant Valid() && pages == old(pages) && chain == old(chain) && faults == old(faults)
        decreases |chain| - i
      {
        ChainPage(lastId);
        LinkAt(i);
        var guard := Fetch(lastId);
        if guard.Err? { return Err(guard.error); }
        var next := pages[lastId].next;
        if next != INVALID_PAGE {
          lastId, i := next, i + 1;
          continue;
        }
        var slot := PlaceOn(lastId, tuple, 0);
        if slot.Some? {
          hint := lastId;
          return Ok(RID(lastId, slot.value));
        }
        r := Extend(lastId, tuple);
        return;
      }
    }

    lemma LinkAt(i: nat)
      requires Valid() && i < |chain|
      ensures chain[i] in pages && pages[chain[i]].Heap? && pages[chain[i]].next == Follower(chain, i)
      ensures pages[chain[i]].next == INVALID_PAGE <==> i + 1 == |chain|
    {
      assert IsHeap(pages, chain[i]);
      if i + 1 < |chain| { assert chain[i + 1] in chain; }
    }

    /** The last page is held throughout: a new page is made, filled, linked and published. */
    method Extend(lastId: PageId, tuple: seq<Byte>) returns (r: Result<RID>)
      requires Valid() && lastId == chain[|chain| - 1] && 0 < |tuple| <= MAX_TUPLE_SIZE
      modifies this
      ensures Valid()
      ensures r.Ok? ==>
                && Inserted(old(pages), r.value, tuple) && hint == r.value.pageId
                && chain == old(chain) + [r.value.pageId]
      ensures r.Err? ==> pages == old(pages) && chain == old(chain) && r.error == BufferPoolFull
      ensures faults == old(faults) + if r.Err? then 1 else 0
    {
      hide RowSet, RowAt, TuplesOf, ImageOk, IsChain;
      ChainStart(pages, chain);
      var page := NewPage();
      if page.Err? { return Err(page.error); }
      var p := page.value;
      var m := FreshWith(tuple);
      ExtendChain(old(pages), chain, p, m, tuple);
      LastPage(old(pages), chain);
      ghost var s' := old(pages)[p := Heap(INVALID_PAGE, m)][lastId := Heap(p, old(pages)[lastId].image)];
      pages := pages[p := Heap(INVALID_PAGE, m)];
      pages := pages[lastId := Heap(p, pages[lastId].image)];
      assert pages == s';
      chain := chain + [p];
      assert chain[|chain| - 1] == p && chain[0] == old(chain)[0];
      last, hint := p, p;
      return Ok(RID(p, 0));
    }

    /** On the first page of the walk that takes the row; or, when the whole walk passed it over, on the page
        that is now the last. */
    ghost predicate Placed(s: Store, ps: seq<PageId>, hint: PageId, size: nat, p: PageId)
      reads this`chain
    {
      || (exists h: PageId :: Swept(s, ps, hint, size, h, Some(p)))
      || (chain != [] && p == chain[|chain| - 1] && exists h: PageId :: Swept(s, ps, hint, size, h, None))
    }

    /** Insert a row: it gets an address nothing lived at, no other row changes, and a full page is never
        an error. */
    method Insert(tuple: seq<Byte>) returns (r: Result<RID>)
      requires Valid()
      modifies this
      ensures Valid()
      ensures r.Ok? ==>
                && Inserted(old(pages), r.value, tuple) && hint == r.value.pageId
                && (chain == old(chain) || chain == old(chain) + [r.value.pageId])
      ensures r.Ok? && faults == old(faults) ==> Placed(old(pages), old(chain), old(hint), |tuple|, r.value.pageId)
      ensures chain != old(chain) ==>
                Final(old(pages), old(chain)).Heap? && NoRoom(Final(old(pages), old(chain)).image, |tuple|)
      ensures r.Err? ==> pages == old(pages) && chain == old(chain)
      ensures r.Err? ==> r.error == InvalidArgument || r.error == IOError || r.error == BufferPoolFull
      ensures r == Err(InvalidArgument) <==> !SizeOk(tuple)
      ensures faults >= old(faults) && (r.Err? && r.error != InvalidArgument ==> faults > old(faults))
    {
      hide RowSet, RowAt, IsHeap, IsChain, Swept;
      if |tuple| == 0 || |tuple| > MAX_TUPLE_SIZE { return Err(InvalidArgument); }
      var probed := Probe(tuple);
      if probed.Err? { return Err(probed.error); }
      if probed.value.Some? { return Ok(probed.value.value); }
      r := Append(tuple);
    }

    // ---------- deleting and updating ----------

    /** Exactly the row goes if Lookup finds one and the fetch does not fail; an error is Lookup's. */
    method Delete(rid: RID) returns (st: Result<()>)
      requires Valid() && Ours(rid.pageId)
      modifies this`pages, this`hint, this`faults
      ensures Valid()
      ensures st.Ok? ==> RowAt(old(pages), rid).Some? && RowSet(old(pages), pages, rid, None)
      ensures st.Err? ==> pages == old(pages)
      ensures hint == if st.Ok? then rid.pageId else old(hint)
      ensures faults == old(faults) || faults == old(faults) + 1
      ensures st.Ok? <==> faults == old(faults) && Lookup(old(pages), rid).Ok?
      ensures st.Err? ==> if faults > old(faults) then st.error == IOError
                          else Lookup(old(pages), rid) == Err(st.error)
    {
      hide RowSet, TuplesOf, ImageOk, IsChain;
      var p := rid.pageId;
      var page := Fetch(p);
      if page.Err? { return Err(page.error); }
      if !page.value.Heap? { return Err(Corruption); }
      ChainPage(p);
      var m;
      st, m := DeleteFrom(pages[p].image, rid.slot);
      if st.Err? { return; }
      RewriteChain(pages, chain, p, m);
      RewriteRow(pages, p, m, rid.slot, None);
      assert rid == RID(p, rid.slot);
      pages := pages[p := Heap(pages[p].next, m)];
      hint := p;
    }

    /** Rewrite the row on its own page if it fits there: UpdateAnswer, unless the fetch fails. */
    method UpdateOnPage(rid: RID, tuple: seq<Byte>) returns (r: Result<UpdateOutcome>)
      requires Valid() && Ours(rid.pageId)
      modifies this`pages, this`faults
      ensures Valid()
      ensures faults == old(faults) || faults == old(faults) + 1
      ensures r == if faults == old(faults) then UpdateAnswer(old(pages), rid, tuple) else Err(IOError)
      ensures r.Ok? ==> RowAt(old(pages), rid).Some? && rid.pageId in chain && CanFetch(rid.pageId)
      ensures r == Ok(SamePage) ==> RowSet(old(pages), pages, rid, Some(tuple))
      ensures r != Ok(SamePage) ==> pages == old(pages)
    {
      hide RowSet, ImageOk, IsChain;
      var p := rid.pageId;
      var page := Fetch(p);
      if page.Err? { return Err(page.error); }
      if !page.value.Heap? { return Err(Corruption); }
      ChainPage(p);
      hide TuplesOf;
      var m;
      r, m := UpdateIn(pages[p].image, rid.slot, tuple);
      if r.Err? || r.value == DoesNotFit { return; }
      RewriteChain(pages, chain, p, m);
      RewriteRow(pages, p, m, rid.slot, Some(tuple));
      assert rid == RID(p, rid.slot);
      pages := pages[p := Heap(pages[p].next, m)];
    }

    /** Replace a row.  It keeps its address exactly if its page can hold it; else the new copy goes in
        before the old one comes out, so a failure in between leaves two copies and says so.  Without a
        fault an error is UpdateAnswer's. */
    method Update(rid: RID, tuple: seq<Byte>) returns (r: Result<RID>)
      requires Valid() && Ours(rid.pageId)
      modifies this
      ensures Valid() && faults >= old(faults)
      ensures r.Ok? ==>
                && RowAt(old(pages), rid).Some? && SizeOk(tuple)
                && (r.value == rid <==> FitsAt(old(pages), rid, tuple))
                && (r.value != rid ==> RowAt(old(pages), r.value) == None)
                && (forall q: RID :: RowAt(pages, q) == if q == r.value then Some(tuple) else if q == rid then None
                   else RowAt(old(pages), q))
      ensures r.Err? && r.error != Internal ==> pages == old(pages) && chain == old(chain)
      ensures r == Err(Internal) ==>
                RowAt(old(pages), rid).Some? && exists q: RID ::
                    RowAt(old(pages), q) == None && RowSet(old(pages), pages, q, Some(tuple))
      ensures r.Err? && faults == old(faults) ==>
                UpdateAnswer(old(pages), rid, tuple) == Err(r.error)
      ensures r.Err? && faults > old(faults) ==> r.error == IOError || r.error == BufferPoolFull || r.error == Internal
    {
      var updated := UpdateOnPage(rid, tuple);
      if updated.Err? { return Err(updated.error); }
      if updated.value == SamePage { return Ok(rid); }
      r := Move(rid, tuple);
    }

    /** The row does not fit where it is. */
    method Move(rid: RID, tuple: seq<Byte>) returns (r: Result<RID>)
      requires Valid() && Ours(rid.pageId) && RowAt(pages, rid).Some? && CanFetch(rid.pageId) && SizeOk(tuple)
      modifies this
      ensures Valid() && faults >= old(faults)
      ensures r.Ok? ==>
                && r.value != rid && RowAt(old(pages), r.value) == None
                && (forall q: RID :: RowAt(pages, q) == if q == r.value then Some(tuple) else if q == rid then None
                   else RowAt(old(pages), q))
      ensures r.Err? ==>
                && faults > old(faults) && (r.error == IOError || r.error == BufferPoolFull || r.error == Internal)
                && (r.error != Internal ==> pages == old(pages) && chain == old(chain))
                && (r.error == Internal ==>
                      exists q: RID :: RowAt(old(pages), q) == None && RowSet(old(pages), pages, q, Some(tuple)))
    {
      hide IsChain, ImageOk, TuplesOf;
      var moved := Insert(tuple);
      if moved.Err? { return Err(moved.error); }
      assert RowAt(pages, rid).Some? && rid != moved.value;
      var removed := Delete(rid);
      if removed.Err? && removed.error != NotFound {
        assert RowAt(old(pages), moved.value) == None && RowSet(old(pages), pages, moved.value, Some(tuple));
        return Err(Internal);
      }
      return moved;
    }

    /** A page of the chain is a heap page whose link is in the chain or ends it. */
    lemma ChainPage(p: PageId)
      requires Valid() && (p in chain || p == first)
      ensures p in chain && IsHeap(pages, p) && (pages[p].next == INVALID_PAGE || pages[p].next in chain)
      ensures first in chain && CanFetch(first) && CanFetch(p)
    {
      assert chain[0] in chain;
      var i :| 0 <= i < |chain| && chain[i] == p;
      assert IsHeap(pages, chain[i]) && pages[chain[i]].next == Follower(chain, i);
      if i + 1 < |chain| { assert chain[i + 1] in chain; }
    }
  }

  lemma LastPage(s: Store, ps: seq<PageId>)
    requires IsChain(s, ps)
    ensures ps[|ps| - 1] in s && s[ps[|ps| - 1]].Heap?
  {
    assert IsHeap(s, ps[|ps| - 1]);
  }

  lemma ChainStart(s: Store, ps: seq<PageId>)
    requires IsChain(s, ps)
    ensures ps != []
  {
  }
}
