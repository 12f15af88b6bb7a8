/** The forward scan of a table: every live row once, in chain order. */
module TableScan {
  import opened Common
  import opened HeapPages
  import opened TableHeaps

  type Row = (RID, seq<Byte>)

  /** The live rows of one page from a slot on. */
  ghost function PageRows(c: seq<Option<seq<Byte>>>, p: PageId, slot: nat): seq<Row>
    decreases |c| - slot
  {
    if slot >= |c| then []
    else (if c[slot].Some? then [(RID(p, slot), c[slot].value)] else []) + PageRows(c, p, slot + 1)
  }

  /** The live rows from slot `slot` of the i-th page of the chain on. */
  ghost function RowsFrom(s: Store, ps: seq<PageId>, i: nat, slot: nat): seq<Row>
    requires IsChain(s, ps) && i <= |ps|
    decreases |ps| - i
  {
    if i == |ps| then []
    else
      assert IsHeap(s, ps[i]);
      PageRows(TuplesOf(s[ps[i]].image), ps[i], slot) + RowsFrom(s, ps, i + 1, 0)
  }

  ghost function TableRows(s: Store, ps: seq<PageId>): seq<Row>
    requires IsChain(s, ps)
  {
    RowsFrom(s, ps, 0, 0)
  }

  // ---------- what the list of rows holds ----------

  predicate DistinctRows(rows: seq<Row>) { forall a, b | 0 <= a < b < |rows| :: rows[a].0 != rows[b].0 }

  predicate RowsApart(x: seq<Row>, y: seq<Row>) { forall a, b | 0 <= a < |x| && 0 <= b < |y| :: x[a].0 != y[b].0 }

  lemma {:induction false} PageRowsHold(c: seq<Option<seq<Byte>>>, p: PageId, slot: nat, row: Row)
    ensures row in PageRows(c, p, slot) <==>
              row.0.pageId == p && slot <= row.0.slot < |c|
              && c[row.0.slot] == Some(row.1)
    decreases |c| - slot
  {
    if slot < |c| {
      PageRowsHold(c, p, slot + 1, row);
      if row == (RID(p, slot), row.1) { assert row.0 == RID(p, slot); }
    }
  }

  lemma {:induction false} PageRowsDistinct(c: seq<Option<seq<Byte>>>, p: PageId, slot: nat)
    ensures DistinctRows(PageRows(c, p, slot))
    decreases |c| - slot
  {
    if slot < |c| {
      PageRowsDistinct(c, p, slot + 1);
      var rest := PageRows(c, p, slot + 1);
      forall b | 0 <= b < |rest| ensures rest[b].0 != RID(p, slot) {
        PageRowsHold(c, p, slot + 1, rest[b]);
        assert rest[b] in rest;
      }
    }
  }

  lemma {:induction false} RowsFromHold(s: Store, ps: seq<PageId>, i: nat, row: Row)
    requires IsChain(s, ps) && i <= |ps|
    ensures row in RowsFrom(s, ps, i, 0) <==> row.0.pageId in ps[i..] && RowAt(s, row.0) == Some(row.1)
    decreases |ps| - i
  {
    if i < |ps| {
      assert IsHeap(s, ps[i]);
      hide IsChain, ImageOk, TuplesOf, PageRows;
      var c := TuplesOf(s[ps[i]].image);
      PageRowsHold(c, ps[i], 0, row);
      RowsFromHold(s, ps, i + 1, row);
      assert ps[i..] == [ps[i]] + ps[i + 1..];
    }
  }

  lemma {:induction false} RowsFromDistinct(s: Store, ps: seq<PageId>, i: nat)
    requires IsChain(s, ps) && i <= |ps|
    ensures DistinctRows(RowsFrom(s, ps, i, 0))
    decreases |ps| - i
  {
    hide TuplesOf, ImageOk, PageRows, DistinctRows, RowsApart, RowAt;
    if i == |ps| {
      NoRowsDistinct();
    } else {
      assert IsHeap(s, ps[i]);
      PageRowsDistinct(TuplesOf(s[ps[i]].image), ps[i], 0);
      RowsFromDistinct(s, ps, i + 1);
      PagesApart(s, ps, i);
      JoinDistinct(PageRows(TuplesOf(s[ps[i]].image), ps[i], 0), RowsFrom(s, ps, i + 1, 0));
    }
  }

  lemma NoRowsDistinct()
    ensures DistinctRows([])
  {
  }

  /** A page's rows and those of later pages have different addresses. */
  lemma PagesApart(s: Store, ps: seq<PageId>, i: nat)
    requires IsChain(s, ps) && i < |ps| && IsHeap(s, ps[i])
    ensures RowsApart(PageRows(TuplesOf(s[ps[i]].image), ps[i], 0), RowsFrom(s, ps, i + 1, 0))
  {
    hide RowsFrom, TuplesOf, ImageOk, PageRows, RowAt;
    NotLater(s, ps, i);
    hide IsChain;
    var c := TuplesOf(s[ps[i]].image);
    var front, rest := PageRows(c, ps[i], 0), RowsFrom(s, ps, i + 1, 0);
    forall a, b | 0 <= a < |front| && 0 <= b < |rest| ensures front[a].0 != rest[b].0 {
      PageRowsHold(c, ps[i], 0, front[a]);
      RowsFromHold(s, ps, i + 1, rest[b]);
    }
  }

  lemma NotLater(s: Store, ps: seq<PageId>, i: nat)
    requires IsChain(s, ps) && i < |ps|
    ensures ps[i] !in ps[i + 1..]
  {
  }

  lemma JoinDistinct(x: seq<Row>, y: seq<Row>)
    requires DistinctRows(x) && DistinctRows(y) && RowsApart(x, y)
    ensures DistinctRows(x + y)
  {
  }

  /** The scan's list is the table: each live row of the chain is in it once, and nothing else is. */
  lemma {:induction false} TableRowsExact(s: Store, ps: seq<PageId>, row: Row)
    requires IsChain(s, ps)
    ensures row in TableRows(s, ps) <==> row.0.pageId in ps && RowAt(s, row.0) == Some(row.1)
    ensures DistinctRows(TableRows(s, ps))
  {
    RowsFromHold(s, ps, 0, row);
    RowsFromDistinct(s, ps, 0);
    assert ps[0..] == ps;
  }

  // ---------- the iterator ----------

  /** A page without live rows adds nothing. */
  lemma {:induction false} NoRows(c: seq<Option<seq<Byte>>>, p: PageId, slot: nat)
    requires forall k | slot <= k < |c| :: c[k] == None
    ensures PageRows(c, p, slot) == []
    decreases |c| - slot
  {
    if slot < |c| { NoRows(c, p, slot + 1); }
  }

  lemma {:induction false} SkipDead(c: seq<Option<seq<Byte>>>, p: PageId, from: nat, upto: nat)
    requires from <= upto && forall k | from <= k < upto && k < |c| :: c[k] == None
    ensures PageRows(c, p, from) == PageRows(c, p, upto)
    decreases upto - from
  {
    if from < upto { SkipDead(c, p, from + 1, upto); }
  }

  /** Slot numbers are 16 bits wide. */
  const SLOT_IDS: nat := 0x1_0000

  function Bumped(slot: nat): nat { (slot + 1) % SLOT_IDS }

  /** The row at an address, as a list of at most one. */
  ghost function RowsAt(s: Store, rid: RID): seq<Row> {
    if RowAt(s, rid).Some? then [(rid, RowAt(s, rid).value)] else []
  }

  class TableIterator {
    const table: TableHeap
    var started: bool
    var pageId: PageId
    var slot: nat
    var guard: Option<Page>
    var tuple: seq<Byte>
    ghost var at: nat

    ghost predicate Valid()
      reads this, table`pages, table`last, table`hint, table`chain
    {
      && table.Valid() && at <= |table.chain|
      && pageId == (if at < |table.chain| then table.chain[at] else INVALID_PAGE)
      && (guard.Some? ==> pageId in table.pages && guard.value == table.pages[pageId])
    }

    /** The rows still to come. */
    ghost function Pending(): seq<Row>
      requires Valid()
      reads this, table`pages, table`last, table`hint, table`chain
    {
      RowsFrom(table.pages, table.chain, at, if started then Bumped(slot) else 0)
    }

    constructor (table: TableHeap)
      requires table.Valid()
      ensures Valid() && this.table == table && Pending() == TableRows(table.pages, table.chain) && !started
    {
      this.table, started, pageId, slot, guard, tuple, at := table, false, table.first, 0, None, [], 0;
    }

    /**
     * True delivers exactly the first pending row.  False means none was pending, and every later call
     * answers false too.  An error has stepped onto a slot and not looked at it: if a row lives there, a
     * caller that goes on never sees it.  That slot is the first of a page just reached, or the next one
     * of the page that failed before.
     */
    method Next() returns (r: Result<bool>)
      requires Valid()
      modifies this, table`faults
      ensures table.faults == old(table.faults) + if r.Err? then 1 else 0
      ensures Valid() && started == (old(started) || old(pageId) != INVALID_PAGE)
      ensures r == Ok(true) ==> old(Pending()) == [(RID(pageId, slot), tuple)] + Pending() && guard.Some?
      ensures r == Ok(false) ==> old(Pending()) == [] && Pending() == [] && pageId == INVALID_PAGE
      ensures old(pageId) == INVALID_PAGE ==> r == Ok(false)
      ensures r.Err? ==> r.error == IOError && pageId in table.chain && guard == None
      ensures r.Err? ==> slot == if old(started) && pageId == old(pageId) then Bumped(old(slot)) else 0
      ensures r.Err? && old(guard).Some? ==> slot == 0
      ensures r.Err? && slot + 1 < SLOT_IDS ==>
                old(Pending()) == RowsAt(table.pages, RID(pageId, slot)) + Pending()
    {
      hide RowsFrom, IsChain, ImageOk, TuplesOf, RowAt, RowsAt, Bumped;
      if pageId == INVALID_PAGE { AtEnd(); return Ok(false); }
      slot := if started then Bumped(slot) else 0;
      started := true;
      r := Seek();
    }

    /** The first live row from `slot` on, page by page. */
    method Seek() returns (r: Result<bool>)
      requires Valid() && started && pageId != INVALID_PAGE
      modifies this`pageId, this`slot, this`guard, this`tuple, this`at, table`faults
      ensures Valid() && table.faults == old(table.faults) + if r.Err? then 1 else 0
      ensures var todo := old(RowsFrom(table.pages, table.chain, at, slot));
              && (r == Ok(true) ==> todo == [(RID(pageId, slot), tuple)] + Pending() && guard.Some?)
              && (r == Ok(false) ==> todo == [] && Pending() == [] && pageId == INVALID_PAGE)
              && (r.Err? && slot + 1 < SLOT_IDS ==> todo == RowsAt(table.pages, RID(pageId, slot)) + Pending())
      ensures r.Err? ==> r.error == IOError && pageId in table.chain && guard == None
      ensures r.Err? ==> if pageId == old(pageId) then slot == old(slot) && old(guard) == None else slot == 0
    {
      hide RowsFrom, IsChain, ImageOk, TuplesOf, RowAt, RowsAt, Bumped;
      ghost var first := at;
      while pageId != INVALID_PAGE
        invariant Valid() && table.faults == old(table.faults)
        invariant RowsFrom(table.pages, table.chain, at, slot) == old(RowsFrom(table.pages, table.chain, at, slot))
        invariant first <= at && (at == first ==> slot == old(slot) && guard == old(guard) && pageId == old(pageId))
        invariant at > first ==> guard == None && slot == 0
        decreases |table.chain| - at
      {
        OnChain();
        if guard == None {
          var page := table.Fetch(pageId);
          if page.Err? {
            PageOnce(table.pages, table.chain, first, at);
            SlotPassed(table.pages, table.chain, at, slot);
            NoWrap(slot);
            return Err(page.error);
          }
          guard := Some(page.value);
        }
        if !guard.value.Heap? { return Err(Corruption); }
        ghost var from := slot;
        var found := NextLive(guard.value.image);
        if found {
          FoundRow(table.pages, table.chain, at, from, slot, tuple);
          FewSlots(guard.value.image, slot);
          return Ok(true);
        }
        TurnPage(from);
      }
      AtEnd();
      return Ok(false);
    }

    /** Read the link, then let the page go. */
    method TurnPage(ghost from: nat)
      requires Valid() && pageId != INVALID_PAGE && guard.Some? && guard.value.Heap? && ImageOk(guard.value.image)
      requires var c := TuplesOf(guard.value.image); forall k | from <= k < |c| :: c[k] == None
      modifies this`guard, this`pageId, this`slot, this`at
      ensures Valid() && at == old(at) + 1 && slot == 0 && guard == None
      ensures RowsFrom(table.pages, table.chain, at, 0) == old(RowsFrom(table.pages, table.chain, at, from))
    {
      hide RowsFrom, IsChain, ImageOk, TuplesOf;
      OnChain();
      PageDone(table.pages, table.chain, at, from);
      var next := guard.value.next;
      guard, pageId, slot, at := None, next, 0, at + 1;
    }

    lemma AtEnd()
      requires Valid() && pageId == INVALID_PAGE
      ensures at == |table.chain| && Pending() == [] && forall n: nat :: RowsFrom(table.pages, table.chain, at, n) == []
    {
      if at < |table.chain| { table.ChainPage(table.chain[at]); }
    }

    lemma OnChain()
      requires Valid() && pageId != INVALID_PAGE
      ensures at < |table.chain| && IsHeap(table.pages, pageId) && table.pages[pageId].next == Follower(table.chain, at)
      ensures CanFetch(pageId)
    {
      table.LinkAt(at);
      table.ChainPage(pageId);
      assert IsHeap(table.pages, table.chain[at]);
    }

    /** The first live slot from `slot` on; a page that counts no live row is not walked. */
    method NextLive(m: Image) returns (found: bool)
      requires ImageOk(m)
      modifies this`slot, this`tuple
      ensures forall k | old(slot) <= k < slot && k < |m.slots| :: TuplesOf(m)[k] == None
      ensures found ==> old(slot) <= slot < |m.slots| && TuplesOf(m)[slot] == Some(tuple)
      ensures !found ==> forall k | old(slot) <= k < |m.slots| :: TuplesOf(m)[k] == None
    {
      if m.live > 0 {
        while slot < |m.slots|
          invariant old(slot) <= slot && forall k | old(slot) <= k < slot && k < |m.slots| :: TuplesOf(m)[k] == None
          decreases |m.slots| - slot
        {
          if !m.slots[slot].IsDead() {
            var view := new HeapPage.Over(m);
            var bytes := view.Get(slot);
            tuple := bytes.value;
            return true;
          }
          slot := slot + 1;
        }
      } else {
        LiveCountNone(m.slots);
      }
      return false;
    }
  }

  lemma {:induction false} FoundRow(s: Store, ps: seq<PageId>, i: nat, from: nat, slot: nat, tuple: seq<Byte>)
    requires IsChain(s, ps) && i < |ps| && IsHeap(s, ps[i])
    requires var c := TuplesOf(s[ps[i]].image);
             from <= slot < |c| && c[slot] == Some(tuple) && forall k | from <= k < slot :: c[k] == None
    ensures RowsFrom(s, ps, i, from) == [(RID(ps[i], slot), tuple)] + RowsFrom(s, ps, i, slot + 1)
  {
    hide TuplesOf, IsChain, ImageOk;
    var c := TuplesOf(s[ps[i]].image);
    SkipDead(c, ps[i], from, slot);
    assert PageRows(c, ps[i], slot) == [(RID(ps[i], slot), tuple)] + PageRows(c, ps[i], slot + 1);
    hide PageRows;
    var rest := RowsFrom(s, ps, i + 1, 0);
    assert RowsFrom(s, ps, i, from) == PageRows(c, ps[i], from) + rest;
    assert RowsFrom(s, ps, i, slot + 1) == PageRows(c, ps[i], slot + 1) + rest;
  }

  /** No page has as many slots as there are slot numbers. */
  lemma FewSlots(m: Image, slot: nat)
    requires ImageOk(m) && slot < |m.slots|
    ensures Bumped(slot) == slot + 1
  {
  }

  lemma NoWrap(slot: nat)
    ensures slot + 1 < SLOT_IDS ==> Bumped(slot) == slot + 1
  {
  }

  /** A page is on the chain once. */
  lemma PageOnce(s: Store, ps: seq<PageId>, i: nat, j: nat)
    requires IsChain(s, ps) && i <= j < |ps|
    ensures ps[j] in ps && (ps[i] == ps[j] <==> i == j)
  {
  }

  /** The rows from a slot on are the one in it, if any, and those after it. */
  lemma {:induction false} SlotPassed(s: Store, ps: seq<PageId>, i: nat, slot: nat)
    requires IsChain(s, ps) && i < |ps|
    ensures RowsFrom(s, ps, i, slot) == RowsAt(s, RID(ps[i], slot)) + RowsFrom(s, ps, i, slot + 1)
  {
    hide TuplesOf, ImageOk;
    assert IsHeap(s, ps[i]);
    hide IsChain;
    var c := TuplesOf(s[ps[i]].image);
    assert PageRows(c, ps[i], slot) == RowsAt(s, RID(ps[i], slot)) + PageRows(c, ps[i], slot + 1);
    hide PageRows;
    var rest := RowsFrom(s, ps, i + 1, 0);
    assert RowsFrom(s, ps, i, slot) == PageRows(c, ps[i], slot) + rest;
    assert RowsFrom(s, ps, i, slot + 1) == PageRows(c, ps[i], slot + 1) + rest;
  }

  lemma {:induction false} PageDone(s: Store, ps: seq<PageId>, i: nat, from: nat)
    requires IsChain(s, ps) && i < |ps| && IsHeap(s, ps[i])
    requires var c := TuplesOf(s[ps[i]].image); forall k | from <= k < |c| :: c[k] == None
    ensures RowsFrom(s, ps, i, from) == RowsFrom(s, ps, i + 1, 0)
  {
    NoRows(TuplesOf(s[ps[i]].image), ps[i], from);
  }

  /** A scan run to its end, without a failed fetch, yields the table's rows in order. */
  method ScanAll(table: TableHeap) returns (r: Result<seq<Row>>)
    requires table.Valid()
    modifies table`faults
    ensures table.faults == old(table.faults) + if r.Err? then 1 else 0
    ensures r.Ok? ==> r.value == TableRows(table.pages, table.chain)
  {
    hide RowsFrom, IsChain, TableIterator.Pending, TableIterator.Valid;
    var it := new TableIterator(table);
    var out: seq<Row> := [];
    while true
      invariant it.Valid() && it.table == table && fresh(it) && table.faults == old(table.faults)
      invariant out + it.Pending() == TableRows(table.pages, table.chain)
      decreases |it.Pending()|
    {
      ghost var todo := it.Pending();
      var more := it.Next();
      if more.Err? { return Err(more.error); }
      if !more.value { return Ok(out); }
      out := out + [(RID(it.pageId, it.slot), it.tuple)];
    }
  }

  // ---------- going on after an error ----------

  /** The rows whose address is not among `gone`, in order. */
  function Without(rows: seq<Row>, gone: seq<RID>): seq<Row> {
    if rows == [] then []
    else (if rows[0].0 in gone then [] else [rows[0]]) + Without(rows[1..], gone)
  }

  lemma {:induction false} WithoutConcat(a: seq<Row>, b: seq<Row>, gone: seq<RID>)
    ensures Without(a + b, gone) == Without(a, gone) + Without(b, gone)
  {
    hide Without;
    if a == [] {
      assert a + b == b;
      WithoutNothing(gone);
    } else {
      WithoutConcat(a[1..], b, gone);
      WithoutCons(a[0], a[1..], gone);
      WithoutCons(a[0], a[1..] + b, gone);
      assert a == [a[0]] + a[1..] && a + b == [a[0]] + (a[1..] + b);
    }
  }

  lemma WithoutNothing(gone: seq<RID>)
    ensures Without([], gone) == []
  {
  }

  lemma WithoutCons(row: Row, rows: seq<Row>, gone: seq<RID>)
    ensures Without([row] + rows, gone) == (if row.0 in gone then [] else [row]) + Without(rows, gone)
  {
    assert ([row] + rows)[1..] == rows;
  }

  lemma WithoutOne(row: Row, gone: seq<RID>)
    ensures Without([row], gone) == if row.0 in gone then [] else [row]
  {
    WithoutCons(row, [], gone);
    assert [row] + [] == [row];
  }

  /** One more address to leave out changes nothing where no row has it. */
  lemma {:induction false} WithoutOther(rows: seq<Row>, gone: seq<RID>, rid: RID)
    requires NoneAt(rows, rid)
    ensures Without(rows, gone + [rid]) == Without(rows, gone)
  {
    if rows != [] { WithoutOther(rows[1..], gone, rid); }
  }

  /** Nothing is missing exactly if none of the addresses is a row's. */
  lemma {:induction false} WithoutAll(rows: seq<Row>, gone: seq<RID>)
    ensures |Without(rows, gone)| <= |rows|
    ensures Without(rows, gone) == rows <==> forall i | 0 <= i < |rows| :: rows[i].0 !in gone
  {
    if rows != [] {
      WithoutAll(rows[1..], gone);
      if rows[0].0 in gone { assert |Without(rows, gone)| < |rows|; }
      assert rows == [rows[0]] + rows[1..];
    }
  }

  predicate NoneAt(rows: seq<Row>, rid: RID) { forall i | 0 <= i < |rows| :: rows[i].0 != rid }

  /** What a scan has delivered when it has passed over `gone` and reached `rest`. */
  ghost predicate Delivered(all: seq<Row>, rest: seq<Row>, gone: seq<RID>, out: seq<Row>) {
    && (exists past :: all == past + rest && out == Without(past, gone))
    && forall i | 0 <= i < |rest| :: rest[i].0 !in gone
  }

  lemma DeliveredRow(all: seq<Row>, rest: seq<Row>, gone: seq<RID>, out: seq<Row>, row: Row, rest': seq<Row>)
    requires Delivered(all, rest, gone, out) && rest == [row] + rest'
    ensures Delivered(all, rest', gone, out + [row])
  {
    hide Without;
    var past: seq<Row> :| all == past + rest && out == Without(past, gone);
    assert rest[0] == row && forall i | 0 <= i < |rest'| :: rest'[i] == rest[i + 1];
    WithoutConcat(past, [row], gone);
    WithoutOne(row, gone);
    assert all == (past + [row]) + rest' && out + [row] == Without(past + [row], gone);
  }

  /** The address of a slot passed over is not that of any row before it or after it. */
  lemma NowhereElse(s: Store, ps: seq<PageId>, past: seq<Row>, rest: seq<Row>, rid: RID)
    requires IsChain(s, ps) && TableRows(s, ps) == past + RowsAt(s, rid) + rest
    ensures NoneAt(past, rid) && NoneAt(rest, rid)
  {
    hide IsChain, RowsFrom, RowAt, TableRows;
    var all := TableRows(s, ps);
    var n := |past| + |RowsAt(s, rid)|;
    forall k | 0 <= k < |all| ensures all[k].0 == rid ==> |past| <= k < n {
      TableRowsExact(s, ps, all[k]);
      if all[k].0 == rid {
        assert all[k] in all && all[|past|].0 == rid;
      }
    }
    assert forall k | 0 <= k < |past| :: past[k] == all[k];
    assert forall k | 0 <= k < |rest| :: rest[k] == all[n + k];
  }

  lemma DeliveredSkip(s: Store, ps: seq<PageId>, rest: seq<Row>, gone: seq<RID>, out: seq<Row>, rid: RID,
                      rest': seq<Row>)
    requires IsChain(s, ps) && Delivered(TableRows(s, ps), rest, gone, out) && rest == RowsAt(s, rid) + rest'
    ensures Delivered(TableRows(s, ps), rest', gone + [rid], out)
  {
    hide IsChain, RowsFrom, RowAt, TableRows, Without;
    var all, row := TableRows(s, ps), RowsAt(s, rid);
    var past: seq<Row> :| all == past + rest && out == Without(past, gone);
    assert all == past + row + rest';
    NowhereElse(s, ps, past, rest', rid);
    WithoutOther(past, gone, rid);
    WithoutConcat(past, row, gone + [rid]);
    if row == [] { WithoutNothing(gone + [rid]); } else { WithoutOne(row[0], gone + [rid]); }
    assert forall i | 0 <= i < |rest'| :: rest'[i] == rest[|row| + i];
    assert all == (past + row) + rest' && out == Without(past + row, gone + [rid]);
  }

  lemma DeliveredAll(all: seq<Row>, gone: seq<RID>, out: seq<Row>)
    requires Delivered(all, [], gone, out)
    ensures out == Without(all, gone)
  {
    var past: seq<Row> :| all == past + [] && out == Without(past, gone);
    assert past + [] == past;
  }

  lemma DeliveredNone(all: seq<Row>)
    ensures Delivered(all, all, [], [])
  {
    assert all == [] + all && [] == Without([], []);
  }

  /**
   * A scan that goes on after a failed fetch, up to `tries` times.  It yields the table's rows but for those
   * at the addresses it stepped over, one for each failure; so it is complete exactly if no row lives at
   * any of them.
   */
  method ScanRetrying(table: TableHeap, tries: nat) returns (r: Result<seq<Row>>, skipped: seq<RID>)
    requires table.Valid()
    modifies table`faults
    ensures table.faults == old(table.faults) + |skipped| + if r.Err? then 1 else 0
    ensures |skipped| <= tries && forall i | 0 <= i < |skipped| :: skipped[i].pageId in table.chain
    ensures r.Ok? && |skipped| < SLOT_IDS ==>
              var all := TableRows(table.pages, table.chain);
              && r.value == Without(all, skipped)
              && (r.value == all <==> forall rid | rid in skipped :: RowAt(table.pages, rid) == None)
    ensures r.Err? ==> r.error == IOError && |skipped| == tries
  {
    hide RowsFrom, IsChain, TableIterator.Pending, TableRows, Delivered, Without, RowAt;
    var it := new TableIterator(table);
    var out: seq<Row> := [];
    skipped := [];
    ghost var all := TableRows(table.pages, table.chain);
    DeliveredNone(all);
    while true
      invariant it.Valid() && it.table == table && fresh(it)
      invariant |skipped| <= tries && table.faults == old(table.faults) + |skipped|
      invariant forall i | 0 <= i < |skipped| :: skipped[i].pageId in table.chain
      invariant it.started && it.guard == None ==> it.pageId == INVALID_PAGE || it.slot < |skipped|
      invariant |skipped| < SLOT_IDS ==> Delivered(all, it.Pending(), skipped, out)
      decreases tries - |skipped|, |it.Pending()|
    {
      ghost var todo := it.Pending();
      var more := it.Next();
      if more.Err? {
        if |skipped| == tries { return Err(more.error), skipped; }
        var rid := RID(it.pageId, it.slot);
        if |skipped| + 1 < SLOT_IDS {
          DeliveredSkip(table.pages, table.chain, todo, skipped, out, rid, it.Pending());
        }
        skipped := skipped + [rid];
      } else if more.value {
        var row := (RID(it.pageId, it.slot), it.tuple);
        if |skipped| < SLOT_IDS { DeliveredRow(all, todo, skipped, out, row, it.Pending()); }
        out := out + [row];
      } else {
        if |skipped| < SLOT_IDS {
          DeliveredAll(all, skipped, out);
          CompleteIff(table.pages, table.chain, skipped);
        }
        return Ok(out), skipped;
      }
    }
  }

  /** One failure at the very start, and a row in the table's first slot: that row and no other is missing. */
  lemma {:induction false} FirstRowLost(s: Store, ps: seq<PageId>)
    requires IsChain(s, ps) && RowAt(s, RID(ps[0], 0)).Some?
    ensures var all, rid := TableRows(s, ps), RID(ps[0], 0);
            all != [] && all[0] == (rid, RowAt(s, rid).value) && Without(all, [rid]) == all[1..]
  {
    var rid := RID(ps[0], 0);
    hide IsChain, RowsFrom, RowAt, Without;
    var row, rest := (rid, RowAt(s, rid).value), RowsFrom(s, ps, 0, 1);
    SlotPassed(s, ps, 0, 0);
    assert TableRows(s, ps) == [row] + rest == [] + RowsAt(s, rid) + rest;
    NowhereElse(s, ps, [], rest, rid);
    WithoutCons(row, rest, [rid]);
    WithoutOther(rest, [], rid);
    WithoutAll(rest, []);
    assert [] + [rid] == [rid];
  }

  lemma {:induction false} CompleteIff(s: Store, ps: seq<PageId>, gone: seq<RID>)
    requires IsChain(s, ps) && forall i | 0 <= i < |gone| :: gone[i].pageId in ps
    ensures var all := TableRows(s, ps);
            Without(all, gone) == all <==> forall rid | rid in gone :: RowAt(s, rid) == None
  {
    hide IsChain, RowsFrom, RowAt, TableRows, Without;
    var all := TableRows(s, ps);
    WithoutAll(all, gone);
    forall i | 0 <= i < |all| ensures RowAt(s, all[i].0).Some? {
      TableRowsExact(s, ps, all[i]);
    }
    forall rid | rid in gone && RowAt(s, rid).Some? ensures exists i :: 0 <= i < |all| && all[i].0 == rid {
      var row := (rid, RowAt(s, rid).value);
      TableRowsExact(s, ps, row);
      assert row in all;
    }
  }
}
