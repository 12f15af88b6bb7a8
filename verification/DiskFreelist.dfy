/**
 * The on-disk freelist: page 0 names the first free page, each free page's header names the next.  Every
 * header write is one step; the machine may stop after any of them, and any of them may fail, in which
 * case it has no effect.
 */
module DiskFreelist {
  import opened Common

  datatype PageType = FREE | ALLOCATED | META | CATALOG | OTHER
  datatype Header = Header(kind: PageType, next: PageId)
  type Disk = map<PageId, Header>

  function HeadOf(d: Disk): PageId
    requires META_PAGE_ID in d
  {
    d[META_PAGE_ID].next
  }

  /** ps is the chain of free pages that starts at `from`. */
  ghost predicate IsChain(d: Disk, from: PageId, ps: seq<PageId>)
    decreases |ps|
  {
    if ps == [] then from == INVALID_PAGE
    else from == ps[0] && IsDataPage(from) && from in d && d[from].kind == FREE && IsChain(d, d[from].next, ps[1..])
  }

  predicate NoRepeats(ps: seq<PageId>) { forall i, j | 0 <= i < j < |ps| :: ps[i] != ps[j] }

  /** A chain without repeats that avoids every page handed out. */
  ghost predicate GoodChain(d: Disk, from: PageId, ps: seq<PageId>, out: set<PageId>) {
    IsChain(d, from, ps) && NoRepeats(ps) && forall i | 0 <= i < |ps| :: ps[i] !in out
  }

  /** What a restart finds: page 0 leads to a finite, duplicate-free chain of FREE pages, none of them
      in anybody's hands. */
  ghost predicate Recoverable(d: Disk, out: set<PageId>) {
    META_PAGE_ID in d && exists ps :: GoodChain(d, HeadOf(d), ps, out)
  }

  /** A file of so many pages. */
  ghost predicate IsFile(d: Disk, pages: nat) { forall p: PageId :: p in d <==> 0 <= p < pages }

  /** The file as one header write left it, and the pages in callers' hands at that moment. */
  datatype Point = Point(disk: Disk, pages: nat, out: set<PageId>)

  /** A file that opens, and gives a manager that hands out nobody's page. */
  ghost predicate Restartable(x: Point) {
    && x.pages >= 2 && IsFile(x.disk, x.pages)
    && x.disk[META_PAGE_ID].kind == META && x.disk[CATALOG_ROOT_PAGE_ID].kind == CATALOG
    && (forall p | p in x.out :: IsDataPage(p) && p < x.pages)
    && Recoverable(x.disk, x.out)
  }

  ghost predicate OneWrite(d: Disk, d': Disk) { exists p :: p in d' && d' == d[p := d'[p]] }

  /** Every state of the file since it was opened, one header write apart. */
  ghost predicate LogOk(log: seq<Point>) {
    && log != [] && (forall i | 0 <= i < |log| :: Restartable(log[i]))
    && (forall i | 1 <= i < |log| :: OneWrite(log[i - 1].disk, log[i].disk))
  }

  lemma LogGrows(log: seq<Point>, p: PageId, h: Header, x: Point)
    requires LogOk(log) && x.disk == log[|log| - 1].disk[p := h] && Restartable(x)
    ensures LogOk(log + [x])
  {
    hide Restartable;
    var all := log + [x];
    assert p in x.disk && OneWrite(log[|log| - 1].disk, x.disk);
    forall i | 1 <= i < |all| ensures OneWrite(all[i - 1].disk, all[i].disk) {
      if i < |log| { assert OneWrite(log[i - 1].disk, log[i].disk); }
    }
  }

  // ---------- chains ----------

  lemma {:induction false} ChainMembers(d: Disk, from: PageId, ps: seq<PageId>)
    requires IsChain(d, from, ps)
    ensures forall i | 0 <= i < |ps| :: IsDataPage(ps[i]) && ps[i] in d && d[ps[i]].kind == FREE
    ensures ps != [] ==> from == ps[0]
    decreases |ps|
  {
    if ps != [] {
      ChainMembers(d, d[from].next, ps[1..]);
      assert forall i | 1 <= i < |ps| :: ps[i] == ps[1..][i - 1];
    }
  }

  /** A write to a page off the chain leaves the chain alone. */
  lemma {:induction false} ChainFrame(d: Disk, d': Disk, from: PageId, ps: seq<PageId>)
    requires IsChain(d, from, ps) && forall i | 0 <= i < |ps| :: ps[i] in d && ps[i] in d' && d'[ps[i]] == d[ps[i]]
    ensures IsChain(d', from, ps)
    decreases |ps|
  {
    if ps != [] {
      assert d'[ps[0]] == d[ps[0]];
      assert forall i | 0 <= i < |ps[1..]| :: ps[1..][i] == ps[i + 1];
      ChainFrame(d, d', d[from].next, ps[1..]);
    }
  }

  /** A store leads to one chain at most. */
  lemma {:induction false} ChainUnique(d: Disk, from: PageId, ps: seq<PageId>, qs: seq<PageId>)
    requires IsChain(d, from, ps) && IsChain(d, from, qs)
    ensures ps == qs
    decreases |ps|
  {
    if ps != [] && qs != [] {
      ChainUnique(d, d[from].next, ps[1..], qs[1..]);
      assert ps == [ps[0]] + ps[1..] && qs == [qs[0]] + qs[1..];
    }
  }

  class DiskManager {
    var disk: Disk
    var head: PageId
    var pageCount: nat

    /** The length of the file in pages, the pages in callers' hands, the chain from the in-memory head,
        and every state the file has been in. */
    ghost var length: nat
    ghost var out: set<PageId>
    ghost var chain: seq<PageId>
    ghost var log: seq<Point>

    /** How many header reads and writes have failed. */
    ghost var faults: nat

    ghost predicate Valid()
      reads this`disk, this`head, this`pageCount, this`length, this`out, this`chain, this`log
    {
      && 2 <= pageCount <= length <= pageCount + 1 && IsFile(disk, length)
      && disk[META_PAGE_ID].kind == META && disk[CATALOG_ROOT_PAGE_ID].kind == CATALOG
      && GoodChain(disk, head, chain, out)
      && (forall i | 0 <= i < |chain| :: chain[i] < pageCount)
      && (forall p | p in out :: IsDataPage(p) && p < pageCount)
      && (HeadOf(disk) == head || (chain != [] && HeadOf(disk) == disk[head].next))
      && LogOk(log) && log[|log| - 1] == Point(disk, length, out)
    }

    /** Take up a file: the chain is whatever page 0 leads to. */
    constructor Over(disk: Disk, pages: nat, ghost out: set<PageId>, ghost chain: seq<PageId>)
      requires Restartable(Point(disk, pages, out)) && GoodChain(disk, HeadOf(disk), chain, out)
      ensures Valid() && this.disk == disk && pageCount == pages && this.out == out && this.chain == chain
    {
      this.disk, head, pageCount := disk, disk[META_PAGE_ID].next, pages;
      this.out, this.chain, length, log := out, chain, pages, [Point(disk, pages, out)];
      faults := 0;
      new;
      ChainMembers(disk, head, chain);
    }

    /** One header write: it lands whole, or fails and changes nothing.  This is the only way the disk
        changes here, so the log has every state of it. */
    method WriteHeader(p: PageId, h: Header, ghost hands: set<PageId>) returns (ok: bool)
      modifies this`disk, this`length, this`out, this`log, this`faults
      ensures ok ==>
                && disk == old(disk)[p := h] && length == old(length) + (if p in old(disk) then 0 else 1)
                && out == hands && log == old(log) + [Point(disk, length, hands)]
      ensures !ok ==> disk == old(disk) && length == old(length) && out == old(out) && log == old(log)
      ensures faults == old(faults) + if ok then 0 else 1
    {
      ok := *;
      if !ok {
        faults := faults + 1;
      } else {
        length := length + if p in disk then 0 else 1;
        disk, out := disk[p := h], hands;
        log := log + [Point(disk, length, hands)];
      }
    }

    /** A header read: nothing but whether it worked. */
    method ReadHeader() returns (ok: bool)
      modifies this`faults
      ensures faults == old(faults) + if ok then 0 else 1
    {
      ok := *;
      if !ok { faults := faults + 1; }
    }

    method PersistHead(newHead: PageId) returns (ok: bool)
      requires META_PAGE_ID in disk
      modifies this`disk, this`length, this`out, this`log, this`faults
      ensures ok ==>
                disk == old(disk)[META_PAGE_ID := Header(META, newHead)]
                && log == old(log) + [Point(disk, length, out)]
      ensures !ok ==> disk == old(disk) && log == old(log)
      ensures out == old(out) && length == old(length) && faults == old(faults) + if ok then 0 else 1
    {
      ok := WriteHeader(META_PAGE_ID, Header(META, newHead), out);
    }

    /** Take the first free page, or extend the file.  The head moves off a page before the page stops
        being FREE, so a crash in between only leaks it. */
    method AllocatePage() returns (r: Result<PageId>)
      requires Valid()
      modifies this
      ensures Valid() && |old(log)| <= |log| && old(log) == log[..|old(log)|]
      ensures r.Ok? ==>
                && IsDataPage(r.value) && r.value !in old(out) && out == old(out) + {r.value}
                && r.value in disk && disk[r.value].kind == ALLOCATED
                && if old(chain) != []
                   then r.value == old(chain)[0] && chain == old(chain)[1..] && pageCount == old(pageCount)
                   else r.value == old(pageCount) && chain == [] && pageCount == old(pageCount) + 1
      ensures r.Err? ==> out == old(out) && chain == old(chain) && head == old(head) && pageCount == old(pageCount)
      ensures r.Err? ==> r.error == IOError
      ensures faults == old(faults) + if r.Err? then 1 else 0
      ensures forall p | p in old(out) :: p in old(disk) ==> p in disk && disk[p] == old(disk)[p]
    {
      hide Recoverable, LogOk;
      if head != INVALID_PAGE {
        r := TakeFree();
        return;
      }
      var p := pageCount;
      NoFreePages();
      var ok := WriteHeader(p, Header(OTHER, 0), out);
      if !ok { return Err(IOError); }
      EmptyRecoverable(disk, out);
      LogGrows(old(log), p, Header(OTHER, 0), Point(disk, length, out));
      ghost var before := log;
      ok := WriteHeader(p, Header(ALLOCATED, INVALID_PAGE), out + {p});
      if !ok { return Err(IOError); }
      EmptyRecoverable(disk, out);
      LogGrows(before, p, Header(ALLOCATED, INVALID_PAGE), Point(disk, length, out));
      // Published last: until now the page fails the bounds check of every reader.
      pageCount := p + 1;
      return Ok(p);
    }

    /** With no head there is no chain, in memory or on disk. */
    lemma NoFreePages()
      requires Valid() && head == INVALID_PAGE
      ensures chain == [] && HeadOf(disk) == INVALID_PAGE
    {
    }

    method TakeFree() returns (r: Result<PageId>)
      requires Valid() && head != INVALID_PAGE
      modifies this
      ensures Valid() && |old(log)| <= |log| && old(log) == log[..|old(log)|] && pageCount == old(pageCount)
              && old(chain) != []
      ensures r.Ok? ==>
                && r.value == old(chain)[0] && IsDataPage(r.value) && r.value !in old(out)
                && out == old(out) + {r.value}
                && r.value in disk && disk[r.value].kind == ALLOCATED && chain == old(chain)[1..]
      ensures r.Err? ==> out == old(out) && chain == old(chain) && head == old(head) && r.error == IOError
      ensures faults == old(faults) + if r.Err? then 1 else 0
      ensures forall p | p in old(out) :: p in old(disk) ==> p in disk && disk[p] == old(disk)[p]
    {
      hide Recoverable, IsChain, NoRepeats, LogOk;
      HeadFacts();
      var p := head;
      var ok := ReadHeader();
      if !ok { return Err(IOError); }
      if disk[p].kind != FREE { return Err(Corruption); }
      var next := disk[p].next;
      ghost var rest := chain[1..];
      ok := PersistHead(next);
      if !ok { return Err(IOError); }
      TailRecoverable(old(disk), disk, p, chain, out, {META_PAGE_ID});
      MetaWriteKeeps(old(disk), disk, head, chain, out);
      LogGrows(old(log), META_PAGE_ID, Header(META, next), Point(disk, length, out));
      ghost var before := log;
      ok := WriteHeader(p, Header(ALLOCATED, INVALID_PAGE), out + {p});
      if !ok { return Err(IOError); }
      TailRecoverable(old(disk), disk, p, chain, old(out), {META_PAGE_ID, p});
      LogGrows(before, p, Header(ALLOCATED, INVALID_PAGE), Point(disk, length, out));
      head, chain := next, rest;
      return Ok(p);
    }

    /** Put a page on the freelist.  The page is stamped FREE before page 0 points at it. */
    method DeallocatePage(p: PageId) returns (st: Result<()>)
      requires Valid()
      modifies this
      ensures Valid() && |old(log)| <= |log| && old(log) == log[..|old(log)|] && pageCount == old(pageCount)
      ensures st.Ok? ==>
                && p in old(disk) && p in disk && disk[p].kind == FREE
                && if old(disk)[p].kind == FREE then disk == old(disk) && chain == old(chain) && out == old(out)
                   else chain == [p] + old(chain) && out == old(out) - {p}
      ensures st.Err? ==> chain == old(chain) && head == old(head) && (out == old(out) || out == old(out) - {p})
      ensures st == Err(InvalidArgument) <==> p == META_PAGE_ID || p == CATALOG_ROOT_PAGE_ID || !(0 <= p < pageCount)
      ensures st.Err? && st.error != InvalidArgument ==> st.error == IOError
      ensures faults == old(faults) + if st.Err? && st.error != InvalidArgument then 1 else 0
      ensures forall q | q in old(out) && q != p && q in old(disk) :: q in disk && disk[q] == old(disk)[q]
    {
      hide Recoverable, IsChain, NoRepeats, LogOk;
      if p == CATALOG_ROOT_PAGE_ID { return Err(InvalidArgument); }
      if p == META_PAGE_ID || !(0 <= p < pageCount) { return Err(InvalidArgument); }
      var ok := ReadHeader();
      if !ok { return Err(IOError); }
      if disk[p].kind == FREE { return Ok(()); }
      ok := StampFree(p);
      if !ok { return Err(IOError); }
      ok := LinkFree(p);
      if !ok { return Err(IOError); }
      return Ok(());
    }

    /** The page leaves its holder's hands with a FREE header that names the present head. */
    method StampFree(p: PageId) returns (ok: bool)
      requires Valid() && IsDataPage(p) && p < pageCount && p in disk && disk[p].kind != FREE
      modifies this`disk, this`length, this`out, this`log, this`faults
      ensures Valid() && |old(log)| <= |log| && old(log) == log[..|old(log)|] && p !in chain
      ensures faults == old(faults) + if ok then 0 else 1
      ensures disk == (if ok then old(disk)[p := Header(FREE, head)] else old(disk))
      ensures out == if ok then old(out) - {p} else old(out)
    {
      hide Recoverable, IsChain, NoRepeats, LogOk;
      ChainMembers(disk, head, chain);
      ok := WriteHeader(p, Header(FREE, head), out - {p});
      if ok {
        OffChainWrite(old(disk), disk, p, head, chain, old(out), out);
        RecoverFrom(disk, head, chain, out);
        LogGrows(old(log), p, Header(FREE, head), Point(disk, length, out));
      }
    }

    /** Page 0 names the stamped page, and then so does memory. */
    method LinkFree(p: PageId) returns (ok: bool)
      requires Valid() && IsDataPage(p) && p < pageCount && p in disk && disk[p] == Header(FREE, head)
      requires p !in chain && p !in out
      modifies this
      ensures Valid() && |old(log)| <= |log| && old(log) == log[..|old(log)|] && pageCount == old(pageCount)
      ensures faults == old(faults) + (if ok then 0 else 1) && out == old(out)
      ensures if ok then chain == [p] + old(chain) else chain == old(chain) && head == old(head)
      ensures forall q | q in old(disk) && q != META_PAGE_ID :: q in disk && disk[q] == old(disk)[q]
    {
      hide Recoverable, IsChain, NoRepeats, LogOk;
      ok := PersistHead(p);
      if ok {
        MetaWriteKeeps(old(disk), disk, head, chain, out);
        Linked(disk, p, head, chain, out);
        RecoverFrom(disk, p, [p] + chain, out);
        LogGrows(old(log), META_PAGE_ID, Header(META, p), Point(disk, length, out));
        head, chain := p, [p] + chain;
      }
    }

    /** The pool writes a page somebody holds, header and all. */
    method WritePage(p: PageId, h: Header) returns (ok: bool)
      requires Valid() && p in out
      modifies this`disk, this`length, this`out, this`log, this`faults
      ensures Valid() && |old(log)| <= |log| && old(log) == log[..|old(log)|]
      ensures faults == old(faults) + if ok then 0 else 1
      ensures length == old(length) && out == old(out) && disk == if ok then old(disk)[p := h] else old(disk)
    {
      hide Recoverable, IsChain, NoRepeats, LogOk;
      ChainMembers(disk, head, chain);
      ok := WriteHeader(p, h, out);
      if ok {
        OffChainWrite(old(disk), disk, p, head, chain, out, out);
        RecoverFrom(disk, head, chain, out);
        LogGrows(old(log), p, h, Point(disk, length, out));
      }
    }

    lemma HeadFacts()
      requires Valid() && head != INVALID_PAGE
      ensures chain != [] && chain[0] == head && IsDataPage(head) && head in disk && disk[head].kind == FREE
      ensures GoodChain(disk, disk[head].next, chain[1..], out + {head}) && head !in out
      ensures META_PAGE_ID !in chain
    {
      ChainMembers(disk, head, chain);
      assert forall i | 0 <= i < |chain[1..]| :: chain[1..][i] == chain[i + 1];
    }
  }

  /** Open an existing file.  A file the manager could have left behind opens unless a header cannot be
      read, and no page of its freelist is in anybody's hands. */
  method Restart(d: Disk, pages: nat, readFails: bool, ghost out: set<PageId>) returns (r: Result<DiskManager>)
    requires Restartable(Point(d, pages, out))
    ensures r.Err? <==> readFails
    ensures r.Ok? ==> fresh(r.value) && r.value.Valid() && r.value.disk == d && r.value.out == out
    ensures r.Ok? ==> r.value.pageCount == pages && forall i | 0 <= i < |r.value.chain| :: r.value.chain[i] !in out
    ensures r.Err? ==> r.error == IOError
  {
    if pages < 2 { return Err(Corruption); }
    if readFails { return Err(IOError); }
    if d[META_PAGE_ID].kind != META || d[CATALOG_ROOT_PAGE_ID].kind != CATALOG { return Err(Corruption); }
    ghost var ps :| GoodChain(d, HeadOf(d), ps, out);
    var m := new DiskManager.Over(d, pages, out, ps);
    return Ok(m);
  }

  /** A crash at any moment of any run of the manager, before, between or after its header writes: the
      file opens, and what callers held at that moment is not handed out again. */
  method RestartAfterCrash(m: DiskManager, d: Disk, pages: nat, readFails: bool, ghost out: set<PageId>)
    returns (r: Result<DiskManager>)
    requires m.Valid() && Point(d, pages, out) in m.log
    ensures r.Err? <==> readFails
    ensures r.Ok? ==> fresh(r.value) && r.value.Valid() && r.value.disk == d && r.value.out == out
    ensures r.Ok? ==> forall i | 0 <= i < |r.value.chain| :: r.value.chain[i] !in out
  {
    r := Restart(d, pages, readFails, out);
  }

  lemma EmptyRecoverable(d: Disk, out: set<PageId>)
    requires META_PAGE_ID in d && HeadOf(d) == INVALID_PAGE
    ensures GoodChain(d, INVALID_PAGE, [], out) && Recoverable(d, out)
  {
    assert GoodChain(d, HeadOf(d), [], out);
  }

  lemma MetaWriteKeeps(d: Disk, d': Disk, from: PageId, ps: seq<PageId>, out: set<PageId>)
    requires GoodChain(d, from, ps, out) && forall q | q in d && q != META_PAGE_ID :: q in d' && d'[q] == d[q]
    ensures GoodChain(d', from, ps, out)
  {
    ChainMembers(d, from, ps);
    ChainFrame(d, d', from, ps);
  }

  /** A write to a page that is not on the chain. */
  lemma OffChainWrite(d: Disk, d': Disk, p: PageId, from: PageId, ps: seq<PageId>, out: set<PageId>, out': set<PageId>)
    requires GoodChain(d, from, ps, out) && p !in ps && out' <= out && (forall i | 0 <= i < |ps| :: ps[i] in d)
    requires forall q | q in d && q != p :: q in d' && d'[q] == d[q]
    ensures GoodChain(d', from, ps, out')
  {
    ChainFrame(d, d', from, ps);
  }

  /** The in-memory chain is what page 0 leads to, or one page longer. */
  lemma RecoverFrom(d: Disk, head: PageId, ps: seq<PageId>, out: set<PageId>)
    requires META_PAGE_ID in d && GoodChain(d, head, ps, out)
    requires HeadOf(d) == head || (ps != [] && head in d && HeadOf(d) == d[head].next)
    ensures Recoverable(d, out)
  {
    if HeadOf(d) == head {
      assert GoodChain(d, HeadOf(d), ps, out);
    } else {
      assert forall i | 0 <= i < |ps[1..]| :: ps[1..][i] == ps[i + 1];
      assert GoodChain(d, HeadOf(d), ps[1..], out);
    }
  }

  /** A FREE page off the chain, linking to its head, becomes the new head. */
  lemma Linked(d: Disk, p: PageId, head: PageId, ps: seq<PageId>, out: set<PageId>)
    requires GoodChain(d, head, ps, out) && IsDataPage(p) && p in d && d[p] == Header(FREE, head) && p !in ps
             && p !in out
    ensures GoodChain(d, p, [p] + ps, out)
  {
    assert ([p] + ps)[1..] == ps;
  }

  /** With page 0 pointing past its first page, and writes only to page 0 and that page, the chain's
      tail is what a restart finds. */
  lemma {:induction false} TailRecoverable(d: Disk, d': Disk, p: PageId, chain: seq<PageId>, out: set<PageId>,
                                           wrote: set<PageId>)
    requires chain != [] && chain[0] == p && p in d && GoodChain(d, p, chain, out)
    requires META_PAGE_ID in d' && HeadOf(d') == d[p].next
    requires META_PAGE_ID !in chain && wrote <= {META_PAGE_ID, p}
    requires forall q | q in d && q !in wrote :: q in d' && d'[q] == d[q]
    ensures GoodChain(d', d[p].next, chain[1..], out + {p}) && Recoverable(d', out + {p}) && Recoverable(d', out)
  {
    var rest := chain[1..];
    assert forall i | 0 <= i < |rest| :: rest[i] == chain[i + 1];
    ChainMembers(d, p, chain);
    ChainFrame(d, d', d[p].next, rest);
    assert GoodChain(d', HeadOf(d'), rest, out + {p});
    assert GoodChain(d', HeadOf(d'), rest, out);
  }
}
