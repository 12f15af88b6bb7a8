/**
 * What DeletePage costs when the disk refuses: the frame is emptied first, so a page with unsaved writes
 * falls back to the bytes last written to disk.
 */
module PoolDeletion {
  import opened Common
  import opened PoolModel
  import opened PoolInvariant
  import opened PoolQuiet
  import opened PoolSteps
  import opened PoolTheorems

  /** The thread has taken p out of the pool and not yet told the disk. */
  predicate Deletes(pc: Pc, p: PageId) {
    (pc.Vacated? || pc.Deallocating?) && pc.p == p
  }

  lemma Unmapped(s: Pool, t: Tid, p: PageId)
    requires Inv(s) && t in s.threads && Deletes(s.threads[t], p)
    ensures p !in s.table && Logical(s, p) == OnDisk(s, p)
  {
    hide Inv;
    ThreadAt(s, t);
  }

  /** The only steps of a thread in the middle of a deletion. */
  lemma OwnSteps(s: Pool, t: Tid, s': Pool, p: PageId)
    requires Next(s, t, s') && t in s.threads && Deletes(s.threads[t], p) && !Deallocate(s, t, s')
    ensures t in s'.threads && Deletes(s'.threads[t], p) && s'.disk == s.disk
  {
    hide ShardFree, NoWriter, NoReader, NotCreating, NotInFlight;
    assert Unlist(s, t, s');
  }

  /** Nobody else reaches the page on disk meanwhile: the shard lock is held throughout. */
  lemma OthersLeaveIt(s: Pool, v: Tid, s': Pool, t: Tid, p: PageId)
    requires Inv(s) && Next(s, v, s') && v != t && t in s.threads && Deletes(s.threads[t], p)
    ensures OnDisk(s', p) == OnDisk(s, p)
  {
    hide Inv, Next, ShardFree, NoWriter, NoReader, NotCreating;
    Unmapped(s, t, p);
    if WriteBack(s, v, s') {
      ThreadAt(s, v);
    } else if Deallocate(s, v, s') {
      OneDeleter(s, t, v, p);
    } else if !Allocate(s, v, s') {
      DiskUntouched(s, v, s');
    }
  }

  lemma OneDeleter(s: Pool, t: Tid, v: Tid, p: PageId)
    requires Inv(s) && t in s.threads && v in s.threads && t != v && Deletes(s.threads[t], p)
    ensures !Deletes(s.threads[v], p)
  {
    assert Compatible(s.threads[t], s.threads[v]);
  }

  lemma StillDeletes(s: Pool, v: Tid, s': Pool, t: Tid, p: PageId)
    requires Inv(s) && Next(s, v, s') && t in s.threads && Deletes(s.threads[t], p) && !(v == t && Deallocate(s, t, s'))
    ensures t in s'.threads && Deletes(s'.threads[t], p) && OnDisk(s', p) == OnDisk(s, p)
  {
    hide Inv, Next, Deletes, Deallocate, OnDisk;
    if v == t {
      OwnSteps(s, t, s', p);
      SameDisk(s, s', p);
    } else {
      OthersLeaveIt(s, v, s', t, p);
      ThreadMoves(s, v, s');
    }
  }

  lemma SameDisk(s: Pool, s': Pool, p: PageId)
    requires s'.disk == s.disk
    ensures OnDisk(s', p) == OnDisk(s, p)
  {
  }

  /** A step moves one thread. */
  lemma ThreadMoves(s: Pool, v: Tid, s': Pool)
    requires Inv(s) && Next(s, v, s')
    ensures Moves(s, v, s')
  {
    hide Inv, PutBytes, MarkDirty, MarkFlushed, ReadIn, Fill, WriteBack, Allocate, Deallocate, TryPop, Push, TakeClean,
      Retake, Vacate, Drain, StartLoad, Publish, Erase, Fail, Stamp, MapNew, Begin, LookupHit, LookupMiss, Wake, Record,
      Latch, DropRead, Unlatch, Unpin, Evict, Peek, Decline, PinDirty, LoadDirty, LoadFlushed, LatchShared, Sample,
      Unshare, GiveUp, LoseRace, AllocateFails, RefuseDelete, NotCached, Unlist, PinForFlush, PinByIndex;
    if BytesStep(s, v, s') {
      BytesStates(s, v, s');
    } else if FrameStep(s, v, s') {
      FrameMoves(s, v, s');
    } else {
      QuietView(s, v, s');
    }
  }

  lemma FrameMoves(s: Pool, v: Tid, s': Pool)
    requires FrameStep(s, v, s')
    ensures Moves(s, v, s')
  {
    hide ShardFree;
  }

  /** From the moment p leaves the pool until the disk answers, p reads as its bytes on disk. */
  lemma {:induction false} WhileDeleting(r: Run, i: nat, j: nat, t: Tid, p: PageId)
    requires IsRun(r) && Inv(r.states[0]) && i <= j < |r.states|
    requires t in r.states[i].threads && Deletes(r.states[i].threads[t], p)
    requires forall k | i <= k < j :: !(r.movers[k] == t && Deallocate(r.states[k], t, r.states[k + 1]))
    ensures t in r.states[j].threads && Deletes(r.states[j].threads[t], p)
    ensures OnDisk(r.states[j], p) == OnDisk(r.states[i], p)
    decreases j
  {
    hide Inv, Next, Deletes, Deallocate, OnDisk;
    if i < j {
      WhileDeleting(r, i, j - 1, t, p);
      RunKeeps(r, j - 1);
      assert StepAt(r, j - 1);
      StillDeletes(r.states[j - 1], r.movers[j - 1], r.states[j], t, p);
    }
  }

  /** Step i takes p out of the pool, and step j is when the disk answers. */
  ghost predicate DeleteCall(r: Run, i: nat, j: nat, t: Tid, p: PageId)
    requires IsRun(r) && i < j < |r.movers|
  {
    && t in r.states[i].threads && r.states[i].threads[t] == Deleting(p) && r.movers[i] == t == r.movers[j]
    && (Vacate(r.states[i], t, r.states[i + 1]) || NotCached(r.states[i], t, r.states[i + 1]))
    && (forall k | i < k < j :: !(r.movers[k] == t && Deallocate(r.states[k], t, r.states[k + 1])))
    && Deallocate(r.states[j], t, r.states[j + 1])
  }

  lemma DeleteStarts(s: Pool, t: Tid, s': Pool, p: PageId)
    requires Inv(s) && t in s.threads && s.threads[t] == Deleting(p) && (Vacate(s, t, s') || NotCached(s, t, s'))
    ensures t in s'.threads && Deletes(s'.threads[t], p) && OnDisk(s', p) == OnDisk(s, p)
    ensures !Unsaved(s, p) ==> OnDisk(s, p) == Logical(s, p)
  {
    hide Inv;
    if Vacate(s, t, s') {
      var e := VacateRefines(s, t, s');
    }
  }

  lemma DeleteEnds(s: Pool, t: Tid, s': Pool, p: PageId)
    requires Inv(s) && t in s.threads && Deletes(s.threads[t], p) && Deallocate(s, t, s')
    ensures OnDisk(s', p) == OnDisk(s, p)
            || (p in s.disk && OnDisk(s', p) == Some(s.disk[p].(kind := FREE)))
    ensures Logical(s', p) == OnDisk(s', p)
  {
    hide Inv;
    ThreadAt(s, t);
  }

  /**
   * A whole DeletePage, whatever runs beside it.  The page ends up FREE with the bytes it had on disk when
   * the call took it out, or, when the disk refuses, with those bytes as they are: writes no flush had
   * covered are gone.  So a refused call has no effect if and only if the page read as it stood on disk,
   * which it does whenever it has no such writes.
   */
  lemma {:induction false} DeleteOutcome(r: Run, i: nat, j: nat, t: Tid, p: PageId)
    requires IsRun(r) && Inv(r.states[0]) && i < j < |r.movers| && DeleteCall(r, i, j, t, p)
    ensures var was, now := OnDisk(r.states[i], p), Logical(r.states[j + 1], p);
            || now == was
            || (was.Some? && now == Some(was.value.(kind := FREE)))
    ensures var s := r.states[i];
            r.states[j + 1].disk == r.states[j].disk ==>
              && Logical(r.states[j + 1], p) == OnDisk(s, p)
              && (Logical(r.states[j + 1], p) == Logical(s, p) <==> OnDisk(s, p) == Logical(s, p))
    ensures !Unsaved(r.states[i], p) ==> OnDisk(r.states[i], p) == Logical(r.states[i], p)
  {
    hide Inv, Next, Deletes, OnDisk, Logical, Vacate, NotCached, Deallocate, Unsaved;
    RunKeeps(r, i);
    RunKeeps(r, j);
    DeleteStarts(r.states[i], t, r.states[i + 1], p);
    WhileDeleting(r, i + 1, j, t, p);
    DeleteEnds(r.states[j], t, r.states[j + 1], p);
    DiskAgrees(r.states[i], r.states[j], p);
    if r.states[j + 1].disk == r.states[j].disk { SameDisk(r.states[j], r.states[j + 1], p); }
  }

  lemma DiskAgrees(s: Pool, s': Pool, p: PageId)
    requires OnDisk(s, p) == OnDisk(s', p)
    ensures p in s'.disk ==> OnDisk(s, p) == Some(s'.disk[p])
  {
  }

  // ---------- when a deletion is refused ----------

  /** Between the call and the disk's answer. */
  predicate InDelete(pc: Pc, p: PageId) { pc == Deleting(p) || Deletes(pc, p) }

  lemma DeletingSteps(s: Pool, t: Tid, s': Pool)
    requires Next(s, t, s') && t in s.threads && s.threads[t].Deleting?
    ensures RefuseDelete(s, t, s') || Vacate(s, t, s') || NotCached(s, t, s')
  {
    hide ShardFree, NoWriter, NoReader, NotCreating, NotInFlight;
  }

  /** The pool turns the call down only while somebody has the page pinned. */
  ghost predicate TurnedDown(s: Pool, t: Tid, s': Pool, p: PageId) {
    && RefuseDelete(s, t, s') && s.threads[t].p == p && p in s.table
    && exists u :: u in s.threads && PinOf(s.threads[u]) == Some(s.table[p])
  }

  lemma RefusedIsPinned(s: Pool, t: Tid, s': Pool, p: PageId)
    requires Inv(s) && RefuseDelete(s, t, s') && s.threads[t].p == p
    ensures TurnedDown(s, t, s', p)
  {
    hide ThreadsOk, Exclusion, FreeOk, TableOk, FramesOk, CleanOk, EvictOk;
    var f := s.table[p];
    assert s.frames[f].pins == |Holders(s, f)|;
    assert Holders(s, f) != {};
    var u :| u in Holders(s, f);
  }

  lemma DeleteOwnStep(s: Pool, t: Tid, s': Pool, p: PageId)
    requires Inv(s) && Next(s, t, s') && t in s.threads && InDelete(s.threads[t], p)
    ensures (t in s'.threads && InDelete(s'.threads[t], p)) || TurnedDown(s, t, s', p) || Deallocate(s, t, s')
  {
    hide Inv, Next, ShardFree, TurnedDown, Deallocate;
    if s.threads[t].Deleting? {
      DeletingSteps(s, t, s');
      if RefuseDelete(s, t, s') { RefusedIsPinned(s, t, s', p); }
    } else if !Deallocate(s, t, s') {
      OwnSteps(s, t, s', p);
    }
  }

  /** A DeletePage that has come back was turned down because the page was pinned, or has asked the disk. */
  lemma {:induction false} DeleteYields(r: Run, i: nat, j: nat, t: Tid, p: PageId) returns (k: nat)
    requires IsRun(r) && Inv(r.states[0]) && i <= j < |r.states|
    requires t in r.states[i].threads && InDelete(r.states[i].threads[t], p)
    requires t in r.states[j].threads && r.states[j].threads[t] == Idle
    ensures i <= k < j && r.movers[k] == t
    ensures TurnedDown(r.states[k], t, r.states[k + 1], p) || Deallocate(r.states[k], t, r.states[k + 1])
    decreases j - i
  {
    hide Inv, Next, TurnedDown, Deallocate;
    var s, s', v := r.states[i], r.states[i + 1], r.movers[i];
    RunKeeps(r, i);
    assert StepAt(r, i);
    if v == t {
      DeleteOwnStep(s, t, s', p);
      if TurnedDown(s, t, s', p) || Deallocate(s, t, s') {
        k := i;
        return;
      }
    } else {
      ThreadMoves(s, v, s');
    }
    k := DeleteYields(r, i + 1, j, t, p);
  }
}
