/**
 * The heap page's accounting check, on any directory whatever, and how much it proves.  Summing lengths
 * does not by itself rule out tuples that share bytes: an overlap passes if an equal number of bytes is
 * in no tuple and not counted dead.  What separates the two is whether `dead` counts the bytes that no
 * tuple covers.
 */
module HeapAudit {
  import opened HeapPages

  method CheckInvariants(slots: seq<Slot>, start: nat, live: nat, dead: nat) returns (ok: bool)
    ensures ok <==> AuditOk(slots, start, live, dead)
  {
    if start > BODY { return false; }
    if SUB_HEADER + |slots| * SLOT_SIZE > start { return false; }
    var liveSlots, liveBytes := 0, 0;
    for i := 0 to |slots|
      invariant forall k | 0 <= k < i :: SlotOk(slots[k], start)
      invariant liveSlots == LiveCount(slots[..i]) && liveBytes == LiveBytes(slots[..i])
    {
      var s := slots[i];
      assert slots[..i + 1][..i] == slots[..i];
      if s.IsDead() {
        if s.length != 0 { return false; }
      } else {
        if s.offset < start { return false; }
        if s.offset + s.length > BODY { return false; }
        liveSlots, liveBytes := liveSlots + 1, liveBytes + s.length;
      }
    }
    assert slots[..|slots|] == slots;
    return liveSlots == live && start + liveBytes + dead == BODY;
  }

  /** Two slots on the same ten bytes, beside ten bytes nobody counts. */
  lemma OverlapAccepted()
    ensures var slots := [Slot(4054, 10), Slot(4054, 10)];
            AuditOk(slots, 4044, 2, 0) && !Disjoint(slots)
  {
    var slots := [Slot(4054, 10), Slot(4054, 10)];
    SumsAppend([], Slot(4054, 10));
    SumsAppend([Slot(4054, 10)], Slot(4054, 10));
    assert slots == [Slot(4054, 10)] + [Slot(4054, 10)] && [] + [Slot(4054, 10)] == [Slot(4054, 10)];
    assert !Apart(slots[0], slots[1]);
  }

  // ---------- bytes, one by one ----------

  /** The bytes from lo up to, not including, hi. */
  function Interval(lo: nat, hi: nat): (r: set<nat>)
    ensures forall b: nat :: b in r <==> lo <= b < hi
    ensures |r| == if lo <= hi then hi - lo else 0
    decreases hi
  {
    if lo >= hi then {} else Interval(lo, hi - 1) + {hi - 1}
  }

  function Extent(s: Slot): set<nat> { if s.IsDead() then {} else Interval(s.offset, s.offset + s.length) }

  function Covered(slots: seq<Slot>): set<nat> {
    if slots == [] then {} else var n := |slots| - 1; Covered(slots[..n]) + Extent(slots[n])
  }

  /** The bytes of the tuple region that belong to nobody. */
  function Uncovered(slots: seq<Slot>, start: nat): set<nat> { Interval(start, BODY) - Covered(slots) }

  lemma ExtentSize(s: Slot)
    ensures |Extent(s)| == Weight(s)
  {
  }

  lemma {:induction false} CoveredHas(slots: seq<Slot>, i: nat)
    requires i < |slots|
    ensures Extent(slots[i]) <= Covered(slots)
  {
    var n := |slots| - 1;
    if i < n { CoveredHas(slots[..n], i); }
  }

  lemma {:induction false} CoveredBy(slots: seq<Slot>, b: nat) returns (i: nat)
    requires b in Covered(slots)
    ensures i < |slots| && b in Extent(slots[i])
  {
    var n := |slots| - 1;
    if b in Extent(slots[n]) { i := n; } else { i := CoveredBy(slots[..n], b); }
  }

  lemma ApartIffNoSharedByte(a: Slot, b: Slot)
    ensures Apart(a, b) <==> Extent(a) !! Extent(b)
  {
    if !Apart(a, b) {
      var x := if a.offset < b.offset then b.offset else a.offset;
      assert x in Extent(a) && x in Extent(b);
    }
  }

  /** The last slot is apart from all before it exactly if it adds only new bytes. */
  lemma LastApart(slots: seq<Slot>)
    requires slots != []
    ensures var n := |slots| - 1;
            (forall k | 0 <= k < n :: Apart(slots[k], slots[n])) <==> Covered(slots[..n]) !! Extent(slots[n])
  {
    var n := |slots| - 1;
    if Covered(slots[..n]) !! Extent(slots[n]) {
      forall k | 0 <= k < n ensures Apart(slots[k], slots[n]) {
        CoveredHas(slots[..n], k);
        assert slots[..n][k] == slots[k];
        ApartIffNoSharedByte(slots[k], slots[n]);
      }
    } else {
      var b :| b in Covered(slots[..n]) && b in Extent(slots[n]);
      var k := CoveredBy(slots[..n], b);
      ApartIffNoSharedByte(slots[k], slots[n]);
    }
  }

  /** Counting bytes against summing lengths: never more, and equal exactly if no byte is shared. */
  lemma {:induction false} CoveredSize(slots: seq<Slot>)
    ensures |Covered(slots)| <= LiveBytes(slots)
    ensures |Covered(slots)| == LiveBytes(slots) <==> Disjoint(slots)
  {
    if slots != [] {
      var n := |slots| - 1;
      var a, e := Covered(slots[..n]), Extent(slots[n]);
      CoveredSize(slots[..n]);
      ExtentSize(slots[n]);
      UnionSize(a, e);
      LastApart(slots);
      DisjointLast(slots);
    }
  }

  lemma UnionSize(a: set<nat>, e: set<nat>)
    ensures |a + e| <= |a| + |e| && (|a + e| == |a| + |e| <==> a !! e)
  {
    assert a + e == a + (e - a);
    assert |a + (e - a)| == |a| + |e - a|;
    assert e == (e - a) + (e * a);
    assert |e| == |e - a| + |e * a|;
  }

  lemma DisjointLast(slots: seq<Slot>)
    requires slots != []
    ensures var n := |slots| - 1;
            Disjoint(slots) <==> Disjoint(slots[..n]) && forall k | 0 <= k < n :: Apart(slots[k], slots[n])
  {
    var n := |slots| - 1;
    if Disjoint(slots[..n]) && forall k | 0 <= k < n :: Apart(slots[k], slots[n]) {
      forall i, j | 0 <= i < j < |slots| ensures Apart(slots[i], slots[j]) {
        if j < n { assert Apart(slots[..n][i], slots[..n][j]); }
      }
    }
    if Disjoint(slots) {
      forall i, j | 0 <= i < j < n ensures Apart(slots[..n][i], slots[..n][j]) {
        assert Apart(slots[i], slots[j]);
      }
    }
  }

  lemma CoveredInRegion(slots: seq<Slot>, start: nat)
    requires forall i | 0 <= i < |slots| :: SlotOk(slots[i], start)
    ensures Covered(slots) <= Interval(start, BODY)
  {
    forall b | b in Covered(slots) ensures b in Interval(start, BODY) {
      var i := CoveredBy(slots, b);
      assert SlotOk(slots[i], start);
    }
  }

  /** A page the check accepts has no two tuples on one byte exactly if its dead-byte count is the
      number of bytes no tuple covers. */
  lemma AuditExact(slots: seq<Slot>, start: nat, live: nat, dead: nat)
    requires AuditOk(slots, start, live, dead)
    ensures Disjoint(slots) <==> dead == |Uncovered(slots, start)|
    ensures |Uncovered(slots, start)| >= dead
  {
    CoveredSize(slots);
    CoveredInRegion(slots, start);
    assert |Interval(start, BODY) - Covered(slots)| == |Interval(start, BODY)| - |Covered(slots)|;
  }
}
