/**
 * The slotted heap page: a directory of slots that never move, over tuple bytes that do.  Tuples grow
 * down from the end of the body; the slot directory and the sub-header at its front are kept as typed
 * fields, and their size is accounted for in every bound.
 */
module HeapPages {
  import opened Common

  type Byte = b: nat | b < 256

  const BODY: nat := PAGE_BODY_SIZE
  const SUB_HEADER: nat := 8
  const SLOT_SIZE: nat := 4
  const MAX_TUPLE_SIZE: nat := 2000

  /** A slot with offset zero is dead: no tuple can start inside the sub-header. */
  datatype Slot = Slot(offset: nat, length: nat) {
    predicate IsDead() { offset == 0 }
    predicate Covers(b: nat) { offset != 0 && offset <= b < offset + length }
  }

  const DEAD: Slot := Slot(0, 0)

  /** The sizes in bytes: two tuples of the greatest size fit on an empty page, and no page has more than
      1014 slots, far fewer than a 16-bit slot number can name. */
  lemma PageNumbers()
    ensures BODY == 4064 && SUB_HEADER == 8 && SLOT_SIZE == 4 && MAX_TUPLE_SIZE == 2000
    ensures 2 * (MAX_TUPLE_SIZE + SLOT_SIZE) + SUB_HEADER <= BODY
    ensures forall n: nat :: SUB_HEADER + n * SLOT_SIZE <= BODY <==> n <= 1014
  {
  }

  datatype UpdateOutcome = SamePage | DoesNotFit

  function LiveBytes(slots: seq<Slot>): nat {
    if slots == [] then 0
    else var n := |slots| - 1; LiveBytes(slots[..n]) + if slots[n].IsDead() then 0 else slots[n].length
  }

  function LiveCount(slots: seq<Slot>): nat {
    if slots == [] then 0 else var n := |slots| - 1; LiveCount(slots[..n]) + if slots[n].IsDead() then 0 else 1
  }

  /** A dead slot has one representation; a live one lies inside the tuple region. */
  predicate SlotOk(s: Slot, start: nat) {
    if s.IsDead() then s.length == 0 else start <= s.offset && s.offset + s.length <= BODY
  }

  /** The page's own accounting check. */
  predicate AuditOk(slots: seq<Slot>, start: nat, live: nat, dead: nat) {
    && SUB_HEADER + |slots| * SLOT_SIZE <= start <= BODY
    && (forall i | 0 <= i < |slots| :: SlotOk(slots[i], start))
    && live == LiveCount(slots)
    && start + LiveBytes(slots) + dead == BODY
  }

  predicate Apart(a: Slot, b: Slot) {
    a.IsDead() || b.IsDead() || a.offset + a.length <= b.offset || b.offset + b.length <= a.offset
      || a.length == 0 || b.length == 0
  }

  predicate Disjoint(slots: seq<Slot>) {
    forall i, j | 0 <= i < j < |slots| :: Apart(slots[i], slots[j])
  }

  // ---------- sums over the directory ----------

  function Weight(s: Slot): nat { if s.IsDead() then 0 else s.length }
  function One(s: Slot): nat { if s.IsDead() then 0 else 1 }

  lemma {:induction false} SumsUpdate(slots: seq<Slot>, i: nat, s: Slot)
    requires i < |slots|
    ensures LiveBytes(slots[i := s]) == LiveBytes(slots) - Weight(slots[i]) + Weight(s)
    ensures LiveCount(slots[i := s]) == LiveCount(slots) - One(slots[i]) + One(s)
    ensures Weight(slots[i]) <= LiveBytes(slots) && One(slots[i]) <= LiveCount(slots)
  {
    var n := |slots| - 1;
    if i == n {
      assert slots[i := s][..n] == slots[..n];
    } else {
      SumsUpdate(slots[..n], i, s);
      assert slots[i := s][..n] == slots[..n][i := s];
    }
  }

  lemma SumsAppend(slots: seq<Slot>, s: Slot)
    ensures LiveBytes(slots + [s]) == LiveBytes(slots) + Weight(s)
    ensures LiveCount(slots + [s]) == LiveCount(slots) + One(s)
  {
    assert (slots + [s])[..|slots|] == slots;
  }

  lemma {:induction false} LiveCountAll(slots: seq<Slot>)
    ensures LiveCount(slots) <= |slots|
    ensures LiveCount(slots) == |slots| <==> forall i | 0 <= i < |slots| :: !slots[i].IsDead()
  {
    if slots != [] {
      var n := |slots| - 1;
      LiveCountAll(slots[..n]);
      assert forall i | 0 <= i < n :: slots[..n][i] == slots[i];
    }
  }

  lemma {:induction false} LiveCountNone(slots: seq<Slot>)
    ensures LiveCount(slots) == 0 <==> forall i | 0 <= i < |slots| :: slots[i].IsDead()
  {
    if slots != [] {
      var n := |slots| - 1;
      LiveCountNone(slots[..n]);
      assert forall i | 0 <= i < n :: slots[..n][i] == slots[i];
    }
  }

  lemma {:induction false} LiveBytesPrefix(slots: seq<Slot>, n: nat)
    requires n <= |slots|
    ensures LiveBytes(slots[..n]) <= LiveBytes(slots)
  {
    if n < |slots| {
      var m := |slots| - 1;
      LiveBytesPrefix(slots[..m], n);
      assert slots[..m][..n] == slots[..n];
    } else {
      assert slots[..n] == slots;
    }
  }

  // ---------- what the slots hold ----------

  predicate InBody(s: Slot) { s.IsDead() || s.offset + s.length <= BODY }

  function TupleOf(b: seq<Byte>, s: Slot): Option<seq<Byte>>
    requires |b| == BODY && InBody(s)
  {
    if s.IsDead() then None else Some(b[s.offset..s.offset + s.length])
  }

  /** Slot index to tuple, dead slots included. */
  function Tuples(b: seq<Byte>, slots: seq<Slot>): (c: seq<Option<seq<Byte>>>)
    requires |b| == BODY && forall i | 0 <= i < |slots| :: InBody(slots[i])
    ensures |c| == |slots|
    ensures forall i | 0 <= i < |slots| :: c[i] == TupleOf(b, slots[i])
  {
    seq(|slots|, i requires 0 <= i < |slots| => TupleOf(b, slots[i]))
  }

  /** b' is b with the tuple copied in at `at`. */
  predicate Copied(b: seq<Byte>, b': seq<Byte>, at: nat, tuple: seq<Byte>) {
    && |b| == |b'| == BODY && at + |tuple| <= BODY
    && (forall k | 0 <= k < |tuple| :: b'[at + k] == tuple[k])
    && (forall k | 0 <= k < BODY && !(at <= k < at + |tuple|) :: b'[k] == b[k])
  }

  /** A tuple copied clear of another leaves the other as it was. */
  lemma CopyMisses(b: seq<Byte>, b': seq<Byte>, s: Slot, tuple: seq<Byte>, other: Slot)
    requires Copied(b, b', s.offset, tuple) && s.length == |tuple| && InBody(other)
             && (other.IsDead() || Apart(s, other))
    requires !s.IsDead()
    ensures TupleOf(b', other) == TupleOf(b, other)
  {
    if !other.IsDead() {
      assert b'[other.offset..other.offset + other.length] == b[other.offset..other.offset + other.length];
    }
  }

  lemma CopyLands(b: seq<Byte>, b': seq<Byte>, s: Slot, tuple: seq<Byte>)
    requires Copied(b, b', s.offset, tuple) && s.length == |tuple| && !s.IsDead()
    ensures TupleOf(b', s) == Some(tuple)
  {
    assert b'[s.offset..s.offset + s.length] == tuple;
  }

  predicate ApartFrom(slots: seq<Slot>, i: nat, s: Slot) {
    forall k | 0 <= k < |slots| && k != i :: Apart(s, slots[k])
  }

  lemma ApartSym(a: Slot, b: Slot)
    ensures Apart(a, b) <==> Apart(b, a)
  {
  }

  /** A tuple stored in slot i, clear of every other. */
  lemma {:induction false} StoreTuple(b: seq<Byte>, b': seq<Byte>, slots: seq<Slot>, i: nat, s: Slot, tuple: seq<Byte>)
    requires Copied(b, b', s.offset, tuple) && s.length == |tuple| && !s.IsDead() && i < |slots|
    requires (forall k | 0 <= k < |slots| :: InBody(slots[k])) && ApartFrom(slots, i, s) && Disjoint(slots)
    ensures Tuples(b', slots[i := s]) == Tuples(b, slots)[i := Some(tuple)]
    ensures Disjoint(slots[i := s])
  {
    var ss := slots[i := s];
    forall k | 0 <= k < |slots| ensures TupleOf(b', ss[k]) == Tuples(b, slots)[i := Some(tuple)][k] {
      if k == i { CopyLands(b, b', s, tuple); } else { CopyMisses(b, b', s, tuple, slots[k]); }
    }
    forall j, k | 0 <= j < k < |ss| ensures Apart(ss[j], ss[k]) {
      if k == i { ApartSym(s, slots[j]); }
    }
  }

  lemma {:induction false} AppendTuple(b: seq<Byte>, b': seq<Byte>, slots: seq<Slot>, s: Slot, tuple: seq<Byte>)
    requires Copied(b, b', s.offset, tuple) && s.length == |tuple| && !s.IsDead()
    requires (forall k | 0 <= k < |slots| :: InBody(slots[k])) && ApartFrom(slots, |slots|, s) && Disjoint(slots)
    ensures Tuples(b', slots + [s]) == Tuples(b, slots) + [Some(tuple)]
    ensures Disjoint(slots + [s])
  {
    var ss := slots + [s];
    forall k | 0 <= k < |ss| ensures TupleOf(b', ss[k]) == (Tuples(b, slots) + [Some(tuple)])[k] {
      if k == |slots| { CopyLands(b, b', s, tuple); } else { CopyMisses(b, b', s, tuple, slots[k]); }
    }
    forall j, k | 0 <= j < k < |ss| ensures Apart(ss[j], ss[k]) {
      if k == |slots| { ApartSym(s, slots[j]); }
    }
  }

  /** A slot that ends at or under `start` overlaps no slot of the directory. */
  lemma BelowIsApart(slots: seq<Slot>, i: nat, start: nat, s: Slot)
    requires forall k | 0 <= k < |slots| :: SlotOk(slots[k], start)
    requires s.offset + s.length <= start
    ensures ApartFrom(slots, i, s)
  {
  }

  lemma DisjointKill(slots: seq<Slot>, i: nat)
    requires Disjoint(slots) && i < |slots|
    ensures Disjoint(slots[i := DEAD])
  {
  }

  // ---------- compaction ----------

  /** The first n slots, moved into the scratch buffer: same tuples in the same slots, packed down from
      the end of the body to `cursor`. */
  ghost predicate Packed(b: seq<Byte>, was: seq<Slot>, scratch: seq<Byte>, now: seq<Slot>, cursor: nat) {
    && |b| == |scratch| == BODY && |now| <= |was| && cursor + LiveBytes(was[..|now|]) == BODY
    && (forall k | 0 <= k < |was| :: InBody(was[k]))
    && (forall k | 0 <= k < |now| :: SlotOk(now[k], cursor) && now[k].length == was[k].length)
    && Disjoint(now) && Tuples(scratch, now) == Tuples(b, was[..|now|])
  }

  lemma PackDead(b: seq<Byte>, was: seq<Slot>, scratch: seq<Byte>, now: seq<Slot>, cursor: nat)
    requires Packed(b, was, scratch, now, cursor) && |now| < |was| && was[|now|] == DEAD
    ensures Packed(b, was, scratch, now + [DEAD], cursor)
  {
    hide Tuples;
    var n := |now|;
    assert was[..n + 1] == was[..n] + [DEAD];
    SumsAppend(was[..n], DEAD);
    var ss := now + [DEAD];
    forall k | 0 <= k < |ss| ensures TupleOf(scratch, ss[k]) == TupleOf(b, was[k]) {
      if k < n { assert Tuples(scratch, now)[k] == Tuples(b, was[..n])[k]; }
    }
    assert Tuples(scratch, ss) == Tuples(b, was[..n + 1]);
  }

  lemma {:induction false} PackLive(b: seq<Byte>, was: seq<Slot>, scratch: seq<Byte>, scratch': seq<Byte>,
                                    now: seq<Slot>, cursor: nat)
    requires Packed(b, was, scratch, now, cursor) && |now| < |was| && !was[|now|].IsDead() && was[|now|].length < cursor
    requires var o := was[|now|]; Copied(scratch, scratch', cursor - o.length, b[o.offset..o.offset + o.length])
    ensures var o := was[|now|]; Packed(b, was, scratch', now + [Slot(cursor - o.length, o.length)], cursor - o.length)
  {
    hide Tuples;
    var n, o := |now|, was[|now|];
    var s := Slot(cursor - o.length, o.length);
    assert was[..n + 1] == was[..n] + [o];
    SumsAppend(was[..n], o);
    BelowIsApart(now, n, cursor, s);
    AppendTuple(scratch, scratch', now, s, b[o.offset..o.offset + o.length]);
    var ss := now + [s];
    forall k | 0 <= k < |ss| ensures Tuples(scratch', ss)[k] == TupleOf(b, was[k]) {
      if k < n { assert Tuples(scratch, now)[k] == Tuples(b, was[..n])[k]; }
    }
    assert Tuples(scratch', ss) == Tuples(b, was[..n + 1]);
  }

  lemma {:induction false} SameCounts(was: seq<Slot>, now: seq<Slot>)
    requires |was| == |now|
    requires forall k | 0 <= k < |was| :: now[k].length == was[k].length && (now[k].IsDead() <==> was[k].IsDead())
    ensures LiveBytes(now) == LiveBytes(was) && LiveCount(now) == LiveCount(was)
  {
    if was != [] {
      var n := |was| - 1;
      SameCounts(was[..n], now[..n]);
    }
  }

  /** All slots packed: the page after the buffer is copied back from `cursor` up. */
  lemma {:induction false} PackedAll(b: seq<Byte>, was: seq<Slot>, scratch: seq<Byte>, now: seq<Slot>, cursor: nat,
                                     b': seq<Byte>)
    requires Packed(b, was, scratch, now, cursor) && |now| == |was|
    requires |b'| == BODY && forall k | cursor <= k < BODY :: b'[k] == scratch[k]
    ensures Tuples(b', now) == Tuples(b, was) && LiveBytes(now) == LiveBytes(was) && LiveCount(now) == LiveCount(was)
    ensures cursor + LiveBytes(now) == BODY
  {
    hide Tuples;
    assert was[..|now|] == was;
    forall k | 0 <= k < |now| ensures TupleOf(b', now[k]) == TupleOf(b, was[k])
      && (now[k].IsDead() <==> was[k].IsDead()) {
      assert Tuples(scratch, now)[k] == Tuples(b, was)[k];
      if !now[k].IsDead() {
        assert b'[now[k].offset..now[k].offset + now[k].length]
            == scratch[now[k].offset..now[k].offset + now[k].length];
      }
    }
    SameCounts(was, now);
    assert Tuples(b', now) == Tuples(b, was);
  }

  // ---------- the page ----------

  /** A page at rest: its bytes, its directory and its sub-header. */
  datatype Image = Image(body: seq<Byte>, slots: seq<Slot>, start: nat, live: nat, dead: nat)

  ghost predicate ImageOk(m: Image) {
    |m.body| == BODY && AuditOk(m.slots, m.start, m.live, m.dead) && Disjoint(m.slots)
  }

  ghost function TuplesOf(m: Image): (c: seq<Option<seq<Byte>>>)
    requires ImageOk(m)
    ensures |c| == |m.slots|
  {
    Tuples(m.body, m.slots)
  }

  class HeapPage {
    const body: array<Byte>
    var slots: seq<Slot>
    var start: nat
    var live: nat
    var dead: nat

    /** The accounting adds up and no two tuples share a byte. */
    ghost predicate Valid()
      reads this
    {
      body.Length == BODY && AuditOk(slots, start, live, dead) && Disjoint(slots)
    }

    /** The abstract page. */
    ghost function Contents(): (c: seq<Option<seq<Byte>>>)
      requires Valid()
      reads this, body
      ensures |c| == |slots|
    {
      Tuples(body[..], slots)
    }

    /** Byte for byte and field for field as given. */
    ghost predicate Is(b: seq<Byte>, ss: seq<Slot>, st: nat, lv: nat, dd: nat)
      reads this, body
    {
      body[..] == b && slots == ss && start == st && live == lv && dead == dd
    }

    /** The page as it lies in its frame. */
    ghost function AsImage(): Image
      reads this, body
    {
      Image(body[..], slots, start, live, dead)
    }

    /** A view over the bytes of an existing page. */
    constructor Over(m: Image)
      requires ImageOk(m)
      ensures Valid() && fresh(body) && AsImage() == m && Contents() == TuplesOf(m)
    {
      body := new Byte[BODY](i requires 0 <= i < BODY => m.body[i]);
      slots, start, live, dead := m.slots, m.start, m.live, m.dead;
      new;
      assert body[..] == m.body;
    }

    /** What is written back when the view is done with. */
    method Store() returns (m: Image)
      requires Valid()
      ensures m == AsImage() && ImageOk(m) && TuplesOf(m) == Contents()
    {
      m := Image(body[..], slots, start, live, dead);
    }

    /** A freshly initialised page. */
    constructor ()
      ensures Valid() && fresh(body) && Contents() == [] && Contiguous() == BODY - SUB_HEADER
    {
      body := new Byte[BODY](_ => 0);
      slots, start, live, dead := [], BODY, 0, 0;
    }

    function Contiguous(): nat
      requires SUB_HEADER + |slots| * SLOT_SIZE <= start
      reads this
    {
      start - (SUB_HEADER + |slots| * SLOT_SIZE)
    }

    method Get(i: nat) returns (r: Result<seq<Byte>>)
      requires Valid()
      ensures r == if i < |slots| && Contents()[i].Some? then Ok(Contents()[i].value) else Err(NotFound)
    {
      if |slots| <= i { return Err(NotFound); }
      var s := slots[i];
      if s.IsDead() { return Err(NotFound); }
      assert SlotOk(s, start);
      return Ok(body[s.offset..s.offset + s.length]);
    }

    /** memcpy of a tuple into the body. */
    method Put(at: nat, tuple: seq<Byte>)
      requires body.Length == BODY && at + |tuple| <= BODY
      modifies body
      ensures Copied(old(body[..]), body[..], at, tuple)
    {
      for k := 0 to |tuple|
        invariant forall b | 0 <= b < k :: body[at + b] == tuple[b]
        invariant forall b | 0 <= b < BODY && !(at <= b < at + k) :: body[b] == old(body[b])
      {
        body[at + k] := tuple[k];
      }
    }

    /** The first dead slot, or one past the last slot. */
    method FindSlot() returns (i: nat)
      requires Valid()
      ensures i <= |slots| && (i < |slots| ==> slots[i].IsDead()) && (i == |slots| <==> live == |slots|)
      ensures forall k | 0 <= k < i :: !slots[k].IsDead()
    {
      LiveCountAll(slots);
      i := |slots|;
      if live < |slots| {
        for k := 0 to |slots|
          invariant i == |slots| && forall j | 0 <= j < k :: !slots[j].IsDead()
        {
          if slots[k].IsDead() { return k; }
        }
      }
    }

    /** Store the tuple in the first dead slot, or in a new one.  Never compacts. */
    method Insert(tuple: seq<Byte>) returns (r: Result<nat>)
      requires Valid()
      modifies this, body
      ensures Valid()
      ensures r.Ok? ==>
                && 0 < |tuple| <= MAX_TUPLE_SIZE && r.value <= |old(slots)| && dead == old(dead)
                && (forall k | 0 <= k < r.value :: old(Contents())[k] != None)
                && if r.value == |old(slots)| then Contents() == old(Contents()) + [Some(tuple)]
                   else old(Contents())[r.value] == None && Contents() == old(Contents())[r.value := Some(tuple)]
      ensures r.Err? ==> Is(old(body[..]), old(slots), old(start), old(live), old(dead))
      ensures r == Err(InvalidArgument) <==> |tuple| == 0 || |tuple| > MAX_TUPLE_SIZE
      ensures r.Err? && r.error != InvalidArgument ==>
                r.error == PageFull && |tuple| + (if live < |slots| then 0 else SLOT_SIZE) > Contiguous()
    {
      hide Tuples, LiveBytes, LiveCount;
      if |tuple| == 0 || |tuple| > MAX_TUPLE_SIZE { return Err(InvalidArgument); }
      LiveCountAll(slots);
      var i := FindSlot();
      var required := if i < |slots| then |tuple| else |tuple| + SLOT_SIZE;
      if required > Contiguous() { return Err(PageFull); }
      var s := Slot(start - |tuple|, |tuple|);
      ghost var b := body[..];
      BelowIsApart(slots, i, start, s);
      if i < |slots| { SumsUpdate(slots, i, s); } else { SumsAppend(slots, s); }
      Put(s.offset, tuple);
      if i < |slots| {
        StoreTuple(b, body[..], slots, i, s, tuple);
        slots := slots[i := s];
      } else {
        AppendTuple(b, body[..], slots, s, tuple);
        slots := slots + [s];
      }
      start, live := s.offset, live + 1;
      return Ok(i);
    }

    method Delete(i: nat) returns (st: Result<()>)
      requires Valid()
      modifies this`slots, this`live, this`dead
      ensures Valid() && |slots| == |old(slots)|
      ensures st.Ok? ==>
                && i < |slots| && old(Contents())[i].Some? && Contents() == old(Contents())[i := None]
                && live == old(live) - 1 && dead == old(dead) + |old(Contents())[i].value|
      ensures st.Err? ==>
                && st.error == NotFound && (i < |slots| ==> old(Contents())[i] == None)
                && slots == old(slots) && live == old(live) && dead == old(dead)
    {
      hide LiveBytes, LiveCount;
      var found := Get(i);
      if found.Err? { return Err(found.error); }
      SumsUpdate(slots, i, DEAD);
      DisjointKill(slots, i);
      dead, live := dead + slots[i].length, live - 1;
      slots := slots[i := DEAD];
      return Ok(());
    }

    /** Rebuild the tuple region in a scratch buffer, slot by slot, and copy it back.  Slots keep their
        index, dead ones too; only offsets change. */
    method Compact()
      requires Valid()
      modifies this, body
      ensures Valid() && Contents() == old(Contents())
      ensures |slots| == |old(slots)| && live == old(live) && dead == 0 && start == old(start) + old(dead)
    {
      hide Tuples, LiveBytes, LiveCount, Packed;
      if dead == 0 { return; }
      var scratch := new Byte[BODY](_ => 0);
      var cursor: nat := BODY;
      ghost var b, ss := body[..], slots;
      EmptyPacked(b, ss, scratch[..]);
      for i := 0 to |slots|
        invariant |slots| == |ss| && slots[i..] == ss[i..] && body[..] == b
        invariant Packed(b, ss, scratch[..], slots[..i], cursor) && start == old(start) && live == old(live)
                  && dead == old(dead)
      {
        cursor := PackSlot(i, scratch, cursor, b, ss);
      }
      assert slots[..|ss|] == slots;
      ghost var packed := scratch[..];
      PackedSpan(b, ss, packed, slots, cursor);
      var from := start;
      forall k | cursor <= k < BODY { body[k] := scratch[k]; }
      start, dead := cursor, 0;
      var debug: bool := *;
      if debug {
        forall k | from <= k < cursor { body[k] := 0xDD; }
      }
      PackedAll(b, ss, packed, slots, cursor, body[..]);
    }

    /** Move one tuple into the scratch buffer below `cursor`, and its slot with it. */
    method PackSlot(i: nat, scratch: array<Byte>, cursor: nat, ghost b: seq<Byte>, ghost ss: seq<Slot>)
        returns (cursor': nat)
      requires body.Length == BODY && scratch.Length == BODY && scratch != body && i < |slots| == |ss|
      requires AuditOk(ss, start, live, dead) && slots[i..] == ss[i..] && body[..] == b
      requires Packed(b, ss, scratch[..], slots[..i], cursor)
      modifies this`slots, scratch
      ensures |slots| == |ss| && slots[i + 1..] == ss[i + 1..] && Packed(b, ss, scratch[..], slots[..i + 1], cursor')
    {
      hide Tuples, LiveBytes, LiveCount, Disjoint;
      var s := slots[i];
      assert s == slots[i..][0] == ss[i] && SlotOk(s, start);
      if s.IsDead() {
        PackDead(b, ss, scratch[..], slots[..i], cursor);
        assert slots[..i + 1] == slots[..i] + [DEAD];
        return cursor;
      }
      RoomFor(ss, i, start, dead);
      assert |slots[..i]| == i;
      ghost var before, done := scratch[..], slots[..i];
      cursor' := cursor - s.length;
      CopyInto(scratch, cursor', s.offset, s.length);
      PackLive(b, ss, before, scratch[..], done, cursor);
      slots := slots[i := Slot(cursor', s.length)];
      assert slots[..i + 1] == done + [Slot(cursor', s.length)];
    }

    /** memcpy from the body into the scratch buffer. */
    method CopyInto(scratch: array<Byte>, at: nat, from: nat, len: nat)
      requires body.Length == BODY && scratch.Length == BODY && scratch != body && at + len <= BODY
               && from + len <= BODY
      modifies scratch
      ensures Copied(old(scratch[..]), scratch[..], at, body[from..from + len])
    {
      forall k | 0 <= k < len { scratch[at + k] := body[from + k]; }
    }

    /** Replace a tuple: in place if it does not grow; at the low-water mark if there is room there;
        after a compaction if that makes room; else not at all, leaving the page as it was. */
    method Update(i: nat, tuple: seq<Byte>) returns (r: Result<UpdateOutcome>)
      requires Valid()
      modifies this, body
      ensures Valid() && |slots| == |old(slots)|
      ensures r.Ok? && r.value == SamePage ==>
                i < |slots| && old(Contents())[i] != None && Contents() == old(Contents())[i := Some(tuple)]
                    && live == old(live)
      ensures r.Err? || r.value == DoesNotFit ==> Is(old(body[..]), old(slots), old(start), old(live), old(dead))
      ensures r.Ok? && r.value == DoesNotFit ==>
                && i < |slots| && Contents()[i].Some?
                && |tuple| > Contiguous() + dead + |Contents()[i].value|
      ensures r.Ok? && r.value == SamePage ==> |tuple| <= old(Contiguous() + dead + |Contents()[i].value|)
      ensures r == Err(InvalidArgument) <==> |tuple| == 0 || |tuple| > MAX_TUPLE_SIZE
      ensures r.Err? && r.error != InvalidArgument ==> r.error == NotFound && (i < |slots| ==> Contents()[i] == None)
    {
      hide Tuples, LiveBytes, LiveCount;
      if |tuple| == 0 || |tuple| > MAX_TUPLE_SIZE { return Err(InvalidArgument); }
      var existing := Get(i);
      if existing.Err? { return Err(existing.error); }
      var s, contiguous := slots[i], Contiguous();
      assert SlotOk(s, start);
      if s.length >= |tuple| {
        Overwrite(i, tuple);
      } else if |tuple| <= contiguous {
        Relocate(i, tuple);
      } else if |tuple| <= contiguous + dead + s.length {
        var gone := Delete(i);
        Compact();
        assert Contents()[i] == None;
        Relocate(i, tuple);
        assert old(Contents())[i := None][i := Some(tuple)] == old(Contents())[i := Some(tuple)];
      } else {
        return Ok(DoesNotFit);
      }
      return Ok(SamePage);
    }

    /** Same offset, shorter length: the difference goes to `dead`. */
    method Overwrite(i: nat, tuple: seq<Byte>)
      requires Valid() && i < |slots| && !slots[i].IsDead() && |tuple| <= slots[i].length
      modifies this`slots, this`dead, body
      ensures Valid() && Contents() == old(Contents())[i := Some(tuple)]
    {
      hide Tuples, LiveBytes, LiveCount;
      var s := Slot(slots[i].offset, |tuple|);
      ghost var b := body[..];
      assert SlotOk(slots[i], start);
      SumsUpdate(slots, i, s);
      ShrunkApart(slots, i, s);
      Put(s.offset, tuple);
      StoreTuple(b, body[..], slots, i, s, tuple);
      dead := dead + (slots[i].length - |tuple|);
      slots := slots[i := s];
    }

    /** Put the tuple at the low-water mark under the same slot, whatever the slot held before. */
    method Relocate(i: nat, tuple: seq<Byte>)
      requires Valid() && i < |slots| && |tuple| <= Contiguous()
      modifies this, body
      ensures Valid() && Contents() == old(Contents())[i := Some(tuple)]
      ensures live == old(live) + if old(slots[i].IsDead()) then 1 else 0
    {
      hide Tuples, LiveBytes, LiveCount;
      var s := Slot(start - |tuple|, |tuple|);
      ghost var b := body[..];
      BelowIsApart(slots, i, start, s);
      SumsUpdate(slots, i, s);
      Put(s.offset, tuple);
      StoreTuple(b, body[..], slots, i, s, tuple);
      assert SlotOk(slots[i], start);
      dead, live := dead + slots[i].length, if slots[i].IsDead() then live + 1 else live;
      slots, start := slots[i := s], s.offset;
    }
  }

  lemma PackedSpan(b: seq<Byte>, ss: seq<Slot>, scratch: seq<Byte>, now: seq<Slot>, cursor: nat)
    requires Packed(b, ss, scratch, now, cursor) && |now| == |ss|
    ensures cursor + LiveBytes(ss) == BODY && Disjoint(now) && forall k | 0 <= k < |now| :: SlotOk(now[k], cursor)
  {
    assert ss[..|now|] == ss;
  }

  lemma EmptyPacked(b: seq<Byte>, ss: seq<Slot>, scratch: seq<Byte>)
    requires |b| == |scratch| == BODY && forall k | 0 <= k < |ss| :: InBody(ss[k])
    ensures Packed(b, ss, scratch, ss[..0], BODY)
  {
    assert ss[..0] == [];
  }

  /** The tuples fit above the sub-header, so the cursor never reaches offset zero. */
  lemma RoomFor(ss: seq<Slot>, i: nat, start: nat, dead: nat)
    requires i < |ss| && !ss[i].IsDead() && SUB_HEADER <= start && start + LiveBytes(ss) + dead == BODY
    ensures LiveBytes(ss[..i]) + ss[i].length + SUB_HEADER <= BODY
  {
    assert ss[..i + 1][..i] == ss[..i];
    LiveBytesPrefix(ss, i + 1);
  }

  lemma ShrunkApart(slots: seq<Slot>, i: nat, s: Slot)
    requires Disjoint(slots) && i < |slots| && s.offset == slots[i].offset && s.length <= slots[i].length
    ensures ApartFrom(slots, i, s)
  {
    forall k | 0 <= k < |slots| && k != i ensures Apart(s, slots[k]) {
      ApartSym(slots[i], slots[k]);
      if k < i { assert Apart(slots[k], slots[i]); } else { assert Apart(slots[i], slots[k]); }
    }
  }
}
