/** The CLOCK replacer: which frame a sweep takes, in closed form, and what it does to all the others. */
module ClockReplacer {
  import opened Common

  const MAX_USAGE: nat := 3

  /** How far the hand has to move to reach f. */
  function Distance(hand: nat, n: nat, f: nat): nat
    requires hand < n && f < n
  {
    if f >= hand then f - hand else f + n - hand
  }

  /** (usage, distance) in lexicographic order. */
  predicate Before(c: nat, d: nat, c': nat, d': nat) { c < c' || (c == c' && d < d') }

  /** The closed form of a sweep's choice. */
  ghost predicate IsVictim(usage: seq<nat>, ev: seq<bool>, hand: nat, v: nat)
    requires |usage| == |ev| && hand < |ev|
  {
    && v < |ev| && ev[v]
    && forall f: nat | f < |ev| && ev[f] && f != v ::
         Before(usage[v], Distance(hand, |ev|, v), usage[f], Distance(hand, |ev|, f))
  }

  /** What a sweep that takes v leaves of f's count. */
  function Swept(usage: seq<nat>, ev: seq<bool>, hand: nat, v: nat, f: nat): int
    requires |usage| == |ev| && hand < |ev| && v < |ev| && f < |ev|
  {
    if f == v then 0
    else if !ev[f] then usage[f]
    else if Distance(hand, |ev|, f) < Distance(hand, |ev|, v) then usage[f] as int - (usage[v] + 1)
    else usage[f] as int - usage[v]
  }

  function Flags(ev: seq<bool>): nat {
    if ev == [] then 0 else var n := |ev| - 1; Flags(ev[..n]) + if ev[n] then 1 else 0
  }

  lemma {:induction false} FlagsUpdate(ev: seq<bool>, i: nat, b: bool)
    requires i < |ev|
    ensures Flags(ev[i := b]) == Flags(ev) - (if ev[i] then 1 else 0) + if b then 1 else 0
  {
    var n := |ev| - 1;
    if i == n {
      assert ev[i := b][..n] == ev[..n];
    } else {
      FlagsUpdate(ev[..n], i, b);
      assert ev[i := b][..n] == ev[..n][i := b];
    }
  }

  lemma {:induction false} SomeFlag(ev: seq<bool>)
    ensures Flags(ev) == 0 <==> forall i | 0 <= i < |ev| :: !ev[i]
  {
    if ev != [] {
      var n := |ev| - 1;
      SomeFlag(ev[..n]);
      assert forall i | 0 <= i < n :: ev[..n][i] == ev[i];
    }
  }

  /** A victim is unique, so the closed form determines the choice. */
  lemma VictimIsUnique(usage: seq<nat>, ev: seq<bool>, hand: nat, v: nat, w: nat)
    requires |usage| == |ev| && hand < |ev| && IsVictim(usage, ev, hand, v) && IsVictim(usage, ev, hand, w)
    ensures v == w
  {
  }

  class Replacer {
    const usage: array<nat>
    const evictable: array<bool>
    var hand: nat
    var count: nat

    ghost predicate Valid()
      reads this, usage, evictable
    {
      && usage.Length == evictable.Length > 0 && hand < usage.Length
      && (forall f | 0 <= f < usage.Length :: usage[f] <= MAX_USAGE)
      && count == Flags(evictable[..])
    }

    constructor (capacity: nat)
      requires capacity > 0
      ensures Valid() && fresh(usage) && fresh(evictable) && usage.Length == capacity && count == 0
    {
      usage := new nat[capacity](_ => 0);
      evictable := new bool[capacity](_ => false);
      hand, count := 0, 0;
      new;
      SomeFlag(evictable[..]);
    }

    method RecordAccess(f: nat)
      requires Valid() && f < usage.Length
      modifies usage
      ensures Valid()
      ensures usage[..] == old(usage[..])[f := if old(usage[f]) < 3 then old(usage[f]) + 1 else 3]
    {
      if usage[f] < MAX_USAGE { usage[f] := usage[f] + 1; }
    }

    method SetEvictable(f: nat, b: bool)
      requires Valid() && f < usage.Length
      modifies this`count, evictable
      ensures Valid() && evictable[..] == old(evictable[..])[f := b]
    {
      if evictable[f] == b { return; }
      FlagsUpdate(evictable[..], f, b);
      ghost var ev := evictable[..][f := b];
      evictable[f] := b;
      assert evictable[..] == ev;
      if b { count := count + 1; } else { count := count - 1; }
    }

    /** Sweep state: q whole turns and r more steps, each of which took one from an evictable count. */
    ghost predicate Sweeping(u: seq<nat>, ev: seq<bool>, hand0: nat, q: nat, r: nat)
      reads this, usage, evictable
    {
      && |u| == |ev| == usage.Length == evictable.Length && hand0 < |ev| && r < |ev|
      && evictable[..] == ev && hand == (if hand0 + r < |ev| then hand0 + r else hand0 + r - |ev|)
      && forall f: nat | f < |ev| :: Passed(u[f], ev[f], usage[f], if Distance(hand0, |ev|, f) < r then q + 1 else q)
    }

    /** The sweep: the victim is the evictable frame with the least (count, distance from the hand);
        each pass of the hand takes one from every evictable count; nothing else changes. */
    method Evict() returns (r: Option<nat>)
      requires Valid()
      modifies this, usage, evictable
      ensures Valid()
      ensures r.None? <==> forall f | 0 <= f < usage.Length :: !old(evictable[f])
      ensures r.None? ==> hand == old(hand) && usage[..] == old(usage[..]) && evictable[..] == old(evictable[..])
      ensures r.Some? ==>
                && IsVictim(old(usage[..]), old(evictable[..]), old(hand), r.value)
                && (forall f: nat | f < usage.Length ::
                   usage[f] == Swept(old(usage[..]), old(evictable[..]), old(hand), r.value, f))
                && evictable[..] == old(evictable[..])[r.value := false]
                && hand == if r.value + 1 == usage.Length then 0 else r.value + 1
    {
      hide Flags, IsVictim, Swept, Turns;
      SomeFlag(evictable[..]);
      if count == 0 { return None; }
      StartSweep();
      var n := usage.Length;
      ghost var u, ev, hand0 := usage[..], evictable[..], hand;
      ghost var q, d := 0, 0;
      NoTurn(n);
      var scanned := 0;
      while scanned < (MAX_USAGE + 1) * n
        invariant scanned == Turns(q, n) + d && q <= MAX_USAGE + 1 && (q == MAX_USAGE + 1 ==> d == 0)
        invariant Sweeping(u, ev, hand0, q, d) && count == Flags(ev)
        decreases (MAX_USAGE + 1) * n - scanned
      {
        if evictable[hand] && usage[hand] == 0 {
          Found(u, ev, hand0, q, d);
          ghost var swept := usage[..];
          var v := ClaimVictim();
          SweptVictim(u, ev, hand0, v);
          assert forall f: nat | f < n && f != v :: usage[f] == swept[f];
          return Some(v);
        }
        Advance(u, ev, hand0, q, d);
        scanned := scanned + 1;
        NextTurn(q, n);
        if d + 1 < n { d := d + 1; } else { q, d := q + 1, 0; }
      }
      // Every count was at most three and has been passed four times, so the sweep has ended before
      // this: the take-anything fallback cannot run without concurrent accesses.
      BoundReached(q, d, n);
      assert false;
    }

    /** Move the hand past a frame it does not take. */
    method Advance(ghost u: seq<nat>, ghost ev: seq<bool>, ghost hand0: nat, ghost q: nat, ghost d: nat)
      requires Sweeping(u, ev, hand0, q, d) && !(evictable[hand] && usage[hand] == 0)
      modifies this`hand, usage
      ensures if d + 1 < |ev| then Sweeping(u, ev, hand0, q, d + 1) else Sweeping(u, ev, hand0, q + 1, 0)
    {
      assert Passed(u[hand], ev[hand], usage[hand], q);
      if evictable[hand] { usage[hand] := usage[hand] - 1; }
      Wrap(hand, usage.Length);
      hand := (hand + 1) % usage.Length;
    }

    lemma Found(u: seq<nat>, ev: seq<bool>, hand0: nat, q: nat, d: nat)
      requires Sweeping(u, ev, hand0, q, d) && evictable[hand] && usage[hand] == 0
      ensures IsVictim(u, ev, hand0, hand) && u[hand] == q
      ensures forall f: nat | f < |ev| && f != hand :: usage[f] == Swept(u, ev, hand0, hand, f)
      ensures forall f: nat | f < |ev| :: usage[f] <= u[f]
    {
      VictimFound(u, ev, hand0, usage[..], hand, q, d);
    }

    lemma StartSweep()
      requires Valid()
      ensures Sweeping(usage[..], evictable[..], hand, 0, 0)
    {
    }

    method ClaimVictim() returns (v: nat)
      requires usage.Length == evictable.Length && hand < usage.Length && evictable[hand]
               && count == Flags(evictable[..])
      modifies this, usage, evictable
      ensures v == old(hand) && hand == (if v + 1 == usage.Length then 0 else v + 1)
      ensures evictable[..] == old(evictable[..])[v := false] && usage[..] == old(usage[..])[v := 0]
      ensures count == Flags(evictable[..])
    {
      v := hand;
      FlagsUpdate(evictable[..], v, false);
      ghost var ev := evictable[..][v := false];
      evictable[v] := false;
      assert evictable[..] == ev;
      SomeFlag(ev);
      count := count - 1;
      usage[v] := 0;
      Wrap(hand, usage.Length);
      hand := (hand + 1) % usage.Length;
    }
  }

  lemma Wrap(h: nat, n: nat)
    requires h < n
    ensures (h + 1) % n == if h + 1 == n then 0 else h + 1
  {
  }

  /** Steps in q whole turns of the hand. */
  function Turns(q: nat, n: nat): nat { q * n }

  lemma NextTurn(q: nat, n: nat)
    ensures Turns(q + 1, n) == Turns(q, n) + n
  {
  }

  lemma NoTurn(n: nat)
    ensures Turns(0, n) == 0
  {
  }

  lemma BoundReached(q: nat, d: nat, n: nat)
    requires d < n && q <= MAX_USAGE + 1 && Turns(q, n) + d >= (MAX_USAGE + 1) * n
    ensures q == MAX_USAGE + 1
  {
    Mono(if q <= MAX_USAGE then q else 0, MAX_USAGE, n);
  }

  lemma Mono(a: nat, b: nat, n: nat)
    requires a <= b
    ensures a * n <= b * n
  {
  }

  lemma SweptVictim(u: seq<nat>, ev: seq<bool>, hand0: nat, v: nat)
    requires |u| == |ev| && hand0 < |ev| && v < |ev|
    ensures Swept(u, ev, hand0, v, v) == 0
  {
  }

  /** The hand stands on an evictable frame whose count has run out. */
  lemma VictimFound(u: seq<nat>, ev: seq<bool>, hand0: nat, now: seq<nat>, v: nat, q: nat, d: nat)
    requires |u| == |ev| == |now| && hand0 < |ev| && v < |ev| && ev[v] && now[v] == 0 && Distance(hand0, |ev|, v) == d
    requires forall f: nat | f < |ev| :: Passed(u[f], ev[f], now[f], if Distance(hand0, |ev|, f) < d then q + 1 else q)
    ensures IsVictim(u, ev, hand0, v) && u[v] == q
    ensures forall f: nat | f < |ev| && f != v :: now[f] == Swept(u, ev, hand0, v, f)
  {
    assert Passed(u[v], ev[v], now[v], q);
  }

  /** A count after `passes` passes of the hand, none of which found it zero. */
  predicate Passed(before: nat, ev: bool, now: nat, passes: nat) {
    if ev then now + passes == before else now == before
  }
}
