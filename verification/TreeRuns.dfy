/** Replacing a stretch of siblings by another run: the step every insert and delete is made of. */
module TreeRuns {
  import opened Common
  import opened Nodes
  import opened Trees

  /** ks with ks[i .. j) replaced by r. */
  function Spliced(ks: seq<Tree>, i: nat, j: nat, r: seq<Tree>): seq<Tree>
    requires i <= j <= |ks|
  {
    ks[..i] + r + ks[j..]
  }

  /** A node's first child carries INT64_MIN in the unread slot. */
  function CanonicalRun(ks: seq<Tree>): (r: seq<Tree>)
    ensures |r| == |ks|
    ensures EntriesOf(r) == Canonical(EntriesOf(ks))
  {
    if ks == [] then ks else ks[0 := ks[0].(key := INT64_MIN)]
  }

  /** The key a parent lists a node under is no part of the node. */
  lemma RekeyValid(c: Config, t: Tree, k: Key, level: nat, lo: Key, hi: Option<Key>, min: nat)
    ensures Valid(c, t.(key := k), level, lo, hi, min) == Valid(c, t, level, lo, hi, min)
  {
    assert PageOf(t.(key := k)) == PageOf(t);
  }

  lemma RekeyKeeps(t: Tree, k: Key, after: PageId)
    ensures var t' := t.(key := k);
            && Contents(t') == Contents(t) && Pids(t') == Pids(t) && Distinct(t') == Distinct(t)
            && First(t') == First(t) && Chained(t', after) == Chained(t, after)
  {
  }

  lemma {:induction false} CanonicalRunValid(c: Config, ks: seq<Tree>, level: nat, lo: Key, hi: Option<Key>)
    requires ValidRun(c, ks, level, lo, hi)
    ensures ValidRun(c, CanonicalRun(ks), level, lo, hi)
  {
    var r := CanonicalRun(ks);
    forall i | 0 <= i < |r| ensures KidOk(c, r, i, level, lo, hi) {
      assert KidOk(c, ks, i, level, lo, hi);
      RekeyValid(c, ks[0], INT64_MIN, level, lo, KidHi(ks, 0, hi), Floor(c, level));
    }
  }

  lemma {:induction false} CanonicalRunKeeps(ks: seq<Tree>, after: PageId)
    ensures var r := CanonicalRun(ks);
            && Flat(r) == Flat(ks) && RunPids(r) == RunPids(ks)
            && (DistinctRun(ks) ==> DistinctRun(r))
            && FirstOf(r, after) == FirstOf(ks, after) && ChainedRun(r, after) == ChainedRun(ks, after)
  {
    if ks != [] {
      var r := CanonicalRun(ks);
      RekeyKeeps(ks[0], INT64_MIN, FirstOf(ks[1..], after));
      assert r[1..] == ks[1..];
      assert forall i | 0 <= i < |ks| :: Pids(r[i]) == Pids(ks[i]);
    }
  }

  /** A run of children under a node header is a valid node. */
  lemma {:induction false} MakeNode(c: Config, key: Key, pid: PageId, ks: seq<Tree>, level: nat, lo: Key,
                                    hi: Option<Key>, min: nat)
    requires ks != [] && ks[0].key == INT64_MIN && min <= |ks| <= c.internalMax
    requires level > 0 && ValidRun(c, ks, level - 1, lo, hi)
    ensures Valid(c, Nd(key, pid, level, INVALID_PAGE, ks), level, lo, hi, min)
  {
    forall i | 1 <= i < |ks| ensures INT64_MIN < ks[i].key {
      KidInterval(c, ks, i, level - 1, lo, hi);
    }
    forall i | 0 <= i < |ks| ensures IsDataPage(ks[i].pid) {
      assert KidOk(c, ks, i, level - 1, lo, hi);
    }
    var p := PageOf(Nd(key, pid, level, INVALID_PAGE, ks));
    assert forall i, j | 0 <= i < j < |ks| :: p.entries[i].key < p.entries[j].key by {
      forall i, j | 0 <= i < j < |ks| ensures p.entries[i].key < p.entries[j].key {
        assert i == 0 || ks[i].key < ks[j].key;
      }
    }
  }

  // ---------- what a splice keeps ----------

  lemma {:induction false} SpliceValid(c: Config, ks: seq<Tree>, i: nat, j: nat, r: seq<Tree>, level: nat, lo: Key,
                                       hi: Option<Key>)
    requires i < j <= |ks| && r != [] && r[0].key == ks[i].key
    requires ValidRun(c, ks, level, lo, hi)
    requires ValidRun(c, r, level, KidLo(ks, i, lo), KidHi(ks, j - 1, hi))
    ensures ValidRun(c, Spliced(ks, i, j, r), level, lo, hi)
  {
    var front := ks[..i] + r;
    if i > 0 {
      CutRun(c, ks, i, level, lo, hi);
      JoinRun(c, ks[..i], r, ks[i].key, level, lo, KidHi(ks, j - 1, hi));
    } else {
      assert front == r;
    }
    if j < |ks| {
      CutRun(c, ks, j, level, lo, hi);
      JoinRun(c, front, ks[j..], ks[j].key, level, lo, hi);
    } else {
      assert front + ks[j..] == front;
    }
  }

  lemma {:induction false} SpliceFlat(ks: seq<Tree>, i: nat, j: nat, r: seq<Tree>)
    requires i <= j <= |ks|
    ensures Flat(Spliced(ks, i, j, r)) == Flat(ks[..i]) + Flat(r) + Flat(ks[j..])
  {
    hide Flat, Contents;
    FlatConcat(ks[..i] + r, ks[j..]);
    FlatConcat(ks[..i], r);
  }

  lemma RunPidsConcat(a: seq<Tree>, b: seq<Tree>)
    ensures RunPids(a + b) == RunPids(a) + RunPids(b)
  {
    forall p | p in RunPids(a) + RunPids(b) ensures p in RunPids(a + b) {
      if p in RunPids(a) {
        var i: nat :| i < |a| && p in Pids(a[i]);
        assert (a + b)[i] == a[i];
      } else {
        var i: nat :| i < |b| && p in Pids(b[i]);
        assert (a + b)[|a| + i] == b[i];
      }
    }
  }

  lemma SplicePids(ks: seq<Tree>, i: nat, j: nat, r: seq<Tree>)
    requires i <= j <= |ks|
    ensures RunPids(Spliced(ks, i, j, r)) == RunPids(ks[..i]) + RunPids(r) + RunPids(ks[j..])
  {
    hide RunPids, Pids;
    RunPidsConcat(ks[..i] + r, ks[j..]);
    RunPidsConcat(ks[..i], r);
  }

  lemma DistinctConcat(a: seq<Tree>, b: seq<Tree>)
    ensures DistinctRun(a + b) <==> DistinctRun(a) && DistinctRun(b) && RunPids(a) !! RunPids(b)
  {
    var ks := a + b;
    if DistinctRun(ks) {
      assert forall i | 0 <= i < |a| :: a[i] == ks[i];
      assert forall i | 0 <= i < |b| :: b[i] == ks[|a| + i];
      assert RunPids(a) !! RunPids(b);
    }
    if DistinctRun(a) && DistinctRun(b) && RunPids(a) !! RunPids(b) {
      forall i, j | 0 <= i < j < |ks| ensures Pids(ks[i]) !! Pids(ks[j]) {
        if i < |a| <= j {
          assert Pids(a[i]) <= RunPids(a) && Pids(b[j - |a|]) <= RunPids(b);
        }
      }
    }
  }

  /** The three parts of a run around ks[i .. j) share no page. */
  lemma DistinctParts(ks: seq<Tree>, i: nat, j: nat)
    requires i <= j <= |ks| && DistinctRun(ks)
    ensures DistinctRun(ks[..i]) && DistinctRun(ks[i..j]) && DistinctRun(ks[j..])
    ensures RunPids(ks[..i]) !! RunPids(ks[i..j]) && RunPids(ks[..i]) !! RunPids(ks[j..])
    ensures RunPids(ks[i..j]) !! RunPids(ks[j..])
    ensures RunPids(ks) == RunPids(ks[..i]) + RunPids(ks[i..j]) + RunPids(ks[j..])
  {
    hide DistinctRun, RunPids, Pids, Distinct;
    assert ks == (ks[..i] + ks[i..j]) + ks[j..];
    DistinctConcat(ks[..i] + ks[i..j], ks[j..]);
    DistinctConcat(ks[..i], ks[i..j]);
    RunPidsConcat(ks[..i] + ks[i..j], ks[j..]);
    RunPidsConcat(ks[..i], ks[i..j]);
  }

  /** A run dealt to two nodes, the second made canonical. */
  lemma {:induction false} DealtPids(all: seq<Tree>, cut: nat)
    requires cut <= |all|
    ensures RunPids(all) == RunPids(all[..cut]) + RunPids(CanonicalRun(all[cut..]))
    ensures DistinctRun(all) ==>
              DistinctRun(all[..cut]) && DistinctRun(CanonicalRun(all[cut..]))
                  && RunPids(all[..cut]) !! RunPids(CanonicalRun(all[cut..]))
  {
    hide RunPids, DistinctRun, Pids, Distinct, CanonicalRun;
    assert all == all[..cut] + all[cut..];
    DistinctConcat(all[..cut], all[cut..]);
    RunPidsConcat(all[..cut], all[cut..]);
    CanonicalRunKeeps(all[cut..], INVALID_PAGE);
  }

  /** New pages of r must be new to the rest of the run too. */
  lemma SpliceDistinct(ks: seq<Tree>, i: nat, j: nat, r: seq<Tree>)
    requires i <= j <= |ks| && DistinctRun(ks) && DistinctRun(r)
    requires RunPids(r) !! RunPids(ks[..i]) && RunPids(r) !! RunPids(ks[j..])
    ensures DistinctRun(Spliced(ks, i, j, r))
  {
    hide DistinctRun, RunPids, Pids, Distinct;
    DistinctParts(ks, i, j);
    DistinctConcat(ks[..i], r);
    RunPidsConcat(ks[..i], r);
    DistinctConcat(ks[..i] + r, ks[j..]);
  }

  lemma {:induction false} ChainedConcat(a: seq<Tree>, b: seq<Tree>, after: PageId)
    ensures ChainedRun(a + b, after) <==> ChainedRun(a, FirstOf(b, after)) && ChainedRun(b, after)
  {
    if a == [] {
      assert a + b == b;
    } else {
      ChainedConcat(a[1..], b, after);
      assert (a + b)[1..] == a[1..] + b;
      assert FirstOf((a + b)[1..], after) == FirstOf(a[1..], FirstOf(b, after));
    }
  }

  lemma {:induction false} SpliceChained(ks: seq<Tree>, i: nat, j: nat, r: seq<Tree>, after: PageId)
    requires i < j <= |ks| && r != [] && First(r[0]) == First(ks[i])
    requires ChainedRun(ks, after) && ChainedRun(r, FirstOf(ks[j..], after))
    ensures ChainedRun(Spliced(ks, i, j, r), after)
    ensures FirstOf(Spliced(ks, i, j, r), after) == FirstOf(ks, after)
  {
    ChainedConcat(ks[..i], ks[i..], after);
    assert ks[..i] + ks[i..] == ks;
    ChainedConcat(ks[i..j], ks[j..], after);
    assert ks[i..j] + ks[j..] == ks[i..];
    ChainedConcat(r, ks[j..], after);
    ChainedConcat(ks[..i], r + ks[j..], after);
    assert ks[..i] + (r + ks[j..]) == Spliced(ks, i, j, r);
  }
}
