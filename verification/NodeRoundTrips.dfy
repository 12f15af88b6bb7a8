/** What one node operation undoes of another, on the whole 253-slot body and not only its live part. */
module NodeRoundTrips {
  import opened Common
  import opened Nodes
  import opened NodeViews

  lemma DealtBack(all: seq<InternalEntry>, m: nat)
    requires 1 <= m < |all| && all[0].key == INT64_MIN
    ensures Canonical(all[..m]) == all[..m]
    ensures Joined(Canonical(all[..m]), all[m].key, Canonical(all[m..])) == all
    ensures Canonical(all) == all
  {
  }

  lemma ThereAndBack(l: seq<InternalEntry>, sep: Key, r: seq<InternalEntry>)
    requires |l| >= 2 && r != [] && l[0].key == INT64_MIN && r[0].key == INT64_MIN
    ensures var all, n := Joined(l, sep, r), |l|;
            var there := Joined(Canonical(all[..n - 1]), all[n - 1].key, Canonical(all[n - 1..]));
            && |all| == |l| + |r| && there == all && Canonical(all[..n]) == l && Canonical(all[n..]) == r
            && all[n].key == sep
  {
    var all := Joined(l, sep, r);
    assert all[0] == l[0] && all[..|l|] == l && all[|l|..] == r[0 := r[0].(key := sep)];
    DealtBack(all, |l| - 1);
    assert Canonical(r) == r;
  }

  /** Two views with the same entries have the same bytes: the tail is zero in both. */
  twostate lemma SameBody<E>(node: NodeView<E>)
    requires old(node.Valid()) && node.Valid() && node.Entries() == old(node.Entries())
    ensures node.slots[..] == old(node.slots[..])
  {
    assert node.count == old(node.count);
    forall i | 0 <= i < NODE_CAPACITY ensures node.slots[i] == old(node.slots[i]) {
      if i < node.count { assert node.Entries()[i] == old(node.Entries())[i]; }
    }
  }

  /** Splitting a leaf around an entry and merging the halves is inserting the entry. */
  method SplitThenMergeLeaf(left: NodeView<LeafEntry>, right: NodeView<LeafEntry>, rightId: PageId, index: nat,
                            entry: LeafEntry)
    requires left.Valid() && right.Valid() && left != right && left.slots != right.slots
    requires 1 <= left.count < NODE_CAPACITY && index <= left.count && right.count == 0
    modifies left, left.slots, right, right.slots
    ensures left.Valid() && left.Entries() == Inserted(old(left.Entries()), index, entry)
    ensures left.next == old(left.next) && left.level == old(left.level)
  {
    var sep := SplitLeaf(left, right, rightId, index, entry);
    MergeLeaf(left, right);
  }

  /** Splitting an internal node and merging with the separator that went up is inserting the child. */
  method SplitThenMergeInternal(left: NodeView<InternalEntry>, right: NodeView<InternalEntry>, index: nat,
                                entry: InternalEntry)
    requires left.Valid() && right.Valid() && left != right && left.slots != right.slots
    requires 2 <= left.count < NODE_CAPACITY && 1 <= index <= left.count && left.slots[0].key == INT64_MIN
    requires right.count == 0 && right.level == left.level
    modifies left, left.slots, right, right.slots
    ensures left.Valid() && left.Entries() == Inserted(old(left.Entries()), index, entry)
    ensures left.next == old(left.next) && left.level == old(left.level)
  {
    ghost var all := Inserted(left.Entries(), index, entry);
    assert all[0] == left.Entries()[0];
    DealtBack(all, SplitPoint(left.count));
    var sep := SplitInternal(left, right, index, entry);
    MergeInternal(left, right, sep);
  }

  /** RotateInternalRight then RotateInternalLeft, each given the key the other returned. */
  method RotateInternalThereAndBack(left: NodeView<InternalEntry>, right: NodeView<InternalEntry>, separator: Key)
      returns (sep: Key)
    requires left.Valid() && right.Valid() && left != right && left.slots != right.slots
    requires left.count >= 2 && 1 <= right.count < NODE_CAPACITY && left.level == right.level
    requires left.slots[0].key == INT64_MIN && right.slots[0].key == INT64_MIN
    modifies left, left.slots, right, right.slots
    ensures sep == separator
    ensures left.slots[..] == old(left.slots[..]) && right.slots[..] == old(right.slots[..])
    ensures left.count == old(left.count) && right.count == old(right.count)
  {
    hide Joined, Canonical;
    ThereAndBack(left.Entries(), separator, right.Entries());
    var up := RotateInternalRight(left, right, separator);
    sep := RotateInternalLeft(left, right, up);
    SameBody(left);
    SameBody(right);
  }

  lemma LeafThereAndBack(l: seq<LeafEntry>, r: seq<LeafEntry>)
    requires |l| >= 1 && r != []
    ensures var all, n := l + r, |l|;
            all[..n - 1] + all[n - 1..] == all && all[..n] == l && all[n..] == r && all[n] == r[0]
  {
  }

  method RotateLeafThereAndBack(left: NodeView<LeafEntry>, right: NodeView<LeafEntry>) returns (sep: Key)
    requires left.Valid() && right.Valid() && left != right && left.slots != right.slots
    requires left.count >= 2 && 1 <= right.count < NODE_CAPACITY
    modifies left, left.slots, right, right.slots
    ensures sep == old(right.slots[0].key)
    ensures left.slots[..] == old(left.slots[..]) && right.slots[..] == old(right.slots[..])
    ensures left.count == old(left.count) && right.count == old(right.count)
  {
    ghost var l, r := left.Entries(), right.Entries();
    LeafThereAndBack(l, r);
    var s0 := RotateLeafRight(left, right);
    sep := RotateLeafLeft(left, right);
    SameBody(left);
    SameBody(right);
  }
}
