/**
 * The mutable node views: 253 slots and a sub-header, rewritten in place.  Every operation keeps
 * the slots past `count` zero, and each split, rotation and merge goes through a temporary array
 * and Assign.
 */
module NodeViews {
  import opened Common
  import opened Nodes

  class NodeView<E> {
    var level: nat
    var count: nat
    var next: PageId
    const slots: array<E>
    const zero: E

    ghost predicate Valid()
      reads this, slots
    {
      && slots.Length == NODE_CAPACITY
      && count <= NODE_CAPACITY
      && forall i | count <= i < NODE_CAPACITY :: slots[i] == zero
    }

    function Entries(): (es: seq<E>)
      requires Valid()
      reads this, slots
    {
      slots[..count]
    }

    /** A view over a page holding `entries`; an empty one is a freshly initialised node. */
    constructor (level: nat, next: PageId, entries: seq<E>, zero: E)
      requires |entries| <= NODE_CAPACITY
      ensures Valid() && fresh(slots)
      ensures this.level == level && this.next == next && this.zero == zero
      ensures Entries() == entries
    {
      this.level, this.count, this.next, this.zero := level, |entries|, next, zero;
      slots := new E[NODE_CAPACITY](i => if 0 <= i < |entries| then entries[i] else zero);
      new;
      assert slots[..count] == entries;
    }

    /** Inserted, computed backwards in place. */
    method InsertAt(index: nat, entry: E)
      requires Valid() && count < NODE_CAPACITY && index <= count
      modifies this`count, slots
      ensures Valid() && Entries() == Inserted(old(Entries()), index, entry)
    {
      ghost var es := Inserted(Entries(), index, entry);
      forall i | index < i <= count { slots[i] := slots[i - 1]; }
      slots[index] := entry;
      count := count + 1;
      assert |es| == count && forall k | 0 <= k < count :: es[k] == slots[k];
    }

    /** Removed, computed forwards in place; the last live slot becomes zero. */
    method RemoveAt(index: nat)
      requires Valid() && index < count
      modifies this`count, slots
      ensures Valid() && Entries() == Removed(old(Entries()), index)
    {
      ghost var es := Removed(Entries(), index);
      forall i | index <= i < count - 1 { slots[i] := slots[i + 1]; }
      slots[count - 1] := zero;
      count := count - 1;
      assert |es| == count && forall k | 0 <= k < count :: es[k] == slots[k];
    }

    /** Replace the contents by src[from .. from + len) and zero every slot past them. */
    method Assign(src: array<E>, from: nat, len: nat)
      requires slots.Length == NODE_CAPACITY && len <= NODE_CAPACITY
      requires src != slots && from + len <= src.Length
      modifies this`count, slots
      ensures Valid() && Entries() == src[from..from + len]
    {
      for it := 0 to len
        invariant forall k | 0 <= k < it :: slots[k] == src[from + k]
        invariant src[..] == old(src[..])
      {
        slots[it] := src[from + it];
      }
      forall i | len <= i < NODE_CAPACITY { slots[i] := zero; }
      count := len;
    }
  }

  /** Internal nodes write INT64_MIN into slot 0 whatever the source array holds there. */
  method AssignInternal(node: NodeView<InternalEntry>, src: array<InternalEntry>, from: nat, len: nat)
    requires node.slots.Length == NODE_CAPACITY && 1 <= len <= NODE_CAPACITY
    requires src != node.slots && from + len <= src.Length
    modifies node`count, node.slots
    ensures node.Valid() && node.Entries() == Canonical(src[from..from + len])
  {
    node.Assign(src, from, len);
    node.slots[0] := node.slots[0].(key := INT64_MIN);
  }

  /** One key of one slot changes. */
  method SetKeyAt(node: NodeView<InternalEntry>, index: nat, key: Key)
    requires node.Valid() && 1 <= index < node.count
    modifies node.slots
    ensures node.Valid() && node.Entries() == old(node.Entries())[index := InternalEntry(key,
            old(node.slots[index].child))]
  {
    node.slots[index] := node.slots[index].(key := key);
  }

  /** The n + 1 entries of a node about to split, `entry` at `index`, in a temporary array. */
  method WithEntry<E>(node: NodeView<E>, index: nat, entry: E) returns (temp: array<E>)
    requires node.Valid() && index <= node.count
    ensures fresh(temp) && temp.Length == NODE_CAPACITY + 1
    ensures temp[..node.count + 1] == Inserted(node.Entries(), index, entry)
  {
    temp := new E[NODE_CAPACITY + 1](_ => node.zero);
    for it := 0 to index
      invariant forall k | 0 <= k < it :: temp[k] == node.slots[k]
    {
      temp[it] := node.slots[it];
    }
    temp[index] := entry;
    for it := index to node.count
      invariant forall k | 0 <= k < index :: temp[k] == node.slots[k]
      invariant temp[index] == entry
      invariant forall k | index <= k < it :: temp[k + 1] == node.slots[k]
    {
      temp[it + 1] := node.slots[it];
    }
  }

  /** The entries of two nodes side by side in a temporary array. */
  method SideBySide<E>(left: NodeView<E>, right: NodeView<E>) returns (temp: array<E>)
    requires left.Valid() && right.Valid()
    ensures fresh(temp) && temp.Length == 2 * NODE_CAPACITY
    ensures temp[..left.count + right.count] == left.Entries() + right.Entries()
  {
    temp := new E[2 * NODE_CAPACITY](_ => left.zero);
    for it := 0 to left.count
      invariant forall k | 0 <= k < it :: temp[k] == left.slots[k]
    {
      temp[it] := left.slots[it];
    }
    for it := 0 to right.count
      invariant forall k | 0 <= k < left.count :: temp[k] == left.slots[k]
      invariant forall k | 0 <= k < it :: temp[k + left.count] == right.slots[k]
    {
      temp[it + left.count] := right.slots[it];
    }
    forall k | 0 <= k < left.count + right.count ensures temp[k] == (left.Entries() + right.Entries())[k] {
      if k >= left.count { assert temp[k - left.count + left.count] == right.slots[k - left.count]; }
    }
  }

  /** Two internal nodes side by side with the separator brought down between them. */
  method JoinedEntries(left: NodeView<InternalEntry>, right: NodeView<InternalEntry>, separator: Key)
    returns (temp: array<InternalEntry>)
    requires left.Valid() && right.Valid() && right.count >= 1
    ensures fresh(temp) && temp.Length == 2 * NODE_CAPACITY
    ensures temp[..left.count + right.count] == Joined(left.Entries(), separator, right.Entries())
  {
    var n := left.count;
    temp := SideBySide(left, right);
    assert temp[n] == temp[..n + right.count][n];
    temp[n] := temp[n].(key := separator);
  }

  /** Deal `all`, held in `temp`, out to two internal nodes, `cut` entries to the left one. */
  method Deal(left: NodeView<InternalEntry>, right: NodeView<InternalEntry>,
              temp: array<InternalEntry>, cut: nat, total: nat, ghost all: seq<InternalEntry>)
    requires left.Valid() && right.Valid() && left != right && left.slots != right.slots
    requires temp != left.slots && temp != right.slots && total <= temp.Length
    requires 1 <= cut <= NODE_CAPACITY && 1 <= total - cut <= NODE_CAPACITY
    requires temp[..total] == all
    modifies left`count, left.slots, right`count, right.slots
    ensures left.Valid() && right.Valid()
    ensures left.Entries() == Canonical(all[..cut]) && right.Entries() == Canonical(all[cut..])
  {
    assert all[..cut] == temp[0..cut] && all[cut..] == temp[cut..total];
    AssignInternal(left, temp, 0, cut);
    assert temp[cut..total] == all[cut..];
    AssignInternal(right, temp, cut, total - cut);
  }

  /** Both halves of Inserted(...), cut at SplitPoint; `sep` is also the first key of the right half. */
  method SplitLeaf(left: NodeView<LeafEntry>, right: NodeView<LeafEntry>, rightId: PageId,
                   index: nat, entry: LeafEntry) returns (sep: Key)
    requires left.Valid() && right.Valid() && left != right && left.slots != right.slots
    requires 1 <= left.count && index <= left.count && right.count == 0
    modifies left`count, left`next, left.slots, right`count, right`next, right.slots
    ensures left.count == right.count || left.count == right.count + 1
    ensures left.Valid() && right.Valid()
    ensures var all := old(Inserted(left.Entries(), index, entry));
            var m := SplitPoint(old(left.count));
            left.Entries() == all[..m] && right.Entries() == all[m..] && sep == all[m].key
    ensures left.next == rightId && right.next == old(left.next)
  {
    var n := left.count;
    var temp := WithEntry(left, index, entry);
    ghost var all := temp[..n + 1];
    var m := (n + 1 + 1) / 2;
    right.next := left.next;
    left.next := rightId;
    sep := DealLeaves(left, right, temp, m, n + 1, all);
    assert left.count == |all[..m]| && right.count == |all[m..]|;
  }

  /** As SplitLeaf, but Canonical erases `sep` from the right half. */
  method SplitInternal(left: NodeView<InternalEntry>, right: NodeView<InternalEntry>,
                       index: nat, entry: InternalEntry) returns (sep: Key)
    requires left.Valid() && right.Valid() && left != right && left.slots != right.slots
    requires 2 <= left.count && 1 <= index <= left.count
    requires right.count == 0 && right.level == left.level
    modifies left`count, left.slots, right`count, right.slots
    ensures left.count == right.count || left.count == right.count + 1
    ensures left.Valid() && right.Valid()
    ensures var all := old(Inserted(left.Entries(), index, entry));
            var m := SplitPoint(old(left.count));
            left.Entries() == Canonical(all[..m]) && right.Entries() == Canonical(all[m..]) && sep == all[m].key
  {
    var n := left.count;
    var temp := WithEntry(left, index, entry);
    ghost var all := temp[..n + 1];
    var m := (n + 1 + 1) / 2;
    sep := temp[m].key;
    assert all[m] == temp[m];
    Deal(left, right, temp, m, n + 1, all);
    assert left.count == |all[..m]| && right.count == |all[m..]|;
  }

  /** Deal the first `total` entries of temp to the two leaves, cut at `cut`. */
  method DealLeaves(left: NodeView<LeafEntry>, right: NodeView<LeafEntry>,
                    temp: array<LeafEntry>, cut: nat, total: nat, ghost all: seq<LeafEntry>) returns (sep: Key)
    requires left.Valid() && right.Valid() && left != right && left.slots != right.slots
    requires temp != left.slots && temp != right.slots && total <= temp.Length
    requires cut <= NODE_CAPACITY && 1 <= total - cut <= NODE_CAPACITY
    requires temp[..total] == all
    modifies left`count, left.slots, right`count, right.slots
    ensures left.Valid() && right.Valid()
    ensures left.Entries() == all[..cut] && right.Entries() == all[cut..] && sep == all[cut].key
  {
    assert all[..cut] == temp[0..cut] && all[cut..] == temp[cut..total];
    assert all[cut] == temp[cut];
    left.Assign(temp, 0, cut);
    right.Assign(temp, cut, total - cut);
    sep := right.slots[0].key;
    assert sep == right.Entries()[0].key;
  }

  method RotateLeafRight(left: NodeView<LeafEntry>, right: NodeView<LeafEntry>) returns (sep: Key)
    requires left.Valid() && right.Valid() && left != right && left.slots != right.slots
    requires left.count >= 2 && right.count < NODE_CAPACITY
    modifies left`count, left.slots, right`count, right.slots
    ensures left.Valid() && right.Valid()
    ensures var all, n := old(left.Entries()) + old(right.Entries()), old(left.count);
            left.Entries() == all[..n - 1] && right.Entries() == all[n - 1..] && sep == all[n - 1].key
  {
    var n, m := left.count, right.count;
    var temp := SideBySide(left, right);
    sep := DealLeaves(left, right, temp, n - 1, n + m, temp[..n + m]);
  }

  method RotateLeafLeft(left: NodeView<LeafEntry>, right: NodeView<LeafEntry>) returns (sep: Key)
    requires left.Valid() && right.Valid() && left != right && left.slots != right.slots
    requires right.count >= 2 && left.count < NODE_CAPACITY
    modifies left`count, left.slots, right`count, right.slots
    ensures left.Valid() && right.Valid()
    ensures var all, n := old(left.Entries()) + old(right.Entries()), old(left.count);
            left.Entries() == all[..n + 1] && right.Entries() == all[n + 1..] && sep == all[n + 1].key
  {
    var n, m := left.count, right.count;
    var temp := SideBySide(left, right);
    sep := DealLeaves(left, right, temp, n + 1, n + m, temp[..n + m]);
  }

  /** Joined(left, separator, right) dealt one child further left; `up` is the key at the new cut. */
  method RotateInternalRight(left: NodeView<InternalEntry>, right: NodeView<InternalEntry>, separator: Key)
    returns (up: Key)
    requires left.Valid() && right.Valid() && left != right && left.slots != right.slots
    requires left.count >= 2 && 1 <= right.count < NODE_CAPACITY && left.level == right.level
    modifies left`count, left.slots, right`count, right.slots
    ensures left.Valid() && right.Valid()
    ensures var all := Joined(old(left.Entries()), separator, old(right.Entries()));
            var n := old(left.count);
            && left.Entries() == Canonical(all[..n - 1])
            && right.Entries() == Canonical(all[n - 1..])
            && up == all[n - 1].key
  {
    var n, m := left.count, right.count;
    var temp := JoinedEntries(left, right, separator);
    ghost var all := temp[..n + m];
    up := temp[n - 1].key;
    assert all[n - 1] == temp[n - 1];
    Deal(left, right, temp, n - 1, n + m, all);
  }

  method RotateInternalLeft(left: NodeView<InternalEntry>, right: NodeView<InternalEntry>, separator: Key)
    returns (up: Key)
    requires left.Valid() && right.Valid() && left != right && left.slots != right.slots
    requires right.count >= 2 && 1 <= left.count < NODE_CAPACITY && left.level == right.level
    modifies left`count, left.slots, right`count, right.slots
    ensures left.Valid() && right.Valid()
    ensures var all := Joined(old(left.Entries()), separator, old(right.Entries()));
            var n := old(left.count);
            && left.Entries() == Canonical(all[..n + 1])
            && right.Entries() == Canonical(all[n + 1..])
            && up == all[n + 1].key
  {
    var n, m := left.count, right.count;
    var temp := JoinedEntries(left, right, separator);
    ghost var all := temp[..n + m];
    up := temp[n + 1].key;
    assert all[n + 1] == temp[n + 1];
    Deal(left, right, temp, n + 1, n + m, all);
  }

  /** Right's entries are appended and left takes over right's link; right itself is not touched. */
  method MergeLeaf(left: NodeView<LeafEntry>, right: NodeView<LeafEntry>)
    requires left.Valid() && right.Valid() && left != right && left.slots != right.slots
    requires left.count + right.count <= NODE_CAPACITY
    modifies left`count, left`next, left.slots
    ensures left.Valid() && right.Valid()
    ensures left.Entries() == old(left.Entries()) + old(right.Entries())
    ensures left.next == right.next
  {
    var n, m := left.count, right.count;
    var temp := SideBySide(left, right);
    left.Assign(temp, 0, n + m);
    left.next := right.next;
  }

  method MergeInternal(left: NodeView<InternalEntry>, right: NodeView<InternalEntry>, separator: Key)
    requires left.Valid() && right.Valid() && left != right && left.slots != right.slots
    requires left.count >= 1 && right.count >= 1 && left.count + right.count <= NODE_CAPACITY
    requires left.level == right.level
    modifies left`count, left.slots
    ensures left.Valid() && right.Valid()
    ensures left.Entries() == Canonical(Joined(old(left.Entries()), separator, old(right.Entries())))
  {
    var total := left.count + right.count;
    var temp := JoinedEntries(left, right, separator);
    AssignInternal(left, temp, 0, total);
  }
}
