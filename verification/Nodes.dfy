/**
 * B+tree node pages: what a page holds (`Page`, the read-only view), the two binary searches, and
 * the splits, rotations and merges as functions on entry sequences.  `NodeViews` proves that the
 * in-place code computes these functions.
 */
module Nodes {
  import opened Common

  const INT64_MIN: int := -0x8000_0000_0000_0000
  const INT64_MAX: int := 0x7fff_ffff_ffff_ffff
  type Key = k: int | INT64_MIN <= k <= INT64_MAX

  const NODE_SUB_HEADER_SIZE: nat := 8
  const NODE_ENTRY_SIZE: nat := 16
  const NODE_CAPACITY: nat := (PAGE_BODY_SIZE - NODE_SUB_HEADER_SIZE) / NODE_ENTRY_SIZE
  const MIN_FANOUT: nat := 3

  predicate FanoutInRange(max: nat) { MIN_FANOUT <= max <= NODE_CAPACITY }

  /** Occupancy floors of a non-root node: half of a leaf rounded down, half of a node rounded up. */
  function LeafMinEntries(leafMax: nat): (n: nat)
    ensures 2 * n <= leafMax <= 2 * n + 1
  {
    leafMax / 2
  }

  function InternalMinChildren(internalMax: nat): (n: nat)
    ensures internalMax <= 2 * n <= internalMax + 1
  {
    (internalMax + 1) / 2
  }

  /** What the source fixes at compile time: the capacity of a page, and that at this capacity and at the
      least fanout, halves are legal and two nodes at their floors fit in one after a deletion. */
  lemma NodeNumbers()
    ensures NODE_CAPACITY == 253 && NODE_SUB_HEADER_SIZE + 253 * NODE_ENTRY_SIZE <= PAGE_BODY_SIZE == 4064
    ensures LeafMinEntries(253) == 126 && InternalMinChildren(253) == 127 && InternalMinChildren(3) == 2
    ensures FanoutInRange(3) && FanoutInRange(253) && !FanoutInRange(2) && !FanoutInRange(254)
    ensures forall max: nat | FanoutInRange(max) ::
              && LeafMinEntries(max) + LeafMinEntries(max) - 1 < max
              && 2 * InternalMinChildren(max) - 1 <= max && InternalMinChildren(max) >= 2
  {
  }

  datatype LeafEntry = LeafEntry(key: Key, rid: RID)
  datatype InternalEntry = InternalEntry(key: Key, child: PageId)

  /** What a slot past `count` holds: all-zero bytes. */
  const ZERO_LEAF_ENTRY := LeafEntry(0, RID(0, 0))
  const ZERO_INTERNAL_ENTRY := InternalEntry(0, 0)

  /**
   * A page as the index layer sees it.  `entries` are the first `count` slots, so `|entries|` is
   * the stored count.  Slot 0 of an internal node holds a child and no separator.
   */
  datatype Page =
    | LeafPage(level: nat, next: PageId, leafEntries: seq<LeafEntry>)
    | InternalPage(level: nat, next: PageId, entries: seq<InternalEntry>)
    | HeaderPage(root: PageId, height: nat, leafMax: nat, internalMax: nat)
    | OtherPage

  ghost predicate SortedLeaf(es: seq<LeafEntry>) {
    forall i, j | 0 <= i < j < |es| :: es[i].key < es[j].key
  }

  /** Separators only: slot 0's key takes no part. */
  ghost predicate SortedSeparators(es: seq<InternalEntry>) {
    forall i, j | 1 <= i < j < |es| :: es[i].key < es[j].key
  }

  ghost predicate IsLowerBound(es: seq<LeafEntry>, key: Key, i: nat) {
    && i <= |es|
    && (forall j | 0 <= j < i :: es[j].key < key)
    && (forall j | i <= j < |es| :: key <= es[j].key)
  }

  ghost predicate IsChildIndex(es: seq<InternalEntry>, key: Key, c: nat) {
    && c < |es|
    && (forall j | 1 <= j <= c :: es[j].key <= key)
    && (forall j | c < j < |es| :: key < es[j].key)
  }

  /** How many leading entries are below `key`: the specification of LowerBound. */
  function LowerIndex(es: seq<LeafEntry>, key: Key): (i: nat)
    ensures i <= |es|
    ensures forall j | 0 <= j < i :: es[j].key < key
    ensures i < |es| ==> key <= es[i].key
  {
    if es == [] || key <= es[0].key then 0 else 1 + LowerIndex(es[1..], key)
  }

  /** The last child whose separator is at or below `key`: the specification of ChildIndexFor. */
  function ChildIndex(es: seq<InternalEntry>, key: Key): (c: nat)
    ensures c == 0 || c < |es|
    ensures c == 0 || es[c].key <= key
    ensures forall j | c < j < |es| :: key < es[j].key
  {
    if |es| <= 1 then 0
    else if es[|es| - 1].key <= key then |es| - 1
    else ChildIndex(es[..|es| - 1], key)
  }

  method LowerBound(es: seq<LeafEntry>, key: Key) returns (lo: nat)
    ensures lo <= |es|
    ensures SortedLeaf(es) ==> lo == LowerIndex(es, key) && IsLowerBound(es, key, lo)
  {
    lo := 0;
    var hi := |es|;
    while lo < hi
      invariant 0 <= lo <= hi <= |es|
      invariant SortedLeaf(es) ==> forall j | 0 <= j < lo :: es[j].key < key
      invariant SortedLeaf(es) ==> forall j | hi <= j < |es| :: key <= es[j].key
    {
      var mid := lo + (hi - lo) / 2;
      if es[mid].key < key {
        lo := mid + 1;
      } else {
        hi := mid;
      }
    }
    ghost var spec := LowerIndex(es, key);
    assert lo < spec ==> es[lo].key < key;
  }

  /** An empty node answers 0, which its caller may not then use as an index. */
  method ChildIndexFor(es: seq<InternalEntry>, key: Key) returns (c: nat)
    ensures c == 0 || c < |es|
    ensures SortedSeparators(es) ==> c == ChildIndex(es, key)
    ensures SortedSeparators(es) && es != [] ==> IsChildIndex(es, key, c)
  {
    var low, high := 1, |es|;
    while low < high
      invariant 1 <= low && (low <= high <= |es| || low == 1)
      invariant high <= |es|
      invariant SortedSeparators(es) ==> forall j | 1 <= j < low :: es[j].key <= key
      invariant SortedSeparators(es) ==> forall j | high <= j < |es| :: j >= 1 ==> key < es[j].key
    {
      var mid := low + (high - low) / 2;
      if es[mid].key <= key {
        low := mid + 1;
      } else {
        high := mid;
      }
    }
    c := low - 1;
    ghost var spec := ChildIndex(es, key);
    assert spec < c ==> key < es[c].key;
  }

  // ---------- structural operations on entry sequences ----------

  function Inserted<T>(s: seq<T>, i: nat, e: T): seq<T>
    requires i <= |s|
  {
    s[..i] + [e] + s[i..]
  }

  function Removed<T>(s: seq<T>, i: nat): seq<T>
    requires i < |s|
  {
    s[..i] + s[i + 1..]
  }

  /** Where a split of a node holding `n` entries cuts the n + 1 result: the left half is as long as the
      right one, or one longer. */
  function SplitPoint(n: nat): (m: nat)
    ensures n + 1 <= 2 * m <= n + 2
  {
    (n + 2) / 2
  }

  /** Assign's rewriting of the unread slot: slot 0 always carries INT64_MIN. */
  function Canonical(es: seq<InternalEntry>): (r: seq<InternalEntry>)
    ensures |r| == |es|
  {
    if es == [] then es else es[0 := es[0].(key := INT64_MIN)]
  }

  /** The entries of two adjacent internal nodes, with the separator brought down between them. */
  function Joined(left: seq<InternalEntry>, sep: Key, right: seq<InternalEntry>): (r: seq<InternalEntry>)
    requires right != []
    ensures |r| == |left| + |right|
  {
    left + right[0 := right[0].(key := sep)]
  }

  // ---------- node-local checks ----------

  /** What a leaf must be for searching, splitting and linking; the row addresses take no part. */
  ghost predicate LeafShapeOk(p: Page)
    requires p.LeafPage?
  {
    && |p.leafEntries| <= NODE_CAPACITY
    && p.level == 0
    && (p.next == INVALID_PAGE || IsDataPage(p.next))
    && SortedLeaf(p.leafEntries)
  }

  ghost predicate RidsValid(es: seq<LeafEntry>) {
    forall i | 0 <= i < |es| :: es[i].rid.IsValid()
  }

  /** What `CheckInvariants` of a leaf promises, stated over all pairs of entries. */
  ghost predicate LeafNodeOk(p: Page)
    requires p.LeafPage?
  {
    LeafShapeOk(p) && RidsValid(p.leafEntries)
  }

  ghost predicate InternalNodeOk(p: Page)
    requires p.InternalPage?
  {
    && |p.entries| <= NODE_CAPACITY
    && p.level >= 1
    && p.next == INVALID_PAGE
    && (forall i | 0 <= i < |p.entries| :: IsDataPage(p.entries[i].child))
    && (p.entries != [] ==> p.entries[0].key == INT64_MIN)
    && (forall i, j | 0 <= i < j < |p.entries| :: p.entries[i].key < p.entries[j].key)
  }

  lemma RidsValidConcat(a: seq<LeafEntry>, b: seq<LeafEntry>)
    ensures RidsValid(a + b) <==> RidsValid(a) && RidsValid(b)
  {
    if RidsValid(a + b) {
      assert forall i | 0 <= i < |a| :: a[i] == (a + b)[i];
      assert forall i | 0 <= i < |b| :: b[i] == (a + b)[|a| + i];
    }
  }

  method CheckLeafNode(p: Page) returns (ok: bool)
    requires p.LeafPage?
    ensures ok <==> LeafNodeOk(p)
  {
    if |p.leafEntries| > NODE_CAPACITY { return false; }
    if p.level != 0 { return false; }
    if p.next != INVALID_PAGE && p.next <= CATALOG_ROOT_PAGE_ID { return false; }
    var es := p.leafEntries;
    for i := 0 to |es|
      invariant forall k | 0 <= k < i :: es[k].rid.IsValid()
      invariant forall j, k | 0 <= j < k < i :: es[j].key < es[k].key
    {
      if !es[i].rid.IsValid() { return false; }
      if i > 0 && es[i - 1].key >= es[i].key { return false; }
    }
    return true;
  }

  method CheckInternalNode(p: Page) returns (ok: bool)
    requires p.InternalPage?
    ensures ok <==> InternalNodeOk(p)
  {
    if |p.entries| > NODE_CAPACITY { return false; }
    if p.level < 1 { return false; }
    if p.next != INVALID_PAGE { return false; }
    var es := p.entries;
    var prev := INT64_MIN;
    for i := 0 to |es|
      invariant forall k | 0 <= k < i :: IsDataPage(es[k].child)
      invariant if i == 0 then prev == INT64_MIN else es[0].key == INT64_MIN && prev == es[i - 1].key
      invariant forall j, k | 0 <= j < k < i :: es[j].key < es[k].key
    {
      if es[i].child == INVALID_PAGE || es[i].child <= CATALOG_ROOT_PAGE_ID { return false; }
      if i == 0 {
        if es[i].key != INT64_MIN { return false; }
      } else {
        if es[i].key <= prev { return false; }
        prev := es[i].key;
      }
    }
    return true;
  }
}
