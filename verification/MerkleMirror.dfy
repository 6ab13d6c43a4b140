/** The stored-node tree.  Every level keeps its filled nodes; an insert recomputes one node a
    level, yet each stored node stays equal to the recursive hash of the leaves below it. */
module MerkleMirror {
  import opened MerkleSpec
  import opened Wrappers

  datatype MerklePath = MerklePath(pathElements: seq<int>, pathIndices: nat)

  datatype PathError = IndexOutOfRange

  /** `row` is the stored part of `level` for the tree over `leaves`. */
  ghost predicate RowIs(h: Hash, leaves: seq<int>, level: nat, row: seq<int>)
  {
    && |row| == Width(|leaves|, level)
    && forall i: nat {:trigger row[i]} :: i < |row| ==> row[i] == Node(h, leaves, level, i)
  }

  /** The rows up to `level` are stored. */
  ghost predicate RowsAre(h: Hash, leaves: seq<int>, rows: seq<seq<int>>, level: nat)
  {
    level < |rows| && forall l: nat {:trigger rows[l]} :: l <= level ==> RowIs(h, leaves, l, rows[l])
  }

  lemma {:induction false} RowsAreMore(h: Hash, leaves: seq<int>, rows: seq<seq<int>>, level: nat, row: seq<int>)
    requires RowsAre(h, leaves, rows, level) && level + 1 < |rows| && RowIs(h, leaves, level + 1, row)
    ensures RowsAre(h, leaves, rows[level + 1 := row], level + 1)
  {
  }

  /** JavaScript's `row[i] = x` for an index inside the array or just past its end. */
  function Store(row: seq<int>, i: nat, x: int): seq<int>
    requires i <= |row|
  {
    if i < |row| then row[i := x] else row + [x]
  }

  /** The row one level up after an insert: only the spine node is new. */
  lemma {:induction false} StoreSpineNode(h: Hash, leaves: seq<int>, leaf: int, level: nat, row: seq<int>)
    requires RowIs(h, leaves, level, row)
    ensures Shift(|leaves|, level) <= |row|
    ensures RowIs(h, leaves + [leaf], level,
                  Store(row, Shift(|leaves|, level), Node(h, leaves + [leaf], level, Shift(|leaves|, level))))
  {
    var s := Shift(|leaves|, level);
    WidthAfterInsert(|leaves|, level);
    var next := Store(row, s, Node(h, leaves + [leaf], level, s));
    forall i: nat | i < |next| && i != s ensures next[i] == Node(h, leaves + [leaf], level, i) {
      AppendChangesOnlySpine(h, leaves, leaf, level, i);
    }
  }

  /** Reading a row with the zero table as filler reads the padded tree. */
  lemma {:induction false} RowLookup(h: Hash, leaves: seq<int>, level: nat, row: seq<int>, i: nat)
    requires RowIs(h, leaves, level, row)
    ensures Node(h, leaves, level, i) == if i < |row| then row[i] else Zero(h, level)
  {
    if i >= |row| { NodePastWidthIsZero(h, leaves, level, i); }
  }

  /** Compressing two stored neighbours gives the node above them. */
  lemma {:induction false} ParentIsNode(h: Hash, leaves: seq<int>, level: nat, row: seq<int>, parent: nat)
    requires RowIs(h, leaves, level, row) && 2 * parent < |row|
    ensures Parent(h, level, row, parent) == Node(h, leaves, level + 1, parent)
  {
    RowLookup(h, leaves, level, row, 2 * parent);
    RowLookup(h, leaves, level, row, 2 * parent + 1);
  }

  /** One step of the spine walk: recomputing the parent from the row that is already up to
      date brings the next row up to date. */
  lemma {:induction false} SpineStep(h: Hash, leaves: seq<int>, leaf: int, level: nat, row: seq<int>, above: seq<int>)
    requires RowIs(h, leaves + [leaf], level, row) && RowIs(h, leaves, level + 1, above)
    ensures var parent := Shift(|leaves|, level) / 2;
            && 2 * parent < |row| && parent <= |above|
            && RowIs(h, leaves + [leaf], level + 1, Store(above, parent, Parent(h, level, row, parent)))
  {
    ShiftBelowWidth(|leaves|, |leaves + [leaf]|, level);
    ParentIsNode(h, leaves + [leaf], level, row, Shift(|leaves|, level) / 2);
    StoreSpineNode(h, leaves, leaf, level + 1, above);
  }

  /** The compression of two adjacent stored nodes, the level's zero standing in for a missing right one. */
  function Parent(h: Hash, level: nat, row: seq<int>, parent: nat): int
    requires 2 * parent < |row|
  {
    h.compress(row[2 * parent], if 2 * parent + 1 < |row| then row[2 * parent + 1] else Zero(h, level))
  }

  class MerkleTreeMirror {
    const hash: Hash
    const levels: nat
    const zeros: seq<int>
    /** nodes[0] is the leaf list; the root lives at nodes[levels][0]. */
    var nodes: seq<seq<int>>

    ghost predicate Valid()
      reads this
    {
      && |zeros| == levels + 1
      && (forall l: nat {:trigger zeros[l]} :: l <= levels ==> zeros[l] == Zero(hash, l))
      && |nodes| == levels + 1
      && forall l: nat {:trigger nodes[l]} :: l <= levels ==> RowIs(hash, nodes[0], l, nodes[l])
    }

    function Leaves(): seq<int>
      requires |nodes| > 0
      reads this
    {
      nodes[0]
    }

    constructor (hash: Hash, levels: nat)
      ensures Valid()
      ensures this.hash == hash && this.levels == levels && Leaves() == []
    {
      var zeros := MerkleZeros(hash, levels);
      this.hash := hash;
      this.levels := levels;
      this.zeros := zeros;
      this.nodes := seq(levels + 1, _ => []);
      new;
      forall l: nat | l <= levels ensures RowIs(hash, nodes[0], l, nodes[l]) {
        EmptyRow(hash, l);
      }
    }

    /** Append a leaf and recompute its spine. */
    method Insert(leaf: int) returns (index: nat)
      requires Valid() && |Leaves()| < MAX_LEAVES
      modifies this`nodes
      ensures Valid()
      ensures index == |old(Leaves())|
      ensures Leaves() == old(Leaves()) + [leaf]
    {
      ghost var before := nodes;
      ghost var leaves := nodes[0] + [leaf];
      index := |nodes[0]|;
      nodes := nodes[0 := nodes[0] + [leaf]];
      var i := index;
      for level := 0 to levels
        invariant |nodes| == levels + 1 && nodes[0] == leaves
        invariant i == Shift(index, level)
        invariant RowsAre(hash, leaves, nodes, level)
        invariant forall l: nat :: level < l <= levels ==> nodes[l] == before[l]
      {
        var parent := i / 2;
        var leftIndex := 2 * parent;
        SpineStep(hash, before[0], leaf, level, nodes[level], nodes[level + 1]);
        var left := nodes[level][leftIndex];
        var right := if leftIndex + 1 < |nodes[level]| then nodes[level][leftIndex + 1] else zeros[level];
        assert RowIs(hash, before[0], level + 1, before[level + 1]);
        assert hash.compress(left, right) == Parent(hash, level, nodes[level], parent);
        RowsAreMore(hash, leaves, nodes, level, Store(nodes[level + 1], parent, hash.compress(left, right)));
        nodes := nodes[level + 1 := Store(nodes[level + 1], parent, hash.compress(left, right))];
        i := parent;
      }
    }

    /** Replace all leaves: clear the tree, then re-insert in order. */
    method SetLeaves(next: seq<int>)
      requires Valid() && |next| <= MAX_LEAVES
      modifies this`nodes
      ensures Valid() && Leaves() == next
    {
      nodes := seq(levels + 1, _ => []);
      forall l: nat | l <= levels ensures RowIs(hash, nodes[0], l, nodes[l]) {
        EmptyRow(hash, l);
      }
      for k := 0 to |next|
        invariant Valid() && Leaves() == next[..k]
      {
        var _ := Insert(next[k]);
      }
      assert next[..|next|] == next;
    }

    /** The stored root is the root of the padded leaf list, also when the list is empty. */
    method GetRoot() returns (root: int)
      requires Valid()
      ensures root == Root(hash, Leaves(), levels)
    {
      RowLookup(hash, nodes[0], levels, nodes[levels], 0);
      if |nodes[0]| == 0 {
        assert RowIs(hash, nodes[0], levels, nodes[levels]);
        EmptyRow(hash, levels);
        return zeros[levels];
      }
      ShiftBelowWidth(0, |nodes[0]|, levels);
      return nodes[levels][0];
    }

    /** The stored path is the true path, for every leaf; any other index is refused. */
    method Path(index: int) returns (r: Result<MerklePath, PathError>)
      requires Valid()
      ensures r == if 0 <= index < |Leaves()| then Success(MerklePath(TruePath(hash, Leaves(), levels, index), index))
                   else Failure(IndexOutOfRange)
    {
      if index < 0 || index >= |nodes[0]| {
        return Failure(IndexOutOfRange);
      }
      var pathElements := [];
      var i: nat := index;
      for level := 0 to levels
        invariant i == Shift(index, level)
        invariant |pathElements| == level
        invariant SiblingsUpTo(hash, nodes[0], index, pathElements, level)
      {
        var sibling := if i % 2 == 0 then i + 1 else i - 1;
        RowLookup(hash, nodes[0], level, nodes[level], sibling);
        pathElements := pathElements + [if sibling < |nodes[level]| then nodes[level][sibling] else zeros[level]];
        i := i / 2;
      }
      assert pathElements == TruePath(hash, nodes[0], levels, index);
      return Success(MerklePath(pathElements, index));
    }
  }

  lemma {:induction false} EmptyRow(h: Hash, level: nat)
    ensures RowIs(h, [], level, []) && Width(0, level) == 0
  {
    if level == 0 {
    } else {
      EmptyRow(h, level - 1);
    }
  }

  /** The zero table of a tree of the given height. */
  method MerkleZeros(h: Hash, levels: nat) returns (zeros: seq<int>)
    ensures |zeros| == levels + 1
    ensures forall l: nat {:trigger zeros[l]} :: l <= levels ==> zeros[l] == Zero(h, l)
  {
    zeros := [h.zeroLeaf];
    for i := 0 to levels
      invariant |zeros| == i + 1
      invariant forall l: nat {:trigger zeros[l]} :: l <= i ==> zeros[l] == Zero(h, l)
    {
      zeros := zeros + [h.compress(zeros[i], zeros[i])];
    }
  }
}
