/** The one definition every Merkle representation in the SDK has to agree with:
    the recursive hash of a leaf sequence that is padded with the zero leaf.

    Nodes are addressed by (level, index); leaf `i` lies under node
    `Shift(i, level)` of level `level`. */
module MerkleSpec {
  import opened Arithmetic

  /** The two-to-one compression is a parameter: every theorem below holds for every
      compression function and every zero leaf. */
  datatype Hash = Hash(compress: (int, int) -> int, zeroLeaf: int)

  /** JavaScript's `>>`, `^` and `&` are 32-bit; on indices below this bound they are
      division, sibling and parity of natural numbers. */
  const MAX_LEAVES := 0x8000_0000

  function Pow2(n: nat): (r: nat)
    ensures r >= 1
  {
    if n == 0 then 1 else 2 * Pow2(n - 1)
  }

  /** `index >> level` */
  function Shift(index: nat, level: nat): (r: nat)
    ensures r <= index
  {
    if level == 0 then index else Shift(index, level - 1) / 2
  }

  /** The number of nodes a tree of `n` leaves stores at `level`. */
  function Width(n: nat, level: nat): nat
  {
    if level == 0 then n else (Width(n, level - 1) + 1) / 2
  }

  /** `index ^ 1` */
  function Sibling(index: nat): nat
  {
    if index % 2 == 0 then index + 1 else index - 1
  }

  /** The zero table: the root of an empty tree of each height. */
  function Zero(h: Hash, level: nat): int
  {
    if level == 0 then h.zeroLeaf else h.compress(Zero(h, level - 1), Zero(h, level - 1))
  }

  function Node(h: Hash, leaves: seq<int>, level: nat, index: nat): int
  {
    if level == 0 then
      if index < |leaves| then leaves[index] else h.zeroLeaf
    else
      h.compress(Node(h, leaves, level - 1, 2 * index), Node(h, leaves, level - 1, 2 * index + 1))
  }

  function Root(h: Hash, leaves: seq<int>, levels: nat): int
  {
    Node(h, leaves, levels, 0)
  }

  /** The node beside the ancestor of leaf `index` at `level`. */
  function TrueSibling(h: Hash, leaves: seq<int>, index: nat, level: nat): int
  {
    Node(h, leaves, level, Sibling(Shift(index, level)))
  }

  /** The authentication path of leaf `index`: its sibling at every level. */
  function TruePath(h: Hash, leaves: seq<int>, levels: nat, index: nat): (path: seq<int>)
    ensures |path| == levels
  {
    seq(levels, level requires 0 <= level < levels => TrueSibling(h, leaves, index, level))
  }

  /** One step of a path fold: `sibling` goes to the left of `current` below an odd index. */
  function Combine(h: Hash, index: nat, sibling: int, current: int): int
  {
    if index % 2 == 1 then h.compress(sibling, current) else h.compress(current, sibling)
  }

  /** The value a fold of `path` has reached after its first `level` siblings. */
  function FoldTo(h: Hash, value: int, index: nat, path: seq<int>, level: nat): int
    requires level <= |path|
  {
    if level == 0 then value
    else Combine(h, Shift(index, level - 1), path[level - 1], FoldTo(h, value, index, path, level - 1))
  }

  function Fold(h: Hash, value: int, index: nat, path: seq<int>): int
  {
    FoldTo(h, value, index, path, |path|)
  }

  // ----- index arithmetic -----

  lemma {:induction false} ShiftIsDivision(index: nat, level: nat)
    ensures Shift(index, level) == index / Pow2(level)
  {
    if level == 0 {
    } else {
      ShiftIsDivision(index, level - 1);
      DivideTwice(index, Pow2(level - 1));
    }
  }

  /** A level of a tree of `n` leaves holds ceil(n / 2^level) nodes. */
  lemma {:induction false} WidthIsCeiling(n: nat, level: nat)
    ensures Width(n, level) == (n + Pow2(level) - 1) / Pow2(level)
  {
    if level == 0 {
    } else {
      var p := Pow2(level - 1);
      WidthIsCeiling(n, level - 1);
      assert Width(n, level) == ((n + p - 1) / p + 1) / 2;
      DivisionShift(n + p - 1, p);
      DivideTwice(n + 2 * p - 1, p);
    }
  }

  /** Inserting leaf `n` adds a node at exactly those levels where the spine leaves the stored part. */
  lemma {:induction false} WidthAfterInsert(n: nat, level: nat)
    ensures Shift(n, level) <= Width(n, level) <= Shift(n, level) + 1
    ensures Width(n + 1, level) == if Shift(n, level) == Width(n, level) then Width(n, level) + 1 else Width(n, level)
  {
    if level == 0 {
    } else {
      WidthAfterInsert(n, level - 1);
    }
  }

  lemma {:induction false} WidthMonotone(m: nat, n: nat, level: nat)
    requires m <= n
    ensures Width(m, level) <= Width(n, level)
  {
    if level == 0 {
    } else {
      WidthMonotone(m, n, level - 1);
    }
  }

  lemma {:induction false} ShiftBelowWidth(index: nat, n: nat, level: nat)
    requires index < n
    ensures Shift(index, level) < Width(n, level)
  {
    WidthAfterInsert(index, level);
    WidthMonotone(index + 1, n, level);
  }

  /** Within capacity the whole tree lies under node 0 of the top level. */
  lemma {:induction false} ShiftWithinCapacity(index: nat, levels: nat)
    ensures Shift(index, levels) == 0 <==> index < Pow2(levels)
  {
    ShiftIsDivision(index, levels);
    QuotientZero(index, Pow2(levels));
  }

  // ----- the padded tree -----

  /** Nodes past the stored width are the zero table's. */
  lemma {:induction false} NodePastWidthIsZero(h: Hash, leaves: seq<int>, level: nat, index: nat)
    requires index >= Width(|leaves|, level)
    ensures Node(h, leaves, level, index) == Zero(h, level)
  {
    if level == 0 {
    } else {
      NodePastWidthIsZero(h, leaves, level - 1, 2 * index);
      NodePastWidthIsZero(h, leaves, level - 1, 2 * index + 1);
    }
  }

  /** Appending a leaf changes only the nodes on its spine. */
  lemma {:induction false} AppendChangesOnlySpine(h: Hash, leaves: seq<int>, leaf: int, level: nat, index: nat)
    requires index != Shift(|leaves|, level)
    ensures Node(h, leaves + [leaf], level, index) == Node(h, leaves, level, index)
  {
    if level == 0 {
    } else {
      AppendChangesOnlySpine(h, leaves, leaf, level - 1, 2 * index);
      AppendChangesOnlySpine(h, leaves, leaf, level - 1, 2 * index + 1);
    }
  }

  /** Every element of `path` up to `level` is the sibling the tree has there. */
  ghost predicate SiblingsUpTo(h: Hash, leaves: seq<int>, index: nat, path: seq<int>, level: nat)
    requires level <= |path|
  {
    forall l: nat {:trigger path[l]} :: l < level ==> path[l] == TrueSibling(h, leaves, index, l)
  }

  lemma {:induction false} ParentOnPath(h: Hash, leaves: seq<int>, index: nat, level: nat)
    ensures Combine(h, Shift(index, level), TrueSibling(h, leaves, index, level),
            Node(h, leaves, level, Shift(index, level)))
            == Node(h, leaves, level + 1, Shift(index, level + 1))
  {
  }

  /** Folding true siblings passes through exactly the ancestors of the leaf. */
  lemma {:induction false} SiblingsFoldToAncestor(h: Hash, leaves: seq<int>, index: nat, path: seq<int>, level: nat)
    requires level <= |path| && SiblingsUpTo(h, leaves, index, path, level)
    ensures FoldTo(h, Node(h, leaves, 0, index), index, path, level) == Node(h, leaves, level, Shift(index, level))
  {
    if level == 0 {
    } else {
      SiblingsFoldToAncestor(h, leaves, index, path, level - 1);
      ParentOnPath(h, leaves, index, level - 1);
      assert path[level - 1] == TrueSibling(h, leaves, index, level - 1);
    }
  }

  lemma {:induction false} TruePathFoldsToAncestor(h: Hash, leaves: seq<int>, levels: nat, index: nat)
    ensures Fold(h, Node(h, leaves, 0, index), index, TruePath(h, leaves, levels, index))
         == Node(h, leaves, levels, Shift(index, levels))
  {
    SiblingsFoldToAncestor(h, leaves, index, TruePath(h, leaves, levels, index), levels);
  }

  /** The path of every leaf within capacity folds to the root. */
  lemma {:induction false} TruePathFoldsToRoot(h: Hash, leaves: seq<int>, levels: nat, index: nat)
    requires index < |leaves|
    requires index < Pow2(levels)
    ensures Fold(h, leaves[index], index, TruePath(h, leaves, levels, index)) == Root(h, leaves, levels)
  {
    TruePathFoldsToAncestor(h, leaves, levels, index);
    ShiftWithinCapacity(index, levels);
  }
}
