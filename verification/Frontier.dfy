/** The on-chain frontier: next index, last filled subtree per level, zero table, root.

    Replaying appends on it is the contract's own O(levels) insertion; this module proves
    that it always describes the padded tree, and that the witnesses read off it, for newly
    appended leaves and for the latest leaf, are those of the stored-node tree. */
module Frontier {
  import opened MerkleSpec
  import opened MerkleBinding
  import opened Wrappers

  datatype Frontier = Frontier(nextIndex: int, root: int, filledSubtrees: seq<int>, zeroes: seq<int>)

  datatype Witness = Witness(leafIndex: nat, pathElements: seq<int>, pathIndices: nat, root: int)

  datatype WitnessError =
    | IncompleteFrontier
    | InvalidNextIndex
    | NoInsertedLeaves
    | LeafOutsideLiveTree
    | CommitmentMismatch
    | MissingSibling(level: nat)
    | NotTheLiveRoot

  function EvenDown(x: nat): nat
  {
    x - x % 2
  }

  /** The index at `level` of the subtree that the frontier of `n` leaves has stored there. */
  function FilledIndex(n: nat, level: nat): nat
    requires n > 0
  {
    EvenDown(Shift(n - 1, level))
  }

  /** The hash of the subtree that the frontier of `leaves` has stored at `level`. */
  function StoredSubtree(h: Hash, leaves: seq<int>, level: nat): int
    requires |leaves| > 0
  {
    Node(h, leaves, level, FilledIndex(|leaves|, level))
  }

  /** `filled` and `zeroes` are the frontier of the tree over `leaves`; before the first
      leaf nothing is stored yet. */
  ghost predicate FillsLevels(h: Hash, levels: nat, leaves: seq<int>, filled: seq<int>, zeroes: seq<int>)
  {
    && |filled| >= levels && |zeroes| >= levels
    && (forall l: nat {:trigger zeroes[l]} :: l < levels ==> zeroes[l] == Zero(h, l))
    && (|leaves| > 0 ==> forall l: nat {:trigger filled[l]} :: l < levels ==> filled[l] == StoredSubtree(h, leaves, l))
  }

  ghost predicate Describes(h: Hash, levels: nat, f: Frontier, leaves: seq<int>)
  {
    && f.nextIndex == |leaves|
    && FillsLevels(h, levels, leaves, f.filledSubtrees, f.zeroes)
    && f.root == Root(h, leaves, levels)
  }

  // ----- one append, as the contract does it -----

  /** The sibling an append meets at `level`: the zero to its right or the stored subtree to its left. */
  function SpineSibling(n: nat, filled: seq<int>, zeroes: seq<int>, level: nat): int
    requires level < |filled| && level < |zeroes|
  {
    if Shift(n, level) % 2 == 0 then zeroes[level] else filled[level]
  }

  function SpineSiblings(n: nat, filled: seq<int>, zeroes: seq<int>, levels: nat): (path: seq<int>)
    requires levels <= |filled| && levels <= |zeroes|
    ensures |path| == levels
  {
    seq(levels, l requires 0 <= l < levels => SpineSibling(n, filled, zeroes, l))
  }

  /** The node an append has computed when it reaches `level`. */
  function Spine(h: Hash, n: nat, filled: seq<int>, zeroes: seq<int>, leaf: int, levels: nat, level: nat): int
    requires level <= levels <= |filled| && levels <= |zeroes|
  {
    FoldTo(h, leaf, n, SpineSiblings(n, filled, zeroes, levels), level)
  }

  /** What an append leaves stored at `level`: it stores the spine wherever it passed on the left. */
  function Refilled(h: Hash, n: nat, filled: seq<int>, zeroes: seq<int>, leaf: int, levels: nat, level: nat): int
    requires level < |filled| && levels <= |filled| && levels <= |zeroes|
  {
    if level < levels && Shift(n, level) % 2 == 0 then Spine(h, n, filled, zeroes, leaf, levels, level)
      else filled[level]
  }

  function Refill(h: Hash, n: nat, filled: seq<int>, zeroes: seq<int>, leaf: int, levels: nat): (r: seq<int>)
    requires levels <= |filled| && levels <= |zeroes|
    ensures |r| == |filled|
  {
    seq(|filled|, l requires 0 <= l < |filled| => Refilled(h, n, filled, zeroes, leaf, levels, l))
  }

  /** The contract's insertion of one leaf. */
  function Append(h: Hash, levels: nat, f: Frontier, leaf: int): Frontier
    requires f.nextIndex >= 0 && |f.filledSubtrees| >= levels && |f.zeroes| >= levels
  {
    Frontier(f.nextIndex + 1, Spine(h, f.nextIndex, f.filledSubtrees, f.zeroes, leaf, levels, levels),
             Refill(h, f.nextIndex, f.filledSubtrees, f.zeroes, leaf, levels), f.zeroes)
  }

  /** Incrementing an index moves its ancestor by at most one. */
  lemma {:induction false} ShiftStep(i: nat, level: nat)
    ensures Shift(i, level) <= Shift(i + 1, level) <= Shift(i, level) + 1
  {
    if level == 0 {
    } else {
      ShiftStep(i, level - 1);
    }
  }

  /** Left of an odd spine node lies the subtree that the frontier of `n` leaves has stored. */
  lemma {:induction false} StoredLeftOfSpine(n: nat, level: nat)
    requires Shift(n, level) % 2 == 1
    ensures n > 0 && FilledIndex(n, level) == Shift(n, level) - 1
  {
    ShiftStep(n - 1, level);
  }

  /** Below the spine's right edge everything is still empty, and its left sibling is the stored subtree. */
  lemma {:induction false} SpineSiblingIsTrue(
      h: Hash, levels: nat, leaves: seq<int>, filled: seq<int>, zeroes: seq<int>, leaf: int,
      l: nat)
    requires FillsLevels(h, levels, leaves, filled, zeroes) && l < levels
    ensures Node(h, leaves + [leaf], l, Sibling(Shift(|leaves|, l)))
         == SpineSibling(|leaves|, filled, zeroes, l)
  {
    var n := |leaves|;
    var s := Shift(n, l);
    if s % 2 == 0 {
      WidthAfterInsert(n, l);
      NodePastWidthIsZero(h, leaves + [leaf], l, s + 1);
    } else {
      StoredLeftOfSpine(n, l);
      assert filled[l] == Node(h, leaves, l, s - 1);
      AppendChangesOnlySpine(h, leaves, leaf, l, s - 1);
    }
  }

  /** The spine values of an append are the ancestors of the new leaf. */
  lemma {:induction false} SpineIsAncestor(
      h: Hash, levels: nat, leaves: seq<int>, filled: seq<int>, zeroes: seq<int>, leaf: int,
      level: nat)
    requires FillsLevels(h, levels, leaves, filled, zeroes) && level <= levels
    ensures SiblingsUpTo(h, leaves + [leaf], |leaves|, SpineSiblings(|leaves|, filled, zeroes, levels), levels)
    ensures Spine(h, |leaves|, filled, zeroes, leaf, levels, level)
            == Node(h, leaves + [leaf], level, Shift(|leaves|, level))
  {
    var path := SpineSiblings(|leaves|, filled, zeroes, levels);
    forall l: nat | l < levels ensures path[l] == TrueSibling(h, leaves + [leaf], |leaves|, l) {
      SpineSiblingIsTrue(h, levels, leaves, filled, zeroes, leaf, l);
    }
    SiblingsFoldToAncestor(h, leaves + [leaf], |leaves|, path, level);
  }

  /** An append keeps the frontier a frontier of the longer leaf list. */
  lemma {:induction false} RefillFillsLevels(
      h: Hash, levels: nat, leaves: seq<int>, filled: seq<int>, zeroes: seq<int>, leaf: int)
    requires FillsLevels(h, levels, leaves, filled, zeroes)
    ensures FillsLevels(h, levels, leaves + [leaf], Refill(h, |leaves|, filled, zeroes, leaf, levels), zeroes)
  {
    var after := Refill(h, |leaves|, filled, zeroes, leaf, levels);
    forall l: nat | l < levels ensures after[l] == StoredSubtree(h, leaves + [leaf], l) {
      RefillAt(h, levels, leaves, filled, zeroes, leaf, l);
    }
  }

  lemma {:induction false} RefillAt(
      h: Hash, levels: nat, leaves: seq<int>, filled: seq<int>, zeroes: seq<int>, leaf: int,
      l: nat)
    requires FillsLevels(h, levels, leaves, filled, zeroes) && l < levels
    ensures Refill(h, |leaves|, filled, zeroes, leaf, levels)[l]
         == Node(h, leaves + [leaf], l, EvenDown(Shift(|leaves|, l)))
  {
    var s := Shift(|leaves|, l);
    if s % 2 == 0 {
      SpineIsAncestor(h, levels, leaves, filled, zeroes, leaf, l);
    } else {
      StoredLeftOfSpine(|leaves|, l);
      assert filled[l] == Node(h, leaves, l, s - 1);
      AppendChangesOnlySpine(h, leaves, leaf, l, s - 1);
    }
  }

  /** The frontier invariant: within capacity, every append takes a frontier of `leaves` to the
      frontier of the longer list, root included. */
  lemma {:induction false} AppendDescribes(h: Hash, levels: nat, f: Frontier, leaves: seq<int>, leaf: int)
    requires Describes(h, levels, f, leaves) && |leaves| < Pow2(levels)
    ensures Describes(h, levels, Append(h, levels, f, leaf), leaves + [leaf])
  {
    RefillFillsLevels(h, levels, leaves, f.filledSubtrees, f.zeroes, leaf);
    SpineIsAncestor(h, levels, leaves, f.filledSubtrees, f.zeroes, leaf, levels);
    ShiftWithinCapacity(|leaves|, levels);
  }

  /** A whole run of appends. */
  function AppendAll(h: Hash, levels: nat, f: Frontier, leaves: seq<int>): (r: Frontier)
    requires f.nextIndex >= 0 && |f.filledSubtrees| >= levels && |f.zeroes| >= levels
    ensures r.nextIndex == f.nextIndex + |leaves| && |r.filledSubtrees| >= levels && r.zeroes == f.zeroes
    decreases |leaves|
  {
    if |leaves| == 0 then f
    else Append(h, levels, AppendAll(h, levels, f, leaves[..|leaves| - 1]), leaves[|leaves| - 1])
  }

  /** The empty tree's frontier; the filled subtrees of a fresh contract are never read. */
  ghost predicate IsFresh(h: Hash, levels: nat, f: Frontier)
  {
    Describes(h, levels, f, [])
  }

  /** A run of appends keeps the stored subtrees those of the leaves so far. */
  lemma {:induction false} RunFillsLevels(h: Hash, levels: nat, f: Frontier, leaves: seq<int>, more: seq<int>)
    requires f.nextIndex == |leaves| && FillsLevels(h, levels, leaves, f.filledSubtrees, f.zeroes)
    ensures FillsLevels(h, levels, leaves + more, AppendAll(h, levels, f, more).filledSubtrees, f.zeroes)
    decreases |more|
  {
    if |more| == 0 {
      assert leaves + more == leaves;
    } else {
      var init, last := more[..|more| - 1], more[|more| - 1];
      var before := AppendAll(h, levels, f, init);
      RunFillsLevels(h, levels, f, leaves, init);
      RefillFillsLevels(h, levels, leaves + init, before.filledSubtrees, f.zeroes, last);
      assert leaves + more == (leaves + init) + [last];
    }
  }

  /** Every frontier reachable from a fresh one within capacity describes exactly the leaves inserted. */
  lemma {:induction false} ReachableFrontierDescribes(h: Hash, levels: nat, f: Frontier, leaves: seq<int>)
    requires IsFresh(h, levels, f) && |leaves| <= Pow2(levels)
    ensures Describes(h, levels, AppendAll(h, levels, f, leaves), leaves)
  {
    if |leaves| == 0 {
    } else {
      var init, last := leaves[..|leaves| - 1], leaves[|leaves| - 1];
      ReachableFrontierDescribes(h, levels, f, init);
      AppendDescribes(h, levels, AppendAll(h, levels, f, init), init, last);
      assert init + [last] == leaves;
    }
  }

  // ----- witnesses of leaves about to be appended -----

  /** The witness a leaf has in the tree that ends with it. */
  function TailWitness(h: Hash, levels: nat, leaves: seq<int>): Witness
    requires |leaves| > 0
  {
    var i := |leaves| - 1;
    Witness(i, TruePath(h, leaves, levels, i), i, Node(h, leaves, levels, Shift(i, levels)))
  }

  /** What one append on a frontier yields. */
  function AppendWitness(h: Hash, levels: nat, f: Frontier, leaf: int): Witness
    requires f.nextIndex >= 0 && |f.filledSubtrees| >= levels && |f.zeroes| >= levels
  {
    Witness(f.nextIndex, SpineSiblings(f.nextIndex, f.filledSubtrees, f.zeroes, levels), f.nextIndex,
            Spine(h, f.nextIndex, f.filledSubtrees, f.zeroes, leaf, levels, levels))
  }

  /** On a true frontier, what one append yields is the witness of the longer tree. */
  lemma {:induction false} AppendYieldsTailWitness(h: Hash, levels: nat, leaves: seq<int>, f: Frontier, leaf: int)
    requires f.nextIndex == |leaves| && FillsLevels(h, levels, leaves, f.filledSubtrees, f.zeroes)
    ensures AppendWitness(h, levels, f, leaf) == TailWitness(h, levels, leaves + [leaf])
  {
    SpineIsAncestor(h, levels, leaves, f.filledSubtrees, f.zeroes, leaf, levels);
    assert SpineSiblings(|leaves|, f.filledSubtrees, f.zeroes, levels)
      == TruePath(h, leaves + [leaf], levels, |leaves|);
  }

  /** Witness `j` of a run of appends. */
  function RunWitness(h: Hash, levels: nat, f: Frontier, commitments: seq<int>, j: nat): Witness
    requires f.nextIndex >= 0 && |f.filledSubtrees| >= levels && |f.zeroes| >= levels && j < |commitments|
  {
    AppendWitness(h, levels, AppendAll(h, levels, f, commitments[..j]), commitments[j])
  }

  /** Witness `j` of a run of appends is that of the tree over `leaves` and the first `j + 1`
      commitments: its root is that intermediate tree's, not the final one's. */
  lemma {:induction false} AppendedWitnessesAreTrue(
      h: Hash, levels: nat, f: Frontier, leaves: seq<int>, commitments: seq<int>, j: nat)
    requires f.nextIndex == |leaves| && FillsLevels(h, levels, leaves, f.filledSubtrees, f.zeroes)
    requires j < |commitments|
    ensures RunWitness(h, levels, f, commitments, j) == TailWitness(h, levels, leaves + commitments[..j + 1])
  {
    RunFillsLevels(h, levels, f, leaves, commitments[..j]);
    AppendYieldsTailWitness(h, levels, leaves + commitments[..j],
      AppendAll(h, levels, f, commitments[..j]), commitments[j]);
    assert leaves + commitments[..j + 1] == (leaves + commitments[..j]) + [commitments[j]];
  }

  /** One pass of the level loop of an append: the new leaf's witness and the frontier after it. */
  method AppendOne(h: Hash, levels: nat, f: Frontier, commitment: int) returns (w: Witness, next: Frontier)
    requires f.nextIndex >= 0 && levels <= |f.filledSubtrees| && levels <= |f.zeroes|
    ensures w == AppendWitness(h, levels, f, commitment)
    ensures next == Append(h, levels, f, commitment)
    ensures Fold(h, commitment, w.pathIndices, w.pathElements) == w.root == next.root
  {
    var n: nat := f.nextIndex;
    ghost var path := SpineSiblings(n, f.filledSubtrees, f.zeroes, levels);
    ghost var refill := Refill(h, n, f.filledSubtrees, f.zeroes, commitment, levels);
    var pathElements := [];
    var filled := f.filledSubtrees;
    var current := commitment;
    var cursor := n;
    for level := 0 to levels
      invariant cursor == Shift(n, level)
      invariant |pathElements| == level
      invariant forall l: nat {:trigger pathElements[l]} :: l < level ==> pathElements[l] == path[l]
      invariant |filled| == |f.filledSubtrees|
      invariant forall l: nat {:trigger filled[l]} :: l < |filled| ==>
                filled[l] == if l < level then refill[l] else f.filledSubtrees[l]
      invariant current == FoldTo(h, commitment, n, path, level)
    {
      SpineLevel(h, n, f.filledSubtrees, f.zeroes, commitment, levels, level);
      if cursor % 2 == 0 {
        pathElements := pathElements + [f.zeroes[level]];
        filled := filled[level := current];
        current := h.compress(current, f.zeroes[level]);
      } else {
        pathElements := pathElements + [filled[level]];
        current := h.compress(filled[level], current);
      }
      cursor := cursor / 2;
    }
    assert pathElements == path;
    assert filled == refill;
    w := Witness(n, pathElements, n, current);
    next := Frontier(n + 1, current, filled, f.zeroes);
  }

  /** What an append does at one level. */
  lemma {:induction false} SpineLevel(
      h: Hash, n: nat, filled: seq<int>, zeroes: seq<int>, leaf: int, levels: nat, level: nat)
    requires level < levels <= |filled| && levels <= |zeroes|
    ensures var path, refill := SpineSiblings(n, filled, zeroes, levels), Refill(h, n, filled, zeroes, leaf, levels);
            var current := FoldTo(h, leaf, n, path, level);
            if Shift(n, level) % 2 == 0 then
              && path[level] == zeroes[level] && refill[level] == current
              && FoldTo(h, leaf, n, path, level + 1) == h.compress(current, zeroes[level])
            else
              && path[level] == filled[level] && refill[level] == filled[level]
              && FoldTo(h, leaf, n, path, level + 1) == h.compress(filled[level], current)
  {
    assert Shift(n, level) % 2 == 0 || Shift(n, level) % 2 == 1;
  }

  lemma {:induction false} AppendAllStep(h: Hash, levels: nat, f: Frontier, commitments: seq<int>, j: nat)
    requires f.nextIndex >= 0 && |f.filledSubtrees| >= levels && |f.zeroes| >= levels && j < |commitments|
    ensures AppendAll(h, levels, f, commitments[..j + 1])
         == Append(h, levels, AppendAll(h, levels, f, commitments[..j]), commitments[j])
  {
    assert commitments[..j + 1][..j] == commitments[..j];
  }

  /** Witnesses for leaves about to be appended, from the frontier before they are. */
  method AppendPoolWitnesses(h: Hash, levels: nat, frontier: Frontier, commitments: seq<int>)
    returns (r: Result<seq<Witness>, WitnessError>)
    requires frontier.nextIndex + |commitments| <= MAX_LEAVES
    ensures r.Success? <==>
              && |frontier.filledSubtrees| >= levels && |frontier.zeroes| >= levels
              && (frontier.nextIndex >= 0 || commitments == [])
    ensures r.Failure? ==>
              r.error == (if |frontier.filledSubtrees| < levels || |frontier.zeroes| < levels then IncompleteFrontier
                else InvalidNextIndex)
    ensures r.Success? ==> |r.value| == |commitments|
    ensures r.Success? ==> forall j: nat {:trigger r.value[j]} :: j < |commitments| ==>
              r.value[j] == RunWitness(h, levels, frontier, commitments, j)
  {
    if |frontier.filledSubtrees| < levels || |frontier.zeroes| < levels {
      return Failure(IncompleteFrontier);
    }
    var live := frontier;
    var witnesses: seq<Witness> := [];
    for j := 0 to |commitments|
      invariant |witnesses| == j && (frontier.nextIndex >= 0 || j == 0)
      invariant frontier.nextIndex >= 0 ==> live == AppendAll(h, levels, frontier, commitments[..j])
      invariant live.nextIndex == frontier.nextIndex + j
      invariant forall k: nat {:trigger witnesses[k]} :: k < j ==>
                  witnesses[k] == RunWitness(h, levels, frontier, commitments, k)
    {
      if live.nextIndex < 0 {
        return Failure(InvalidNextIndex);
      }
      AppendAllStep(h, levels, frontier, commitments, j);
      var w, next := AppendOne(h, levels, live, commitments[j]);
      witnesses := witnesses + [w];
      live := next;
    }
    return Success(witnesses);
  }

  /** Within capacity the intermediate root of a tail witness is the root of the stored-node tree. */
  lemma {:induction false} TailWitnessRootIsTreeRoot(h: Hash, levels: nat, leaves: seq<int>)
    requires 0 < |leaves| <= Pow2(levels)
    ensures TailWitness(h, levels, leaves).root == Root(h, leaves, levels)
  {
    ShiftWithinCapacity(|leaves| - 1, levels);
  }

  // ----- the latest leaf, recovered from storage -----

  /** Read the latest leaf's path off the stored frontier; accept it only if it folds to the live root. */
  method LatestLeafWitness(
      h: Hash, levels: nat, frontier: Frontier, leaf: int)
    returns (r: Result<Witness, WitnessError>)
    requires |frontier.filledSubtrees| >= levels && |frontier.zeroes| >= levels
    ensures frontier.nextIndex <= 0 <==> r == Failure(NoInsertedLeaves)
    ensures frontier.nextIndex > 0 ==>
              var i := frontier.nextIndex - 1;
              var path := LatestPath(frontier, levels);
              r == if Fold(h, leaf, i, path) == frontier.root then Success(Witness(i, path, i, frontier.root))
                   else Failure(NotTheLiveRoot)
  {
    if frontier.nextIndex <= 0 {
      return Failure(NoInsertedLeaves);
    }
    var leafIndex: nat := frontier.nextIndex - 1;
    var pathElements := [];
    var cursor := leafIndex;
    for level := 0 to levels
      invariant cursor == Shift(leafIndex, level)
      invariant |pathElements| == level
      invariant forall l: nat {:trigger pathElements[l]} :: l < level ==> pathElements[l] == LatestSibling(frontier, l)
    {
      pathElements := pathElements + [if cursor % 2 == 1 then frontier.filledSubtrees[level]
        else frontier.zeroes[level]];
      cursor := cursor / 2;
    }
    assert pathElements == LatestPath(frontier, levels);
    var folded := FoldMerklePath(h, leaf, pathElements, leafIndex);
    if folded != frontier.root {
      return Failure(NotTheLiveRoot);
    }
    return Success(Witness(leafIndex, pathElements, leafIndex, frontier.root));
  }

  /** The stored value beside the latest leaf's ancestor at `level`. */
  function LatestSibling(f: Frontier, level: nat): int
    requires f.nextIndex > 0 && level < |f.filledSubtrees| && level < |f.zeroes|
  {
    if Shift(f.nextIndex - 1, level) % 2 == 1 then f.filledSubtrees[level] else f.zeroes[level]
  }

  function LatestPath(f: Frontier, levels: nat): (path: seq<int>)
    requires f.nextIndex > 0 && |f.filledSubtrees| >= levels && |f.zeroes| >= levels
    ensures |path| == levels
  {
    seq(levels, l requires 0 <= l < levels => LatestSibling(f, l))
  }

  /** On a consistent frontier the stored values are exactly the latest leaf's siblings. */
  lemma {:induction false} LatestPathIsTrue(h: Hash, levels: nat, f: Frontier, leaves: seq<int>)
    requires Describes(h, levels, f, leaves) && |leaves| > 0
    ensures LatestPath(f, levels) == TruePath(h, leaves, levels, |leaves| - 1)
  {
    var i := |leaves| - 1;
    var path := LatestPath(f, levels);
    forall l: nat | l < levels ensures path[l] == TrueSibling(h, leaves, i, l) {
      if Shift(i, l) % 2 == 0 {
        WidthAfterInsert(i, l);
        NodePastWidthIsZero(h, leaves, l, Shift(i, l) + 1);
      }
    }
  }

  /** So the recovery never refuses the true latest leaf, and accepting any other value
      hands over a collision. */
  lemma {:induction false} LatestLeafAcceptedIffTrue(h: Hash, levels: nat, f: Frontier, leaves: seq<int>, leaf: int)
    requires Describes(h, levels, f, leaves) && 0 < |leaves| <= Pow2(levels)
    ensures var i := |leaves| - 1;
            var path := LatestPath(f, levels);
            && (leaf == leaves[i] ==> Fold(h, leaf, i, path) == f.root)
            && (Fold(h, leaf, i, path) == f.root && leaf != leaves[i] ==>
                  var c := WrongWitnessCollision(h, leaves, levels, i, leaf, path); c.Some? && Collides(h, c.value))
  {
    var i := |leaves| - 1;
    LatestPathIsTrue(h, levels, f, leaves);
    TruePathFoldsToRoot(h, leaves, levels, i);
    if Fold(h, leaf, i, LatestPath(f, levels)) == f.root {
      RootBindsLeafAndPath(h, leaves, levels, i, leaf, LatestPath(f, levels));
    }
  }
}
