/** Binding: a path that folds to the root of a tree is the true path of the true leaf.

    Nothing is assumed about the compression function.  Instead of an injectivity
    hypothesis the theorem exhibits, in every other case, two concrete preimages that
    compress to the same value. */
module MerkleBinding {
  import opened MerkleSpec
  import opened Wrappers

  datatype Collision = Collision(left0: int, right0: int, left1: int, right1: int)

  predicate Collides(h: Hash, c: Collision)
  {
    && (c.left0, c.right0) != (c.left1, c.right1)
    && h.compress(c.left0, c.right0) == h.compress(c.left1, c.right1)
  }

  /** The two children a fold compresses at `level`. */
  function Children(h: Hash, value: int, index: nat, path: seq<int>, level: nat): (int, int)
    requires level < |path|
  {
    var current := FoldTo(h, value, index, path, level);
    if Shift(index, level) % 2 == 1 then (path[level], current) else (current, path[level])
  }

  /** Walk two folds of the same index down from `level` to the first pair of distinct children. */
  function FindCollision(h: Hash, index: nat, v: int, p: seq<int>, w: int, q: seq<int>, level: nat): Option<Collision>
    requires level <= |p| && level <= |q|
  {
    if level == 0 then None
    else
      var a, b := Children(h, v, index, p, level - 1), Children(h, w, index, q, level - 1);
      if a != b then Some(Collision(a.0, a.1, b.0, b.1))
      else FindCollision(h, index, v, p, w, q, level - 1)
  }

  /** Two folds that meet either started from the same value along the same siblings, or
      the walk down from the meeting point finds a collision; never both. */
  lemma {:induction false} EqualFoldsAgreeOrCollide(
      h: Hash, index: nat, v: int, p: seq<int>, w: int, q: seq<int>, level: nat)
    requires level <= |p| && level <= |q|
    requires FoldTo(h, v, index, p, level) == FoldTo(h, w, index, q, level)
    ensures FindCollision(h, index, v, p, w, q, level).None? <==> v == w && p[..level] == q[..level]
    ensures var c := FindCollision(h, index, v, p, w, q, level); c.Some? ==> Collides(h, c.value)
  {
    if level == 0 {
    } else {
      var a, b := Children(h, v, index, p, level - 1), Children(h, w, index, q, level - 1);
      assert p[..level] == p[..level - 1] + [p[level - 1]];
      assert q[..level] == q[..level - 1] + [q[level - 1]];
      if a == b {
        EqualFoldsAgreeOrCollide(h, index, v, p, w, q, level - 1);
      } else if v == w && p[..level] == q[..level] {
        FoldExtensional(h, index, v, p, q, level - 1);
        assert false;
      }
    }
  }

  lemma {:induction false} FoldExtensional(h: Hash, index: nat, v: int, p: seq<int>, q: seq<int>, level: nat)
    requires level < |p| && level < |q| && p[..level + 1] == q[..level + 1]
    ensures FoldTo(h, v, index, p, level) == FoldTo(h, v, index, q, level) && p[level] == q[level]
  {
    assert p[level] == p[..level + 1][level] == q[level];
    if level == 0 {
    } else {
      assert p[..level] == p[..level + 1][..level] == q[..level];
      FoldExtensional(h, index, v, p, q, level - 1);
    }
  }

  /** The collision that a wrong witness for leaf `index` of `leaves` gives away, if it is wrong. */
  function WrongWitnessCollision(
      h: Hash, leaves: seq<int>, levels: nat, index: nat, value: int, path: seq<int>): Option<Collision>
    requires |path| == levels
  {
    FindCollision(h, index, value, path, Node(h, leaves, 0, index), TruePath(h, leaves, levels, index), levels)
  }

  /** A path of full length that folds to the root of the tree is the true path of the
      true leaf, unless it hands over a collision of the compression function. */
  lemma {:induction false} RootBindsLeafAndPath(
      h: Hash, leaves: seq<int>, levels: nat, index: nat, value: int, path: seq<int>)
    requires |path| == levels && index < Pow2(levels)
    requires Fold(h, value, index, path) == Root(h, leaves, levels)
    ensures TrueOrCollision(h, leaves, levels, index, value, path)
  {
    var truth := TruePath(h, leaves, levels, index);
    TruePathFoldsToAncestor(h, leaves, levels, index);
    ShiftWithinCapacity(index, levels);
    EqualFoldsAgreeOrCollide(h, index, value, path, Node(h, leaves, 0, index), truth, levels);
    assert path[..levels] == path && truth[..levels] == truth;
  }

  /** The value is leaf `index` and the path its path, or the two hand over a collision. */
  predicate TrueOrCollision(h: Hash, leaves: seq<int>, levels: nat, index: nat, value: int, path: seq<int>)
    requires |path| == levels
  {
    var c := WrongWitnessCollision(h, leaves, levels, index, value, path);
    if c.None? then value == Node(h, leaves, 0, index) && path == TruePath(h, leaves, levels, index)
    else Collides(h, c.value)
  }

  lemma {:induction false} ShiftTwice(index: nat, a: nat, b: nat)
    ensures Shift(Shift(index, a), b) == Shift(index, a + b)
  {
    if b == 0 {
    } else {
      ShiftTwice(index, a, b - 1);
    }
  }

  /** The ancestor of leaf `index` at each level from `cut` up to `levels`. */
  function AncestorsFrom(h: Hash, leaves: seq<int>, levels: nat, index: nat, cut: nat): (r: seq<int>)
    requires cut <= levels
    ensures |r| == levels - cut + 1
  {
    seq(levels - cut + 1, j requires 0 <= j <= levels - cut => Node(h, leaves, cut + j, Shift(index, cut + j)))
  }

  lemma {:induction false} AncestorStep(h: Hash, leaves: seq<int>, index: nat, cut: nat, j: nat)
    ensures Node(h, leaves, cut + j + 1, Shift(index, cut + j + 1))
            == Combine(h, Shift(Shift(index, cut), j), TrueSibling(h, leaves, index, cut + j),
              Node(h, leaves, cut + j, Shift(index, cut + j)))
  {
    ShiftTwice(index, cut, j);
    ParentOnPath(h, leaves, index, cut + j);
  }

  /** Each node is its predecessor combined with the sibling given for it. */
  ghost predicate Ascends(h: Hash, at: nat, rest: seq<int>, nodes: seq<int>)
  {
    && |nodes| == |rest| + 1
    && forall j {:trigger rest[j]} :: 0 <= j < |rest| ==> nodes[j + 1] == Combine(h, Shift(at, j), rest[j], nodes[j])
  }

  lemma {:induction false} FoldsAlong(h: Hash, at: nat, rest: seq<int>, nodes: seq<int>, level: nat)
    requires Ascends(h, at, rest, nodes) && level <= |rest|
    ensures FoldTo(h, nodes[0], at, rest, level) == nodes[level]
  {
    if level == 0 {
    } else {
      FoldsAlong(h, at, rest, nodes, level - 1);
      assert nodes[level] == Combine(h, Shift(at, level - 1), rest[level - 1], nodes[level - 1]);
    }
  }

  /** What is left of a true path from level `cut` up. */
  function PathFrom(h: Hash, leaves: seq<int>, levels: nat, index: nat, cut: nat): (r: seq<int>)
    requires cut <= levels
    ensures |r| == levels - cut
  {
    TruePath(h, leaves, levels, index)[cut..]
  }

  lemma {:induction false} FoldsToLast(h: Hash, v: int, at: nat, rest: seq<int>, nodes: seq<int>)
    requires Ascends(h, at, rest, nodes) && v == nodes[0]
    ensures Fold(h, v, at, rest) == nodes[|rest|]
  {
    FoldsAlong(h, at, rest, nodes, |rest|);
  }

  lemma {:induction false} AncestorsAt(h: Hash, leaves: seq<int>, levels: nat, index: nat, cut: nat, j: nat)
    requires cut + j <= levels
    ensures AncestorsFrom(h, leaves, levels, index, cut)[j] == Node(h, leaves, cut + j, Shift(index, cut + j))
    ensures cut + j < levels ==> PathFrom(h, leaves, levels, index, cut)[j] == TrueSibling(h, leaves, index, cut + j)
  {
  }

  lemma {:induction false} AncestorsAscendAt(h: Hash, leaves: seq<int>, levels: nat, index: nat, cut: nat, j: nat)
    requires cut + j < levels
    ensures var rest, nodes := PathFrom(h, leaves, levels, index, cut), AncestorsFrom(h, leaves, levels, index, cut);
            nodes[j + 1] == Combine(h, Shift(Shift(index, cut), j), rest[j], nodes[j])
  {
    AncestorsAt(h, leaves, levels, index, cut, j);
    AncestorsAt(h, leaves, levels, index, cut, j + 1);
    AncestorStep(h, leaves, index, cut, j);
  }

  lemma {:induction false} AncestorsAscend(h: Hash, leaves: seq<int>, levels: nat, index: nat, cut: nat)
    requires cut <= levels
    ensures Ascends(h, Shift(index, cut), PathFrom(h, leaves, levels, index, cut),
              AncestorsFrom(h, leaves, levels, index, cut))
  {
    var rest, nodes := PathFrom(h, leaves, levels, index, cut), AncestorsFrom(h, leaves, levels, index, cut);
    forall j {:trigger rest[j]} | 0 <= j < |rest|
      ensures nodes[j + 1] == Combine(h, Shift(Shift(index, cut), j), rest[j], nodes[j])
    {
      AncestorsAscendAt(h, leaves, levels, index, cut, j);
    }
  }

  /** Why the length matters: an inner node, with what is left of a true path, folds to the root as well. */
  lemma {:induction false} ShortenedPathFolds(h: Hash, leaves: seq<int>, levels: nat, index: nat, cut: nat)
    requires cut <= levels && index < Pow2(levels)
    ensures Fold(h, Node(h, leaves, cut, Shift(index, cut)), Shift(index, cut), PathFrom(h, leaves, levels, index, cut))
            == Root(h, leaves, levels)
  {
    var rest, nodes := PathFrom(h, leaves, levels, index, cut), AncestorsFrom(h, leaves, levels, index, cut);
    AncestorsAscend(h, leaves, levels, index, cut);
    AncestorsAt(h, leaves, levels, index, cut, 0);
    AncestorsAt(h, leaves, levels, index, cut, levels - cut);
    FoldsToLast(h, Node(h, leaves, cut, Shift(index, cut)), Shift(index, cut), rest, nodes);
    ShiftWithinCapacity(index, levels);
  }

  ghost predicate Injective(h: Hash)
  {
    forall a, b, c, d :: h.compress(a, b) == h.compress(c, d) ==> a == c && b == d
  }

  /** The idealised reading: under an injective compression the only accepted witness for a
      live leaf is the true one. */
  lemma {:induction false} InjectiveCompressionBinds(
      h: Hash, leaves: seq<int>, levels: nat, index: nat, value: int, path: seq<int>)
    requires Injective(h)
    requires |path| == levels && index < Pow2(levels) && index < |leaves|
    ensures Fold(h, value, index, path) == Root(h, leaves, levels)
       <==> value == leaves[index] && path == TruePath(h, leaves, levels, index)
  {
    if Fold(h, value, index, path) == Root(h, leaves, levels) {
      RootBindsLeafAndPath(h, leaves, levels, index, value, path);
    }
    TruePathFoldsToRoot(h, leaves, levels, index);
  }

  // ----- the fail-closed checks of shield, transfer and withdraw -----

  datatype CheckError = WitnessIndexMismatch | WitnessRootMismatch

  /** The check each spending operation makes of a witness it was handed: the index must be
      the note's, and the note's commitment must fold to the root being proved against. */
  method CheckWitness(h: Hash, commitment: int, leafIndex: nat, pathIndices: nat, pathElements: seq<int>, root: int)
    returns (r: Result<seq<int>, CheckError>)
    ensures r == if pathIndices != leafIndex then Failure(WitnessIndexMismatch)
                 else if Fold(h, commitment, leafIndex, pathElements) != root then Failure(WitnessRootMismatch)
                 else Success(pathElements)
    ensures r.Success? ==> forall leaves, levels {:trigger Root(h, leaves, levels)} ::
              |pathElements| == levels && leafIndex < Pow2(levels) && root == Root(h, leaves, levels)
              ==> TrueOrCollision(h, leaves, levels, leafIndex, commitment, pathElements)
  {
    forall leaves, levels: nat | |pathElements| == levels && leafIndex < Pow2(levels)
      && root == Root(h, leaves, levels) && Fold(h, commitment, leafIndex, pathElements) == root
      ensures TrueOrCollision(h, leaves, levels, leafIndex, commitment, pathElements)
    {
      RootBindsLeafAndPath(h, leaves, levels, leafIndex, commitment, pathElements);
    }
    if pathIndices != leafIndex {
      return Failure(WitnessIndexMismatch);
    }
    var folded := FoldMerklePath(h, commitment, pathElements, pathIndices);
    if folded != root {
      return Failure(WitnessRootMismatch);
    }
    return Success(pathElements);
  }

  method FoldMerklePath(h: Hash, leaf: int, pathElements: seq<int>, pathIndices: nat) returns (current: int)
    ensures current == Fold(h, leaf, pathIndices, pathElements)
  {
    current := leaf;
    var index := pathIndices;
    for level := 0 to |pathElements|
      invariant index == Shift(pathIndices, level)
      invariant current == FoldTo(h, leaf, pathIndices, pathElements, level)
    {
      var sibling := pathElements[level];
      current := if index % 2 == 1 then h.compress(sibling, current) else h.compress(current, sibling);
      index := index / 2;
    }
  }
}
