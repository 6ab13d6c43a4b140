/** Rebuilding a witness from the live frontier and whatever leaves a client still knows.

    The reconstruction is exact: it yields the true path, and it succeeds if and only if every
    other live leaf is either known or hidden inside a stored subtree that does not contain
    the selected leaf. */
module KnownSuffix {
  import opened Arithmetic
  import opened MerkleSpec
  import opened MerkleBinding
  import opened Frontier
  import opened Wrappers

  datatype KnownLeaf = KnownLeaf(leafIndex: nat, commitment: int)

  /** The first leaf under the stored subtree of `level`. */
  function FilledSubtreeStart(nextIndex: int, level: nat): int
  {
    var width := Pow2(level);
    var position := (nextIndex - 1) / width;
    (position - position % 2) * width
  }

  /** The hash of the subtree of `level` whose first leaf is `start`, if it can be derived. */
  function NodeFromKnownSuffix(h: Hash, level: nat, start: nat, f: Frontier, known: map<nat, int>): Option<int>
    requires level < |f.filledSubtrees| && level < |f.zeroes|
  {
    if start >= f.nextIndex then Some(f.zeroes[level])
    else if start == FilledSubtreeStart(f.nextIndex, level) then Some(f.filledSubtrees[level])
    else if level == 0 then
      if start in known then Some(known[start]) else None
    else
      var left := NodeFromKnownSuffix(h, level - 1, start, f, known);
      var right := NodeFromKnownSuffix(h, level - 1, start + Pow2(level) / 2, f, known);
      if left.None? || right.None? then None else Some(h.compress(left.value, right.value))
  }

  // ----- what can be derived -----

  /** Leaf `j` lies under the stored subtree of `level`. */
  ghost predicate InFilled(n: nat, level: nat, j: nat)
    requires n > 0
  {
    Shift(j, level) == FilledIndex(n, level)
  }

  /** A derivation confined to a subtree of `level` can account for leaf `j`. */
  ghost predicate Supplied(n: nat, known: set<nat>, level: nat, j: nat)
    requires n > 0
  {
    j in known || exists l: nat :: l <= level && InFilled(n, l, j)
  }

  /** The condition for rebuilding the path of leaf `i`: every other live leaf is known or
      hidden in a stored subtree that does not contain `i`. */
  ghost predicate Derivable(n: nat, known: set<nat>, levels: nat, i: nat)
    requires n > 0
  {
    forall j: nat :: j < n && j != i && j !in known ==>
      exists l: nat :: l < levels && InFilled(n, l, j) && !InFilled(n, l, i)
  }

  /** The first leaf under node `index` of `level`. */
  function Start(level: nat, index: nat): nat
  {
    if level == 0 then index else Start(level - 1, 2 * index)
  }

  lemma {:induction false} StartIsProduct(level: nat, index: nat)
    ensures Start(level, index) == index * Pow2(level)
  {
    if level == 0 {
    } else {
      StartIsProduct(level - 1, 2 * index);
    }
  }

  /** Start positions and node indices address the same subtrees. */
  lemma {:induction false} StartOfNode(n: nat, level: nat, index: nat)
    requires n > 0
    ensures Start(level, index) >= n <==> index >= Width(n, level)
    ensures Start(level, index) == FilledSubtreeStart(n, level) <==> index == FilledIndex(n, level)
  {
    var p := Pow2(level);
    StartIsProduct(level, index);
    WidthIsCeiling(n, level);
    CeilingBound(n, p, index);
    ShiftIsDivision(n - 1, level);
    assert FilledSubtreeStart(n, level) == FilledIndex(n, level) * p;
    CancelFactor(index, FilledIndex(n, level), p);
  }

  lemma {:induction false} RightChildStart(level: nat, index: nat)
    requires level > 0
    ensures Start(level - 1, 2 * index + 1) == Start(level, index) + Pow2(level) / 2
  {
    StartIsProduct(level - 1, 2 * index + 1);
    StartIsProduct(level, index);
  }

  /** The derivation addressed by node index instead of start position. */
  function KnownNode(h: Hash, level: nat, index: nat, f: Frontier, known: map<nat, int>): Option<int>
    requires level < |f.filledSubtrees| && level < |f.zeroes|
  {
    NodeFromKnownSuffix(h, level, Start(level, index), f, known)
  }

  function Compressed(h: Hash, left: Option<int>, right: Option<int>): Option<int>
  {
    if left.None? || right.None? then None else Some(h.compress(left.value, right.value))
  }

  /** The cases of the derivation, by node index. */
  lemma {:induction false} KnownNodeCases(h: Hash, level: nat, index: nat, f: Frontier, known: map<nat, int>)
    requires level < |f.filledSubtrees| && level < |f.zeroes| && f.nextIndex > 0
    ensures KnownNode(h, level, index, f, known)
         == if index >= Width(f.nextIndex, level) then Some(f.zeroes[level])
            else if index == FilledIndex(f.nextIndex, level) then Some(f.filledSubtrees[level])
            else if level == 0 then if index in known then Some(known[index]) else None
            else Compressed(h, KnownNode(h, level - 1, 2 * index, f, known),
                   KnownNode(h, level - 1, 2 * index + 1, f, known))
  {
    StartOfNode(f.nextIndex, level, index);
    if level > 0 {
      RightChildStart(level, index);
    }
  }

  /** Every live leaf below node `index` of `level` is known or under a stored subtree no
      higher than `depth`. */
  ghost predicate AllSupplied(n: nat, known: set<nat>, level: nat, index: nat, depth: nat)
    requires n > 0
  {
    forall j: nat {:trigger Supplied(n, known, depth, j)} :: j < n && Shift(j, level) == index ==>
      Supplied(n, known, depth, j)
  }

  /** Exactly when a subtree hash can be derived: when all its live leaves are supplied. */
  lemma {:induction false} DefinedIffSupplied(h: Hash, level: nat, index: nat, f: Frontier, known: map<nat, int>)
    requires level < |f.filledSubtrees| && level < |f.zeroes| && f.nextIndex > 0
    ensures KnownNode(h, level, index, f, known).Some? <==> AllSupplied(f.nextIndex, known.Keys, level, index, level)
  {
    var n := f.nextIndex;
    KnownNodeCases(h, level, index, f, known);
    if index >= Width(n, level) {
      forall j: nat | j < n ensures Shift(j, level) != index { ShiftBelowWidth(j, n, level); }
    } else if index == FilledIndex(n, level) {
      forall j: nat | j < n && Shift(j, level) == index ensures Supplied(n, known.Keys, level, j) {
        assert InFilled(n, level, j);
      }
    } else if level == 0 {
      assert Supplied(n, known.Keys, 0, index) <==> index in known;
    } else {
      DefinedIffSupplied(h, level - 1, 2 * index, f, known);
      DefinedIffSupplied(h, level - 1, 2 * index + 1, f, known);
      SuppliedByChildren(n, known.Keys, level, index);
    }
  }

  /** A node that is not stored itself is supplied exactly when its two children are. */
  lemma {:induction false} SuppliedByChildren(n: nat, known: set<nat>, level: nat, index: nat)
    requires n > 0 && level > 0 && index != FilledIndex(n, level)
    ensures AllSupplied(n, known, level, index, level)
       <==> (&& AllSupplied(n, known, level - 1, 2 * index, level - 1)
             && AllSupplied(n, known, level - 1, 2 * index + 1, level - 1))
  {
    forall j: nat | j < n && Shift(j, level) == index
      ensures Supplied(n, known, level, j) <==> Supplied(n, known, level - 1, j)
    {
    }
    assert forall j: nat {:trigger Shift(j, level)} {:trigger Shift(j, level - 1)} ::
      Shift(j, level) == index <==> Shift(j, level - 1) == 2 * index || Shift(j, level - 1) == 2 * index + 1;
  }

  /** The known leaves that are live are the tree's. */
  ghost predicate KnownIsTrue(leaves: seq<int>, known: map<nat, int>)
  {
    forall j: nat :: j in known && j < |leaves| ==> known[j] == leaves[j]
  }

  /** Every derived hash is that of the padded tree. */
  lemma {:induction false} DerivedNodeIsTrue(
      h: Hash, levels: nat, leaves: seq<int>, level: nat, index: nat, f: Frontier,
      known: map<nat, int>)
    requires Describes(h, levels, f, leaves) && |leaves| > 0 && KnownIsTrue(leaves, known)
    requires level < levels
    ensures var r := KnownNode(h, level, index, f, known);
            r.Some? ==> r.value == Node(h, leaves, level, index)
  {
    KnownNodeCases(h, level, index, f, known);
    if index >= Width(|leaves|, level) {
      NodePastWidthIsZero(h, leaves, level, index);
    } else if index == FilledIndex(|leaves|, level) {
    } else if level > 0 {
      DerivedNodeIsTrue(h, levels, leaves, level - 1, 2 * index, f, known);
      DerivedNodeIsTrue(h, levels, leaves, level - 1, 2 * index + 1, f, known);
    }
  }

  // ----- which leaves share which subtrees -----

  lemma {:induction false} ShiftMonotone(i: nat, j: nat, level: nat)
    requires i <= j
    ensures Shift(i, level) <= Shift(j, level)
  {
    if level == 0 {
    } else {
      ShiftMonotone(i, j, level - 1);
    }
  }

  lemma {:induction false} AgreeAbove(i: nat, j: nat, low: nat, high: nat)
    requires low <= high && Shift(i, low) == Shift(j, low)
    ensures Shift(i, high) == Shift(j, high)
    decreases high
  {
    if low == high {
    } else {
      AgreeAbove(i, j, low, high - 1);
    }
  }

  /** Two leaves of one tree are siblings' descendants at exactly one level. */
  lemma {:induction false} DivergenceLevel(i: nat, j: nat, levels: nat) returns (d: nat)
    requires i != j && Shift(i, levels) == Shift(j, levels)
    ensures d < levels && Shift(j, d) == Sibling(Shift(i, d)) && Shift(i, d + 1) == Shift(j, d + 1)
  {
    if Shift(i, levels - 1) == Shift(j, levels - 1) {
      d := DivergenceLevel(i, j, levels - 1);
    } else {
      d := levels - 1;
    }
  }

  /** All siblings of leaf `i` are derivable exactly under the stated condition. */
  lemma {:induction false} SiblingsDefinedIffDerivable(
      h: Hash, levels: nat, i: nat, f: Frontier, known: map<nat, int>)
    requires levels <= |f.filledSubtrees| && levels <= |f.zeroes| && 0 < f.nextIndex <= Pow2(levels) && i < f.nextIndex
    ensures (forall l: nat :: l < levels ==> SiblingFromKnown(h, l, i, f, known).Some?)
       <==> Derivable(f.nextIndex, known.Keys, levels, i)
  {
    var n := f.nextIndex;
    if forall l: nat :: l < levels ==> SiblingFromKnown(h, l, i, f, known).Some? {
      forall j: nat | j < n && j != i && j !in known
        ensures exists l: nat :: l < levels && InFilled(n, l, j) && !InFilled(n, l, i)
      {
        SiblingsGiveStoredSubtree(h, levels, i, j, f, known);
      }
    }
    if Derivable(n, known.Keys, levels, i) {
      forall l: nat | l < levels ensures SiblingFromKnown(h, l, i, f, known).Some? {
        DerivableGivesSibling(h, levels, l, i, f, known);
      }
    }
  }

  function SiblingFromKnown(h: Hash, level: nat, i: nat, f: Frontier, known: map<nat, int>): Option<int>
    requires level < |f.filledSubtrees| && level < |f.zeroes|
  {
    KnownNode(h, level, Sibling(Shift(i, level)), f, known)
  }

  lemma {:induction false} SiblingsGiveStoredSubtree(
      h: Hash, levels: nat, i: nat, j: nat, f: Frontier, known: map<nat, int>)
    requires levels <= |f.filledSubtrees| && levels <= |f.zeroes| && 0 < f.nextIndex <= Pow2(levels)
    requires i < f.nextIndex && j < f.nextIndex && j != i && j !in known
    requires forall l: nat :: l < levels ==> SiblingFromKnown(h, l, i, f, known).Some?
    ensures exists l: nat :: l < levels && InFilled(f.nextIndex, l, j) && !InFilled(f.nextIndex, l, i)
  {
    var n := f.nextIndex;
    ShiftWithinCapacity(i, levels);
    ShiftWithinCapacity(j, levels);
    var d := DivergenceLevel(i, j, levels);
    assert SiblingFromKnown(h, d, i, f, known).Some?;
    DefinedIffSupplied(h, d, Sibling(Shift(i, d)), f, known);
    assert Supplied(n, known.Keys, d, j);
    var l: nat :| l <= d && InFilled(n, l, j);
    if InFilled(n, l, i) { AgreeAbove(i, j, l, d); }
  }

  lemma {:induction false} DerivableGivesSibling(
      h: Hash, levels: nat, d: nat, i: nat, f: Frontier, known: map<nat, int>)
    requires levels <= |f.filledSubtrees| && levels <= |f.zeroes| && 0 < f.nextIndex && i < f.nextIndex && d < levels
    requires Derivable(f.nextIndex, known.Keys, levels, i)
    ensures SiblingFromKnown(h, d, i, f, known).Some?
  {
    var n := f.nextIndex;
    var s := Sibling(Shift(i, d));
    forall j: nat | j < n && Shift(j, d) == s ensures Supplied(n, known.Keys, d, j) {
      if j !in known {
        assert j != i;
        var l: nat :| l < levels && InFilled(n, l, j) && !InFilled(n, l, i);
        if l > d { AgreeAbove(i, j, d + 1, l); }
      }
    }
    DefinedIffSupplied(h, d, s, f, known);
  }

  // ----- the reconstruction -----

  /** The map a list of known leaves builds: a later entry replaces an earlier one. */
  function KnownMap(leaves: seq<KnownLeaf>): map<nat, int>
  {
    if leaves == [] then map[]
    else KnownMap(leaves[..|leaves| - 1])[leaves[|leaves| - 1].leafIndex := leaves[|leaves| - 1].commitment]
  }

  /** The leaves a list names. */
  function IndicesOf(leaves: seq<KnownLeaf>): set<nat>
  {
    set k: nat | k < |leaves| :: leaves[k].leafIndex
  }

  /** Entry `k` is the last for its leaf. */
  ghost predicate LastFor(leaves: seq<KnownLeaf>, k: nat)
  {
    k < |leaves| && forall m: nat {:trigger leaves[m]} :: k < m < |leaves| ==>
      leaves[m].leafIndex != leaves[k].leafIndex
  }

  /** Exactly the leaves listed are known, each with the commitment of its last entry. */
  lemma {:induction false} KnownMapFacts(leaves: seq<KnownLeaf>)
    ensures KnownMap(leaves).Keys == IndicesOf(leaves)
    ensures forall k: nat {:trigger LastFor(leaves, k)} ::
              LastFor(leaves, k) ==> KnownMap(leaves)[leaves[k].leafIndex] == leaves[k].commitment
  {
    if leaves == [] {
    } else {
      var init, last := leaves[..|leaves| - 1], leaves[|leaves| - 1];
      KnownMapFacts(init);
      forall i ensures i in KnownMap(leaves).Keys <==> i in IndicesOf(leaves) {
        if i in IndicesOf(leaves) {
          var k: nat :| k < |leaves| && leaves[k].leafIndex == i;
          assert k < |init| ==> init[k].leafIndex == i && i in IndicesOf(init);
        }
        assert last.leafIndex in IndicesOf(leaves);
        if i in IndicesOf(init) {
          var k: nat :| k < |init| && init[k].leafIndex == i;
          assert leaves[k].leafIndex == i;
        }
      }
      forall k: nat | LastFor(leaves, k)
        ensures KnownMap(leaves)[leaves[k].leafIndex] == leaves[k].commitment
      {
        if k < |init| {
          assert LastFor(init, k) && leaves[|leaves| - 1].leafIndex != leaves[k].leafIndex;
        }
      }
    }
  }

  /** Every entry for a leaf of the tree has its commitment; there may be entries for leaves that came later. */
  ghost predicate ListIsTrue(leaves: seq<int>, known: seq<KnownLeaf>)
  {
    forall k {:trigger known[k]} :: 0 <= k < |known| ==>
      known[k].leafIndex < |leaves| ==> known[k].commitment == leaves[known[k].leafIndex]
  }

  lemma {:induction false} TrueListIsKnown(leaves: seq<int>, known: seq<KnownLeaf>)
    requires ListIsTrue(leaves, known)
    ensures KnownIsTrue(leaves, KnownMap(known))
  {
    if known == [] {
    } else {
      TrueListIsKnown(leaves, known[..|known| - 1]);
    }
  }

  /** The first level at or above `level` whose sibling cannot be derived; `levels` if there is none. */
  function FirstMissing(h: Hash, levels: nat, level: nat, i: nat, f: Frontier, known: map<nat, int>): (r: nat)
    requires level <= levels <= |f.filledSubtrees| && levels <= |f.zeroes|
    ensures level <= r <= levels
    ensures forall l: nat :: level <= l < r ==> SiblingFromKnown(h, l, i, f, known).Some?
    ensures r < levels ==> SiblingFromKnown(h, r, i, f, known).None?
    decreases levels - level
  {
    if level == levels || SiblingFromKnown(h, level, i, f, known).None? then level
    else FirstMissing(h, levels, level + 1, i, f, known)
  }

  /** The outcome of a reconstruction, error cases in the order they are met. */
  function Reconstruction(
      h: Hash, levels: nat, commitment: int, leafIndex: int, known: map<nat, int>, f: Frontier)
    : Result<Witness, WitnessError>
    requires levels <= |f.filledSubtrees| && levels <= |f.zeroes|
  {
    if leafIndex < 0 || leafIndex >= f.nextIndex then Failure(LeafOutsideLiveTree)
    else if leafIndex in known && known[leafIndex] != commitment then Failure(CommitmentMismatch)
    else
      var missing := FirstMissing(h, levels, 0, leafIndex, f, known);
      if missing < levels then Failure(MissingSibling(missing))
      else
        var path := seq(levels, l requires 0 <= l < levels => SiblingFromKnown(h, l, leafIndex, f, known).value);
        if Fold(h, commitment, leafIndex, path) != f.root then Failure(NotTheLiveRoot)
        else Success(Witness(leafIndex, path, leafIndex, f.root))
  }

  /** A leaf of the tree, the frontier of the tree, and a list of true leaves. */
  ghost predicate TrueQuery(
      h: Hash, levels: nat, leaves: seq<int>, commitment: int, leafIndex: int, known: seq<KnownLeaf>, f: Frontier)
  {
    && Describes(h, levels, f, leaves) && |leaves| <= Pow2(levels) && ListIsTrue(leaves, known)
    && 0 <= leafIndex < |leaves| && commitment == leaves[leafIndex]
  }

  /** The true witness, exactly if it can be derived from the leaves listed. */
  ghost predicate Rebuilds(
      h: Hash, levels: nat, leaves: seq<int>, i: nat, known: seq<KnownLeaf>, r: Result<Witness, WitnessError>)
    requires i < |leaves| <= Pow2(levels)
  {
    if Derivable(|leaves|, IndicesOf(known), levels, i)
    then r == Success(Witness(i, TruePath(h, leaves, levels, i), i, Root(h, leaves, levels)))
    else r.Failure? && r.error.MissingSibling?
  }

  lemma {:induction false} TrueListRebuilds(
      h: Hash, levels: nat, leaves: seq<int>, i: nat, known: seq<KnownLeaf>, f: Frontier)
    requires i < |leaves| && TrueQuery(h, levels, leaves, leaves[i], i, known, f)
    ensures Rebuilds(h, levels, leaves, i, known, Reconstruction(h, levels, leaves[i], i, KnownMap(known), f))
  {
    KnownMapFacts(known);
    TrueListIsKnown(leaves, known);
    ReconstructionIsExact(h, levels, leaves, i, KnownMap(known), f);
  }

  /** Rebuild the witness of leaf `leafIndex`, or say why it cannot be rebuilt. */
  method ReconstructPoolWitness(
      h: Hash, levels: nat, commitment: int, leafIndex: int, knownLeaves: seq<KnownLeaf>,
      frontier: Frontier)
    returns (r: Result<Witness, WitnessError>)
    requires levels <= |frontier.filledSubtrees| && levels <= |frontier.zeroes|
    requires frontier.nextIndex <= MAX_LEAVES
    ensures r == Reconstruction(h, levels, commitment, leafIndex, KnownMap(knownLeaves), frontier)
    ensures forall leaves {:trigger Describes(h, levels, frontier, leaves)} ::
              TrueQuery(h, levels, leaves, commitment, leafIndex, knownLeaves, frontier) ==>
                Rebuilds(h, levels, leaves, leafIndex, knownLeaves, r)
  {
    forall leaves | TrueQuery(h, levels, leaves, commitment, leafIndex, knownLeaves, frontier)
      ensures Rebuilds(h, levels, leaves, leafIndex, knownLeaves,
                Reconstruction(h, levels, commitment, leafIndex, KnownMap(knownLeaves), frontier))
    {
      TrueListRebuilds(h, levels, leaves, leafIndex, knownLeaves, frontier);
    }
    if leafIndex < 0 || leafIndex >= frontier.nextIndex {
      return Failure(LeafOutsideLiveTree);
    }
    var known: map<nat, int> := map[];
    for k := 0 to |knownLeaves|
      invariant known == KnownMap(knownLeaves[..k])
    {
      known := known[knownLeaves[k].leafIndex := knownLeaves[k].commitment];
      assert knownLeaves[..k + 1][..k] == knownLeaves[..k];
    }
    assert knownLeaves[..|knownLeaves|] == knownLeaves;
    if leafIndex in known && known[leafIndex] != commitment {
      return Failure(CommitmentMismatch);
    }
    var pathElements: seq<int> := [];
    for level := 0 to levels
      invariant |pathElements| == level
      invariant FirstMissing(h, levels, 0, leafIndex, frontier, known) >= level
      invariant forall l: nat {:trigger pathElements[l]} :: l < level ==>
                  SiblingFromKnown(h, l, leafIndex, frontier, known) == Some(pathElements[l])
    {
      StartIsProduct(level, Sibling(Shift(leafIndex, level)));
      var siblingStart := Sibling(Shift(leafIndex, level)) * Pow2(level);
      var sibling := NodeFromKnownSuffix(h, level, siblingStart, frontier, known);
      assert sibling == SiblingFromKnown(h, level, leafIndex, frontier, known);
      if sibling.None? {
        return Failure(MissingSibling(level));
      }
      pathElements := pathElements + [sibling.value];
    }
    assert pathElements
        == seq(levels, l requires 0 <= l < levels => SiblingFromKnown(h, l, leafIndex, frontier, known).value);
    var folded := FoldMerklePath(h, commitment, pathElements, leafIndex);
    if folded != frontier.root {
      return Failure(NotTheLiveRoot);
    }
    return Success(Witness(leafIndex, pathElements, leafIndex, frontier.root));
  }

  /** For a true leaf, true known leaves and a consistent frontier, the reconstruction returns
      exactly the stored-node tree's path, and does so exactly when the path is derivable. */
  lemma {:induction false} ReconstructionIsExact(
      h: Hash, levels: nat, leaves: seq<int>, i: nat, known: map<nat, int>, f: Frontier)
    requires Describes(h, levels, f, leaves) && |leaves| <= Pow2(levels)
    requires KnownIsTrue(leaves, known) && i < |leaves|
    ensures Reconstruction(h, levels, leaves[i], i, known, f)
         == if Derivable(|leaves|, known.Keys, levels, i)
            then Success(Witness(i, TruePath(h, leaves, levels, i), i, Root(h, leaves, levels)))
            else Failure(MissingSibling(FirstMissing(h, levels, 0, i, f, known)))
  {
    SiblingsDefinedIffDerivable(h, levels, i, f, known);
    if Derivable(|leaves|, known.Keys, levels, i) {
      var path := seq(levels, l requires 0 <= l < levels => SiblingFromKnown(h, l, i, f, known).value);
      forall l: nat | l < levels ensures path[l] == TruePath(h, leaves, levels, i)[l] {
        DerivedNodeIsTrue(h, levels, leaves, l, Sibling(Shift(i, l)), f, known);
      }
      assert path == TruePath(h, leaves, levels, i);
      TruePathFoldsToRoot(h, leaves, levels, i);
    }
  }

  /** It fails closed: a commitment other than leaf `i` is accepted only together with a collision. */
  lemma {:induction false} WrongCommitmentNeedsCollision(
      h: Hash, levels: nat, leaves: seq<int>, commitment: int, i: nat, known: map<nat, int>,
      f: Frontier)
    requires Describes(h, levels, f, leaves) && |leaves| <= Pow2(levels)
    requires i < |leaves| && commitment != leaves[i]
    ensures var r := Reconstruction(h, levels, commitment, i, known, f);
            r.Success? ==> var c := WrongWitnessCollision(h, leaves, levels, i, commitment, r.value.pathElements);
                           c.Some? && Collides(h, c.value)
  {
    var r := Reconstruction(h, levels, commitment, i, known, f);
    if r.Success? {
      RootBindsLeafAndPath(h, leaves, levels, i, commitment, r.value.pathElements);
    }
  }

  /** The latest leaf needs no known leaf at all. */
  lemma {:induction false} LatestLeafNeedsNothing(n: nat, levels: nat)
    requires 0 < n <= Pow2(levels)
    ensures Derivable(n, {}, levels, n - 1)
  {
    var none: set<nat> := {};
    forall j: nat | j < n && j != n - 1 && j !in none
      ensures exists l: nat :: l < levels && InFilled(n, l, j) && !InFilled(n, l, n - 1)
    {
      var d := StoredBesideLatest(n, levels, j);
    }
  }

  /** Every earlier leaf lies in a stored subtree beside the latest leaf's spine. */
  lemma {:induction false} StoredBesideLatest(n: nat, levels: nat, j: nat) returns (d: nat)
    requires n <= Pow2(levels) && j + 1 < n
    ensures d < levels && InFilled(n, d, j) && !InFilled(n, d, n - 1)
    ensures Shift(j, d) + 1 == Shift(n - 1, d) && Shift(j, d + 1) == Shift(n - 1, d + 1)
  {
    ShiftWithinCapacity(j, levels);
    ShiftWithinCapacity(n - 1, levels);
    d := DivergenceLevel(n - 1, j, levels);
    ShiftMonotone(j, n - 1, d);
  }

  /** A retained suffix that starts no later than the largest aligned block containing `i` but
      not the latest leaf is always enough. */
  lemma {:induction false} RetainedSuffixSuffices(n: nat, levels: nat, i: nat, d: nat, known: set<nat>)
    requires n <= Pow2(levels) && i + 1 < n && d < levels
    requires Shift(i, d) != Shift(n - 1, d) && Shift(i, d + 1) == Shift(n - 1, d + 1)
    requires forall j: nat :: Start(d, Shift(i, d)) <= j < n ==> j in known
    ensures Derivable(n, known, levels, i)
  {
    ShiftMonotone(i, n - 1, d);
    forall j: nat | j < n && j != i && j !in known
      ensures exists l: nat :: l < levels && InFilled(n, l, j) && !InFilled(n, l, i)
    {
      BeforeBlock(j, i, d);
      var l := StoredBesideLatest(n, levels, j);
      if l < d { AgreeAbove(j, n - 1, l + 1, d); }
      if l > d { AgreeAbove(i, n - 1, d + 1, l); }
    }
  }

  /** A leaf before the first leaf of `i`'s block lies in an earlier block. */
  lemma {:induction false} BeforeBlock(j: nat, i: nat, d: nat)
    requires j < Start(d, Shift(i, d))
    ensures Shift(j, d) < Shift(i, d)
  {
    StartIsProduct(d, Shift(i, d));
    ShiftIsDivision(j, d);
    QuotientBelow(j, Pow2(d), Shift(i, d));
  }
}
