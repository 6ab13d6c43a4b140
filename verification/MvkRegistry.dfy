/** The authorized-key registry mirror: a Merkle tree and a key-to-position map kept in step. */
module MvkRegistry {
  import opened MerkleSpec
  import opened MerkleMirror
  import opened Wrappers

  datatype RegistryError = ZeroKey | OwnedKeyNotSynced | NotRegistered

  /** The first position of `x` in `s`; `|s|` when it does not occur. */
  function IndexOf(s: seq<int>, x: int): (r: nat)
    ensures r <= |s| && x !in s[..r] && (r < |s| ==> s[r] == x)
  {
    if s == [] || s[0] == x then 0 else
      assert s == [s[0]] + s[1..];
      1 + IndexOf(s[1..], x)
  }

  /** How often a leaf is in the tree. */
  function Copies(leaves: seq<int>, x: int): nat
  {
    multiset(leaves)[x]
  }

  lemma {:induction false} CopiesAfterAppend(leaves: seq<int>, x: int)
    ensures Copies(leaves + [x], x) == Copies(leaves, x) + 1
    ensures Copies(leaves, x) > 0 <==> x in leaves
  {
  }

  class MvkRegistryMirror {
    const tree: MerkleTreeMirror
    /** The registry leaf of a key and its metadata. */
    const leafOf: (int, int) -> int
    var index: map<int, nat>
    /** The metadata each recorded key was registered with. */
    ghost var meta: map<int, int>

    /** Every recorded key has its own leaf at its recorded position. */
    ghost predicate Valid()
      reads this, tree
    {
      && tree.Valid()
      && index.Keys == meta.Keys
      && forall key :: key in index ==>
           index[key] < |tree.Leaves()| && tree.Leaves()[index[key]] == leafOf(key, meta[key])
    }

    constructor (hash: Hash, depth: nat, leafOf: (int, int) -> int)
      ensures Valid() && fresh(tree)
      ensures tree.hash == hash && tree.levels == depth && this.leafOf == leafOf
      ensures tree.Leaves() == [] && index == map[]
    {
      this.tree := new MerkleTreeMirror(hash, depth);
      this.leafOf := leafOf;
      this.index := map[];
      this.meta := map[];
    }

    /** Replay on-chain leaves: they replace the tree, and no key is recorded any more. */
    method SyncLeaves(leaves: seq<int>)
      requires Valid() && |leaves| <= MAX_LEAVES
      modifies this, tree
      ensures Valid() && tree.Leaves() == leaves && index == map[]
    {
      tree.SetLeaves(leaves);
      index := map[];
      meta := map[];
    }

    /** Replay on-chain leaves and record the first position of a key of our own. */
    method SyncWithOwnedKey(leaves: seq<int>, key: int, keyMeta: int) returns (r: Result<nat, RegistryError>)
      requires Valid() && |leaves| <= MAX_LEAVES
      modifies this, tree
      ensures Valid() && tree.Leaves() == leaves
      ensures r.Success? <==> leafOf(key, keyMeta) in leaves
      ensures r.Success? ==>
                && r.value == IndexOf(leaves, leafOf(key, keyMeta))
                && index == map[key := r.value] && meta == map[key := keyMeta]
      ensures r.Failure? ==> r.error == OwnedKeyNotSynced && index == map[]
    {
      SyncLeaves(leaves);
      var position := IndexOf(leaves, leafOf(key, keyMeta));
      if position == |leaves| {
        assert leaves[..position] == leaves;
        return Failure(OwnedKeyNotSynced);
      }
      index := index[key := position];
      meta := meta[key := keyMeta];
      return Success(position);
    }

    /** Register a key: a recorded key keeps its leaf and nothing changes; a new one gets the next leaf.
        What decides is the record, not the tree: a key that is not recorded but whose leaf is in the
        tree gets a second copy of it, and no other key does. */
    method Register(key: int, keyMeta: int) returns (r: Result<nat, RegistryError>)
      requires Valid() && |tree.Leaves()| < MAX_LEAVES
      modifies this, tree
      ensures Valid()
      ensures r == if key == 0 then Failure(ZeroKey)
                   else Success(if key in old(index) then old(index)[key] else |old(tree.Leaves())|)
      ensures key == 0 || key in old(index) ==>
                index == old(index) && meta == old(meta) && tree.Leaves() == old(tree.Leaves())
      ensures key != 0 && key !in old(index) ==>
                && index == old(index)[key := |old(tree.Leaves())|] && meta == old(meta)[key := keyMeta]
                && tree.Leaves() == old(tree.Leaves()) + [leafOf(key, keyMeta)]
      ensures var leaf := leafOf(key, keyMeta);
              0 < Copies(old(tree.Leaves()), leaf) < Copies(tree.Leaves(), leaf)
              <==> key != 0 && key !in old(index) && leaf in old(tree.Leaves())
    {
      CopiesAfterAppend(tree.Leaves(), leafOf(key, keyMeta));
      if key == 0 {
        return Failure(ZeroKey);
      }
      if key in index {
        return Success(index[key]);
      }
      var position := tree.Insert(leafOf(key, keyMeta));
      index := index[key := position];
      meta := meta[key := keyMeta];
      return Success(position);
    }

    /** A replay forgets which keys are recorded, so a key registered before it and again after it
        has two leaves. */
    method RegisterAcrossSync(key: int, keyMeta: int) returns (first: nat, second: nat)
      requires Valid() && key != 0 && key !in index && |tree.Leaves()| + 1 < MAX_LEAVES
      modifies this, tree
      ensures Valid() && second == first + 1
      ensures tree.Leaves() == old(tree.Leaves()) + [leafOf(key, keyMeta), leafOf(key, keyMeta)]
    {
      var r := Register(key, keyMeta);
      first := r.value;
      SyncLeaves(tree.Leaves());
      r := Register(key, keyMeta);
      second := r.value;
    }

    /** The smallest such input: a registry that holds the key's leaf and nothing else. */
    method RegisterAfterSync(key: int, keyMeta: int)
      requires Valid() && key != 0
      modifies this, tree
      ensures Valid() && tree.Leaves() == [leafOf(key, keyMeta), leafOf(key, keyMeta)]
    {
      SyncLeaves([leafOf(key, keyMeta)]);
      var _ := Register(key, keyMeta);
    }

    /** Naming the key in the replay keeps it recorded: registering it again changes nothing. */
    method RegisterAfterOwnSync(leaves: seq<int>, key: int, keyMeta: int) returns (r: Result<nat, RegistryError>)
      requires Valid() && key != 0 && |leaves| < MAX_LEAVES && leafOf(key, keyMeta) in leaves
      modifies this, tree
      ensures Valid() && tree.Leaves() == leaves && r == Success(IndexOf(leaves, leafOf(key, keyMeta)))
    {
      var synced := SyncWithOwnedKey(leaves, key, keyMeta);
      r := Register(key, keyMeta);
    }

    method GetRoot() returns (root: int)
      requires Valid()
      ensures root == Root(tree.hash, tree.Leaves(), tree.levels)
    {
      root := tree.GetRoot();
    }

    /** A recorded key's path folds its own leaf to the current root; any other key has none. */
    method PathFor(key: int) returns (r: Result<MerklePath, RegistryError>)
      requires Valid()
      ensures r.Success? <==> key in index
      ensures r.Failure? ==> r.error == NotRegistered
      ensures r.Success? ==>
                && r.value == MerklePath(TruePath(tree.hash, tree.Leaves(), tree.levels, index[key]), index[key])
                && (|tree.Leaves()| <= Pow2(tree.levels) ==>
                      Fold(tree.hash, leafOf(key, meta[key]), index[key], r.value.pathElements)
                      == Root(tree.hash, tree.Leaves(), tree.levels))
    {
      if key !in index {
        return Failure(NotRegistered);
      }
      var path := tree.Path(index[key]);
      if |tree.Leaves()| <= Pow2(tree.levels) {
        TruePathFoldsToRoot(tree.hash, tree.Leaves(), tree.levels, index[key]);
      }
      return Success(path.value);
    }
  }
}
