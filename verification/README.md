# Verified model of the shielded-note client

A Dafny model of the part of the Benzo console SDK that keeps track of shielded notes, with
proofs of what it promises, and of two small codecs from the contracts workspace.
`dafny verify dfyconfig.toml` checks everything.

What the files model, bottom up:

- **One Merkle tree, three representations.** `MerkleSpec` holds the one definition: the
  recursive hash of the zero-padded leaf sequence. `MerkleMirror` is the stored-node tree that
  recomputes only a spine. `Frontier` is the on-chain frontier, replayed to get witnesses for
  new leaves and read back for the latest leaf. `KnownSuffix` rebuilds a witness from the
  frontier and whatever leaves a client still has; its exact condition for success is
  `Derivable`. `MerkleBinding` is the other direction: what an accepted path proves.
  `MvkRegistry` is the viewing-key registry on top of the stored-node tree. The compression is a
  parameter, so the correctness theorems hold for every compression; binding is stated without
  assuming injectivity, by computing the collision that a false witness would give away.
- **The scanner and its sync.** `EventPaging` reads an append-only log through a paged server.
  `Scanner` is the note scanner: ingestion, snapshots, trial decryption, gap-recovery merge.
  `ScannerSync` takes a client to be its scanner in memory and the snapshot it stored last. Any mix
  of incremental syncs, stores, restarts from whatever is stored, and recoveries that are kept or
  reverted leaves both alike to a scan of a prefix of the log from genesis; a crash before the
  store is a restart from an older snapshot. `ScannerSync.RunSyncs` carries out any sequence of the
  client's own syncs, failed stores and restarts, and ends on such a run. `AspSync` does the same
  for the allow-set.
- **Value flow.** `PoolLedger` is the pool's value side: notes, spent marks, legal steps.
  `Amounts` has the exchange argument, `CoinSelection` the selections, `Unshield` the
  consolidation loop and the claim loop, `Payments` the send, `Payroll` the chained and the
  batched payroll. `PayrollAmounts` is the batched rule on amounts alone, `Treasury` says what the
  treasury's amounts are after each payment. `ClientRuns` carries out any sequence of client
  operations by any accounts from the empty pool, and proves that the pool behaves as an account
  book: everybody's unspent value is what the book says, and no note is spent twice. What an
  operation selects from is whatever it is shown, stale notes and notes of others included, and every
  operation is carried out exactly as its own flow says, up to the note that stops it.
- **From ledger to balance.** `LedgerLog` is the log that transactions leave behind: it announces
  what they spend, and for a spend of one note the dummy that pads it to two inputs
  (`console/packages/core/src/pool.ts:592-606`, 691-699); it inserts their outputs, and each output
  is sealed to some viewing key.
  `ScannerLedger` says what a scanner shows of a log, and `LedgerLog.ScannerFindsTheBalance` when
  that is the account's live notes on the ledger: if and only if every leaf agrees. `Wallet` puts it
  all together: the balance the client shows is the one on the account book.
- **Codecs.** `Digits` and `MetadataCodec` for the metadata chunks and bytes, `IntegerText` for
  what `toString` prints and `BigInt` reads, `MetadataFraming` for the word framing; `Decimal` for
  stroop and token amounts.
- `Arithmetic` and `Wrappers` are shared helpers.

Assumptions a reader should know. Indices stay below 2^31, where JavaScript's 32-bit shifts,
`^ 1` and `& ~1` are division, sibling and parity of naturals; overflow past that is not
modelled. An honest server answers each request with a stretch of one final append-only log,
and its cursors separate what it returned from what it did not; everything about completeness is
claimed below the latest ledger of a collection's first page. Commitments have distinct indices
and nullifiers are announced once. Decryption, commitments and nullifiers are functions handed
to the model as parameters; a ciphertext opens under the key it was sealed to and no other, no two
notes of a chain have the same nullifier, and no dummy's nullifier is a note's. Transactions the client submits are accepted, with
fee 0, unless a note they spend is not a live note of the account or has no witness.

What a personal account is shown is not filtered by recipient
(`console/packages/core/src/scanner.ts:275-279`), and the notes and change of a treasury are sealed to
the viewing key of the account that operates it (`console/packages/core/src/client.ts:749`, 841, 939).
Such a note counts as the account's own, also after the organisation has spent it, because what
that announces is not the nullifier under the account's key: `LedgerLog.ForeignNoteStaysShown`. The exact condition for a leaf to be shown exactly if it is the
account's and unspent is `LedgerLog.LeafAgrees`; the organisation's own filter makes it hold whatever
else the key opens (`LedgerLog.OrganisationIsShownItsBalance`). Fund a treasury with 4, shield 5 and
unshield 4, and the treasury's note is taken and cannot be spent, although the balance suffices
(`LedgerLog.UnshieldPastTheTreasury`).

Where the code and its comments disagree, or what is wanted of it holds only under a condition,
the model follows the code:

- `orgBatchPayroll` documents a default of eight payouts a transaction
  (`console/packages/core/src/client.ts:866-869`); the code caps at three, also when more is
  asked for (line 894). `Payroll.BatchCap` is the code's rule.
- `fetchAspLeavesSince` documents resuming from one past the cursor
  (`console/packages/core/src/scanner.ts:445-451`); the client resumes a hundred ledgers before it
  (`console/packages/core/src/client.ts:407`). `AspSync.ResumeIsSafeIff` says why the overlap is
  needed and `AspSync.ResumingPastTheCursorLosesALeaf` shows what the documented rule loses;
  `ScannerSync.ResumeIsSafeIff` and `ScannerSync.ResumingPastTheCursorLosesANullifier` say the same
  of the scanner.
- `MvkRegistryMirror.register` is documented as idempotent per key like the contract
  (`console/packages/core/src/mvk-registry.ts:33-34`); `syncLeaves` forgets the recorded keys.
  `MvkRegistry.MvkRegistryMirror.Register` gives the exact condition: a second copy of a leaf is
  appended if and only if the key is not zero, not recorded, and its leaf already in the tree.
  `MvkRegistry.MvkRegistryMirror.RegisterAfterSync` and `RegisterAcrossSync` are the inputs, and
  `RegisterAfterOwnSync` the sync that keeps it idempotent.
- The witness checks compare the index and the fold but not the length of the path
  (`console/packages/core/src/pool.ts:445-454`), so binding is stated for paths of full length;
  `MerkleBinding.ShortenedPathFolds` shows that an inner node with what is left of a true path
  folds to the root as well.
- `int2str` is documented as the reverse of `str2int`; it also removes null characters, so
  `MetadataCodec.TextRoundTrip` holds exactly for texts without them.
- Batch payroll assignment is greedy in payout order, largest note first. For a single batch
  `Payroll.GreedyCompleteIffNonIncreasing` says when the rule finds an assignment wherever there is
  one, and `Payroll.GreedyRefusesUnorderedPayouts` is a batch it refuses.
- A whole run that is shown exactly the treasury's live notes and can spend them all succeeds if and
  only if `PayrollAmounts.Serves` holds of the treasury's amounts at the start, which can be checked
  before anything is submitted (`Payroll.OrgBatchPayroll`). A treasury
  whose k-th largest note covers payout k of the run serves it under every cap
  (`PayrollAmounts.CoveredRunIsServed`); for positive payouts to others, having a distinct covering
  note for each is always enough exactly if the payouts do not increase
  (`PayrollAmounts.RunCompleteIffFalling`). Runs that would have to spend change again are another
  matter: notes of 10 and 6 could pay 6, 5 and 5, and the rule refuses after settling a part of it
  or none (`Payroll.RefusedRunIsPayable`).
- `usdcToStroops` is documented for decimals; `Decimal.AcceptsIff` says exactly which texts it accepts,
  and `Decimal.AcceptsMoreThanDecimals` that "1.-5", "1.2.3" and "0x10" are among them.
- `tokenText` prints a negative amount with the sign inside the fraction and pads in front of it, so
  it reads back only if the fraction is nothing or has five digits (`Decimal.TokenRoundTrip`).

## Model

| member | source | states |
|---|---|---|
| MerkleSpec.ShiftIsDivision | console/packages/core/src/merkle.ts:53-59 | the 32-bit right shifts of the index walk are divisions by powers of two |
| MerkleSpec.WidthIsCeiling | console/packages/core/src/merkle.ts:46-62 | a level of a tree of n leaves stores ceil(n / 2^level) nodes |
| MerkleSpec.AppendChangesOnlySpine | console/packages/core/src/merkle.ts:46-62 | appending a leaf changes no node of any level except the one on the new leaf's spine, in the recursive definition |
| MerkleSpec.NodePastWidthIsZero | console/packages/core/src/merkle.ts:56-57 | every node beyond the stored width is the level's zero, so the zero filler is right |
| MerkleSpec.SiblingsFoldToAncestor | console/packages/core/src/scanner.ts:504-512 | any path whose entries are the true siblings folds a leaf to its true ancestor at every level |
| MerkleSpec.TruePathFoldsToRoot | console/packages/core/src/merkle.ts:69-83 | folding the true path from any leaf, within capacity, gives the root of the zero-padded tree |
| MerkleMirror.SpineStep | console/packages/core/src/merkle.ts:52-60 | recomputing one parent brings a whole stored level up to date with the longer leaf list |
| MerkleMirror.MerkleTreeMirror.constructor | console/packages/core/src/merkle.ts:29-33 | a new mirror is the empty tree, with every stored level correct |
| MerkleMirror.MerkleTreeMirror.Insert | console/packages/core/src/merkle.ts:46-62 | returns the next index, appends the leaf, and keeps every stored node equal to the recursive hash and every level ceil(n / 2^level) long |
| MerkleMirror.MerkleTreeMirror.SetLeaves | console/packages/core/src/merkle.ts:41-44 | the tree afterwards is the tree over the given leaves; the pool and allow-set rebuilds are this operation |
| MerkleMirror.MerkleTreeMirror.GetRoot | console/packages/core/src/merkle.ts:64-67 | the stored root is the recursive root of the padded leaves, also for the empty tree |
| MerkleMirror.MerkleTreeMirror.Path | console/packages/core/src/merkle.ts:69-83 | exactly the true authentication path for a leaf index in range, an error for any other index |
| MerkleMirror.MerkleZeros | console/packages/core/src/merkle.ts:29-33 | the zero table holds the root of the empty tree of each height |
| MerkleBinding.EqualFoldsAgreeOrCollide | console/packages/core/src/scanner.ts:504-512 | two folds at one index that meet have equal values and siblings, or yield two inputs with the same compression |
| MerkleBinding.RootBindsLeafAndPath | console/packages/core/src/pool.ts:445-454 | a full-length path that folds to the root proves the leaf and is the true path, or exhibits a collision of the compression |
| MerkleBinding.InjectiveCompressionBinds | console/packages/core/src/pool.ts:445-454 | under an injective compression a witness is accepted if and only if it is the leaf with its true path |
| MerkleBinding.CheckWitness | console/packages/core/src/pool.ts:1005-1018 | a supplied witness is refused for a wrong index, then for a fold that misses the root, and accepted otherwise; an accepted path of full length against the root of a tree is the true path of the true leaf, or hands over a collision |
| MerkleBinding.ShortenedPathFolds | console/packages/core/src/pool.ts:445-454 | the length is not checked: an inner node with the rest of a true path folds to the root too |
| MerkleBinding.FoldMerklePath | console/packages/core/src/scanner.ts:504-512 | the loop computes the recursive fold |
| Frontier.SpineSiblingIsTrue | console/packages/core/src/scanner.ts:598-608 | the value an append takes beside its spine at each level is the true sibling in the longer tree |
| Frontier.RefillFillsLevels | console/packages/core/src/scanner.ts:599-606 | an append leaves at every level the hash of the filled subtree of the longer leaf list |
| Frontier.AppendDescribes | console/packages/core/src/scanner.ts:589-611 | within capacity an append takes a frontier of n leaves to the frontier of n + 1 |
| Frontier.ReachableFrontierDescribes | console/packages/core/src/scanner.ts:514-519 | the invariant over every run: any run of appends from a fresh frontier describes exactly the leaves inserted |
| Frontier.AppendedWitnessesAreTrue | console/packages/core/src/scanner.ts:578-612 | witness j of a run has index n + j and is the path and root of the tree over the old leaves and the first j + 1 new ones |
| Frontier.TailWitnessRootIsTreeRoot | console/packages/core/src/scanner.ts:610 | that intermediate root is the root the stored-node tree would have after those inserts |
| Frontier.AppendOne | console/packages/core/src/scanner.ts:594-610 | one pass of the level loop: the witness, the updated frontier, and for any frontier at all the path folds the new leaf to that append's own root |
| Frontier.AppendPoolWitnesses | console/packages/core/src/scanner.ts:578-612 | the whole replay: which error when, and every witness in order |
| Frontier.LatestLeafWitness | console/packages/core/src/scanner.ts:804-826 | reading the latest leaf's path off the stored frontier, refused unless it folds to the live root (the allow-set and key-registry variants at 680-795 run the same loop) |
| Frontier.LatestPathIsTrue | console/packages/core/src/scanner.ts:811-819 | on a consistent frontier the values read are exactly the latest leaf's siblings |
| Frontier.LatestLeafAcceptedIffTrue | console/packages/core/src/scanner.ts:820-825 | the fold check never refuses the true latest leaf, and accepting another value exhibits a collision |
| KnownSuffix.StartOfNode | console/packages/core/src/scanner.ts:614-618 | start positions and node indices address the same subtrees, including the filled one |
| KnownSuffix.DefinedIffSupplied | console/packages/core/src/scanner.ts:620-635 | a subtree hash is derivable if and only if each of its live leaves is known or under a stored subtree inside it |
| KnownSuffix.DerivedNodeIsTrue | console/packages/core/src/scanner.ts:620-635 | every hash that is derived from a true frontier and true known leaves is that of the padded tree |
| KnownSuffix.SiblingsDefinedIffDerivable | console/packages/core/src/scanner.ts:655-663 | all siblings of a leaf are derivable if and only if every other live leaf is known or covered by a stored subtree that does not contain the leaf |
| KnownSuffix.ReconstructPoolWitness | console/packages/core/src/scanner.ts:637-671 | the reconstruction loop, with its error cases in the order the code meets them; for a true leaf, the frontier of its tree and a list of true leaves it returns the true witness if and only if that can be derived from the leaves listed |
| KnownSuffix.KnownMapFacts | console/packages/core/src/scanner.ts:647-648 | exactly the leaves listed are known, each with the commitment of its last entry |
| KnownSuffix.ReconstructionIsExact | console/packages/core/src/scanner.ts:637-671 | for a true leaf it returns exactly the true path and root if and only if that condition holds, and otherwise names the first missing level |
| KnownSuffix.WrongCommitmentNeedsCollision | console/packages/core/src/scanner.ts:665-669 | a commitment that is not the leaf is accepted only together with a collision |
| KnownSuffix.LatestLeafNeedsNothing | console/packages/core/src/scanner.ts:637-671 | the latest leaf needs no known leaf at all |
| KnownSuffix.RetainedSuffixSuffices | console/packages/core/src/scanner.ts:637-671 | a suffix of leaves from the largest aligned block that contains leaf i but not the latest leaf is always enough |
| MvkRegistry.MvkRegistryMirror.constructor | console/packages/core/src/mvk-registry.ts:37-39 | an empty registry with no recorded key |
| MvkRegistry.MvkRegistryMirror.SyncLeaves | console/packages/core/src/mvk-registry.ts:49-53 | the tree is the given leaves and no key stays recorded |
| MvkRegistry.MvkRegistryMirror.SyncWithOwnedKey | console/packages/core/src/mvk-registry.ts:63-69 | succeeds if and only if the key's leaf occurs, and records its first position |
| MvkRegistry.MvkRegistryMirror.Register | console/packages/core/src/mvk-registry.ts:72-79 | a recorded key keeps its position and changes nothing, a new one is appended; every recorded key has its own leaf at its position; a second copy of a leaf appears if and only if the key is nonzero and not recorded and its leaf is already in the tree |
| MvkRegistry.MvkRegistryMirror.RegisterAfterSync | console/packages/core/src/mvk-registry.ts:49-79 | the documented idempotence fails after a replay: a replay of the key's one leaf and a registration give that leaf twice |
| MvkRegistry.MvkRegistryMirror.RegisterAcrossSync | console/packages/core/src/mvk-registry.ts:49-79 | registering, replaying and registering again adds the leaf twice, at two positions |
| MvkRegistry.MvkRegistryMirror.RegisterAfterOwnSync | console/packages/core/src/mvk-registry.ts:63-79 | after a replay that names the key, registering it changes nothing and gives its first position |
| MvkRegistry.MvkRegistryMirror.GetRoot | console/packages/core/src/mvk-registry.ts:86-88 | the recursive root of the registry's leaves |
| MvkRegistry.MvkRegistryMirror.PathFor | console/packages/core/src/mvk-registry.ts:91-95 | a recorded key's path folds its own leaf to the current root; any other key is refused |
| Amounts.LargestFirstDominates | console/packages/core/src/balance.ts:46 | the exchange argument: no choice of k notes is worth more than the k largest |
| Amounts.ArrangedIsStable | console/packages/core/src/client.ts:1359 | sorting largest first leaves notes of the same amount in the order they came in |
| CoinSelection.SelectNotesForBalance | console/packages/core/src/balance.ts:42-56 | null if and only if no choice of at most four notes reaches the threshold; otherwise the first notes of the stable largest-first order, as few as any choice that does |
| CoinSelection.SelectNote | console/packages/core/src/client.ts:1256-1261 | the smallest single covering note, none if and only if no note covers |
| CoinSelection.SelectSpendNotes | console/packages/core/src/client.ts:255-265 | empty if and only if no one or two notes cover; otherwise the smallest single cover, else the two most valuable notes; ties as the stable sort decides |
| CoinSelection.NewestCoveringNote | console/packages/core/src/client.ts:271-275 | the covering note with the highest leaf index |
| CoinSelection.PlanSend | console/packages/core/src/client.ts:1154-1160 | every plan tried is one or two of the notes and covers the amount; there is none if and only if no one or two notes cover; a newest single cover comes first |
| PoolLedger.StepMovesValue | console/packages/core/src/client.ts:1192-1198 | a step takes its inputs from and gives its outputs to everybody's unspent value |
| PoolLedger.ShieldIsLegal | console/packages/core/src/client.ts:1086-1101 | a shield is legal in every ledger and gives its owner exactly the deposit |
| PoolLedger.RunConservesValue | console/packages/core/src/client.ts:1367-1369 | for runs of legal steps from any ledger: unspent value is the start plus shielded minus unshielded (that client operations make only such runs is ClientRuns.RunClient) |
| PoolLedger.RunSpendsOnce | console/packages/core/src/client.ts:1416-1426 | for runs of legal steps: no leaf is spent twice, none that was spent before, and the spent set is exactly the leaves the steps consumed |
| PoolLedger.SpendableFacts | console/packages/core/src/client.ts:649-667 | an account's spendable notes are exactly its live leaves, once each, and add up to its unspent value |
| Payments.PaymentMoves | console/packages/core/src/client.ts:1192-1235 | a payment out of distinct live notes is legal, and moves exactly the amount from payer to payee and nothing else |
| Payments.ChoosePlan | console/packages/core/src/client.ts:1154-1191 | for lack of funds it refuses if and only if no one or two notes cover; for lack of a witness, on distinct leaves, if and only if one is missing both for the newest covering note and for the primary plan; otherwise the first of these plans that has its witnesses |
| Payments.Send | console/packages/core/src/client.ts:1137-1253 | a send out of whatever is shown goes through if and only if one or two notes cover, some plan is witnessed and the plan taken is all live notes of the payer; each refusal has its exact condition and submits nothing; otherwise one legal step out of the plan taken moves exactly the amount |
| Unshield.MergeKeepsTrack | console/packages/core/src/client.ts:1357-1429 | one consolidation of two of the account's notes is legal, changes nobody's balance, and leaves the merged note with the account |
| Unshield.TopPair | console/packages/core/src/client.ts:1359-1362 | merging the two largest positive notes for good makes them one note in front, and the others keep their order |
| Unshield.WorkingFacts | console/packages/core/src/client.ts:1356-1430 | after i merges the positive notes worked with, largest first, are the i + 1 largest of those shown, made into one, and then the others |
| Unshield.PrefixIsSmallestCover | console/packages/core/src/client.ts:1352-1430 | the first largest-first prefix that pays is a smallest covering choice of notes |
| Unshield.LoopExhausted | console/packages/core/src/client.ts:1352-1366 | merging runs out only when everything shown is short, so neither fragmentation error can happen to notes that suffice |
| Unshield.Consolidate | console/packages/core/src/client.ts:1343-1436 | the consolidation loop, exactly: refused if the notes shown do not suffice; no merge if one of them covers; otherwise the notes of the smallest cover are merged, largest first, up to the first pair with a note that cannot be spent, and nothing else that is shown matters |
| Unshield.MergesAreLegal | console/packages/core/src/client.ts:1369-1429 | merges whose notes can all be spent are legal, move no value and leave the merged note with the account; every note they used was its own |
| Unshield.Unshield | console/packages/core/src/client.ts:1334-1454 | out of whatever is shown, the steps and the outcome exactly: refused if and only if the notes shown do not suffice; a smallest covering note decides alone; otherwise all notes of the smallest cover are merged and the merged note pays exactly the amount, or it stops at the first of these that cannot be spent. If every live note can be spent, it succeeds if and only if the notes of that cover are the account's, whatever else is shown. Nobody else is touched and a failure moves no value |
| Unshield.OnlyUsedNotesMatter | console/packages/core/src/client.ts:1357-1436 | if every live note can be spent, merging goes through if and only if the notes it uses are the account's |
| Unshield.DrainOne | console/packages/core/src/client.ts:2159-2164 | a round of a claim asks for what the first positive note shown is worth; the smallest note that covers it is paid out whole, which closes exactly one, or the round is blocked because that note cannot be spent |
| Unshield.RoundPaysOneNote | console/packages/core/src/client.ts:2161-2163 | asked for the amount of some note shown, the note selected has that very amount, so a round leaves a zero change |
| Unshield.Claim | console/packages/core/src/client.ts:2147-2171 | round after round, each paying what is asked for on what is shown at its turn, until nothing positive is shown or a round is blocked; one withdrawal for each note closed, and value withdrawn plus value left is what the account had; shown its own notes and able to spend them, it withdraws exactly the account's value or reports that there was none |
| Payroll.SettledFromOne | console/packages/core/src/client.ts:819-855 | paying one more payout out of one live note: legal, exactly paid, and the change is live on the second new leaf |
| Payroll.ChainAdvances | console/packages/core/src/client.ts:819-855 | each payout of a chained run spends the change of the one before, which is live and large enough |
| Payroll.OrgPayroll | console/packages/core/src/client.ts:788-857 | refused with nothing submitted if and only if no note shown covers the total; otherwise the largest shown is used and exactly the payouts before the first one that cannot be proved are paid, in order; if every live note can be spent, that is all of them or, when the largest shown is not a live note, none |
| Payroll.LargestNote | console/packages/core/src/client.ts:805-807 | the first of the largest-first arrangement is a largest note |
| Payroll.FindFree | console/packages/core/src/client.ts:909 | the first free covering note |
| Payroll.AssignBatch | console/packages/core/src/client.ts:904-919 | succeeds if and only if the k-th largest note covers payout k for every k, and then gives payout k the k-th largest note |
| Payroll.GreedyIsComplete | console/packages/core/src/client.ts:901-918 | for payouts in non-increasing order the rule succeeds whenever any assignment of distinct covering notes exists |
| Payroll.GreedyCompleteIffNonIncreasing | console/packages/core/src/client.ts:901-918 | the rule is complete for every treasury if and only if the payouts are in non-increasing order |
| Payroll.GreedyRefusesUnorderedPayouts | console/packages/core/src/client.ts:901-918 | a concrete treasury and payout order for which an assignment exists and the rule finds none |
| Payroll.BatchIsLegal | console/packages/core/src/client.ts:908-945 | the spends of a batch all use notes that were live before it and are legal together, whatever else was shown |
| Payroll.SettleChunk | console/packages/core/src/client.ts:899-945 | a chunk is refused for cover if and only if the k-th largest note shown does not cover its payout k for some k; otherwise payout k is paid out of that very note, legally and exactly, or nothing is settled because one of these notes cannot be spent |
| Payroll.BatchCap | console/packages/core/src/client.ts:894 | a chunk holds three payouts unless one or two are asked for; less than one counts as one |
| Payroll.OrgBatchPayroll | console/packages/core/src/client.ts:873-959 | the chunks before the first refused one are settled, each paid largest first out of what was shown at its turn, and nothing else happens; with a clear view a run succeeds if and only if the rule on amounts serves it from the treasury's amounts at the start, for one whenever the k-th largest note covers payout k |
| Payroll.ThreeAtATime | console/packages/core/src/client.ts:894-945 | unless fewer are asked for, three payouts at a time are paid out of the three largest notes that were shown before any of the three |
| Payroll.AskingForLessCanHelp | console/packages/core/src/client.ts:894-915 | a treasury of 10 and 1 does not serve payouts of 5 and 5 by default, and does one payout at a time |
| Payroll.HoldingsAfterBatch | console/packages/core/src/client.ts:899-945 | after a batch out of its live notes the treasury holds exactly the notes left over, the changes, and what it paid itself |
| Payroll.RefusedRunIsPayable | console/packages/core/src/client.ts:897-957 | a treasury of 10 and 6 and payouts 6, 5, 5: legal steps pay them all, and the rule refuses the run under every cap |
| Treasury.HoldingsAfterPayment | console/packages/core/src/client.ts:911-926 | a payment takes the amount of the note it spends out of the payer's holdings and puts in the change, and the payment itself if it was to the payer |
| PayrollAmounts.CoveredRunIsServed | console/packages/core/src/client.ts:897-957 | if the k-th largest amount covers payout k of the whole run, every chunk is served, whatever the cap |
| PayrollAmounts.RunCompleteIffFalling | console/packages/core/src/client.ts:897-957 | for positive payouts to others and any cap: every treasury with a distinct covering note for each payout serves the run if and only if the payouts do not increase |
| PayrollAmounts.RuleWastesChange | console/packages/core/src/client.ts:901-918 | payouts 6, 5, 5 from amounts 10 and 6 are not served under any cap, although change spent again would do |
| PayrollAmounts.ServesAnyOrder | console/packages/core/src/client.ts:904-907 | whether a run is served depends on the amounts held, not on the order they are listed in |
| ClientRuns.Perform | console/packages/core/src/client.ts:788-1454 | each operation, through the real flow and on whatever it is shown, submits what that flow submits, no more and no less, and enters exactly what was paid: a send if and only if it goes, an unshield if and only if it succeeds, a payroll its payouts up to where it stops. It is a legal run that changes everybody's value by that line of the book. With a clear view unshields and claims depend on the balance alone, a send goes if and only if one or two own notes cover it, a chained payroll pays all if one does and else nothing, and a batched one pays all if and only if the rule serves it |
| ClientRuns.RunClient | console/packages/core/src/client.ts:788-2171 | any sequence of client operations from the empty pool, whatever each is shown, is carried out operation by operation, each on the pool its predecessors left; everybody's unspent value is what the account book says; unspent plus unshielded equals shielded; no leaf is ever spent twice |
| ClientRuns.BookBalances | console/packages/core/src/client.ts:1367-1369 | what all accounts hold together is what came in less what went out: payments cancel |
| EventPaging.CollectEvents | console/packages/core/src/scanner.ts:369-414 | the paging loop with its age-out retries, page budget and error cases |
| EventPaging.CollectionEndsAt | console/packages/core/src/scanner.ts:388-413 | the first page that has no cursor, or one in the latest ledger, ends a collection with the events of all pages so far; an error ends it without any; and after 1024 pages behind the first it fails |
| EventPaging.OpenEvents | console/packages/core/src/scanner.ts:377-385 | the first page is the answer to the first request that did not age out, or to the seventh; each request after the first asks from a margin above the oldest ledger the last error named |
| EventPaging.AsksAgain | console/packages/core/src/scanner.ts:381-385 | after an age-out error it asks again from sixteen ledgers above the oldest one named, six times at most |
| EventPaging.NextPageContinues | console/packages/core/src/scanner.ts:396-406 | a page on from a cursor continues exactly where the last ended |
| EventPaging.CollectionIsComplete | console/packages/core/src/scanner.ts:369-414 | against any honest server a successful collection is one uninterrupted stretch of the log that misses nothing below the first page's latest ledger |
| EventPaging.CollectionSucceeds | console/packages/core/src/scanner.ts:393-412 | against a server that never errs, and whose pages hold at least m events unless they reach the latest ledger, it succeeds for every log with fewer than m * 1025 events from the start ledger on |
| Scanner.NoteScanner.constructor | console/packages/core/src/scanner.ts:120-123 | an empty scanner at the start ledger |
| Scanner.NoteScanner.Ingest | console/packages/core/src/scanner.ts:125-169 | the whole new state after an event |
| Scanner.NoteScanner.SyncFromRpc | console/packages/core/src/scanner.ts:417-434 | all collected events are ingested in order; a failed collection changes nothing |
| Scanner.NoteScanner.Snapshot | console/packages/core/src/scanner.ts:180-208 | the snapshot captures the state, holes dropped |
| Scanner.NoteScanner.Restore | console/packages/core/src/scanner.ts:211-242 | the state rebuilt from a snapshot, older snapshots without nullifier records included |
| Scanner.RestoreIsExact | console/packages/core/src/scanner.ts:180-242 | restoring a snapshot gives back exactly the state it was taken of |
| Scanner.RestoredHolds | console/packages/core/src/scanner.ts:211-242 | whatever a snapshot lists is restored, older snapshots included: every leaf with its last record and no other, and exactly the listed nullifiers count as spent |
| Scanner.NoteScanner.OrderedLeaves | console/packages/core/src/scanner.ts:245-253 | all leaves in order if and only if no index is missing, else the first missing index |
| Scanner.NoteScanner.Scan | console/packages/core/src/scanner.ts:256-272 | trial decryption with the binding check, slot by slot |
| Scanner.NoteScanner.Spendable | console/packages/core/src/scanner.ts:275-298 | both spendable lists: the owned notes whose nullifier has not been seen |
| Scanner.SpendableExactly | console/packages/core/src/scanner.ts:263-298 | a note is spendable if and only if the ciphertext on record opens to it, it has the commitment on record, it is owned, and its nullifier has not been seen |
| Scanner.SpentStaysSpent | console/packages/core/src/scanner.ts:150-159 | no further ingestion makes a spent note spendable |
| Scanner.NoteScanner.MergePrevious | console/packages/core/src/client.ts:368-380 | the re-scan keeps its own records and takes over the rest |
| Scanner.MergeNeverUnspends | console/packages/core/src/client.ts:368-380 | after a merge a note is spendable if and only if the winning record yields it and neither scanner had seen its nullifier |
| ScannerSync.IngestsCommute | console/packages/core/src/scanner.ts:125-169 | events with different keys can be ingested in either order |
| ScannerSync.ReplayOne | console/packages/core/src/scanner.ts:125-169 | ingesting an event again changes nothing, bindings taken as a set |
| ScannerSync.ReplayStretch | console/packages/core/src/client.ts:346-350 | reading a stretch that overlaps what is known extends it to the stretch's end |
| ScannerSync.ResumeIsSafeIff | console/packages/core/src/client.ts:349 | reading on from a ledger loses nothing, however the log continues, if and only if it is no later than the last ledger read |
| ScannerSync.ResumeReadsAgain | console/packages/core/src/client.ts:349 | an incremental sync reads a ledger again if and only if it is at most a hundred behind the cursor |
| ScannerSync.SyncPool | console/packages/core/src/client.ts:346-400 | one sync of the client with a durable store, exactly: a failed read changes nothing; otherwise what was read is stored, and if its mirror is in sync that is all; else there is one recovery, kept and stored if and only if the re-scan succeeds and its merged mirror is in sync or gaps are allowed; it reports the mirror in sync if and only if the scanner it is left with has one |
| ScannerSync.RunSyncs | console/packages/core/src/client.ts:332-400 | any sequence of the client's syncs, reads whose store failed and restarts, from an empty store against honest servers, session by session what each does; the scanner and the store both follow the log, and the scanner has everything below the latest ledger its last read was told of |
| ScannerSync.RunSession | console/packages/core/src/client.ts:539-545 | one session: a full sync as above, a read that leaves the store alone, or coming back to exactly what is stored |
| ScannerSync.RecoverScanner | console/packages/core/src/client.ts:365-400 | gap recovery: a re-scan from genesis that takes over the previous scanner replaces it if its mirror is in sync or gaps are allowed, and otherwise the previous scanner stays |
| ScannerSync.MergeOfPrefixes | console/packages/core/src/client.ts:365-381 | merging two scans of prefixes of the log gives the scan of the longer one |
| ScannerSync.RunsFollowTheLog | console/packages/core/src/client.ts:332-400 | after any mix of syncs, stores, restarts from what is stored, however old, and recoveries, kept or reverted, the scanner and the stored snapshot are each that of a genesis scan of a prefix of the log, complete below the ledger it has reached |
| ScannerSync.NothingIsSkipped | console/packages/core/src/client.ts:346-351 | no event below the ledger a run has reached is ever missing, restarts that fall back to an older snapshot included |
| ScannerSync.RunsAgree | console/packages/core/src/client.ts:332-351 | two runs agree on every commitment, nullifier and binding below a ledger both have reached; incremental equals genesis |
| ScannerSync.RunsHaveNoGaps | console/packages/core/src/client.ts:353-354 | after any run the ordered leaves are a prefix of the pool's leaves, without a gap |
| ScannerLedger.ScanIsTheLog | console/packages/core/src/scanner.ts:125-169 | a scan of the log holds what the log says and nothing else: every leaf inserted, every nullifier announced, every binding, each with its ledger, time and transaction |
| ScannerSync.ResumingPastTheCursorLosesANullifier | console/packages/core/src/client.ts:349 | a concrete log and honest server for which resuming one past the cursor would never see a nullifier |
| EventPaging.ResumingPastTheCursorLosesEvents | console/packages/core/src/scanner.ts:445-451 | for any two events of one ledger: an honest server can end a collection between them, and resuming past that ledger then never brings the second, whatever server answers |
| ScannerLedger.EachSlotMatches | console/packages/core/src/scanner.ts:256-298 | the scan shows a slot exactly if the log tells the viewer of the leaf, with the ledger's amount |
| ScannerLedger.ScannerShows | console/packages/core/src/scanner.ts:256-298 | once a run has reached past the last event, whatever crashes, restarts and recoveries led there, the spendable notes are exactly the leaves that the log tells the viewer of |
| LedgerLog.ChainTells | console/packages/core/src/scanner.ts:125-169 | the log of any legal transactions from the empty pool is in order, without a repeated key, inserts exactly the pool's notes each under its index, and announces exactly the nullifiers of its spent leaves and the padding of one-note spends |
| LedgerLog.OneNotePayment | console/packages/core/src/pool.ts:592-606 | a payment out of one live note, padded with a dummy input, is accepted after any chain, and its transaction announces exactly two nullifiers, the note's and the dummy's |
| LedgerLog.ChainRecords | console/packages/core/src/scanner.ts:256-298 | such a log records for each reader exactly the leaves it is shown: what its key opens and its filter lets through, unless the nullifier under its own key is announced |
| LedgerLog.LeafShownIff | console/packages/core/src/scanner.ts:275-298 | a leaf is shown exactly if it is the reader's and unspent, if and only if the leaf agrees: an own leaf is sealed to the reader or spent, a foreign one is not, or is filtered out, or its nullifier under the reader's key is announced |
| LedgerLog.ScannerFindsTheBalance | console/packages/core/src/client.ts:649-667 | once a run has read the log of a chain to its end, the spendable notes are exactly the ledger's live notes of the account, each once and with its amount, if and only if every leaf agrees; then their total is its value |
| LedgerLog.OrganisationIsShownItsBalance | console/packages/core/src/scanner.ts:288-298 | with the recipient filter every leaf agrees as soon as the organisation's own notes are sealed to the reading key, whatever else that key opens |
| LedgerLog.ForeignNoteStaysShown | console/packages/core/src/scanner.ts:275-279 | without the filter a foreign note that the key opens is shown as long as its nullifier under the reader's own key is not announced, spent or not, and is never one of the account's |
| LedgerLog.TreasuryNoteIsTaken | console/packages/core/src/client.ts:1256-1261 | treasury funded, account shielded more, and less asked for: the smallest covering note shown is the treasury's |
| LedgerLog.UnshieldPastTheTreasury | console/packages/core/src/client.ts:1334-1454 | so the unshield fails and submits nothing, although the account's balance suffices |
| Wallet.GetBalance | console/packages/core/src/client.ts:664-667 | the total of the spendable notes |
| Wallet.SyncAndReadBalance | console/packages/core/src/client.ts:332-400 | whatever operations made the account book, whatever transactions carried them, and whatever syncs, failed stores and restarts the client went through, it shows the total of what its scanner shows; if its last read was answered past the end of the log and every leaf agrees, that is the balance on the book |
| Wallet.BookIsShown | console/packages/core/src/client.ts:649-667 | the total of what the scanner shows is the balance on the book, for every run that has read the chain |
| AspSync.FetchAspLeavesSince | console/packages/core/src/scanner.ts:452-479 | the merged list succeeds if and only if its indices have no gap, and then holds exactly the merged leaves; otherwise the first missing index |
| AspSync.SyncAsp | console/packages/core/src/client.ts:407-410 | one incremental sync of the allow-set, which succeeds if and only if the collection does and no index is missing |
| AspSync.CursorIsLatest | console/packages/core/src/scanner.ts:463-465 | the cursor is the ledger of some event read, or the one before the start, and no event read is of a later one |
| AspSync.MergeStretch | console/packages/core/src/scanner.ts:459-471 | merging an overlapping stretch of the log extends the held list to its end |
| AspSync.SyncStepHolds | console/packages/core/src/client.ts:406-410 | a sync of an honest log never finds an index missing, keeps what was held, and then holds everything below the latest ledger |
| AspSync.AspRunsFollowTheLog | console/packages/core/src/client.ts:402-416 | after any mix of fetches, stores and reloads the list in memory and the stored one are each a prefix of the allow-set, complete below the ledger they have reached |
| AspSync.ResumeIsSafeIff | console/packages/core/src/client.ts:407 | reading on from a ledger loses no leaf, however the log continues, if and only if it is no later than the last ledger read |
| AspSync.ResumingPastTheCursorLosesALeaf | console/packages/core/src/scanner.ts:445-451 | a concrete log and honest server for which the documented resume, one past the cursor, loses a leaf, and every later leaf leaves a gap |
| MetadataCodec.ChunkFitsField | backend/contracts/src/constants.ts:3-4 | 2^250 is below the field order, which is below 2^256 |
| MetadataCodec.SplitIntoBigIntChunks | backend/contracts/src/metadata.ts:8-26 | the splitting loop gives the base-2^250 digits, and [0] for zero |
| MetadataCodec.CombineFromBigIntChunks | backend/contracts/src/metadata.ts:29-39 | the combining loop gives the number the digits stand for |
| MetadataCodec.CombineOfSplit | backend/contracts/src/metadata.ts:8-39 | combining undoes splitting; every chunk is canonical and a field element |
| MetadataCodec.SplitOfCombineIff | backend/contracts/src/metadata.ts:8-39 | splitting undoes combining if and only if the chunk list is canonical |
| MetadataCodec.TextRoundTrip | backend/contracts/src/metadata.ts:44-85 | decoding an encoded text gives it without its null bytes, so gives it back if and only if it has none |
| MetadataFraming.ParseFrame | backend/contracts/src/metadata.ts:122-145 | the framing parser on text: the optional prefix, short final words, missing header words, and words that are not hexadecimal |
| MetadataFraming.FrameRoundTrip | backend/contracts/src/metadata.ts:107-145 | a frame can be written if and only if every number fits a word, and then parses back, with the prefix or without it, to exactly what was framed |
| MetadataFraming.MetadataRoundTrip | backend/contracts/src/metadata.ts:89-156 | decrypting an encrypted message gives it back up to its null bytes, for every sound cipher and every message; the only refusal is a chunk count that fits no word |
| IntegerText.ReadsDigits | console/packages/core/src/client.ts:2398 | every string of decimal digits reads as its number, the empty one as zero |
| Decimal.ReadsDecimals | console/packages/core/src/client.ts:2395-2401 | an optionally signed decimal, spaces around it and a missing point or missing digits allowed, is read exactly with up to seven decimals; one with more is refused |
| IntegerText.ReadsIff | console/packages/core/src/client.ts:2399 | exactly the integer texts are read: nothing but spaces, optionally signed digits, or prefixed digits of their radix, spaces around them allowed |
| IntegerText.ReadsPrefixed | console/packages/core/src/client.ts:2399 | digits behind 0x, 0o or 0b, in either case, are read in radix sixteen, eight or two |
| IntegerText.TrimIs | console/packages/core/src/client.ts:2395 | trimming takes the spaces off both ends and leaves none there |
| Decimal.AcceptsIff | console/packages/core/src/client.ts:2395-2401 | exactly the texts are accepted whose part before the point, and whose part between it and the next with zeros behind it, are integer texts, the second of at most seven characters |
| Decimal.SecondPointIsIgnored | console/packages/core/src/client.ts:2397 | a second point and what follows it change nothing |
| Decimal.AcceptsMoreThanDecimals | console/packages/core/src/client.ts:2395-2401 | "1.-5" reads as 0.95, "1.2.3" as 1.2 and "0x10" as 16 |
| Decimal.StroopsRoundTrip | console/packages/core/src/client.ts:2382-2401 | printing an amount and reading it back gives the same amount, for every integer |
| Decimal.PrintsPlainly | console/packages/core/src/client.ts:2382-2388 | stroops print as their whole part, without a superfluous zero, and exactly seven decimals, behind a sign if negative |
| Decimal.ReadsTokenText | backend/contracts/scripts/seed-fixtures.ts:424-432 | what the print of any integer reads back as |
| Decimal.PrintsTokens | backend/contracts/scripts/seed-fixtures.ts:424-432 | a token amount from zero up prints as its whole part, without a superfluous zero, and its decimals up to the last that is not zero |
| Decimal.TokenRoundTrip | backend/contracts/scripts/seed-fixtures.ts:424-432 | a printed token amount reads back to the amount if and only if it is not negative, or its fraction is nothing or has five digits |
| Decimal.SumDecimalAmounts | backend/contracts/scripts/seed-fixtures.ts:1010-1020 | the print of the sum of what every text reads as, with everything BigInt reads, or a failure if one cannot be read |
| Decimal.PrintedAmountsAddUp | backend/contracts/scripts/seed-fixtures.ts:1010-1020 | printed amounts of any list of naturals read back to their sum |

## Left out

- Payments.Send: the real code shuffles the two outputs at random; the order is a parameter, and the theorem holds for both. A note of zero counts like any other when it is checked to be the payer's, although a zero input is not checked on chain.
- Unshield.Unshield: amounts are naturals; a negative amount, which the client never checks for, is not modelled. Whether a note can be spent, its witness included, is one parameter, and so it is for `Unshield.Claim`.
- Payroll.OrgPayroll: whether a payout can be proved, its witness, signatures and tree included, is one parameter; a failure after a transaction was submitted is not modelled. The same holds for `Payroll.SettleChunk` and `Payroll.OrgBatchPayroll`.
- KnownSuffix.ReconstructPoolWitness: leaf indices are integers, so the safe-integer check is only its sign and range part.
- MetadataCodec.TextRoundTrip: a text is its UTF-8 bytes; encoding and decoding of UTF-8 itself are not modelled.
- MetadataFraming.MetadataRoundTrip: the cipher is any pair of functions that undo each other on field elements; Poseidon encryption itself, and how it fails on a ciphertext it did not make, are not modelled.
- PayrollAmounts.RunCompleteIffFalling: a payout of zero, which gives its note back whole, and a payout of the treasury to itself are covered by `PayrollAmounts.CoveredRunIsServed` and by the condition of `Payroll.OrgBatchPayroll` only.
- ClientRuns.RunClient: where several notes of one amount qualify, which of them a single withdrawal, a claim or a payroll takes is left open, as it is where the source sorts with a comparison that is not consistent on equal amounts.
- EventPaging.CollectionIsComplete: after an age-out the stretch starts at the ledger finally asked for; nothing is claimed about the ledgers before it.
- ScannerSync.RunsFollowTheLog: servers that dropped old events are excluded, and so is the hosted start at a look-back ledger; both lose history on purpose. Bindings are compared as a set, because re-reading lists them again.
- The scanner's own incremental tree, which re-reading corrupts and nothing reads.
- The Merkle tree past its capacity, beyond what the stored-node methods state.
- Hashes, commitments, nullifier derivation, key derivation, sealing and opening, the Groth16 circuits and provers.
- The RPC transport: retries, timeouts, status codes, and the decoding of event values.
- The smart contracts themselves: their rules appear only as what makes a step legal and as the frontier's insertion.
- The order of the events of one transaction: the nullifiers of its notes, the padding, insertions, then the rest; the spends of a batch one after another. Actors other than the client between the steps of one operation, fees, and simulate-only batches.
- The order in which the batched payroll leaves notes of equal amount, where its contract permits every order; the order that a send, the consolidation and the proof of balance depend on is modelled.
- The witness cache and the choice between cached, stored and mirrored witnesses: one parameter of each operation says whether a witness can be had.
- The fixed-slot padding of balance proofs, the history journal, handles, invoices, claim links, account storage and switching.
- Reconstruction of the key registry's leaves from events, which repeats the allow-set code without resuming.
- Netting, compliance and authorisation proof builders, deploy scripts, configuration checks, the API and the user interfaces.
