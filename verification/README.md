# A verified model of the attestation chain

This project models, in Dafny, a permissioned chain on which reviewers attest to the work of others,
certificates are issued from weighted attestations, reviewers post token bonds, and validators finalize
blocks by signed quorums. Reputation, balances and the validator set are never stored: each is replayed
from the blocks before the one being judged. The project proves what that mutual dependence promises, and
where the code promises more than it keeps it proves the exact condition instead. Four self-contained parts
stand beside the chain: the Merkle tree, base58btc and `did:key`, canonical JSON, and the scalar and modular
routines of the browser's Ed25519 library.

Run `dafny verify dfyconfig.toml` in this directory.

## How the system is modelled

- **Cryptography is a parameter.** `Types.Config` holds the signature check and the hash functions as
  unconstrained functions, together with the two genesis anchors. Every theorem holds for all of them. A
  theorem that needs digests not to collide says so with `Types.CollisionFree`; `Codebook` builds such
  functions for any anchors and any signature check. A digest is a number, in the order of the fixed-width
  hexadecimal text it stands for; a key is a number of which only equality and order are used, 0 being the
  empty string. Every canonical encoding that gets signed is a constructor of `Types.Message`.
- **A history is the list of block bodies.** Derived state (`Derive.RegistryAt`, `Derive.BankAt`,
  `Consensus.CohortAt`, `Consensus.ValidatorSet`) is a function of it. The source's replays go by
  `block.index`, so the methods are proved for any list of blocks against functions that do the same
  (`Derive.ReplayedWeights`, `Derive.ReplayedBank`, `Consensus.ReplayedValidators`). Where indices are
  positions, which `Consensus.IndicesAreHeights` proves of every valid chain, these are the derived state.
- **Every rule is told twice.** The modules that follow the source test a rule as the code does. `Plain`,
  `Promotions`, `Deserved`, `Settlements`, `Preference`, `Contested`, `Conduct` and `Rulebook` say it of the chain
  alone, by who signed what and what stands where, and prove that the two accounts agree in both directions.
- **An exception is a result.** Where the source raises (an empty list of blocks, a replay that runs off the
  end of the chain) a method returns `Types.Raised`, and its contract says exactly when.
- **Objects that are updated are classes**: `Registry.ReputationRegistry`, `Balances.BalanceLedger`,
  `UnionFind.Forest`, `Derive.Replay`, `ForkChoice.Blockchain`, `Node.AttestationNode`. Values that are only
  built and compared are datatypes.
- **A handler is a function of the node's state.** `Protocol.NodeState` is what a node holds; each handler of
  `Node.AttestationNode` is proved to take it to the state a function of `Protocol` gives, messages included.
- **Runs.** A step of a node is any change its handlers make to its chain (`Runs.NodeStep`); every handler
  states that it performs such steps, so the whole-run theorems of `Runs` apply to every interleaving of them.
- **The network.** `Acts` lists everything that can happen to a node: each message it may hear and each call from
  outside. `Network` is a mesh of nodes to which these things happen in any order, with every message in flight
  until it is heard. `Flood` is the flood of one vote over a mesh in which each node has its own idea of which
  votes count; `Delivery` proves that handling a vote is one step of it, and `Reach` that a flood is what one vote
  sees of a run of the network, while blocks are mined, received, proposed and adopted.
- **Library calls**: `sorted` is `Sets.Sorted` on sets and `Sets.Sort` on lists, `int.from_bytes` and
  `int.to_bytes` are base-256 numerals, `json.dumps` is written out character by character. BigInt remainders
  keep JavaScript's sign.

## What the code does not keep

Each of these is stated and proved, with the condition under which the promise does hold.

- Merkle roots duplicate an odd last node, so the block that lists its last transactions again can have the same
  hash. On a valid chain what is repeated is a slash or changes nothing (`Finality.RepeatIsInert`). A repeated
  slash debits twice: `Finality.RepeatedSlashSplitsState` turns any acceptable block of three, five or more
  transactions, an odd number, that ends in a slash which bites, into a second acceptable block with the same
  hash and other reputation, and `Exhibits.RepeatedSlashSplitsValidators` has two valid chains, equal in every
  hash, with different validators. Chains that meet in a block hash have the same contents below it exactly when
  they list as many slashes block by block (`Finality.SharedHashSharedContents`); accountable finality is proved
  under that condition.
- `blockchain/blockchain.py:181-184` says that only genesis and promotions enlarge the validator set. A
  certificate in the consensus domain does too (`Admission.OneWayIn` is an equivalence), and for each key
  these three are all there is (`Admission.ThreeWaysIn`).
- The same attestation may be committed again while its bond is live. The stake is then locked twice and one
  lock can never be resolved (`Bonds.RepostStrands`). What a key has locked is its stake in live bonds exactly
  when no such attestation was ever committed (`Bonds.LockedIffNeverRestaked`).
- `network/community.py:737-763` counts every recorded view-change vote, also of keys that are no longer
  validators of the height because the chain below was replaced. `Exhibits.StaleVoteStartsRejectedProposal`
  drives a node there through its handlers; `Protocol.ProposalJustified` says exactly which proposals are
  justified.
- `network/community.py:857-859` drops a vote for a block the node does not hold and does not relay it, so a vote
  need not reach every node that would count it, even over a connected mesh (`LostVotes.CommitNeverArrives`).
  `Reach.VoteReaches` says exactly which nodes it reaches.

## Model

| member | source | states |
|---|---|---|
| `Merkle.BuildLevels` | blockchain/merkle.py:68-94 | the level-by-level loop with odd duplication builds the recursive tower, and its last level is the root alone |
| `Merkle.SmallTrees` | blockchain/merkle.py:68-94 | the trees of up to five leaves, hash by hash |
| `Merkle.HalvesJoin` | blockchain/merkle.py:68-94 | the root of 2^(d+1) leaves hashes the roots of the two halves, the first on the left |
| `Merkle.Prove` | blockchain/merkle.py:96-119 | the path of the first matching leaf; the error exactly when the leaf is absent |
| `Merkle.Verify` | blockchain/merkle.py:122-137 | accepts exactly when folding the siblings on their sides yields the root |
| `Merkle.ProofComplete` | blockchain/merkle.py:96-137 | the proof of every leaf, for every leaf count, verifies and has exactly Depth steps |
| `Merkle.DepthIsCeilLog2` | blockchain/merkle.py:68-89 | Depth is the ceiling of the binary logarithm of the leaf count |
| `Merkle.ProofSound` | blockchain/merkle.py:122-137 | under an injective pair hash a verifying path of the tree's depth starts at a leaf of the tree |
| `Merkle.SameLengthRoots` | blockchain/merkle.py:68-94 | leaf lists of equal length and equal root are equal |
| `Merkle.OddDuplicationCollides` | blockchain/merkle.py:81-83 | why equal length is needed: repeating the last of an odd number of leaves keeps the root |
| `Merkle.SameRoots` | blockchain/merkle.py:68-94 | lists of leaves with one root, of whatever lengths, differ at most by repeats at the end of the longer one |
| `Merkle.DistinctRoots` | blockchain/merkle.py:68-94 | so without repeated leaves the root determines the list |
| `Types.RootDeterminesContents` | blockchain/block.py:116-139 | the Merkle root in a header fixes the hashed contents of a block without repeated transactions |
| `Types.RepeatedTransactionKeepsHash` | blockchain/block.py:116-163 | with a repeat it does not: two different blocks with one hash |
| `Quorum.ScheduledProposer` | blockchain/blockchain.py:80-99 | a member of the validator set, or nobody exactly when it is empty |
| `Quorum.ProposerExactly` | blockchain/blockchain.py:80-99 | the proposer is the validator with exactly (height + view) mod n validators below it |
| `Quorum.QuorumIsTwoThirds` | blockchain/blockchain.py:102-111 | m votes of n are a quorum iff 3m > 2n |
| `Quorum.QuorumIsReachable` | blockchain/blockchain.py:102-111 | a quorum is never more than the validators left when floor((n-1)/3) stay away |
| `Quorum.QuorumsOverlap` | blockchain/blockchain.py:102-111 | two quorums of n validators share at least floor((n-1)/3)+1 of them, for every n |
| `Quorum.EveryValidatorGetsOneTurn` | blockchain/blockchain.py:80-99 | any n consecutive views schedule every validator exactly once |
| `Registry.AuthoritiesInDomain` | reputation/registry.py:82-95 | exactly the keys whose weight in that one domain reaches a positive threshold |
| `Registry.ReputationRegistry.Credit` | reputation/registry.py:39-46 | raises one weight by the amount, creating the entry, and touches no other |
| `Registry.ReputationRegistry.Debit` | reputation/registry.py:48-57 | lowers one weight, never below zero, and touches no other |
| `Balances.BalanceLedger.Reward` | reputation/balances.py:71-73 | adds to what is free, leaves what is locked |
| `Balances.BalanceLedger.Lock` | reputation/balances.py:75-77 | moves from free to locked, leaves the total |
| `Balances.BalanceLedger.Release` | reputation/balances.py:79-81 | gives a bond back unless the clamp bites, and never locks less than zero |
| `Balances.BalanceLedger.Burn` | reputation/balances.py:83-92 | destroys a bond without touching what is free, unless a clamp bites |
| `Slashing.SearchTx` | reputation/slashing.py:241-247 | the early-return scan finds the first transaction with the hash |
| `Slashing.FindsFirst` | reputation/slashing.py:241-247 | what is found is the first transaction on the history whose content has that hash |
| `Slashing.FindTxStable` | reputation/slashing.py:241-247 | what a prefix finds every extension of it finds, so evidence never changes meaning |
| `Slashing.ValidateSlash` | reputation/slashing.py:184-238 | accepts exactly the well-formed slashes with conflicting evidence in the prefix and a validator quorum |
| `Slashing.SlashExactly` | reputation/slashing.py:184-280 | field by field, both ways: well formed, the two transactions its hashes name are the offender's signed Yes and No on one subject, rubric, domain and item, and more than two thirds of the validators sign the statement |
| `Slashing.SlashNeedsEquivocation` | reputation/slashing.py:184-280 | a valid slash always rests on a signed Yes and a signed No of its offender, on one subject, rubric, domain and item, both in the prefix |
| `Slashing.EquivocationSpreads` | reputation/slashing.py:250-280 | an equivocation in a prefix is one in the whole history |
| `UnionFind.RepIsLeastRoot` | reputation/tally.py:203-219 | the representative of a node is a root and not greater than the node |
| `UnionFind.HalvingKeepsReps` | reputation/tally.py:208-212 | path halving keeps the forest well-founded and every representative |
| `UnionFind.AttachMerges` | reputation/tally.py:214-219 | hanging the larger root under the smaller merges exactly two classes |
| `UnionFind.Forest.Find` | reputation/tally.py:208-212 | terminates because parents strictly decrease, returns the representative, changes no class |
| `UnionFind.Forest.Union` | reputation/tally.py:214-219 | afterwards two nodes share a class iff they did before or the call joined their classes |
| `Graph.ConnectedAfterEdge` | reputation/tally.py:221-225 | two nodes are connected with one more tie iff they were, or the tie joins their sides |
| `Graph.ComponentsAfterEdge` | reputation/tally.py:221-225 | one more tie replaces two components by their union and touches no other |
| `Graph.ComponentsDisjoint` | reputation/tally.py:189-200 | the clusters are a partition: two that meet are the same |
| `Tally.PositiveAttesters` | reputation/tally.py:67-107 | the scan yields exactly the senders of positive attestations of the scope |
| `Tally.PositiveAttestersByItem` | reputation/tally.py:110-144 | the same per rubric item, for every item |
| `Tally.PositivePairs` | reputation/tally.py:167-186 | exactly the (attester, subject) pairs vouched for |
| `Tally.TieAll` | reputation/tally.py:203-225 | after the double loop two attesters share a class iff mutual ties connect them |
| `Tally.GroupedAreComponents` | reputation/tally.py:227-230 | grouping by root yields exactly the connected components, each keyed by its least member |
| `Tally.AttesterClusters` | reputation/tally.py:189-230 | the connected components of the mutual cross-attestation graph, in whatever order attesters are visited |
| `Tally.CappedSupportOf` | reputation/tally.py:233-262 | the sum over the clusters, each of two or more members at most floor(34*total/100) |
| `CappedSupport.TotalExactly` | reputation/tally.py:250-262 | a total is the sum of its keys' weights, one by one |
| `CappedSupport.MoreTiesCountLess` | reputation/tally.py:233-262 | more mutual ties between the same attesters never raise the counted support |
| `Tally.MoreVouchingCountsLess` | reputation/tally.py:233-262 | committing any further transactions never raises it, attesters and non-negative weights fixed |
| `CappedSupport.CappedAtMostRaw` | reputation/tally.py:233-262 | the counted support is at most the raw sum |
| `CappedSupport.UntiedIsRaw` | reputation/tally.py:233-262 | without a mutual tie it is the raw sum |
| `CappedSupport.CartelsAreBounded` | reputation/tally.py:233-262 | it is at most the weight of the untied attesters plus one cap per cluster of two or more |
| `CappedSupport.CountedExactly` | reputation/tally.py:233-262 | it is the weight of the untied, plus that of every cartel within floor(34*total/100), plus that cap for each cartel above it |
| `CappedSupport.CountedAtLeast` | reputation/tally.py:233-262 | for weights that are not negative at least floor(34*total/100) counts, however attesters collude |
| `Aggregator.RequiredItemsCovered` | attestation/aggregator.py:122-151 | true exactly when every required item has a positive attester of non-zero weight |
| `Aggregator.Certify` | attestation/aggregator.py:154-235 | a certificate exactly when support and coverage suffice, naming the weight-bearing attesters |
| `Aggregator.ValidateCertificate` | attestation/aggregator.py:262-319 | accepts exactly the earned certificates that credit each deserving attester once |
| `Deserved.DueExactly` | attestation/aggregator.py:262-319 | both ways, off the attestations: backers weigh 250 as counted, each required item has a backer of positive weight, and granted_by names exactly the backers of positive weight, each once |
| `Aggregator.IssuedIffAccepted` | attestation/aggregator.py:154-319 | at the protocol threshold a scope can be issued iff consensus accepts a certificate for it, and the issued one is accepted |
| `Aggregator.AcceptedCreditExactly` | attestation/aggregator.py:315-319 | an accepted certificate lists the credited attesters, all of them and none twice |
| `Derive.ApplyTransaction` | reputation/derive.py:134-156 | one transaction's effect on the registry object is the specified one |
| `Merits.WeightMoves` | reputation/derive.py:134-156 | a certificate adds 10 to its subject in its domain, a slash in order takes up to 100 of its offender there, nothing else moves a weight |
| `Merits.WeightStarts` | reputation/derive.py:76-119 | a weight starts as the anchor has it, else 0 |
| `Derive.DeriveRegistry` | reputation/derive.py:76-119 | for any list and any bound: the weights replayed up to the first block whose index reaches the bound, each slash judged against the prefix that its block's index names |
| `Derive.FrontExactly` | reputation/derive.py:104-119 | a bound takes that many blocks off the front, a negative one leaves that many out at the end |
| `Derive.ReplayedIsDerived` | reputation/derive.py:76-119 | where indices are positions that replay is the reputation of the prefix, and its authorities those of the prefix |
| `Derive.Replay.PopBonds` | reputation/derive.py:290-293 | popping bonds one by one with a clamp each time equals one release of their sum |
| `Derive.Replay.ReleaseForCertificate` | reputation/derive.py:257-293 | per credited attester: all matching live bonds returned and one reward, or nothing |
| `Settlements.CertificateSettles` | reputation/derive.py:257-293 | a bond goes iff its reviewer is named, its verdict is Yes and its scope is the certified one; such a reviewer gets 5 and exactly those stakes back; nobody else is touched |
| `Settlements.CertificateUnlocks` | reputation/derive.py:257-293 | on a valid chain the locked amount of a named key falls by exactly those stakes |
| `Derive.Replay.BurnForSlash` | reputation/derive.py:296-309 | destroys exactly the referenced bonds that are live and the offender's |
| `Settlements.SlashSettles` | reputation/derive.py:296-309 | a bond goes iff the evidence names it and it is the offender's; the offender loses those stakes, locked and owned; nobody else is touched |
| `Derive.Replay.Step` | reputation/derive.py:219-252 | one transaction's effect on ledger and live bonds; abstentions do nothing |
| `Settlements.AttestationSettles` | reputation/derive.py:219-243 | an attestation that is no abstention locks its stake and leaves a bond with its fields under its hash |
| `Settlements.OtherwiseSettles` | reputation/derive.py:219-252 | nothing but an attestation, a certificate or a valid slash moves a token or a bond |
| `Settlements.StartSettles` | reputation/balances.py:54-69 | everybody starts with its endowment, or 1000, and nothing locked |
| `Derive.DeriveBalances` | reputation/derive.py:159-254 | for any list and any bound: balances and live bonds replayed up to the first block whose index reaches the bound |
| `Derive.ReplayedBankIsDerived` | reputation/derive.py:159-254 | where indices are positions that replay gives the balances and live bonds of the prefix |
| `Consensus.CheckTransaction` | blockchain/blockchain.py:666-722 | one turn of the fail-closed transaction loop decides the specified rule and carries the specified state |
| `Consensus.CheckTransactions` | blockchain/blockchain.py:641-722 | the loop accepts iff every transaction passes against the state carried to it |
| `Consensus.CheckBlock` | blockchain/blockchain.py:550-722 | on any list: accepts block i iff it passes on what is carried to it, and hands on what is carried to the next |
| `Consensus.IsValidChain` | blockchain/blockchain.py:478-724 | on any list: raises iff it is empty, returns true iff every block passes on carried state, and, unless hashes collide, iff every block passes with all state recomputed from its prefix |
| `Consensus.AcceptedIsValid` | blockchain/blockchain.py:478-724 | carried and recomputed state accept the same lists as soon as block 0 is empty and at index 0 |
| `Rulebook.SealExactly` | blockchain/blockchain.py:550-620 | both ways: place, link, producer signature, whose turn it is, two thirds behind a later view, and no commit but verifying ones of validators |
| `Rulebook.ValidIsLawful` | blockchain/blockchain.py:478-724 | a chain is valid iff it starts at genesis, every block is so sealed, and every transaction may stand where it does, each kind by its own terms written out |
| `Consensus.AcceptedPromotionsReplay` | blockchain/blockchain.py:273-299 | strict validation and best-effort replay of an accepted block promote the same keys at the same heights |
| `Consensus.CarriedIsRecomputed` | blockchain/blockchain.py:541-548 | certified scopes, promoted keys and effect indices carried past a block equal those recomputed from the longer prefix |
| `Consensus.PromotedBefore` | blockchain/blockchain.py:273-299 | for any list and bound: raises iff asked beyond the end, else the cohort that the promotions before the bound lead to |
| `Consensus.ValidatorsBefore` | blockchain/blockchain.py:165-212 | for any list and bound: raises exactly then, else the replayed authorities with the promoted keys |
| `Consensus.ReplayedValidatorsAreDerived` | blockchain/blockchain.py:165-212 | where indices are positions these are the validators derived from the prefix |
| `Consensus.PrefixValid` | blockchain/blockchain.py:478-724 | every non-empty prefix of a valid chain is valid |
| `Consensus.OneMoreBlock` | blockchain/blockchain.py:478-724 | a chain and one block are valid iff the chain is and the block passes against the chain's derived state |
| `Consensus.GenesisIsEmpty` | blockchain/blockchain.py:145-158 | a block with the genesis hash has index 0 and no transactions |
| `Consensus.IndicesAreHeights` | blockchain/blockchain.py:550-555 | on a valid chain every index is a position |
| `Admission.OneWayIn` | blockchain/blockchain.py:165-212 | a transaction makes a key a consensus authority iff it is a consensus-domain certificate lifting it over the threshold |
| `Admission.AuthorityHasDoor` | blockchain/blockchain.py:165-192 | every consensus authority that genesis did not name was let in by a consensus-domain certificate of its own, at a place in the history where that lifted it over the threshold |
| `Admission.ThreeWaysIn` | blockchain/blockchain.py:165-212 | per key: a validator is a genesis authority, was promoted, or has such a certificate |
| `Admission.OnlyGenesisAndPromoted` | blockchain/blockchain.py:165-192 | without consensus-domain certificates every validator is a genesis authority or was promoted |
| `PromotionCaps.CohortWithinCaps` | blockchain/blockchain.py:214-299 | whatever blocks contain, no five consecutive heights see more than two promotions take effect and no key is promoted twice |
| `Promotions.PromotionsMeetTerms` | blockchain/blockchain.py:214-271 | every promotion on a valid chain: new candidate, weight 100 in its domain before the block, more than two thirds of those in force signed, at most two in five blocks and at most a third of the set |
| `Promotions.PromotedWasApproved` | blockchain/blockchain.py:273-299 | every promoted key has such a promotion |
| `Promotions.TermsSuffice` | blockchain/blockchain.py:678-688 | a promotion may stand next in a block iff it meets those terms there |
| `PromotionCaps.PromotedBound` | blockchain/blockchain.py:214-299 | at most 2*ceil((h-1)/5) keys are promoted before height h |
| `PromotionCaps.AtMostTwoPerWindow` | blockchain/blockchain.py:678-688 | any five consecutive blocks of a valid chain contain at most two promotion transactions |
| `PromotionCaps.FreshCohortIsMinority` | blockchain/blockchain.py:263-269 | every promotion on a valid chain takes effect, admits a key not yet in force, and leaves the window's fresh cohort at most two and at most a third of the set then in force |
| `ForkChoice.Blockchain.AddBlock` | blockchain/blockchain.py:328-364 | packs the pool into a linked block whose signed header already names the producer, and empties the pool |
| `ForkChoice.Blockchain.AddTransaction` | blockchain/blockchain.py:320-326 | pools the transaction and nothing else |
| `ForkChoice.Blockchain.ReplaceChain` | blockchain/blockchain.py:424-476 | raises on the empty list, else adopts exactly the valid, non-reverting, preferred candidates; afterwards nothing pooled is already committed |
| `Preference.FinalExactly` | blockchain/blockchain.py:301-318 | final iff genesis or more than two thirds of the block's validators have a verifying commit on it |
| `Preference.FinalizedExactly` | blockchain/blockchain.py:378-382 | the finalized height is that of the last such block |
| `Preference.ChoiceExactly` | blockchain/blockchain.py:396-476 | adopts iff the candidate is valid, has every final block of ours, and is better: final higher, else longer, else more validators' commits on the tip, else lower tip hash |
| `Preference.MoreVotesWin` | blockchain/blockchain.py:384-396 | equally final, equally long: more validators' commits on the tip win, whatever the hashes |
| `Preference.LongerWins` | blockchain/blockchain.py:396-476 | equally final: the longer chain wins, whatever the votes |
| `Preference.MoreFinalWins` | blockchain/blockchain.py:396-476 | the chain final to a greater height wins, whatever its length |
| `Preference.PoolExactly` | blockchain/blockchain.py:474-475 | after an adoption the pool keeps exactly the transactions whose hash no block of the chain holds |
| `Preference.PoolKeepsOrder` | blockchain/blockchain.py:474-475 | in their order |
| `ForkChoice.Blockchain.ValidatorSetAt` | blockchain/blockchain.py:165-212 | on a linked chain: raises iff asked beyond the next height, else the validators derived from the blocks below that height |
| `ForkChoice.UncommittedKeeps` | blockchain/blockchain.py:474-475 | the recomputed pool keeps every uncommitted transaction and no other |
| `ForkChoice.ValidIsLinked` | blockchain/blockchain.py:550-558 | every valid chain is linked by hashes from the genesis block on |
| `ForkChoice.ExactlyOneAdopts` | blockchain/blockchain.py:424-476 | of two valid chains with different tips, neither reverting the other, exactly one node switches |
| `ForkChoice.OneChainWins` | blockchain/blockchain.py:424-476 | among any number of pairwise such chains one is adopted by every other node and its own node adopts none |
| `ForkChoice.NoAdoptionCycle` | blockchain/blockchain.py:396-476 | a run of adoptions never returns to a chain it left |
| `Runs.LinksForceHistory` | blockchain/blockchain.py:556-558 | equal block hashes at one height force equal hashes at every height below |
| `Runs.StepSafe` | blockchain/blockchain.py:408-476 | no step changes a hash at or below the finalized height or lowers the fork-choice rank |
| `Runs.FinalizedForever` | blockchain/blockchain.py:366-476 | over every run: what was finalized keeps its hashes, and the rank never drops, though adopted copies may carry fewer commits |
| `Runs.NoWayBack` | blockchain/blockchain.py:366-476 | mining, attaching commits and adopting in any order, a node that changes its chain never comes back to one it left |
| `Finality.AcceptedTx` | blockchain/blockchain.py:666-722 | every transaction of a valid chain passed its rule against the state before it |
| `Finality.ValidIsSigned` | blockchain/blockchain.py:700-719 | on a valid chain every attestation carries its author's signature |
| `Finality.SameValidators` | blockchain/blockchain.py:165-192 | histories of equal hashed content, all attestations signed, derive the same weights and validators, whatever their signatures |
| `Finality.RepeatIsInert` | blockchain/blockchain.py:641-722 | what a block of a valid chain lists twice is a slash or moves no weight and promotes nobody |
| `Finality.AcceptedPadding` | blockchain/blockchain.py:641-722 | what an accepted block repeats at its end changes nothing exactly when the repeats bring no further slash |
| `Finality.SharedHashSharedContents` | blockchain/blockchain.py:556-558 | valid chains that meet in one block hash have the same contents below it, but for repeats that change nothing, iff they list as many slashes block by block |
| `Finality.NoSlashTwiceSuffices` | blockchain/blockchain.py:689-699 | they do where no block lists a slash twice |
| `Finality.SharedHashSharedValidators` | blockchain/blockchain.py:165-192 | valid chains that meet in one block hash and list as many slashes below it judge the next height by the same validators |
| `Finality.AccountableFinality` | blockchain/blockchain.py:301-318 | two final blocks on one parent, as many slashes listed block by block below, expose at least floor((n-1)/3)+1 validators who signed both headers |
| `Finality.RepeatedSlashSplitsState` | blockchain/blockchain.py:689-699 | why the counts must agree: whenever a block of an odd number of transactions ending in a slash that bites may follow a valid chain, so may its twin with the slash repeated, under the same hash and with different reputation |
| `Exhibits.RepeatedSlashSplitsValidators` | blockchain/blockchain.py:165-212 | it happens, under any signature check that the signers' own signatures pass: two valid chains, equal in every block hash, with different validator sets |
| `Codebook.CollisionFreeExists` | blockchain/block.py:116-163 | collision-free digests exist for any anchors and any signature check, so no theorem that asks for them is empty |
| `Bonds.ChainBalanced` | reputation/derive.py:159-309 | at every height of a valid chain the books of every key balance |
| `Bonds.EveryBondCovered` | reputation/derive.py:159-309 | after every transaction: total = endowment + 5 per rewarding certificate - burned stakes, locked = live stakes + stranded stakes, 0 <= locked <= total; no clamp ever bites |
| `Bonds.StrandedIffRestaked` | reputation/derive.py:204-243 | on any history stake of a key is stranded iff some attestation was posted while a bond of that key with a stake was live under its hash |
| `Bonds.LockedIffNeverRestaked` | reputation/derive.py:204-243 | on a valid chain what a key has locked is exactly its stake in live bonds iff no such attestation was posted |
| `Bonds.DistinctBondsExact` | reputation/derive.py:204-243 | in particular when no attestation is committed twice |
| `Bonds.RepostStrands` | reputation/derive.py:230-241 | a signed attestation whose own bond is live passes validation as soon as the free balance covers its stake once more, and locks that stake beyond any live bond |
| `Penalties.TxPenalty` | reputation/derive.py:134-156 | one transaction lowers a weight by at most MAX_SLASH, and only an equivocator's |
| `Penalties.HonestWeightNeverDrops` | reputation/derive.py:76-156 | a key without signed opposite verdicts never loses weight in any domain along growing prefixes |
| `Penalties.HonestBondsNeverBurn` | reputation/derive.py:296-309 | and never has a bond burned |
| `Penalties.HonestTotal` | reputation/derive.py:159-309 | on a valid chain its tokens are the endowment and its review rewards |
| `Penalties.SlashAcceptedEverywhere` | blockchain/blockchain.py:689-699 | a slash present on a valid chain is one that every replay of that chain applies |
| `Merits.WeightBalances` | reputation/derive.py:76-156 | on any history: weight = genesis weight + one reward per certificate - what valid slashes could take; no weight ever falls below zero |
| `Merits.HonestWeight` | reputation/derive.py:134-156 | a key without signed opposite verdicts has its genesis weight and one reward for each of its certificates |
| `Merits.OneCreditPerScope` | reputation/derive.py:134-156 | on a valid chain the rewards are one for each certified scope of that subject and domain |
| `Merits.CreditStays` | attestation/aggregator.py:373-444 | a certified scope stays among those its subject is credited for however the chain grows, contested or not |
| `Merits.ContestSparesSubject` | attestation/aggregator.py:373-444 | a slash that contests a certificate hits an attester it names; it leaves the subject's weight in the certified domain unchanged iff it punishes another key or another domain or finds nothing to take |
| `Certificates.OneCertificatePerScope` | blockchain/blockchain.py:668-677 | on a valid chain no two certificates decide the same scope |
| `Certificates.RewardedAtMostOnce` | reputation/derive.py:277-293 | a certificate naming each attester once pays each at most once, and nobody else |
| `Certificates.OneRewardPerScope` | reputation/derive.py:257-293 | every certificate on a valid chain does so, and pays only attesters it credits |
| `Certificates.CollectSlashes` | attestation/aggregator.py:395-421 | for any list: the first pass collects exactly the genuine slashes, each judged against the prefix that its block's index names |
| `Certificates.CertificateStatuses` | attestation/aggregator.py:373-444 | for any list: every certificate has an entry, contested iff a collected slash strikes it, as far as hashes tell certificates apart |
| `Certificates.TableIsRight` | attestation/aggregator.py:373-444 | on a valid chain they do: each certificate is contested iff a later genuine slash of an attester it credits strikes its submission |
| `Certificates.HashesDoTellApart` | attestation/aggregator.py:441-443 | on a valid chain no two certificates share a key of that table |
| `Certificates.StruckIsContested` | attestation/aggregator.py:435-440 | where indices are positions the search over collected slashes decides the contested status |
| `Contested.ContestedExactly` | attestation/aggregator.py:373-444 | contested iff a later block holds a slash in order of a key it names whose evidence names a verdict about its submission |
| `Certificates.ContestedForever` | attestation/aggregator.py:373-444 | extending the chain never turns a contested certificate back |
| `Certificates.UntouchedStaysValid` | attestation/aggregator.py:373-444 | a certificate all of whose credited attesters are honest stays valid |
| `Node.AttestationNode.ApplyCommit` | network/community.py:848-872 | attaches exactly the new, genuine votes of validators, and keeps a valid chain valid |
| `Node.AttestationNode.OnCommit` | network/community.py:621-643 | a vote that counts is attached and relayed, any other changes nothing |
| `Conduct.CommitTaken` | network/community.py:621-643 | a commit a validator signed, new on the first block of that hash, is put on it, and on nothing else, and passed on |
| `Conduct.CommitIgnored` | network/community.py:621-643 | any other leaves the node as it was |
| `Node.AttestationNode.CommitIfValidator` | network/community.py:824-846 | attaches and broadcasts its own vote once, only as a validator of the block, never on genesis; a valid chain stays valid |
| `Conduct.OwnCommitConduct` | network/community.py:824-846 | a validator of a block above genesis puts its commit on it, once, and tells everybody; otherwise nothing changes |
| `Protocol.CommitKeepsValid` | network/community.py:848-872 | attaching votes that count keeps the whole chain valid |
| `Node.AttestationNode.TryAppendBlock` | network/community.py:790-807 | keeps the block and drops its transactions from the pool iff the longer chain is valid; otherwise changes nothing |
| `Node.AttestationNode.OnBlock` | network/community.py:550-587 | a block that keeps the chain valid is appended, its view-changed height marked, its transactions unpooled, and this node's commit attached and broadcast if it is a validator; otherwise it asks for the sender's chain and changes nothing |
| `Conduct.BlockTaken` | network/community.py:550-587 | block by block and message by message what a block that keeps the chain valid leads to |
| `Conduct.BlockRefused` | network/community.py:550-587 | any other makes the node ask for the chain, and nothing else |
| `Node.AttestationNode.OnChainRequest` | network/community.py:589-592 | answers with the whole chain and changes nothing else |
| `Node.AttestationNode.OnChainResponse` | network/community.py:594-619 | raises on the empty list, else adopts exactly what fork choice prefers; the whole state afterwards, pool included |
| `Conduct.ChainConduct` | network/community.py:594-619 | a chain is taken over iff it is valid, has all final blocks and is better, each said of the blocks; its transactions leave the pool |
| `Node.AttestationNode.MineAndBroadcast` | network/community.py:477-503 | the chain grows by the packed block, which carries the proposer's own commit if it is a validator; commit and block are broadcast, the pool is empty |
| `Conduct.ProposalConduct` | network/community.py:477-503 | every field of the block, its commits, and the messages in their order |
| `Node.AttestationNode.NextView` | network/community.py:696-704 | at least 1, above every recorded view of the height, and no higher than needed |
| `Node.AttestationNode.ApplyViewChange` | network/community.py:706-727 | for any height and view: raises iff a genuine vote names a height beyond the next, else records exactly the genuine votes of validators for a positive view, each signer once per slot |
| `Node.AttestationNode.MaybeAdvanceView` | network/community.py:737-763 | proposes iff the height is open, unadvanced, has a quorum of recorded votes and is this node's turn; the whole state afterwards, and otherwise no change |
| `Conduct.DueExactly` | network/community.py:737-763 | it goes ahead iff the height is the next and open, the view positive, more than two thirds as many voted as there are validators, and this node is the one with (height + view) mod n validators below it |
| `Node.AttestationNode.OnViewChange` | network/community.py:645-667 | a newly recorded vote is relayed and may start this node's proposal, whose block and commit go out after it; any other vote changes nothing; raises as above |
| `Conduct.VoteConduct` | network/community.py:645-667 | a timely vote is recorded and passed on and starts a proposal iff one is then due; any other changes nothing |
| `Conduct.TimelyExactly` | network/community.py:706-727 | timely means signed, for a positive view of a height up to the next, by a validator of it, and its first for that view |
| `Conduct.OffTheEnd` | network/community.py:706-727 | the replay raises iff a genuine vote for a positive view names a height beyond the next |
| `Node.AttestationNode.RequestViewChange` | network/community.py:671-694 | a validator records and relays its vote for the least view above all recorded ones, and proposes if that completes a quorum on its turn; anybody else changes nothing; raises iff the height is beyond the next |
| `Protocol.ProposalJustified` | network/community.py:737-763 | the proposed block passes every rule on the block itself iff the voters that are validators of the height reach a quorum |
| `Protocol.CurrentVotersJustify` | network/community.py:737-763 | a node that goes ahead proposes a block that passes those rules whenever every recorded voter is still a validator |
| `Exhibits.StaleVoteStartsRejectedProposal` | network/community.py:737-763 | a run of one node's handlers, everybody signing for itself: a vote is recorded, a better chain slashes its signer, the next vote starts a proposal, and the block fails validation |
| `Flood.StepDescends` | network/community.py:621-694 | every delivery and every vote cast lowers the measure of unrecorded votes and envelopes in flight |
| `Flood.FloodTerminates` | network/community.py:621-694 | no run takes more steps than the measure of its first state |
| `Flood.RunKeepsSpreading` | network/community.py:639-667 | along every run, what a node recorded has reached or is on its way to each of its peers that would record it |
| `Flood.RunKeepsRoutes` | network/community.py:848-872 | along every run, what a node recorded came to it along nodes that would record it, from one that cast it |
| `Flood.FloodReaches` | network/community.py:639-667 | once no message carries a vote, a node has recorded it iff somebody who cast it has a path to that node through nodes that would record it |
| `LostVotes.CommitNeverArrives` | network/community.py:857-859 | three nodes in a row, the middle one without block 1: the handlers fall silent with a commit at one end that the other end holds the block for, would count, and never gets |
| `Delivery.OnCommitDelivers` | network/community.py:621-643 | handling a commit is delivery at this node: recorded and relayed iff genuine, for a block it holds, by a validator of that block, and new |
| `Delivery.OwnCommitCasts` | network/community.py:824-846 | committing to a block casts this node's own vote |
| `Delivery.OnViewChangeDelivers` | network/community.py:645-667 | handling a view-change vote that starts no proposal here is delivery at this node |
| `Delivery.OnViewChangeProposes` | network/community.py:645-667 | one that does start a proposal records that vote and the proposer's own commit, sends both and the block, and judges what it judged before |
| `Delivery.RequestCasts` | network/community.py:671-694 | asking for another proposer casts this node's own vote |
| `Delivery.CommitKeepsJudgement` | network/community.py:848-872 | attaching a commit changes none of a node's judgements |
| `Acts.ActAccounts` | network/community.py:477-763 | what a node records in an act is what it sends, all of it genuine, except for commits that come with a block or a chain |
| `Acts.ActKeeps` | network/community.py:477-763 | no act of a node changes a hash it has finalized, lowers its rank or unlinks its chain |
| `Network.FinalizedForever` | network/community.py:477-763 | over every run of the whole network, messages in any order, every node keeps the hashes of what it has finalized and never falls in rank |
| `Network.StepUsesFuel` | network/community.py:477-763 | every step of any handler lowers what the network can still do: calls, heights open for a proposal, blocks, requests and chains in flight, votes not recorded, votes in flight |
| `Network.FallsSilent` | network/community.py:477-763 | with finitely many calls from outside the network falls silent, whatever is mined, proposed, appended and adopted on the way |
| `Reach.EventActs` | network/community.py:477-763 | every event in the network is, for one vote, at most one hearing of it and at most one recording that goes to all peers |
| `Reach.VoteReaches` | network/community.py:621-763 | once no message carries a vote, a node has it iff somebody who cast it has a path there through nodes that would record it when they hear it, whatever else happened |
| `Reach.CommitReaches` | network/community.py:621-643 | so a block at a node carries a validator's commit iff such a path leads there, unless a block or a chain brought or dropped that commit |
| `Reach.ViewVoteReaches` | network/community.py:645-763 | and a view-change vote is in a node's table iff such a path leads there, without exception for blocks and chains |
| `Digits.RecodeRoundTrip` | crypto/did.py:45-71 | changing the base of a digit string and back, leading zeros carried over, is the identity |
| `Base58.B58Encode` | crypto/did.py:45-58 | the divmod loop computes the encoding |
| `Base58.B58Decode` | crypto/did.py:61-71 | the multiply-add loop and `to_bytes` compute the decoding, or name the first stray character |
| `Base58.ByteLength` | crypto/did.py:70 | (bit_length + 7) // 8 is the number of bytes of the shortest form |
| `Base58.ShortestBytes` | crypto/did.py:70 | to_bytes of that length is the shortest form |
| `Base58.DecodeEncode` | crypto/did.py:45-71 | decoding the encoding returns every byte string, leading zeros included |
| `Base58.EncodeDecode` | crypto/did.py:45-71 | decoding succeeds exactly on texts over the alphabet, and encoding the result returns the text |
| `Base58.AlphabetExactly` | crypto/did.py:33-43 | the alphabet is the digits and letters without 0, I, O and l |
| `Base58Js.DivideBy58` | frontend/did.js:47-52 | the in-place loop leaves the quotient in the buffer and returns the remainder |
| `Base58Js.B58Encode` | frontend/did.js:39-64 | byte-wise long division computes the same text as the big-integer encoder |
| `Base58Js.PutDigit` | frontend/did.js:73-83 | the byte list is multiplied by 58 and the digit added, and stays without a leading zero |
| `Base58Js.B58Decode` | frontend/did.js:67-87 | multiply-and-add computes the same bytes, or the same error, as the big-integer decoder |
| `DidKey.KeyRoundTrip` | crypto/did.py:109-164 | every 32-byte key comes back from its did:key |
| `DidKey.DidRoundTrip` | crypto/did.py:109-164 | a string is accepted iff it is the did:key of some 32-byte key, and that key comes out |
| `DidKey.DidsAreDistinct` | crypto/did.py:109-135 | different keys have different identifiers |
| `DidKey.KeyPrefix` | crypto/did.py:109-135 | every identifier of a 32-byte key starts with did:key:z6Mk |
| `Jcs.KeyOrder` | credentials/jcs.py:36-46 | UTF-16 code-unit order is a strict total order on keys |
| `Jcs.SortedAscends` | credentials/jcs.py:81 | the keys of an object are emitted in strictly ascending code-unit order (section 3.2.3 of RFC 8785) |
| `JcsCanonical.ReadQuoted` | credentials/jcs.py:75-76 | a quoted string can be read back from the front of any text in one way only |
| `JcsCanonical.ReadValue` | credentials/jcs.py:64-90 | equal texts come from values of equal denotation and end at the same place |
| `JcsCanonical.SameText` | credentials/jcs.py:64-90 | values of equal denotation print alike, whatever order their fields came in |
| `JcsCanonical.CanonicalIffSame` | credentials/jcs.py:49-90 | canonical bytes are equal iff the values are equal with objects as maps; floats are refused |
| `JsonReader.CanonicalReads` | credentials/jcs.py:49-90 | a reader written from the JSON grammar reads the canonical bytes back as the value that was meant |
| `JsonReader.EscapesAreCanonical` | credentials/jcs.py:75-76 | a character is written as itself unless forbidden, else in the short form if there is one, else in four lower-case digits (section 3.2.2.2 of RFC 8785) |
| `JsonReader.Utf16Reads` | credentials/jcs.py:36-46 | the code units that order keys are UTF-16 |
| `JsonReader.SortingExample` | credentials/jcs.py:36-46 | the sorting example of section 3.2.3 of RFC 8785 comes out in its order |
| `NobleArith.Euclid` | frontend/noble-ed25519.js:121-126 | the loop ends with a common divisor and its Bezout coefficient |
| `NobleArith.Invert` | frontend/noble-ed25519.js:118-128 | the inverse in range, or the error exactly when the arguments are refused or no inverse exists |
| `NobleArith.PowOf2` | frontend/noble-ed25519.js:333-340 | squares the given number of times modulo P, for any argument, with the sign JavaScript's remainder keeps |
| `NobleArith.ChainStep` | frontend/noble-ed25519.js:344-352 | one line of the addition chain joins an exponent of k ones and one of m ones to k + m ones |
| `NobleArith.PowP58` | frontend/noble-ed25519.js:341-355 | for any argument, also a negative one: the chain computes x^(2^252 - 3) modulo P, and x cubed |
| `NobleArith.ExponentIsPMinus5Over8` | frontend/noble-ed25519.js:341-355 | that exponent is (p-5)/8, as section 5.1.3 of RFC 8032 needs |
| `ScalarMult.Precompute` | frontend/noble-ed25519.js:480-494 | entry i of window w of the table is (i+1) * 256^w times the base point |
| `ScalarMult.AddWindow` | frontend/noble-ed25519.js:508-525 | one signed digit with carry: the point plus what is left of the scalar stays the whole multiple |
| `ScalarMult.WNaf` | frontend/noble-ed25519.js:500-527 | windowed multiplication yields n*G, for every n up to 256^32, over any abelian group |
| `ScalarMult.DoubleAndAdd` | frontend/noble-ed25519.js:272-280 | the double-and-add loop yields n*P, with or without the timing dummy |
| `ScalarMult.Multiply` | frontend/noble-ed25519.js:264-281 | n*P for every n the range check admits, the error for every other, the identity on the unsafe shortcut |

## Left out

- Finality.AccountableFinality: asks that the chains list as many slashes block by block below the height, because the header hash does not fix that (`Finality.RepeatedSlashSplitsState`); likewise `SharedHashSharedValidators`.
- Consensus.IsValidChain: the check of the Merkle root against itself is always true and is left out.
- Reach.CommitReaches: a commit that travels inside a block or a chain, or is dropped with one, is followed no further; for all other commits, and for every view-change vote, the result is exact.
- Network.FallsSilent: peers stay the same during a run, messages are neither lost nor made up, and a transaction is a call from outside.
- Blocks are values: attaching a commit replaces the block in its chain, so sharing of one block object between a chain and its callers is not captured.
- Messages travel as values; wire JSON, peers, sockets, logging, event times and finality notifications are not part of this model. Order of delivery is arbitrary.
- Admission to the mempool (credential presentations, duplicate suppression) and everything under `credentials` except canonical JSON.
- Ed25519 signing, SHA-256, curve formulas, point decompression and the SHA-2 rounds: the signature check and the hashes are parameters.
- Timestamps are opaque numbers.
- Payloads are typed: a payload that is not of its kind's shape is `Unknown`, except for the range checks on attestations and slashes, which are modelled; floats appear only as something canonical JSON refuses, and object keys are always strings.
- Hexadecimal parsing of keys before `did:key` encoding; `did_key_verification_method`.
- `weighted_support`, `is_authority`, `authorities` and `snapshot`: queries that no modelled rule uses.
