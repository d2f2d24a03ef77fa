# Myelin: models and proofs of its cores

Myelin runs finite sessions: validators agree on blocks, one fenced writer appends them, a pool
holds cell transactions, archives of finished history are validated and reclaimed, and a small
integer library carries targets and weights. This project models those cores in Dafny and proves
what each of them keeps over every input or every run. `dafny verify dfyconfig.toml` checks all of it.

| part | files | main results |
|---|---|---|
| Tendermint finality | `Validators`, `RoundState`, `RoundInvariant`, `RoundMeaning`, `RoundAnswers`, `RoundMachine`, `Proposer`, `Agreement`, `Deciding`, `Molecule`, `Finality` | agreement in every run with at most a third of the power faulty; a decision on any block can be reached in every setup; no decision and no valid value missed or premature; what a lock allows; what each refusal means; proportional proposer rotation; block bytes that decode to the block, hence one finalised block per height, and every correct validator's decision finalises it |
| Single-writer authority | `Authority`, `AuthorityProofs`, `AuthorityMeaning`, `AuthorityAudit`, `AuthorityFaults`, `AuthorityMachine`, `Reconciliation`, `CommandHistory` | crash consistency over every interleaving of faults; fencing; stable attribution; exact grant, commit, audit and certificate checks; which fault gives which answer, no receipt before its block, receipts for good, unknown outcomes that resolve; every command at most once; when "missing" is final |
| Transaction pool | `CellPool`, `CellPoolRuns`, `CellPoolMeaning`, `CellPoolMachine` | exact indexes, links, roots and counts after any operations, panics included; every entry is the record of its admission; exactly which admissions go through; the fee total is the fees less what saturation lost; descendant closure; replacement makes progress |
| Limb arithmetic | `Arith`, `Limbs`, `Uint`, `UintMul`, `UintDiv`, `Float`, `Compact` | add, subtract, compare, shift, multiply and divide agree with the integers for any number of limbs; correctly rounded conversion to a double, exactly up to a bound, and what comes out past it; compact targets |
| Archives | `Counting`, `DependencyGraph`, `Manifest`, `Collection`, `ArchiveDisk`, `CollectionSafety`, `CollectionSurvival`, `CollectionPaths`, `CollectionWitness`, `CollectionGrowth`, `CollectionMachine` | the Kahn traversal decides acyclicity and depth; over any sequence of collection runs, each with its own plan and each stopped anywhere, no history and no lasting blob is lost, each file is unlinked at most once, a restarted plan passes again and reaches the same end; exactly when dependency paths stay whole; an archive superseded by any longer one is collectable |

Code that updates things in place is a class or a method with loops, proved against functions of
values; what the program promises is then proved of those functions. Where the program fails, the
model fails in the same way, with a `Result` or `Option`.

## What is taken as given

- Signatures are ideal: one that verifies under a correct key was made by its holder. Hash
  functions are injective. A block hash is never all zero (`ZeroHashWedges` shows what it would do).
  A file is known by the digest of its content, so an audit of content is a function of the manifest.
- Every correct validator signs at most one prevote and one precommit per round, the values that
  `prevote_value` and `precommit_value` give it, and faulty power is at most a third.
- A durable write happens whole, or reports an error and either happened or did not; a process
  can die between any two of its steps.
- Machine integers are written out: 64-bit limbs, 32-bit rounds, saturating totals. The release
  profile checks arithmetic, so an addition or subtraction that leaves its type panics; a panic
  unwinds before an edited copy is swapped in.
- Archive directories and databases change only through the command, whose paths do not alias.

## What turned out otherwise

- `overflowing_mul` misses overflow that lies only in the products it never visits. Its flag is
  exact precisely when the visited products overflow or no unvisited one is nonzero
  (`UintMul.OverflowFlagExact`); two to the 64 squared in two limbs is missed (`OverflowMissed`).
- `as_f64` is correctly rounded exactly for values up to 2^1024 + 2^971, which only `Uint3072` can
  pass (`Float.AsF64`). The next number converts to a NaN (`Float.ConvertsToNan`), and from 2^1025
  on the exponent runs into the sign bit: 2^1025 itself becomes negative zero
  (`Float.ConvertsToNegativeZero`).
- The sum inside `proposer_id` fits 64 bits for every height and round exactly when the total
  power is below 2^64 - 2^32 + 2 (`Proposer.SumFitsExactly`). Engines beyond that are built and
  overflow (`Proposer.OverflowingEngine`), but `new_round_state` accepts none of them.
- The valid round of a round state can go back: a late prevote that completes an older round's quorum
  for a block replaces the valid value by that one. It goes back exactly then
  (`RoundAnswers.ValidRoundGoesBackExactly`); two prevotes are enough (`RoundAnswers.ValidRoundCanGoBack`).
- The pool's fee total saturates when it grows but is subtracted exactly, with a check. After any
  run it is the sum of the pooled fees less everything saturation ever kept out of it
  (`CellPoolRuns.FeeTotalIsSumLessLosses`), so it is exact if and only if no admission saturated it
  (`CellPoolRuns.FeeTotalExactly`), and exact all along a run if and only if the pooled fees fit 64
  bits all along it (`CellPoolRuns.ExactWhileFeesFit`). A removal then panics exactly when more was lost than would stay
  (`CellPoolRuns.RemovalPanicsExactly`, `CellPoolRuns.AdmissionPanicsExactly`), and a pool that lost anything is never empty again
  (`CellPoolRuns.NeverEmptyAgain`). Two largest fees are enough (`CellPoolRuns.LargestFeesSaturate`).
- A dependency path of a candidate need not survive whole: a plan with two keepers passes every
  check, and when its run is finished no directory records the path (`CollectionWitness.TwoKeepersSplitPath`).
  Single links do survive (`CollectionSurvival.LastingBlobsSurvive`). A keeper records every lasting path
  of a candidate if and only if it records every edge between its lasting blobs
  (`Collection.RecordsPathsExactly`), and holds every one whole if and only if it also has the blobs
  (`Collection.HoldsPathsExactly`). A path is whole after a finished run if and only if an intact
  archive that is no candidate had it (`CollectionPaths.WholeAfterExactly`), and all paths stay whole
  through any runs while every plan has such a keeper for each candidate (`CollectionPaths.PathsStayWhole`).
- A block whose hash is all zero leaves an intent after which nothing succeeds again, whatever is
  tried (`AuthorityProofs.ZeroHashWedges`).
- An answer "missing" is final once a newer epoch is durable, and not before
  (`Reconciliation.MissingIsFinal`, `Reconciliation.MissingIsNotFinalInItsOwnEpoch`).

## Model

| member | source | states |
|---|---|---|
| `Validators.New` | consensus/src/lib.rs:804-838 | an engine is built exactly when quorum and total fit, every validator is admissible and ids are distinct; it holds exactly the configured validators, sorted; each refusal names a demand that is not met |
| `Validators.QuorumIntersection` | consensus/src/tendermint.rs:320-333 | two quorums above two thirds share a validator outside any set with at most a third of the power |
| `Proposer.SelectProposer` | consensus/src/tendermint.rs:184-199 | answers exactly when the sum of residues fits 64 bits, and then with the validator owning the target: the walk never falls through |
| `Proposer.SumFitsExactly` | consensus/src/tendermint.rs:184-187 | the unreduced sum fits 64 bits at every height and round exactly below a bound on the total power |
| `Proposer.OverflowingEngine` | consensus/src/tendermint.rs:184-187 | an engine that is built, with a height and a round at which the selection overflows |
| `Proposer.AcceptedEnginesFit` | consensus/src/tendermint.rs:169-187 | engines that a round state accepts never overflow that sum |
| `Proposer.ProportionalRotation` | consensus/src/tendermint.rs:184-199 | over any window of total-power rounds each validator proposes exactly as often as its weight |
| `Proposer.HeightShiftsRotation` | consensus/src/tendermint.rs:184-187 | a later height starts further along the same rotation |
| `RoundInvariant.VotePowerExact` | consensus/src/tendermint.rs:352-375 | on held votes the count never fails and is the power of the distinct signers |
| `RoundInvariant.QuorumUnique` | consensus/src/tendermint.rs:352-375 | at most one value, nil included, reaches quorum per round and step |
| `RoundInvariant.NewRoundStateInv` | consensus/src/tendermint.rs:169-182 | a round state is given exactly to engines with a checked quorum above two thirds, and starts valid |
| `RoundInvariant.ReceiveProposalInv` | consensus/src/tendermint.rs:387-411 | proposals keep the invariant; a rejected one changes nothing |
| `RoundInvariant.ReceiveVoteInv` | consensus/src/tendermint.rs:433-493 | votes keep the invariant; a rejected one changes nothing although the push comes before the count |
| `RoundInvariant.PrecommitValueExact` | consensus/src/tendermint.rs:495-518 | the answer is x exactly when x has the round's prevote quorum, in whatever order votes came |
| `RoundInvariant.PrecommitValueInv` | consensus/src/tendermint.rs:495-518 | a precommit on a block makes it the locked and the valid value of the current round, both backed by held prevotes, and touches no other field; any other answer changes nothing |
| `RoundInvariant.AdvanceRoundInv` | consensus/src/tendermint.rs:520-524 | advancing keeps every lock, proposal and vote backed |
| `RoundInvariant.PrevoteValueTotal` | consensus/src/tendermint.rs:413-431 | a live reachable state always has a prevote answer |
| `RoundInvariant.RunInv` | consensus/src/tendermint.rs:387-524 | after any operations the invariant holds, messages are kept, rounds and lock rounds never go back, a decision never changes |
| `RoundInvariant.PrecommitValueStable` | consensus/src/tendermint.rs:495-518 | within a round no further message changes the precommit answer |
| `RoundMeaning.PrevoteValueExact` | consensus/src/tendermint.rs:413-431 | prevotes x exactly when the round's proposal is x and the lock allows it: no lock, the locked value, or re-proposed from a round not before the lock |
| `RoundMeaning.VoteVerifiesExactly` | consensus/src/tendermint.rs:272-281 | verifies exactly when the named configured validator signed height, round, step and value |
| `RoundMeaning.ProposalVerifiesExactly` | consensus/src/tendermint.rs:251-270 | verifies exactly when it is the round's proposer's, claims only an earlier round and is signed whole |
| `RoundMeaning.ProposalAcceptedExactly` | consensus/src/tendermint.rs:387-411 | accepted exactly when timely, verified, uncontradicted and, if it claims an earlier round, backed; stored once |
| `RoundMeaning.VoteAcceptedExactly` | consensus/src/tendermint.rs:433-461 | accepted exactly when timely, verified and uncontradicted in its slot; held once |
| `RoundMeaning.VoteEffects` | consensus/src/tendermint.rs:462-493 | below a quorum only the vote is added; a prevote quorum records the valid value; a precommit quorum decides with exactly the matching precommits |
| `RoundMeaning.LockHolds` | consensus/src/tendermint.rs:413-518 | after a precommit on a block, whatever follows, another block is prevoted only when a strictly later round shows a prevote quorum for it |
| `RoundMeaning.DecisionNeverMissed` | consensus/src/tendermint.rs:433-493 | from a fresh state, after any operations, decided exactly when some block has a precommit quorum among the held votes |
| `RoundAnswers.ValidValueNeverMissed` | consensus/src/tendermint.rs:433-518 | from a fresh state, after any operations, a valid value is recorded exactly when some block has a prevote quorum among the held votes; the recorded one has its quorum in the recorded round; a locked state has one |
| `RoundAnswers.ValidRoundGoesBackExactly` | consensus/src/tendermint.rs:466-518 | an operation moves the valid round back exactly when it is a new vote that completes a prevote quorum for a block of an older round |
| `RoundAnswers.ValidRoundCanGoBack` | consensus/src/tendermint.rs:466-474 | with one validator, a prevote of round one and then a late one of round zero leave the late one's block and round as the valid ones |
| `RoundAnswers.VoteRefusals` | consensus/src/tendermint.rs:433-461 | each refusal of a vote says what is true of it; equivocation comes with a differing held vote of the same validator, round and step |
| `RoundAnswers.ProposalRefusals` | consensus/src/tendermint.rs:387-411 | each refusal of a proposal says what is true of it; the proposer is always known |
| `RoundAnswers.AdvancesEveryRound` | consensus/src/tendermint.rs:520-524 | n advances move an undecided state n rounds on, or to the last round of 32 bits, where it reports overflow, and change nothing else |
| `RoundMachine.CountPower` | consensus/src/tendermint.rs:352-375 | the accumulating loop computes the specified fold, errors included |
| `RoundMachine.CreateRoundState` | consensus/src/tendermint.rs:169-182 | an object in the specified fresh state for the engines whose quorum checks out, the specified error for the others |
| `RoundMachine.TendermintRoundState.ReceiveProposal` | consensus/src/tendermint.rs:387-411 | updates in place as the specified transition, keeping the invariant |
| `RoundMachine.TendermintRoundState.PrevoteValue` | consensus/src/tendermint.rs:413-431 | answers as specified without changing the state |
| `RoundMachine.TendermintRoundState.ReceiveVote` | consensus/src/tendermint.rs:433-493 | updates in place as the specified transition; an error leaves a valid state untouched |
| `RoundMachine.TendermintRoundState.PrecommitValue` | consensus/src/tendermint.rs:495-518 | as specified and keeping the invariant; on a block, lock and valid value are in place that block at the current round, and no other field may change |
| `RoundMachine.TendermintRoundState.AdvanceRound` | consensus/src/tendermint.rs:520-524 | moves to the next round or reports overflow |
| `Agreement.ExecuteInv` | consensus/src/tendermint.rs:387-524 | every run of correct validators keeps the global invariant on what was signed and what can still be decided |
| `Agreement.SetupExists` | consensus/src/tendermint.rs:320-333 | the assumptions of agreement are met by an engine with a faulty validator |
| `Agreement.CertificatesAgree` | consensus/src/tendermint.rs:283-333 | after any run, any two decisions that pass the certificate check name the same block |
| `Agreement.ValidatorsAgree` | consensus/src/tendermint.rs:433-493 | after any run, any two correct validators that decided name the same block |
| `Deciding.SomeRunDecides` | consensus/src/tendermint.rs:387-524 | in every setup, for every block and every correct validator, some run ends with that validator deciding that block |
| `Deciding.DecisionsExist` | consensus/src/tendermint.rs:387-524 | there are setups with a faulty validator and runs in them that end in a decision |
| `Molecule.WriteTable` | consensus/src/lib.rs:335-352 | the running-offset loops write total size, offsets and fields as laid out |
| `Molecule.WriteHashVec` | consensus/src/lib.rs:326-333 | the loop writes the count and the hashes |
| `Molecule.ReadFieldRight` | consensus/src/lib.rs:335-352 | a reader of the offset table recovers every field |
| `Molecule.TableInjective` | consensus/src/lib.rs:335-352 | tables with equal bytes have equal fields |
| `Molecule.HashVecInjective` | consensus/src/lib.rs:326-333 | hash vectors of any lengths are told apart by their bytes |
| `Molecule.ToMoleculeBytes` | consensus/src/lib.rs:299-315 | the block's thirteen fields are encoded in order |
| `Molecule.FieldOrder` | consensus/src/lib.rs:299-307 | the first six parts of a block are read back at positions 0 to 5 |
| `Molecule.CommitmentOrder` | consensus/src/lib.rs:307-315 | the remaining seven are read back at positions 6 to 12 |
| `Molecule.BlockBytesInjective` | consensus/src/lib.rs:299-315 | blocks with equal canonical bytes are equal in every field |
| `Molecule.TableOpensWithSize` | consensus/src/lib.rs:335-341 | a table's first four bytes are its own length |
| `Molecule.HashVecRoundTrip` | consensus/src/lib.rs:326-333 | a hash vector is read back by its count |
| `Molecule.DecodesBlock` | consensus/src/lib.rs:299-352 | a decoder that checks the size, follows the offsets and reads each part, the engine's name included, returns every encodable block |
| `Finality.FinalisedIsSigned` | consensus/src/tendermint.rs:283-318 | the result is this block and its hash; validators with quorum power each signed a precommit on that hash at its height and the reported round, and the result carries their signatures |
| `Finality.CertifiesExactly` | consensus/src/tendermint.rs:352-375 | the certificate check passes exactly when every precommit on the block verifies, no validator has two, and their power is a quorum |
| `Finality.DecisionFinalises` | consensus/src/tendermint.rs:283-318 | after any run, a correct validator's decision finalises exactly the Tendermint block of that height with the decided hash, and no block of another engine; out come that block and hash, the decision's round and signatures of votes the validator holds |
| `Finality.FinalisedBlocksEqual` | consensus/src/tendermint.rs:283-318 | two blocks finalised at one height, in any rounds, after any run, are equal |
| `AuthorityProofs.GrantInv` | session-authority/src/lib.rs:241-278 | granting keeps both stores in agreement under every fault |
| `AuthorityProofs.CommitInv` | session-authority/src/lib.rs:283-368 | committing keeps both stores in agreement under every fault |
| `AuthorityProofs.OpenInv` | session-authority/src/lib.rs:100-183 | opening keeps both stores in agreement under every fault |
| `AuthorityProofs.ReconcileInv` | session-authority/src/lib.rs:517-549 | absorbing a pending head keeps both stores in agreement |
| `AuthorityProofs.ReopenAlwaysSucceeds` | session-authority/src/lib.rs:428-549 | after any run with crashes and ambiguous writes the heads differ by at most the exact pending step, and reopening succeeds with every block in place |
| `AuthorityProofs.RunFences` | session-authority/src/lib.rs:241-368 | once an epoch is durable no continuation appends a block under an older one |
| `AuthorityProofs.StaleEpochRejected` | session-authority/src/lib.rs:283-307 | an authorization of any epoch but the newest changes nothing |
| `AuthorityProofs.RevokedNeverCommits` | session-authority/src/lib.rs:283-307 | a revoked submission changes nothing in any continuation |
| `AuthorityProofs.StableReceipts` | session-authority/src/lib.rs:396-427 | receipts for a height at any two times are equal and name the authorising epoch and the block |
| `AuthorityProofs.HealthyCommitSucceeds` | session-authority/src/lib.rs:283-368 | an authorised executable request on a healthy process appends its block and gets its receipt |
| `AuthorityProofs.ZeroHashWedges` | session-authority/src/lib.rs:517-549 | after a durable intent, reopening succeeds exactly when the block hash is not zero; for the zero hash no open succeeds after any further operations |
| `AuthorityMeaning.GrantExactly` | session-authority/src/lib.rs:241-278 | granted exactly to a signed request that repeats the newest grant or moves on from the stored epoch and head; repeats change nothing |
| `AuthorityMeaning.AuthorizedExactly` | session-authority/src/lib.rs:283-307 | the checks before execution pass exactly for the current owner's submission at the canonical head |
| `AuthorityMeaning.CommitExactly` | session-authority/src/lib.rs:283-368 | without faults committed exactly when submitted rightly and executable; one block is appended or nothing changes |
| `AuthorityMeaning.OpenExactly` | session-authority/src/lib.rs:100-183 | on any stores, opening succeeds exactly when the record is this policy's, audits and agrees with the head, written out; the process has then caught up with both; all other stores are refused as invalid and leave no process |
| `AuthorityMeaning.StampedOnce` | session-authority/src/lib.rs:308-312 | in every reachable world each block was asked to carry its grant's stamp exactly once, and carries it |
| `AuthorityAudit.AttributionExactly` | session-authority/src/lib.rs:412-419 | a height belongs to a grant exactly when it is the newest that starts at or before it and all later ones start above |
| `AuthorityAudit.AuditExactly` | session-authority/src/lib.rs:428-473 | on any stores the audit passes exactly when grant i is the administrator's signed move from epoch i, from the head before any block or right after a stored one, in order, and every block carries the stamp of the grant in force at its height, asked for once |
| `AuthorityFaults.CommitUnderFaults` | session-authority/src/lib.rs:283-368 | which fault gives which answer: a crash exactly when all before its point went well, a receipt exactly when every write went through, uncertain otherwise; exactly when the store has the block; the whole new block, head and receipt |
| `AuthorityFaults.RefusalsIgnoreFaults` | session-authority/src/lib.rs:283-313 | a submission that may not be committed is refused the same way whatever would have gone wrong later, and changes nothing |
| `AuthorityFaults.CommitRefusals` | session-authority/src/lib.rs:283-313 | each refusal is answered exactly when what it names is wrong with the submission |
| `AuthorityFaults.ReceiptMeansCommitted` | session-authority/src/lib.rs:280-368 | under every fault, a receipt is answered only when the block it names is the last of the history, by the epoch and owner it names, with the record caught up |
| `AuthorityFaults.ReceiptIsForGood` | session-authority/src/lib.rs:283-411 | in any run with crashes, a receipt once handed out is the one that the authority, reopened after any further operations, issues for that height |
| `AuthorityFaults.UnknownOutcomeResolves` | session-authority/src/lib.rs:283-549 | after a commit under any fault, reopening issues the withheld receipt exactly if the store took the block and then fences the same submission; otherwise the same submission is accepted: it commits once |
| `AuthorityFaults.ZeroHashNeverReceipted` | session-authority/src/lib.rs:349-365 | a block with the all-zero hash is never receipted: past the store it is refused at the watermark and the process is poisoned |
| `AuthorityFaults.GrantUnderFaults` | session-authority/src/lib.rs:241-278 | a new grant is durable exactly when its write is not lost and answered only when durable; repeats and refusals meet no fault |
| `AuthorityFaults.GrantRefusals` | session-authority/src/lib.rs:241-265 | each refusal is answered exactly when what it names is wrong with the request |
| `AuthorityFaults.OpenUnderFaults` | session-authority/src/lib.rs:100-183 | on the stores of any run opening fails only for a live process, a failed write or a failed restore, and says which; it leaves no process behind and no block, author or grant changed |
| `AuthorityMachine.FindGrant` | session-authority/src/lib.rs:412-419 | the backwards scan finds the latest grant starting at or before the height |
| `AuthorityMachine.AuditGrants` | session-authority/src/lib.rs:428-473 | passes exactly when every grant is consecutive, signed, anchored and ordered |
| `AuthorityMachine.AuditBlocks` | session-authority/src/lib.rs:428-473 | the paged walk passes exactly when every block carries its grant's stamp once |
| `AuthorityMachine.SessionAuthority.constructor` | session-authority/src/lib.rs:100-107 | the deployment starts with empty stores and no process |
| `AuthorityMachine.SessionAuthority.Kill` | session-authority/src/lib.rs:551-558 | the process dies and both stores stay as they are |
| `AuthorityMachine.SessionAuthority.Open` | session-authority/src/lib.rs:100-183 | opens in place as specified, keeping the invariant |
| `AuthorityMachine.SessionAuthority.GrantWriter` | session-authority/src/lib.rs:241-278 | grants in place as specified, keeping the invariant |
| `AuthorityMachine.SessionAuthority.Commit` | session-authority/src/lib.rs:283-368 | commits in place as specified under any fault; for a block whose hash is not zero it keeps the invariant and every fence, and a receipt names the block now last in the stored history |
| `AuthorityMachine.SessionAuthority.Persist` | session-authority/src/lib.rs:474-485 | a write of the ownership record, with its three outcomes |
| `AuthorityMachine.SessionAuthority.ReconcilePending` | session-authority/src/lib.rs:517-549 | absorbs or refuses the pending head as specified |
| `AuthorityMachine.SessionAuthority.IssueReceipt` | session-authority/src/lib.rs:396-411 | the receipt the stored grants and block determine |
| `Reconciliation.LoadReceiptAt` | session/src/commands.rs:33-50 | the stored receipt of a command is the one its block derives, at its own height and position |
| `CommandHistory.CommandsCommitOnce` | session/src/lib.rs:1148-1162 | in any run, no command id ever stands at two places of the canonical history |
| `CommandHistory.StatusExactly` | session/src/commands.rs:84-110 | after any run a command is missing exactly when no block holds its id, committed with a receipt exactly when that receipt tells of a block holding this very command, in conflict exactly when it tells of one holding the id with another payload |
| `Reconciliation.VouchedExactly` | session-authority/src/reconciliation.rs:150-173 | a submission is vouched for exactly when it names a grant that was given, by epoch and owner, is signed by that owner and is based on a head of this session |
| `Reconciliation.FindEpoch` | session-authority/src/reconciliation.rs:150-173 | finds the grant of the submission exactly when that grant vouches for it |
| `Reconciliation.ReconcileSubmission` | session-authority/src/reconciliation.rs:150-214 | a certificate is given exactly when commands are valid, the submission is vouched for and the blocks fit; it tells the canonical truth |
| `Reconciliation.VerifyCertificate` | session-authority/src/reconciliation.rs:66-143 | accepted exactly when scope, blocks and observations hold up and every block is used |
| `CommandHistory.AcceptedMeans` | session-authority/src/reconciliation.rs:66-143 | whoever made it, an accepted certificate is signed for this submission at an epoch not before it, its blocks are at different heights up to the observed head and none contradicts it, and every status but missing is told by one of them |
| `Reconciliation.ProducedCertificatesVerify` | session-authority/src/reconciliation.rs:66-214 | every certificate produced is accepted |
| `Reconciliation.ReconcileAndVerify` | session-authority/src/reconciliation.rs:66-214 | observing and then verifying returns the canonical status of every command |
| `Reconciliation.MissingIsFinal` | session-authority/src/reconciliation.rs:150-214 | missing under a revoked epoch is never committed by that submission; if it appears, a newer epoch authorised it |
| `Reconciliation.MissingIsNotFinalInItsOwnEpoch` | session-authority/src/lib.rs:283-368 | while its epoch is newest the same submission can still commit the command |
| `CellPool.DescendantsFacts` | mempool/src/cellpool.rs:264-277 | descendants of pooled roots are pooled, include the roots and are closed under children |
| `CellPool.RemoveStep` | mempool/src/cellpool.rs:279-296 | removing one entry extends the removed set by it, or panics exactly when the running fee total does not cover the extended set |
| `CellPool.WithoutInv` | mempool/src/cellpool.rs:279-296 | taking out any set closed under children, on any reachable pool, leaves every index, link, root and count exact, no dangling link, and the fee total as far behind as it was |
| `CellPool.AddKeepsInv` | mempool/src/cellpool.rs:96-194 | every admission attempt, done, refused or panicking, on any reachable pool keeps spend index, links, order, roots, count and size total exact; the fee total falls behind by exactly what saturation keeps out |
| `CellPoolRuns.RemovalLeavesTheRest` | mempool/src/cellpool.rs:197-213 | exactly the descendants go; every other entry stays as it was, less the removed child |
| `CellPoolRuns.RemovalPanicsExactly` | mempool/src/cellpool.rs:279-296 | a removal panics exactly when saturation has lost more than would stay in the pool |
| `CellPoolRuns.AdmissionPanicsExactly` | mempool/src/cellpool.rs:154-187 | an admission that passes its checks panics exactly when saturation has lost more than the eviction would leave, or the size total leaves 64 bits |
| `CellPoolRuns.RunInv` | mempool/src/cellpool.rs:96-213 | after any sequence of operations, with any fees, indexes, links, order, roots, count and size total are exact, the pool is within its limit and the fee total is not above the fees |
| `CellPoolRuns.AdmissionFees` | mempool/src/cellpool.rs:232-257 | an admission exchanges the evicted fees for its own; a replacement's fee is above the evicted fees, and its fee times their effective size is above their fees times its effective size |
| `CellPoolRuns.NoReturn` | mempool/src/cellpool.rs:96-194 | along any admissions the fee sum never falls and an earlier content returns only if none in between went through |
| `CellPoolRuns.FeeTotalIsSumLessLosses` | mempool/src/cellpool.rs:187-293 | after any run the fee total is the sum of the pooled fees less everything saturation ever kept out of it |
| `CellPoolRuns.FeeTotalExactly` | mempool/src/cellpool.rs:187-293 | the fee total is exact after a run if and only if no admission of the run saturated it |
| `CellPoolRuns.ExactWhileFeesFit` | mempool/src/cellpool.rs:187-293 | the fee total is exact after every prefix of a run if and only if the pooled fees fit 64 bits after every prefix |
| `CellPoolRuns.NoLossNoPanic` | mempool/src/cellpool.rs:187-293 | until an admission saturates the total no removal panics and no replacement panics on fees |
| `CellPoolRuns.NeverEmptyAgain` | mempool/src/cellpool.rs:187-293 | once part of a fee was lost, no continuation empties the pool |
| `CellPoolRuns.SaturatedTotalIsLost` | mempool/src/cellpool.rs:187-293 | any two independent transactions whose fees leave a word: admit both, remove the second, and removing the first panics |
| `CellPoolRuns.LargestFeesSaturate` | mempool/src/cellpool.rs:187-293 | two largest fees, transactions of any sizes: a run that ends with a zero total, one transaction left and its removal panicking |
| `CellPoolMeaning.ConflictsExactly` | mempool/src/cellpool.rs:111-113 | the conflicts are exactly the pooled transactions that spend one of the same outputs |
| `CellPoolMeaning.AdmissionRecords` | mempool/src/cellpool.rs:154-193 | after an admission the newcomer is last, its entry holds the admission's transaction, fee, cycles and both roots, its parents are the pooled transactions it spends from, and every survivor is untouched but for its child list |
| `CellPoolMeaning.PooledWasAdmitted` | mempool/src/cellpool.rs:96-213 | after any run every pooled entry is, but for its links, the record of the one admission that took it in, and it has been pooled ever since |
| `CellPoolMeaning.AdmittedExactly` | mempool/src/cellpool.rs:96-193 | exactly which admissions go through, each condition written out on the pooled transactions |
| `CellPoolMeaning.ChildAdmittedExactly` | mempool/src/cellpool.rs:122-152 | after any run, an admission that clashes with nothing and spends from exactly one pooled transaction goes through exactly when it is well formed and new, there is room, its size fits and its root is the one its parent was admitted as resulting in |
| `CellPoolMeaning.AdmissionRefusals` | mempool/src/cellpool.rs:96-152 | each refusal says what is true of the admission |
| `CellPoolMeaning.CountersExact` | mempool/src/cellpool.rs:184-295 | after any run the counters are the admissions and replacements that went through, and everything ever admitted is still pooled or counted as removed |
| `CellPoolMachine.DescendantsIncluding` | mempool/src/cellpool.rs:264-277 | the worklist stops with exactly what is reached from the roots through child links |
| `CellPoolMachine.RemoveEntry` | mempool/src/cellpool.rs:279-296 | the loops over inputs and parents remove the entry as specified, or panic where a total would go below zero |
| `CellPoolMachine.RemoveEachTogether` | mempool/src/cellpool.rs:154-157 | whatever the order, one of the removals panics exactly when the running total does not cover them together; otherwise the pool is left without all of them |
| `CellPoolMachine.RemoveAll` | mempool/src/cellpool.rs:197-213 | removal in id order leaves the pool without the set and lists the removed transactions in id order, or panics exactly when the running total does not cover the set |
| `CellPoolMachine.ValidateReplacement` | mempool/src/cellpool.rs:232-257 | passes exactly when the package sums fit and the newcomer pays strictly more in both senses |
| `CellPoolMachine.FindParent` | mempool/src/cellpool.rs:122-134 | the scan in insertion order finds the pooled, unevicted transaction with that id |
| `CellPoolMachine.CheckAdmission` | mempool/src/cellpool.rs:96-152 | the checks give the specified first error, or the evicted package and the parents |
| `CellPoolMachine.Insert` | mempool/src/cellpool.rs:159-193 | spends, links, entry and totals are recorded as specified, or the size total panics |
| `CellPoolMachine.CellPool.constructor` | mempool/src/cellpool.rs:79-87 | the pool starts empty and exact |
| `CellPoolMachine.CellPool.Add` | mempool/src/cellpool.rs:96-194 | for every pool and admission: swaps in the pool with the package exchanged for the admission's own record and answers its id, reports the specified error, or panics exactly where specified; changes nothing unless done, and stays valid |
| `CellPoolMachine.CellPool.RemovePackage` | mempool/src/cellpool.rs:197-213 | swaps in the pool without the package and returns its transactions in id order, reports that it is not pooled, or panics exactly when the fee total does not cover it |
| `Uint.OverflowingAdd` | math/src/uint.rs:112-127 | the sum is the result plus the carry out of the top limb, for any number of limbs |
| `Uint.OverflowingSub` | math/src/uint.rs:143-159 | the difference is the result less the borrow out of the top limb |
| `Uint.Compare` | math/src/uint.rs:519-527 | limbs compared from the top order as the integers do |
| `Uint.Bits` | math/src/uint.rs:52-59 | the number of significant bits |
| `Uint.OverflowingShl` | math/src/uint.rs:67-84 | multiplication by a power of two modulo the width, with the shift reduced and flagged |
| `Uint.OverflowingShr` | math/src/uint.rs:92-109 | division by a power of two, with the shift reduced and flagged |
| `UintMul.OverflowingMul` | math/src/uint.rs:193-209 | the product modulo the width; the flag exactly when the visited products overflow; overflow exactly when flagged or a product reaches past the top |
| `UintMul.OverflowFlagExact` | math/src/uint.rs:193-209 | exactly when the flag alone tells overflow; for operands whose nonzero limbs never meet past the width it always does |
| `UintMul.OverflowMissed` | math/src/uint.rs:200-200 | a product that overflows unflagged |
| `UintDiv.DivRem` | math/src/uint.rs:310-343 | dividend equals quotient times divisor plus a remainder below the divisor |
| `Float.AsF64` | math/src/uint.rs:273-306 | the pattern is the nearest double, ties to even, exactly up to 2^1024 + 2^971; past it the pattern is above infinity, and from 2^1025 on has the sign bit set |
| `Float.ConvertsToNan` | math/src/uint.rs:273-306 | 2^1024 + 2^971 + 1 in 48 limbs converts to a NaN |
| `Float.ConvertsToNegativeZero` | math/src/uint.rs:273-306 | 2^1025 in 48 limbs converts to negative zero |
| `Float.PatternOrder` | math/src/uint.rs:273-306 | patterns are ordered as the values they stand for |
| `Float.FieldsValue` | math/src/uint.rs:297-304 | the value of a pattern by its exponent and fraction fields, section 3.4 of IEEE 754-2019 |
| `Compact.CompactTargetBits` | math/src/lib.rs:89-103 | the limb code computes the specified encoding in 32 bits |
| `Compact.FromCompactTargetBits` | math/src/lib.rs:66-85 | the limb code computes the specified decoding and its overflow |
| `Compact.RoundTrip` | math/src/lib.rs:66-103 | decoding an encoded target gives the greatest representable number not above it, without overflow, and encodes back to the same bits |
| `Compact.ExactlyRepresentable` | math/src/lib.rs:66-103 | exactly the representable targets survive unchanged |
| `Compact.DecodeFloor` | math/src/lib.rs:66-85 | bits of any size whose value fits decode to it, rounded down below three bytes, flagged beyond 34 bytes |
| `Compact.NegativeIsZero` | math/src/lib.rs:80-84 | a kept sign bit decodes to zero |
| `Compact.EncodeMonotone` | math/src/lib.rs:89-103 | encodings compare as the targets do |
| `DependencyGraph.VisitStep` | session-bundle/src/manifest.rs:397-410 | one visit keeps exact counters, queue and depths |
| `DependencyGraph.TraversalDecides` | session-bundle/src/manifest.rs:397-413 | all nodes are visited exactly when the graph has no cycle |
| `DependencyGraph.DepthOfGraph` | session-bundle/src/manifest.rs:426-433 | the largest recorded depth is the longest chain |
| `Manifest.SortedUnique` | session-bundle/src/manifest.rs:226-228 | true exactly for strictly ascending values |
| `Manifest.CheckInventory` | session-bundle/src/manifest.rs:362-392 | the first complaint in order, or exact totals, counters and reverse edges |
| `Manifest.Traverse` | session-bundle/src/manifest.rs:393-413 | visits everything exactly when acyclic, records longest chains, stops only on a chain beyond the limit |
| `Manifest.Referenced` | session-bundle/src/manifest.rs:414-425 | counts every blob exactly when each is reached from a session role |
| `Manifest.ValidateGraph` | session-bundle/src/manifest.rs:362-433 | accepted exactly when checks pass, the graph is acyclic, within depth and fully referenced; the reported depth is the longest chain; each error tells which of these fails |
| `Collection.ValidatePlan` | session-bundle/src/collection.rs:36-68 | passes exactly when limits, sizes, distinct names, protected roots and candidates are right, with the specified error otherwise |
| `Collection.NewCoverage` | session-bundle/src/collection.rs:152-165 | the index lists exactly the keepers' sessions and blobs by id |
| `Collection.CheckCoverage` | session-bundle/src/collection.rs:166-202 | passes exactly when every history is, block by block, the beginning of a kept one of the same session, anchor, genesis and consensus, and every blob but superseded snapshots has a kept copy of its size with at least its roles and dependencies |
| `Collection.RecordsPathsExactly` | session-bundle/src/collection.rs:166-202 | one manifest records every lasting path of another if and only if it records every edge of it between lasting blobs |
| `Collection.HoldsPathsExactly` | session-bundle/src/collection.rs:166-202 | one manifest holds every lasting path of another whole, blobs and steps, if and only if it has its lasting blobs and records the edges between them |
| `Collection.OnlyKeeperHolds` | session-bundle/src/collection.rs:166-202 | a single keeper has every lasting blob and edge of what it covers |
| `CollectionSafety.OthersUntouched` | session-bundle/src/collection.rs:233-320 | over any runs of any plans, a directory that is no candidate, and every database, never changes |
| `CollectionSafety.StillPasses` | session-bundle/src/collection.rs:233-292 | a plan that passed passes every check again on whatever its stopped run left |
| `CollectionSafety.RestartPasses` | session-bundle/src/collection.rs:204-320 | however often a passing plan is stopped and restarted it still passes, with the same work list, and only a stage of its sweep is left behind |
| `CollectionSafety.RestartReachesTheSameEnd` | session-bundle/src/collection.rs:293-320 | after any crashes a run that finishes leaves the disk a single uninterrupted run would have left: candidates marked and empty, all else as it was |
| `CollectionSafety.UnlinkedOnceOrKept` | session-bundle/src/collection.rs:293-317 | over any runs of any plans each file is there at the end or was unlinked once, if it was there at the start; an absent file is never unlinked |
| `CollectionSafety.NoFileUnlinkedTwice` | session-bundle/src/collection.rs:293-317 | the unlink calls of any runs of any plans name no file twice, and only files that were there at the start and are gone at the end |
| `CollectionSafety.CandidateFilesUnlinkedOnce` | session-bundle/src/collection.rs:293-317 | when a passing plan has run to its end, through any crashes, each candidate file was unlinked exactly once and no other file |
| `CollectionSafety.UnlinksTellLengths` | session-bundle/src/collection.rs:299-313 | over any runs of any plans every unlink was for a file of the first disk and reports its length, and no file that is left was changed |
| `CollectionSurvival.HistoriesSurvive` | session-bundle/src/collection.rs:166-202 | the whole history of a session of an intact archive can be read from one directory after any runs of any plans, stopped anywhere |
| `CollectionSurvival.LastingBlobsSurvive` | session-bundle/src/collection.rs:166-202 | every lasting blob of an intact archive is, after any runs, an exact file recorded with its roles and dependencies, next to the files it depends on |
| `CollectionSurvival.CoveredThroughout` | session-bundle/src/collection.rs:166-202 | on every disk a passing plan and its restarts can leave, each candidate blob that is no superseded snapshot is an exact file of one of the plan's keepers |
| `CollectionSurvival.PinsSurvive` | session-bundle/src/collection.rs:245-281 | if every plan lists a database, each of its pins still reads back the exact block after any runs |
| `CollectionPaths.PathsStayWhole` | session-bundle/src/collection.rs:166-202 | while every plan has for each candidate a keeper with its lasting blobs and edges, every lasting path of an intact archive can be followed whole in one directory after any runs, stopped anywhere |
| `CollectionPaths.WholeAfterExactly` | session-bundle/src/collection.rs:293-320 | a path is whole after a finished run if and only if an intact archive that is no candidate of the plan had it before |
| `CollectionPaths.SingleKeeperKeepsPaths` | session-bundle/src/collection.rs:166-202 | a passing plan with a single keeper meets that condition |
| `CollectionWitness.TwoKeepersSplitPath` | session-bundle/src/collection.rs:166-202 | three archives of one session, a plan that passes every check, and after its finished run no directory records a path the candidate had |
| `CollectionWitness.SomePlanPasses` | session-bundle/src/collection.rs:233-292 | plans that pass every check exist |
| `CollectionGrowth.LaterCoversEarlier` | session-bundle/src/collection.rs:166-202 | an archive of a session with any number of further blocks covers the earlier one, of which only head and checkpoint go |
| `CollectionGrowth.LongerKeeperPasses` | session-bundle/src/collection.rs:166-292 | for any two lengths, the plan that keeps and protects the longer archive, which a database pins block by block, and collects the shorter passes, under limits the longer uses up exactly |
| `CollectionGrowth.GrowthAlwaysCollectable` | session-bundle/src/collection.rs:233-292 | such plans pass for every pair of lengths |
| `CollectionMachine.CheckStructure` | session-bundle/src/manifest.rs:266-433 | passes exactly the manifests with sessions, roots and blobs listed in order and within limits, every named blob there in its role, and an accepted inventory |
| `CollectionMachine.OpenKeeper` | session-bundle/src/catalog.rs:14-41 | a keeper opens exactly when its manifest is structured, identified, recognised and audited and every blob is an exact file |
| `CollectionMachine.OpenCandidate` | session-bundle/src/collection.rs:114-146 | a candidate opens exactly as a whole archive, or as a marked one with any part of its blobs gone |
| `CollectionMachine.CheckDatabases` | session-bundle/src/collection.rs:245-281 | passes exactly when every pin names a block that a keeper lists with that length |
| `CollectionMachine.CheckPlan` | session-bundle/src/collection.rs:233-292 | passes exactly the plans that meet every condition |
| `CollectionMachine.Collector.RemoveBlob` | session-bundle/src/collection.rs:299-313 | unlinks the file if it is there, counts it, and refuses a file of another length |
| `CollectionMachine.Collector.SweepCandidate` | session-bundle/src/collection.rs:293-317 | marks and visits in order, stopping anywhere, as specified, with exact counters |
| `CollectionMachine.Collector.Collect` | session-bundle/src/collection.rs:233-320 | a plan that does not pass changes nothing; one that passes runs a prefix of its work list, never finds a file changed, and reports exact counters |

## Left out

- Signature schemes, hash functions, JSON and postcard codecs: replaced by ideal ones.
- The driver that calls the round state, timeouts and the network: a run is any sequence of calls.
- RocksDB, file handles, locks and fsync: only whole, lost or ambiguous writes and process death. A power failure that undoes an unsynced unlink is not modelled.
- The u64 height counter passing 2^64 blocks, and the pool's counters of operations passing 2^64.
- Error messages: one constructor stands for each kind of error. An audit that fails is one kind, whichever of its checks fails.
- `mempool/src/scorer.rs`, `get_sorted` and witness hashes of pool entries: they do not feed back into the pool.
- Format, versions, encoded size, identities, profiles and execution descriptions in `validate_structure`: a given function of the manifest and the limits. Blobs are addressed by position, which sorted ids make one to one.
- The binary search in the coverage check: dependency lists of validated manifests are sorted, so it is membership.
- The audit behind `BundleStore::open`, and the catalog and database budgets: each is a given function of what was read. Which of several failing checks is reported first.
- Path aliases, hard links, mounts and readers that hold an archive open: directories are told apart by path.
- Decimal, hexadecimal, byte and serde conversions of the integers, `mod_inverse`, iterators and signed integers: easy beside the loops modelled.
- `ckb-adapter`, `cellscript-adapter`, claims, sinks, static committee and proof-of-authority engines: checks of equalities, or resting on types not part of this model.
- Float.AsF64: stated up to 48 limbs, because the widest type the crate defines has 48.
