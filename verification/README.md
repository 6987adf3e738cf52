# clif, modelled and proved in Dafny

`clif` is the keyless daemon of a Flare/Songbird data provider: it checks published reward files against the hash on
chain, signs reward epochs, claims them, observes the provider's own voting rounds and keeps its accounts funded.
This project models five parts of it and proves what they promise.

1. **Reward Merkle tree over Keccak-256.** `keccak.dfy` is the compact in-place permutation and sponge, proved equal to
   the bit-level definition in `fips202.dfy` (FIPS 202 sections 3.2, 3.4, 4 and 5.1, with the original Keccak padding
   and no SHA-3 suffix). `heaptree.dfy`, `merkle.dfy` and `discovery.dfy` build the tree in a flat array, check proofs
   and look claims up. In the Merkle proofs Keccak-256 is any function from bytes to 32 bytes; what soundness says is
   that a breach yields two different strings with one hash among the finitely many that were hashed on the way, the
   128-byte encodings and the 64-byte pairs of the proof and of the tree.
2. **Signing progress.** `signing_progress.dfy`: weighted votes scanned in capped, budgeted chunks, and the cache that
   refreshes incrementally.
3. **Sign, then claim.** `fsp.dfy`, `autostate.dfy`, `epoch_trace.dfy`, `epoch_auto.dfy`, `epoch_runs.dfy`: the daemon's
   whole life is a trace of acts; `EpochTraces.Safe` says what each act needs from the acts before it, every method of
   the daemon keeps it whatever it is answered, and the whole-run properties are lemmas about safe traces.
4. **Observer.** `observer_state.dfy`, `mincond.dfy`, `engine.dfy`: rounds in flight, bounded histories, the append-only
   ledger and the block loop.
5. **Kernels.** `cb58.dfy`, `funding.dfy`, `dotenv.dfy`, `alert.dfy`, `block_search.dfy`.

`hex.dfy`, `ascending.dfy` and `sums.dfy` hold shared notions.

Chain, RPC, fwd and clock are parameters: records of answers (`Wire`, `DriveWire`, `Turn`, `Node`, ...) in which any
read may be refused wherever the code catches or passes on an error. What is taken to hold of the outside is written as
a predicate of its own and required where it is used:

- `SigningProgress.Honest`, `Consistent`, `Timely`: answers are true, no signer is on record twice for one hash with
  different flags, block times never fall and nobody signs before the epoch ended. Total weight, threshold and weights
  of an epoch are fixed. `OneVoteEach` (one hash per signer, weights within the total) is needed for the quorum
  lemmas only.
- `EpochTraces.Forward`: the epoch counter and the clock do not run backwards. Only `ForwardEscalation` needs it; no
  method of the daemon assumes anything of what it is answered.
- `Engines.NeverFalls`: block times never fall. `Engines.Paced`: 28 blocks take at most one second more than a voting
  round; only the claim that every event is counted in time needs it.
- `BlockSearch.Pruned`: a node drops blocks below one point only.

Places where the code does less than its documentation says, each with inputs that show it and the condition under
which it does meet it:

- A refresh moves its high-water mark to the head even when the request budget ran out first: agreement with a full
  scan holds if the gap fits the budget (`SigningProgress.Cache.Refresh`), and fails on some chain for every gap that
  does not (`WideGapSkipsAVote`).
- The daemon can ask for a second rewards signature after it saw its own vote (`EpochRuns.SignAgain`): the event-log
  answer turns to no when the log cannot be read (`LogDecides`) and when another hash overtakes ours
  (`OvertakenVoteIsDenied`, `SigningProgress.OurVoteIsShownWhileItLeads`). `EpochAuto.AskedExactly` states exactly when
  a signature is asked for, and `EpochTraces.SignatureAfterOurVote` what must lie in between.
- A stuck epoch can block fresh ones: an exception that leaves its drive, such as a `rewardsHash` read refused for any
  other reason than that nobody has signed yet, ends the cycle, and every cycle while it lasts
  (`EpochRuns.StopBlocksLater`). An epoch is driven exactly if it is in the window, not cooling down, and no drive before
  it stops (`EpochAuto.DrivenExactly`, with `Stops` spelled out).
- An escalated epoch can be driven within its cooldown, when the current-epoch read falls back so far that the epoch
  leaves the window in between (`EpochRuns.DrivenInCooldown`); a running cooldown is lost exactly then
  (`EpochAuto.RunningCooldownExactly`).
- A funding plan can be accepted for up to 1e-9 more than the funder has, or a line for that much more than the cap,
  exactly if a whole millionth lies in that gap (`Fundings.OverspendsExactly`, `CapHoldsExactly`).
- Executing a plan can lift an account above its band when a transfer lands after its receipt poll timed out
  (`Fundings.TwoLinesOverfill`, `PlanKeepsBandExactly`, `AutoKeepsBandExactly`).
- A "clean" value may still contain a line break that `splitlines` honours (`DotEnv.WrittenLinesRead`,
  `CleanButBroken`).
- A restart with a block cap can skip one block that the previous run left on record without processing it
  (`Engines.RestartLeavesNoHole`, `UnprocessedStartIsSkipped`).
- With blocks just slower than `Engines.Paced`, an event is counted for a round already finalized
  (`Engines.LateCredit`).

## Model

| member | source | states |
|---|---|---|
| Keccak.RolBits | clif/_keccak.py:98-99 | the 64-bit rotation moves bit z to z + n modulo 64, and drops nothing below 2^64 |
| Keccak.ThetaLane | clif/_keccak.py:104-109 | the column parities and mixes of the code are theta of FIPS 202 section 3.2.1 on every lane |
| Keccak.TablesMeetWalk | clif/_keccak.py:17-68 | the two tables walk lanes 1 to 24 along one cycle: the i-th step moves the lane that rho (section 3.2.2) visits at turn i to the place pi (section 3.2.3) gives it |
| Keccak.TableOffset | clif/_keccak.py:17-68 | with the offset that rho gives that turn, modulo 64 |
| Keccak.RhoPiLane | clif/_keccak.py:110-113 | the in-place walk leaves in every lane what rho followed by pi leaves there |
| Keccak.ChiLane | clif/_keccak.py:114-119 | the row update is chi of section 3.2.4 |
| Keccak.RoundConstantTable | clif/_keccak.py:69-94 | every table constant has exactly the bits of the linear feedback register of section 3.2.5 |
| Keccak.RoundsMeetFips | clif/_keccak.py:102-121 | 24 rounds on lanes are the 24 rounds of the standard on the state they represent |
| Keccak.RhoPiStep | clif/_keccak.py:110-113 | the loop that carries one lane along while overwriting the next leaves the walked state |
| Keccak.ChiStep | clif/_keccak.py:114-119 | rewriting row by row over a saved row leaves chi of the whole old state |
| Keccak.KeccakF1600 | clif/_keccak.py:102-121 | in place, the state comes to represent the standard's permutation of what it represented, each lane below 2^64 |
| Keccak.PaddedInjective | clif/_keccak.py:129-133 | no two messages share a padded form, the one-byte 0x81 padding included |
| Keccak.PaddedBits | clif/_keccak.py:129-133 | the padded bytes are the message followed by pad10*1 of section 5.1 at rate 1088 |
| Keccak.FillIsLeast | clif/_keccak.py:131-132 | the padding is the least that reaches a multiple of 136 bytes |
| Keccak.AbsorbAll | clif/_keccak.py:134-137 | folding in block after block is the recursive absorption of section 4 |
| Keccak.Keccak256 | clif/_keccak.py:124-142 | the digest is 32 bytes and their bits are the standard's sponge of the message's bits |
| Merkle.EncodingInjective | clif/merkle.py:61-64 | two claims in range with one encoding are one claim |
| Merkle.EncodingReads | clif/merkle.py:61-64 | read back word by word, the 128 bytes hold the epoch, the address with twelve zero bytes behind it, the amount and the claim type, in this order |
| Merkle.AddressReads | clif/merkle.py:51-60 | bytes written in hexadecimal digits, with or without the prefix, are an address exactly if there are 20 of them |
| Merkle.BodyExactly | clif/merkle.py:61-64 | a claim is encoded exactly if its address is and its epoch, amount and type fit 24, 120 and 8 bits |
| Merkle.LeafReads | clif/merkle.py:34-65 | the leaf of a claim is the hash of 128 bytes in which its own fields are read back |
| Merkle.NodeOfDigests | clif/merkle.py:68-80 | two digests always combine, in either order to the same node, over 64 bytes that are theirs |
| Merkle.PairInOrder | clif/merkle.py:75-80 | the digest that is smaller at the first byte where the two differ is hashed first, whichever way they are written and passed |
| Merkle.SortedUniqueSorts | clif/merkle.py:137-138 | sorting without repeats keeps exactly the elements, strictly ascending |
| Merkle.BuildRewardMerkleRoot | clif/merkle.py:123-154 | the flat array filled from the back holds at its front the root of the recursive tree over the sorted leaves, whose hashed bytes are those of `LeafReads` and `PairInOrder`; a malformed claim raises |
| Merkle.RootExactly | clif/merkle.py:123-154 | there is a root exactly if every claim can be encoded |
| Merkle.EmptyRoot | clif/merkle.py:141-142 | no claims have 32 zero bytes for a root |
| HeapTree.Fill | clif/merkle.py:147-154 | the descending loop leaves at every index the value of the subtree under it |
| Merkle.VerifyProof | clif/merkle.py:162-174 | the loop over the siblings gives the verdict of the fold of `PairInOrder`'s nodes, or raises on a malformed hash |
| Merkle.AcceptedProofIsSound | clif/merkle.py:162-174 | from an accepted proof of a claim outside the list behind the root, two different strings with one hash are computed: one is the claim's encoding or the pair hashed at a step of the proof, the other the encoding of a listed claim or the pair under an inner place of the tree |
| Merkle.AcceptedClaimIsListed | clif/merkle.py:162-174 | so a claim with an accepted proof is in the list, unless Keccak-256 collides between these finitely many strings |
| Merkle.RootBindsClaims | clif/merkle.py:123-154 | from two nonempty claim lists that say different things and have one root, two different strings with one hash are computed, one hashed in building each tree |
| Merkle.SameRootSameClaims | clif/merkle.py:123-154 | so one root means the same claims, unless Keccak-256 collides between these finitely many strings |
| Merkle.EveryClaimHasProof | clif/merkle.py:135-154 | every claim of a list has a proof that is accepted and no longer than the logarithm of the number of leaves, rounded up |
| Merkle.RootIsCanonical | clif/merkle.py:135-154 | order and repetition of the claims do not matter to the root |
| Merkle.VerdictIgnoresCase | clif/merkle.py:162-174 | the verdict does not depend on the case of any hexadecimal digit |
| HeapTree.SiblingsReachRoot | clif/merkle.py:147-154 | folding the siblings of any place in the array gives the root |
| HeapTree.SiblingsShort | clif/merkle.py:147-154 | a place within d levels has at most d siblings |
| Discovery.RewardClaimFor | clif/discovery.py:44-80 | nothing is returned unless the file's root is the hash on chain; the first matching entry decides |
| Discovery.FirstMatchDecides | clif/discovery.py:56-80 | the first entry for the beneficiary and type decides: returned if its proof is accepted, nothing if it is rejected, whatever comes later, and an exception if it cannot be checked |
| Discovery.FoundIsProven | clif/discovery.py:56-80 | what is returned is the file's, is the beneficiary's, and its proof is accepted |
| Discovery.FoundClaimIsGenuine | clif/discovery.py:44-80 | what is returned is that beneficiary's claim in the list behind the hash on chain, or two different strings with one hash are computed, one hashed in checking its proof and one in building the tree |
| Discovery.FoundClaimIsListed | clif/discovery.py:44-80 | so what is returned is genuine, unless Keccak-256 collides between these finitely many strings |
| Merkle.SiblingPathIsProven | clif/merkle.py:162-174 | the siblings of the place of a claim's leaf are an accepted proof of it, in any case of the digits |
| Discovery.HonestEntryIsFound | clif/discovery.py:44-80 | if the first entry for the beneficiary and type is a claim of the list behind the hash on chain, with the sibling path of its leaf, it is what is returned |
| SigningProgress.Merge | clif/signing_progress.py:74-79 | merging is the fold over the log lines, a later flag replacing an earlier |
| SigningProgress.OrderOfArrival | clif/signing_progress.py:74-79 | the hashes on record stand in the order in which they first arrived |
| SigningProgress.MergeReflects | clif/signing_progress.py:74-79 | a tally that holds exactly the votes of some events holds exactly those and the merged ones afterwards |
| SigningProgress.ReflectsOnce | clif/signing_progress.py:74-79 | two tallies of the same events hold the same votes, whatever the order of merging |
| SigningProgress.ScanWindow | clif/signing_progress.py:82-113 | the result holds exactly the votes from the reported block to the head; on a healthy node it is complete if and only if 240 strides reach the window's start; it ends although refusals cost no budget |
| SigningProgress.NothingBelow | clif/signing_progress.py:109-111 | a scan that met a block before the epoch's end has missed no vote |
| SigningProgress.ScanForward | clif/signing_progress.py:116-138 | what is merged, even when it raises, is exactly the votes of a prefix of the range; on a healthy node the prefix is the range or 240 strides, whichever ends first |
| SigningProgress.ShrunkExactly | clif/signing_progress.py:101-105 | a refusal shrinks the slice exactly to the cap that it names, if that is smaller, and is passed on otherwise |
| SigningProgress.BudgetExactly | clif/signing_progress.py:30-35 | 240 slices of at most 5000 blocks are the budget |
| SigningProgress.HashWeight | clif/signing_progress.py:159-160 | the loop sums each signer's weight once |
| SigningProgress.Leader | clif/signing_progress.py:162-163 | the leading hash is the first of the heaviest |
| SigningProgress.Aggregate | clif/signing_progress.py:141-192 | the report states, of the events tallied, the heaviest hash, its weight, threshold, finality, signers and whether we are among them |
| SigningProgress.ThresholdIsLeast | clif/signing_progress.py:156-156 | the threshold is the least weight that reaches the total times the millionths |
| SigningProgress.FinalExactly | clif/signing_progress.py:176-176 | a report is final exactly if a vote for its hash was flagged so, or one unit of weight less would still reach that share |
| SigningProgress.LookupWeights | clif/signing_progress.py:195-202 | every signer seen has its true weight afterwards, it fails exactly when one not yet known is refused, and what was learnt before that stays |
| SigningProgress.ComputeSigningProgress | clif/signing_progress.py:205-235 | a complete result reports on every event up to the head; a healthy node always gets one exactly when the budget suffices |
| SigningProgress.ReportsAgree | clif/signing_progress.py:141-192 | two reports on the same events agree in weight, total and threshold, and in everything once they name one hash, which they do if no other hash is as heavy |
| SigningProgress.ReportIsFloor | clif/signing_progress.py:66-69 | a report on some of the events never exceeds the report on all |
| SigningProgress.OneQuorum | clif/signing_progress.py:141-192 | with a threshold of half or more, at most one hash is past it |
| SigningProgress.FinalityIsStable | clif/signing_progress.py:141-192 | once a hash is past the threshold, every later report names it, is final, and weighs no less |
| SigningProgress.Rebuild | clif/signing_progress.py:266-278 | a full scan gives an entry that holds exactly the votes it scanned |
| SigningProgress.Advance | clif/signing_progress.py:282-285 | an entry with nothing missing below its mark keeps that if the gap fits the budget; a healthy node adds exactly the events of the first 240 strides of the gap, while the mark moves to the head |
| SigningProgress.WideGapSkipsAVote | clif/signing_progress.py:238-291 | the converse of the fitting gap: for every mark, head and node cap whose gap is wider than 240 strides (7201 blocks at a cap of 30) there is a chain and a healthy node on which two refreshes leave an entry that counts as complete up to the head and holds no vote, with a complete report of weight 0, while a scan at the same head counts the vote |
| SigningProgress.OurVoteIsShownWhileItLeads | clif/signing_progress.py:162-185 | with one vote a signer, a report after one that showed our vote shows it exactly as long as it names the same hash |
| SigningProgress.OurVoteIsOvertaken | clif/signing_progress.py:162-185 | a vote of ours of weight 1, then one of weight 2 for another hash: the first report shows our vote, the second denies it |
| SigningProgress.Cache.Fetch | clif/signing_progress.py:262-285 | entries stay true through both branches and their failures; only stale entries of the network are dropped, and only by a full scan |
| SigningProgress.UsableExactly | clif/signing_progress.py:266-266 | an entry is built on exactly if it is there and its first scan reached the window's start |
| SigningProgress.StaleExactly | clif/signing_progress.py:280-281 | entries five or more epochs behind on the same network are dropped |
| SigningProgress.Cache.Refresh | clif/signing_progress.py:238-291 | while gaps fit, a complete refresh reports on exactly the events up to the highest head answered so far, which is what a full scan at this head would report unless a head has gone down; votes are never lost, also when a call raises midway |
| Fsp.BroadcastAndConfirm | clif/fsp.py:623-783 | each status arises in exactly the stated circumstances, in the contract's and the node's own words: finality only from the text of this message, in any case of its letters, and a stale nonce only from the node's wordings |
| Fsp.TextsExactly | clif/fsp.py:51-88 | each of the three guard texts and the nonce wordings are recognised exactly where they occur, in any case of the letters |
| Fsp.MessagesAreDistinct | clif/fsp.py:51-54 | neither message's finality text contains the other's |
| Fsp.GuardTextsAreDistinct | clif/fsp.py:42-87 | the contract's "voter already signed" is never taken for finality, nor a finality text for it |
| Fsp.Guards | clif/fsp.py:390-465 | a run gets past the guards exactly when configured, with a file of that epoch whose claims, if any, rehash to its root, and not already final |
| Fsp.RunSignRewards | clif/fsp.py:390-620 | a signature is asked for exactly when the guards pass, over that file and token, and a transaction only after it; it raises, and ends in each status, exactly in the stated circumstances, "voter already signed" and a pending receipt being no failures |
| AutoStates.AutoState.Observe | clif/autostate.py:55-71 | afterwards the stream knows exactly the active epochs, old ones with their first time, and those that left lose their cooldown |
| AutoStates.AutoState.RecordTerminal | clif/autostate.py:81-85 | the epoch is in its cooldown at exactly the times before now plus the cooldown; no other epoch or stream, and no first time, changes |
| AutoStates.AutoState.Evaluate | clif/autostate.py:87-117 | degraded exactly while some epoch was overdue or cooling down when it was called; no later cooldown answer and no first time changes, and nothing expired is kept |
| AutoStates.OverdueExactly | clif/autostate.py:104-116 | an epoch is overdue exactly if it has been active for longer than allowed or its cooldown ends in the future |
| AutoStates.PruningKeepsCooldowns | clif/autostate.py:98-102 | dropping expired cooldowns changes no later answer |
| AutoStates.ForgottenExactly | clif/autostate.py:55-71 | a running cooldown is forgotten exactly when its epoch was active before and is not any more |
| EpochTraces.DecimalInjective | clif/epoch_auto.py:73-75 | two counts with one decimal form are equal |
| EpochTraces.TokensDiffer | clif/epoch_auto.py:63-75 | no two retry counts share a token, whatever the base |
| EpochTraces.TokenExactly | clif/epoch_auto.py:63-75 | the configured token at first, then the count behind an r, and behind the token and a dash if there is one |
| EpochTraces.DecimalReads | clif/epoch_auto.py:75-75 | the count is written in decimal digits that read back as it |
| EpochTraces.ClaimedAfterFinality | clif/epoch_auto.py:165-252 | in every run, a claim of an epoch comes after a nonzero rewardsHash read of it or the contract's finality refusal |
| EpochTraces.UnsignedExactly | clif/epoch_auto.py:165-178 | an epoch counts as open and unsigned exactly when both reads say so, or one reverts with "not signed yet" and the log does not show our vote |
| EpochTraces.SightExactly | clif/epoch_auto.py:165-178 | an epoch counts as final exactly if rewardsHash is nonzero and the sign info is answered, as signed by us exactly if the sign info or, on a revert, the log says so, and the look raises exactly on any other refusal |
| EpochTraces.NotSignedYetExactly | clif/epoch_auto.py:169-169 | the refusal that counts is any that says "not signed yet", in any case of the letters |
| EpochTraces.SignatureFollowsItsLook | clif/epoch_auto.py:165-192 | in every run, a rewards signature is asked for only in a drive whose own latest look found the epoch open and unsigned by us |
| EpochTraces.SignatureAfterOurVote | clif/epoch_auto.py:165-192 | in every run, between a look that showed our vote and a later request for the epoch lies a look that did not, in the same drive as the request |
| EpochAuto.DrivenExactly | clif/epoch_auto.py:287-338 | an epoch is driven in a cycle exactly if it is in the window, not cooling down, and no drive before it stops; the cycle raises exactly if some drive of the window stops |
| EpochAuto.OnlyStopsBlock | clif/epoch_auto.py:287-290 | no wait, failure, escalation or cooldown of an epoch keeps a later one from being driven, only a drive that stops |
| EpochAuto.AskedExactly | clif/epoch_auto.py:149-198 | in every cycle, whatever happened before, a signature is asked for an epoch exactly when it is so driven, old enough and published, its own answers say open and unsigned, and the guards pass |
| EpochAuto.BeginsExactly | clif/epoch_auto.py:165-234 | in the answers alone: claiming begins exactly if rewardsHash is nonzero and the sign info answered, or a signature was due and the signing run showed finality |
| EpochAuto.WaitsExactly | clif/epoch_auto.py:235-241 | a drive reports that it waits for finality exactly if the epoch is not final and our vote was seen, on the contract or on a revert in the log |
| EpochAuto.StopsExactly | clif/epoch_auto.py:149-262 | a drive stops exactly on a refused uptime leg, a read refused for another reason, a signing run that raises, or a claim that does |
| EpochAuto.ClaimedExactly | clif/epoch_auto.py:287-338 | in every cycle, an epoch is claimed for exactly if it is driven, there is a first claim that does not raise, and claiming begins |
| EpochAuto.EntersCooldownExactly | clif/epoch_auto.py:312-334 | an epoch outside a cooldown is in one after a cycle exactly if it was driven and ended in a terminal signing run, the third retryable one, or a terminal claim |
| EpochAuto.RunningCooldownExactly | clif/epoch_auto.py:311-341 | a running cooldown goes on in the window and for an epoch that was not active; outside the window that of an active one is lost |
| EpochRuns.SignAgain | clif/epoch_auto.py:265-347 | a daemon whose first cycle sees our vote on an epoch and whose second gets answers as above signs it again, for all such answers |
| EpochRuns.LogDecides | clif/cli.py:1977-1992 | while the view reverts for want of signatures the log answer decides alone, and no log node or a refused read is a no |
| EpochRuns.OvertakenVoteIsDenied | clif/cli.py:1977-1992 | on a log that holds our vote throughout, the answer turns from yes to no once another hash weighs more |
| EpochRuns.StopBlocksLater | clif/epoch_auto.py:163-178 | over any number of cycles in which epoch 5's read is refused, each drives epoch 5 and no other: epoch 6 is neither driven nor asked for, however ready it is |
| EpochRuns.DrivenInCooldown | clif/epoch_auto.py:289-341 | a daemon that escalates epoch 5, then reads a current epoch of 5 or less, then 6, drives epoch 5 within its cooldown |
| EpochTraces.SignaturesAreBound | clif/fsp.py:405-438 | in every run, a signature is asked for over a file of its epoch whose claims, if any, rehash to its root |
| EpochTraces.TokensAreFresh | clif/epoch_auto.py:217-219 | in every run, the first request after a retryable failure uses a token never used for the epoch |
| EpochTraces.ThirdFailureIsEscalated | clif/epoch_auto.py:217-228 | in every run, from the third retryable failure of an epoch on, each one is followed at once by its escalation |
| EpochTraces.EscalatedIsLeftAlone | clif/epoch_auto.py:312-334 | in every run, an escalated epoch is not driven again before its cooldown has passed, unless the cooldown was dropped |
| EpochTraces.ForwardEscalation | clif/epoch_auto.py:289-334 | on a counter and a clock that do not run backwards it is never driven within its cooldown: what is dropped has expired or lies below every window to come |
| EpochAuto.ClaimAll | clif/epoch_auto.py:243-262 | one claim per pair of claim type and beneficiary, in order until one raises; done exactly when each came back with nothing left to do, terminal exactly when one did |
| EpochAuto.Daemon.Attempt | clif/epoch_auto.py:192-219 | the attempt runs under the token of the current count, and exactly a retryable failure raises the count |
| EpochAuto.Daemon.SignPhase | clif/epoch_auto.py:180-234 | a signature is due exactly when the epoch is old enough and published; it goes on to claims exactly on finality |
| EpochAuto.Daemon.Open | clif/epoch_auto.py:149-178 | finality and our vote come from the two reads, or from the event log when either reverts for want of signatures; nothing is assumed of the answers |
| EpochAuto.Daemon.DriveEpoch | clif/epoch_auto.py:119-262 | a drive raises exactly when one of four things stops it, and otherwise reports done, terminal, phase and waiting time exactly as its answers and earlier failures call for; the trace stays safe |
| EpochAuto.Daemon.DriveAndRecord | clif/epoch_auto.py:318-334 | exactly a terminal outcome is escalated and starts a cooldown; other epochs are untouched |
| EpochAuto.Daemon.DriveWindow | clif/epoch_auto.py:308-338 | the epochs that are not cooling down are driven once and in order to the end of the window, or to the first whose drive stops; any other stuck one stops the watermark only |
| EpochAuto.Daemon.RunCycle | clif/epoch_auto.py:265-347 | as above for a whole cycle, on any answers, with exactly what is observed, escalated and remembered; a cycle that raises keeps the watermark and what was counted and escalated |
| EpochAuto.Daemon.Report | clif/epoch_auto.py:350-362 | degraded exactly while some epoch was overdue or cooling down; reporting between cycles keeps all of the above and changes no later cooldown answer |
| EpochAuto.WatermarkIsContiguous | clif/epoch_auto.py:289-338 | the watermark never falls; what it passes over was claimed for in that cycle, for every pair of claim type and beneficiary, or is more than eight behind; it stops at the first epoch that was not done |
| EpochAuto.WindowExactly | clif/epoch_auto.py:293-299 | the window begins behind the watermark, but at most eight epochs back, and on a fresh start with the epoch that just closed |
| EpochAuto.DueIsExact | clif/epoch_auto.py:311-317 | what is due is every epoch of the window outside a cooldown |
| EpochAuto.DueAscends | clif/epoch_auto.py:311-317 | and each of them once, oldest first |
| EpochAuto.SleepNeverOvershoots | clif/epoch_auto.py:397-431 | the sleep is at least a minute, at most an hour or a poll, and ends before every active epoch's moment unless that is within the minute |
| EpochAuto.SleepExactly | clif/epoch_auto.py:397-431 | the sleep lasts to the least moment of the active epochs, or without any to the opening of the current one's window or the next poll, clamped to a minute and to the longer of an hour and a poll |
| ObserverStates.PushedIsLast | clif/observe/state.py:91-101 | a bounded deque holds the last elements of everything ever appended |
| ObserverStates.CapsExactly | clif/observe/state.py:101-105 | 3600 tallies and 4000 fast updates are kept, and one more drops the oldest |
| ObserverStates.Judge | clif/observe/state.py:243-273 | offence, FDC gap and issues of a round, each exactly when its check fails |
| ObserverStates.MismatchExactly | clif/observe/state.py:261-267 | a mismatch is exactly a commit, seen and read, other than the hash of what was revealed, with 0 and nothing for what could not be read |
| ObserverStates.CleanExactly | clif/observe/state.py:155-273 | a round with one commit and then one reveal of ours is judged clean exactly if each came in its own window and the commit, if read, is the hash of what was revealed |
| ObserverStates.VerdictIsJudged | clif/observe/state.py:63-71 | a judged round is clean exactly without an FTSO issue, has a gap exactly with the FDC issue, and an offence exactly with one of the two offence issues |
| ObserverStates.OpeningIsBounded | clif/observe/state.py:136-153 | looking a round up keeps at most 512; a far or known one changes nothing; only the stalest is ever lost, and only for room |
| ObserverStates.OpeningExactly | clif/observe/state.py:136-153 | afterwards a round is known exactly if it was, or is at most four ahead and there is room or an older round to evict; a new one is blank |
| ObserverStates.RecordedMeans | clif/observe/state.py:136-183 | only the transaction's own round and the FDC round that rides along with our reveal or signature change; on time is exactly inside the window; a foreign sender marks nothing; nothing far ahead is opened, and only the stalest rounds are lost, for room |
| ObserverStates.ObserverState.Record | clif/observe/state.py:155-183 | the rounds in flight afterwards are what that says |
| ObserverStates.ObserverState.RememberTally | clif/observe/state.py:112-120 | the set of ids is always exactly that of the bounded history, evictions included; new exactly when not held |
| ObserverStates.ObserverState.Finalize | clif/observe/state.py:243-286 | the round leaves with its verdict, scores and tally; the window is the last of all rounds emitted |
| ObserverStates.ObserverState.FinalizeDue | clif/observe/state.py:288-300 | every due round is taken out, the countable ones judged in order, the others untouched |
| ObserverStates.DueIsExact | clif/observe/state.py:288-300 | the rounds emitted are the due ones that began while watching |
| ObserverStates.ClockExactly | clif/observe/state.py:294-294 | a round is due exactly if the moment before now lies behind its successor |
| ObserverStates.DueAscends | clif/observe/state.py:292-299 | in increasing order of id |
| ObserverStates.NothingDueIsLeft | clif/observe/state.py:292-295 | no due round stays in flight, and every other one does |
| ObserverStates.Aggregate | clif/observe/state.py:332-378 | counts over the window, and the longest clean stretch at its newest end |
| ObserverStates.CountedExactly | clif/observe/state.py:363-371 | each count is of the rounds whose verdict has the matching issue |
| ObserverStates.TallyExactly | clif/observe/state.py:276-283 | a tally counts the feeds inside, on the boundary, within the outer band and capped, each by itself |
| ObserverStates.FdcAddsUp | clif/observe/state.py:369-371 | rounds with requests are those taken part in and those missed |
| ObserverStates.CleanOrFaulty | clif/observe/state.py:363-363 | every judged round is complete or has an FTSO issue |
| Mincond.LoadHistory | clif/observe/mincond.py:66-86 | loading is the replay of the lines; an unreadable file counts as empty |
| Mincond.LastLineWins | clif/observe/mincond.py:66-86 | a round is loaded exactly when a line of a kept epoch records it, from the last such line |
| Mincond.EpochExactly | clif/observe/mincond.py:48-84 | an epoch is 3360 rounds in a row; loading keeps those of the epoch, of the one before and of later ones |
| Mincond.TighterExactly | clif/observe/mincond.py:76-84 | a retention is tighter exactly if it keeps no more, and the stricter of two keeps what both do |
| Mincond.PruneThenLoad | clif/observe/mincond.py:99-109 | pruning for an epoch changes nothing that is loaded for it or a later one |
| Mincond.RestartAgrees | clif/observe/engine.py:463-467 | a restart loads exactly what the running ledger held |
| Mincond.Ledger.constructor | clif/observe/engine.py:465-467 | a start replays the log |
| Mincond.Ledger.Record | clif/observe/engine.py:602-630 | a round is recorded once, a backfilled one without its offence flag; the tracked epoch only moves forward; memory and log stay in step |
| Mincond.Ledger.Prune | clif/observe/engine.py:435-439 | memory keeps exactly the rounds of the epoch read last and the one before, whichever way it moved, and nothing is lost that a load for it or a later one would yield; memory and log stay in step |
| Mincond.EpochTally | clif/observe/mincond.py:112-171 | each total is the sum over the epoch's rounds, each counted once; the span runs from the least to the greatest; an offence costs thirty rounds, up to the whole epoch |
| Mincond.EpochGapRanges | clif/observe/mincond.py:187-199 | the first few of all gaps, with the full count |
| Mincond.GapsPartition | clif/observe/mincond.py:187-199 | between first and last, a round is recorded or in a gap, never both |
| Mincond.GapBounds | clif/observe/mincond.py:196-198 | a gap is not empty and is bordered by recorded rounds on both sides |
| Mincond.GapsAscend | clif/observe/mincond.py:194-198 | gaps come in order and no two touch |
| Mincond.MissingIsInGaps | clif/observe/mincond.py:142-146 | the rounds missing from the span are as many as the gaps are long, and lie in them |
| Mincond.CellsOfJudgedRound | clif/observe/mincond.py:52-147 | what each column counts of a judged round, exactly: an offence is a reveal found missing after its commit, a reveal was seen unless it is found missing, participation is what was requested and not missed, clean means no FTSO issue, and fast updates are as many as were seen |
| Engines.ResumeLeavesNoHole | clif/observe/engine.py:59-74 | the resume cursor reaches the first block not processed exactly when the cap, if any, does |
| Engines.ResumeExactly | clif/observe/engine.py:59-74 | a start scans exactly from the lookback behind the head or behind the block on record, whichever is earlier, and nothing that the cap excludes |
| Engines.RestartLeavesNoHole | clif/observe/engine.py:59-74 | after any run of the loop, a restart leaves no block out exactly when the cap, if any, reaches back to the first block that the run has not processed |
| Engines.UnprocessedStartIsSkipped | clif/observe/engine.py:442-442 | for every first block that cannot be read, that run leaves it on record, and a restart whose cap reaches to the next one begins there |
| Engines.UnflushedAreRescanned | clif/observe/engine.py:59-74 | with a lookback of 28 or more, blocks whose events were not flushed are scanned again |
| Engines.NotDueYet | clif/observe/state.py:294-294 | the round of a time is not due before a round's length and a second have passed |
| Engines.LateCredit | clif/observe/engine.py:533-644 | for every timing and step of which 28 take more than a round and a second, a run of the loop on evenly spaced blocks counts an event for a round it has already finalized |
| Engines.ExpireEpochOverlays | clif/observe/engine.py:85-104 | the tracked epoch never goes back, no answer about the old one survives, and everything is probed again |
| Engines.TilesCover | clif/observe/engine.py:574-577 | flushed ranges of at most 30 blocks follow one another and cover every flushed block exactly once |
| Engines.Engine.CreditOne | clif/observe/engine.py:361-380 | an event goes to the round of its block, which at a sufficient pace was not finalized before |
| Engines.Engine.Flush | clif/observe/engine.py:361-380 | every event of a known block is counted once for its round, FDC requests and then fast updates, and nothing else changes a round; a refused read is given up, and the next range begins behind this one |
| Engines.EventsExactly | clif/observe/engine.py:361-380 | the events of each kind come from that kind's own read, and there are none when it was refused |
| Engines.Engine.RecordRounds | clif/observe/engine.py:580-630 | every finalized round is in the ledger, a new one as it was judged, its line lost exactly if it could not be written, what was there stays, and in a backfill no new record carries an offence |
| Engines.Engine.ProcessBlock | clif/observe/engine.py:533-644 | our transactions are recorded, a full chunk of events is counted on top of them, and only then do exactly the due rounds leave, judged; the map holds exactly the unflushed blocks |
| Engines.Engine.FlushRest | clif/observe/engine.py:665-670 | nothing is left unflushed, and what was is counted |
| Engines.Engine.CatchUp | clif/observe/engine.py:533-670 | every block up to the safe head or the first that cannot be read is processed once, in order and as its turn went; a full chunk's events are those read in the turn of its last block, and the rest are read at the end; at a sufficient pace no event was ever counted for a finalized round |
| Engines.Engine.Poll | clif/observe/engine.py:490-674 | the blocks up to the safe head are caught up with as above; a backfill begins exactly when a recovery finds the loop more than the live lag behind, ends when it has come that close to the head, and adds no record with an offence |
| Cb58.Bytes20ToCb58 | clif/rpc.py:40-53 | the digits of the payload behind one '1' per zero byte |
| Cb58.SymbolExactly | clif/rpc.py:37-37 | the symbols are the digits and letters in the order of their codes, without 0, I, O and l |
| Cb58.PrintedIsRead | clif/rpc.py:40-53 | dropping leading '1's, reading base 58 and padding to 24 bytes gives the payload back, for any four-byte checksum |
| Cb58.PrintingIsInjective | clif/rpc.py:40-53 | no two ids print alike |
| Cb58.UsualFormWhenZerosLead | clif/rpc.py:51-51 | it is the usual leading-zero form exactly when all zero bytes lead |
| Fundings.ValidatePlan | clif/funding.py:373-422 | each line is accepted exactly when it respects every bound against the total accepted before it; a rejection names the first bound that it breaks |
| Fundings.AcceptedExactly | clif/funding.py:400-421 | an accepted line asks for what it takes to the target, or for the amount, to six decimals, and respects every bound but for 1e-9 |
| Fundings.SixDecimals | clif/funding.py:405-407 | rounding takes the nearest six decimals, and of two equally near the one that ends even |
| Fundings.RegisteredExactly | clif/funding.py:387-392 | the account of a name is the last registered under it in any case of the letters |
| Fundings.PlanIsAffordable | clif/funding.py:373-422 | the accepted amounts total at most the funder's balance and each respects the cap, but for 1e-9; exactly so unless a whole millionth lies within that above them |
| Fundings.OverspendsExactly | clif/funding.py:417-417 | no plan is accepted for more than the funder has if and only if the next whole millionth above that is more than 1e-9 away |
| Fundings.CapHoldsExactly | clif/funding.py:411-411 | no accepted line exceeds the cap under the same condition on the cap |
| Fundings.TenFromLessThanTen | clif/funding.py:417-417 | a funder with 9.9999999995 is taken to afford 10 |
| Fundings.LineValueFits | clif/funding.py:454-455 | what a line sends is its amount, or what the band still has room for |
| Fundings.RoomIsFilled | clif/funding.py:454-455 | an amount of at least the room sends exactly the room, to the wei |
| Fundings.Treasury.ExecuteTopUp | clif/funding.py:247-315 | a refused transfer moves nothing, one whose reply or receipt is missed stays under way, one is funded exactly if mined with a risen balance, and read errors after the broadcast are raised |
| Fundings.SendingExactly | clif/funding.py:247-315 | only what is refused is not broadcast, only what reverts is broadcast and does not count, and only unread receipts and closing balances raise |
| Fundings.LandExactly | clif/funding.py:296-304 | a transfer that lands credits its own address with its value and no other leaves those under way |
| Fundings.Treasury.ApplyLine | clif/funding.py:447-465 | the chain afterwards, what was broadcast and the report are those of the line's turn against the balance as it is now |
| Fundings.Treasury.ApplyPlan | clif/funding.py:425-466 | the accepted lines take their turns in order until one raises; else the top-ups reported are those of the turns that were attempted, in order, the others were skipped, and what is reported as funded was sent and counts |
| Fundings.ReportedMeans | clif/funding.py:447-465 | a turn ends the pass exactly if it threw, is skipped exactly if there is nothing to send, and is funded only if its transfer counts |
| Fundings.AcceptedJoins | clif/funding.py:438-438 | the accepted lines are kept in order, each as often as it stands, and no other |
| Fundings.PassConserves | clif/funding.py:247-315 | in every pass, balances and transfers under way grow by exactly what was effectively sent |
| Fundings.PassStops | clif/funding.py:247-315 | an exception after the broadcast ends the pass where it is |
| Fundings.WorstCase | clif/funding.py:425-466 | under all outcomes of all steps and whatever lands later, an account stays within a limit if and only if its balance, what is under way to it and what each of its orders comes to alone fit it |
| Fundings.PlanKeepsBandExactly | clif/funding.py:454-455 | executing a plan keeps an account in its band, or where it was, under all outcomes if and only if what is under way and its accepted lines fit its room together |
| Fundings.OneLineKeepsBand | clif/funding.py:454-455 | one accepted line for the account and nothing under way are enough |
| Fundings.TwoLinesOverfill | clif/funding.py:425-466 | two accepted lines of 150 for an account with 250 and a bound of 400 can end at 550, and not above |
| Fundings.PassSpends | clif/funding.py:425-466 | all that a plan broadcasts, whatever becomes of it, is at most what its lines allow |
| Fundings.PlanNeverOverspends | clif/funding.py:373-466 | all that a validated plan broadcasts is at most what the funder had, but for 1e-9, and exactly so under the condition above |
| Fundings.Treasury.RunFunding | clif/funding.py:318-353 | every account takes its turn in order until one raises; else each is reported as its turn went |
| Fundings.SmoothPass | clif/funding.py:318-353 | when everything goes well, every account below its lower bound is exactly at its upper bound and nothing else moves |
| Fundings.AutoKeepsBandExactly | clif/funding.py:318-353 | an auto pass keeps an account in its band under all outcomes if and only if nothing is under way to an account that it fills up |
| DotEnv.LinesRoundTrip | clif/credentials.py:270-279 | unbroken lines that are joined and split again come back |
| DotEnv.SplitExactly | clif/credentials.py:270-270 | a text is cut at every break, a carriage return and a line feed behind it being one |
| DotEnv.CharactersExactly | clif/credentials.py:250-270 | the ten characters that break a line, and the twenty-nine that are stripped |
| DotEnv.StripExactly | clif/credentials.py:251-256 | stripping takes the blanks from both ends and nothing else |
| DotEnv.AssignedExactly | clif/credentials.py:250-257 | a name among blanks in front of the first "=" is assigned, and behind "export" just as well |
| DotEnv.NothingAssignedExactly | clif/credentials.py:252-253 | a line assigns nothing exactly if it has no "=" or is a comment |
| DotEnv.NewLineAssigns | clif/credentials.py:250-267 | the canonical line assigns its name, whatever the value, and the value is all that stands behind the first "=" |
| DotEnv.UpsertEnvVar | clif/credentials.py:260-279 | the loop collapses the assignments into one |
| DotEnv.CollapseExactly | clif/credentials.py:267-279 | the new line stands where the first assignment stood, or at the end |
| DotEnv.UpsertIsCanonical | clif/credentials.py:260-279 | exactly one assignment of the name, every other line in order, and a second time changes nothing |
| DotEnv.OtherNamesUntouched | clif/credentials.py:260-279 | other names keep their assignments, in order |
| DotEnv.CleanExactly | clif/credentials.py:103-109 | a value is clean exactly if it has no blank end and no control character |
| DotEnv.WrittenLinesRead | clif/credentials.py:103-109 | a clean value is read back as one line exactly when it has none of the three breaks that the check lets through |
| DotEnv.CleanButBroken | clif/credentials.py:103-109 | such a value exists |
| DotEnv.ImportFold | clif/credentials.py:296-330 | tokens and wallets, then configuration, then NETWORK |
| DotEnv.FoldIsRead | clif/credentials.py:296-332 | after the fold a name reads as the last value written for it, any other name as before |
| DotEnv.TokenIsRead | clif/credentials.py:298-303 | a token that no later entry overwrites is read as the bundle gave it |
| DotEnv.NetworkIsPinned | clif/credentials.py:326-330 | NETWORK is read as the bundle's network |
| Alerts.StoredLevel | clif/alert.py:61-73 | the stored level is that of the most recent readings that agreed often enough in a row, OK if none did |
| Alerts.LevelIsUnique | clif/alert.py:61-73 | that prescribes one level |
| Alerts.MessagesFollowTheTrace | clif/alert.py:71-79 | a message is sent exactly when the level changes, or stays bad and the last message is old enough; alert exactly when it rises, update exactly when it falls from critical to warning, resolved exactly when it falls to OK, reminder exactly when it stays |
| BlockSearch.BlockTsRetry | clif/observe/reward_rule.py:113-123 | the first of four attempts that answers, else the fourth error |
| BlockSearch.FourAttempts | clif/observe/reward_rule.py:113-123 | a block is served exactly if one of four attempts answers, and gone exactly if none does and the last says it was not found |
| BlockSearch.FindBlockForTs | clif/observe/reward_rule.py:126-150 | the least served block at or after the time, or the head if none below it qualifies; no block is probed twice; it raises only on another kind of failure |
| BlockSearch.FewProbes | clif/observe/reward_rule.py:137-149 | at most the binary logarithm of the head, rounded down, plus one probes |

## Left out

- Floating point: percentages and display rounding of signing progress, tallies and funding; amounts are exact reals or wei, thresholds exact integers, times integers.
- The fwd client library is not part of this model: a request is signed, denied, transiently failed, or raises something that nobody catches.
- `eth_abi` is not part of this model: a static tuple is its 32-byte words, a shorter bytes32 is padded on the right, and an out-of-range value raises.
- Lower-casing and hexadecimal parsing are modelled on ASCII; other characters are left as they are.
- SigningProgress.Aggregate: does not state the order of the signer list, since it is for display; signers are a set.
- SigningProgress.Cache.Refresh: claims agreement with a full scan only while forward gaps fit the request budget, since SigningProgress.WideGapSkipsAVote shows that it fails for every gap that does not.
- Fsp.RunSignRewards: models the call made by the daemon, with an RPC client and waiting for the receipt; uptime signing and the two calls without them differ only in what they skip.
- EpochAuto.Daemon.DriveEpoch: takes the uptime leg and each claim as an answer that may raise, since what they do elsewhere does not feed back into the phases.
- EpochAuto.Daemon.RunCycle: leaves out the timestamps and texts kept for the status file.
- ObserverStates.ObserverState.Finalize: takes the scores of a round as a function of it; collecting all voters' values, medians and band classes are not modelled, and no claim is made that a round is finalized only once, since a late transaction opens it again.
- ObserverStates.Aggregate: leaves out the sums of band scores and the list of recent issues.
- Mincond.LoadHistory: starts from parsed lines; JSON is not modelled, nor a write that fails halfway.
- Engines.Engine.CatchUp: leaves out quorum checks, logging, status writing and the outage ledger; a block is the list of our decoded transactions.
- Fundings.Treasury.ApplyPlan: leaves out what accounts spend or receive otherwise meanwhile, gas, and fwd's replies under a repeated idempotency key.
- DotEnv.ImportFold: starts from the validated pairs; the validation of the bundle and file modes are left out.
- `claimable_epoch_ids`, `collect_reward_claims`, `scan_offer_event`, the reading of typed views and reward files, fee suggestion and revert decoding: answers of the outside here.
- The command line, sleep loops, locks, webhooks and rendered reports: plumbing.
