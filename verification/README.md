# mwixnet-litvm: verification model

This project models the CoinSwap mix round of `coinswapd` and the components around it, and proves what
they promise. `dafny verify dfyconfig.toml` checks everything.

## What is modelled

**The mix round** (`SwapSpec`, `SwapMachine`, `Round`, `RoundTheorems`, `Progress`, `Overflow`, `BatchTheorems`).
Node 0 loads the queued onions; each node peels one layer, drops what fails or collides and passes a
sorted batch on; from the last node back each node checks a commitment equation and a stealth-key
equation against the onions that it still holds and appends one output and one kernel; node 0 builds one
transaction. `SwapMachine.SwapService` is the service as it runs: a map changed while it is iterated,
sums accumulated while a stream is read, panics on missing values. Its methods satisfy the relations of
`SwapSpec`; `Round` runs these relations as a state machine over any number of nodes, any batch, any
drops and any fees, with peers that may be out of reach; the theorems are about whole runs. Iteration orders of Go maps are arbitrary everywhere, and any
database transaction of the service may fail.

**Points** (`Curve`, `Sums`, `Mweb`). Commitments and public keys live in an arbitrary group in which
every point is `g*G + v*H`. Only its laws are known; integers modulo N show that the laws are consistent.
Library facts that are taken for granted: `CreateOutput` commits to `BlindSwitch(blind, v)*G + v*H` under
the public sender key, `CreateKernel` has the excess `blind*G` and the stealth excess of its stealth
blind, `CreateInput` carries the coin's commitment and public keys, points and (where a theorem asks for
it) outputs read back from their serialisation, X25519 is symmetric. Range proofs, signatures, ChaCha20
and Keccak are uninterpreted functions.

**The onion** (`OnionCodec`, `OnionMachine`, `OnionBytes`, `Builder`). `New` runs stateful keystreams over growing
suffixes of the payloads in place, `Peel` takes one layer off with a reader and a fresh cipher (keystream
as in section 2.4 of RFC 8439, key agreement as in section 6.1 of RFC 7748). The builder draws secrets
until they are usable and closes the last hop. `OnionBytes` says where every byte of an onion lies and which
keystream bytes cover it.

**Money** (`Balance`, `FeeShares`, `Ledger`, `Denomination`). The balance of what is sent, the rounding
of fee shares, the exact integer ledger of a finished round, one denomination per transaction.

**End to end** (`Payments`, `EndToEnd`, `BuiltBatch`). From the taker's onions to the transaction: whom a
finished round pays, which batches are spent whole, and that batches of built onions are, to the addresses
that their requests name.

**The queue** (`Queue`, `SwapMachine.OnionDb`). Two buckets, atomic database operations, calls under a
lock, and the developers' clearing loop, which runs outside the lock. What each call of the service does
to the buckets is shown to be a run of that machine.

**Evidence** (`Evidence`, `Receipts`, `Vault`, `Bridge`). The packings that are hashed, the event log, the vault
table with its two uniqueness constraints, the incremental file tailer, the text forms that receipts take on
the way, and the way from a line in the file to an answer in court.

**Routes** (`Scout`, `Pathfind`, `MlnRoute`, `MixnetDir`, `SwapTranslator`). Which makers are listed,
which three are chosen, and which requests and directories are accepted; all fee arithmetic is 64-bit.

`Text`, `Bytes` and `Wrappers` hold what all of them need.

## Properties that fail

Four promises do not hold of the code without a condition. Each is stated with the exact condition under
which it does, and with an input that breaks it.

- Recorded amounts belong to stored onions at every step of every interleaving if and only if the
  developers' clearing loop is off (`Queue.ConsistentIffLocked`); the loop runs after the lock has been
  released and can delete an onion between its storing and the recording of its amount
  (`Queue.OrphaningRuns`). With the loop on, a run is consistent exactly if it has no step that records
  the amount of an onion that is gone or deletes an onion whose amount is recorded
  (`Queue.RunConsistentExactly`).
- Node 0 may send a transaction that is not balanced in value if its own hop fees add up to more than 64
  bits hold: the value equation holds if and only if the lost multiple of H is the identity
  (`RoundTheorems.FinishedTransaction` in runs, `RoundTheorems.AcceptedIsBalanced` for any message of the
  peer, `RoundTheorems.AloneIsBalanced` for a node that is alone). Some message of the peer gets every
  such sum through if only what is left of it covers the share (`Overflow.OverflowGetsThrough`), and two
  onions as `New` makes them whose first hops charge 2^64 and one share are an input that fails
  (`Overflow.UnbalancedIsSent`). At any other node the previous node's check finds it, exactly
  (`Round.LossStopsRound`, `RoundTheorems.OverflowIsCaught`).
- The rollback of a route submission whose amount cannot be recorded restores the queue if and only if
  the coin was not queued before (`SwapMachine.RejectedRestores`, `SwapMachine.RollbackIsExact`); a coin
  that was queued is lost (`SwapMachine.RollbackLoses`).
- Fee sums of routes wrap in 64 bits. The search finds a route, and each route that it may choose truly
  costs least, has the most stake among those and is reported at its true cost, if and only if the least
  true cost is below 2^63 and no sum that wraps comes out below it, or at it with as much stake
  (`Pathfind.ChoosesTrulyExactly`). `Pathfind.WrapMisleads` is an input that fails: the only three makers
  that can be chosen are reported at 1, cost 2^64 + 1 and are not the cheapest.

The evidence hash does not see the sign of an epoch. Every receipt that reaches the vault has passed the
parser, which refuses negative epochs, and such a vault answers every event (`Vault.VaultAnswers`). For a
history that the parser did not see, `Vault.AnsweredExactly` says which events are answered, and
`Vault.NegatedEpochShadows` shows why the parser's test is needed.

## Model

| member | source | states |
|---|---|---|
| Round.RoundCompletes | research/coinswapd/swap.go:94-470 | For any number of nodes, any batch, any drops and any fees, every run has at most 2n - 1 node steps and no node panics; it aborts only where a peer is out of reach, where the survivors' 64-bit fee sum is less than the node's share, or where the next node's sum lost a multiple of H that is not the identity. |
| Round.StepKeeps | research/coinswapd/swap.go:380-470 | Every remote call that is served keeps the invariant of the round: chain of peeled batches, agreement of the survivors, stealth balance, value balance exactly if the node's fee sum lost nothing that counts, counts, equal fees. |
| Round.RunKeeps | research/coinswapd/swap.go:150-470 | The invariant holds in every state of every run, which is reached after as many node steps. |
| Round.BackwardStepKeeps | research/coinswapd/swap.go:447-469 | On an honest message a backward call finds the stealth keys right, and the commitments wrong if and only if the next node's fee sum lost a multiple of H that is not the identity; else it finishes, hands on, runs out of fees or does not reach its peer. |
| Round.LossStopsRound | research/coinswapd/swap.go:462-464 | Along any run, a node finds its commitment check failing if and only if the fee sum of the node after it lost a multiple of H that is not the identity. |
| Round.ForwardStepKeeps | research/coinswapd/swap.go:261-292 | A forward call passes the batch on exactly if there is a later node and it is reached; at the last node it turns the round round. |
| Round.KeptLinks | research/coinswapd/swap.go:447-459 | What a node keeps when the next node has reported its commitments is in one-to-one agreement with what the next node holds. |
| Round.ReadForwardBack | research/coinswapd/swap.go:160-171 | The forward message is read back as the batch that was sent. |
| Round.ReadBackwardBack | research/coinswapd/swap.go:346-355 | The backward message is read back exactly, to its last item. |
| Progress.StepExists | research/coinswapd/swap.go:261-470 | While a call is pending the round can take a step, whatever was dropped, and one that misses no peer. |
| Progress.RunEnds | research/coinswapd/swap.go:38-470 | Every run that has not ended is the beginning of one that ends, and not for want of a peer. |
| Progress.BatchEnds | research/coinswapd/swap.go:38-470 | From any loaded batch, whatever its fees, there is a run that ends, and not for want of a peer. |
| EndToEnd.CleanBatchIsSpent | research/coinswapd/swap.go:94-499 | For any number of nodes: of a batch that passes everywhere without collisions nothing is ever dropped. Every run that missed no peer is the beginning of one that ends; that finishes if and only if every node's 64-bit fee sum covers the share and, after node 0, loses nothing that counts; then all onions are spent, and the transaction is balanced exactly if node 0's sum lost nothing that counts. |
| BuiltBatch.BuiltBatchIsSpent | research/coinswapd/mln_build.go:22-143 | Three nodes and a batch of onions built for their requests with valid proofs that never collide, each paying every node at least the share of a one-onion transaction, of coins below 2^64 in all: every run that missed no peer is the beginning of one that finishes, every loaded onion is spent, the transaction is balanced, and its outputs are, for each onion, what its own request leaves of the coin to the address that the request names, and three more for the operators. |
| RoundTheorems.FinishedTransaction | research/coinswapd/swap.go:472-484 | A finished round spends exactly the inputs of m loaded onions, the same number survives at every node, there are m + n outputs and n kernels, the stealth equation holds, the value equation holds if and only if node 0's fee sum lost nothing that counts, no other node's did, and the kernel fees cover the weight with less than n satoshi to spare. |
| Payments.FinishedPays | research/coinswapd/swap.go:312-334 | The outputs of a finished round are the destination of every onion whose input it spends, each with proofs that verify, and for each operator one output to its fee address of what the 64-bit fee sum came to beyond the share, which is what every kernel pays. |
| RoundTheorems.SurvivorsChecked | research/coinswapd/swap.go:104-145 | An onion that a peel keeps opened under the node's key and carries an output at the last node and only there, under the commitment and sender key that the layers lead to, with proofs that verify. |
| RoundTheorems.ForwardDetermined | research/coinswapd/swap.go:161-171 | Any two visiting orders pass on the same commitments in the same order, and without collisions the same message. |
| RoundTheorems.SurvivorsAgree | research/coinswapd/swap.go:414-445 | While a message is on its way back all later nodes hold the same number m of onions, and the message has m commitments, m + n - j outputs, at least one, and n - j kernels, which is what the receiver's loops consume. |
| RoundTheorems.AbortNeedsShortfall | research/coinswapd/swap.go:312-321 | A round aborts only for want of a peer, or at a node where nothing survived, some onion pays less than the share of a one-onion transaction or the fees reach 2^64, or before a node where they reach 2^64. |
| RoundTheorems.AcceptedIsBalanced | research/coinswapd/swap.go:414-469 | Whatever the peers sent, when node 0 accepts a message and finishes, the stealth equation holds, and the value equation holds if and only if no multiple of H was lost to the 64-bit fee sum. |
| RoundTheorems.AloneIsBalanced | research/coinswapd/swap.go:150-158 | The same for a node 0 that is alone and finishes within the forward call. |
| RoundTheorems.OverflowIsCaught | research/coinswapd/swap.go:462-467 | When the fees that a node summed wrapped, the previous node's commitment check fails, and only then; its stealth check passes in any case. |
| Overflow.OverflowGetsThrough | research/coinswapd/swap.go:305-321 | Whatever node 0 loaded and kept, if its fees, summed in 64 bits, cover its share, some message of its peer takes it to a finished transaction; that is balanced in value if and only if no multiple of H was lost to the sum. |
| Overflow.UnbalancedIsSent | research/coinswapd/swap.go:305-310 | The input: two onions as `New` wraps them for any route that begins at node 0, admitted exactly if their signatures verify, whose first-hop fees add up to 2^64 and one share; node 0 keeps both whatever it does, and a message makes it finish a transaction that is not balanced, in every group in which 2^64 H is not the identity. |
| RoundTheorems.SourceTopology | research/coinswapd/swap.go:312-317 | Nodes numbered along one list of peers that compute their shares as the source does meet what the round theorems ask of a topology; in particular every share is positive. |
| RoundTheorems.PeelOrderIrrelevant | research/coinswapd/swap.go:98-147 | Any two iteration orders pass on the same commitments, those of the onions that pass the peel, position and output checks, and keep the same number of onions, one for each; on the last node as many outputs. |
| RoundTheorems.AllPayTotal | research/coinswapd/swap.go:305-310 | If every onion pays at least f, the node earns at least f for each of them. |
| Balance.CommitStep | research/coinswapd/swap.go:305-344 | A node that passed the commitment check leaves outputs and kernels balanced against its own onions, if and only if what they paid and what it shares out differ by nothing or by a multiple of H that is the identity. |
| Balance.StealthStep | research/coinswapd/swap.go:331-334 | The same node leaves the stealth keys balanced, always. |
| Balance.ChecksExact | research/coinswapd/swap.go:447-467 | Against survivors that agree with the next node's, the two checks pass if and only if what was received balances the next node's onions. |
| Balance.LastChecksPass | research/coinswapd/swap.go:120-139 | At the last node the destination outputs satisfy both equations before there is any kernel. |
| Balance.SpendsBalance | research/coinswapd/swap.go:472-484 | A balance over the onions of node 0 is a balance over the inputs that its transaction spends. |
| Balance.LinkedCount | research/coinswapd/swap.go:98-147 | A batch and the one it was peeled to have the same size. |
| Sums.SumVisit | research/coinswapd/swap.go:305-310 | Every iteration order of a map computes the same sum. |
| Sums.SumSeqGrow | research/coinswapd/swap.go:336-344 | Appending an output and sorting adds its value to the sum. |
| Sums.SumImage | research/coinswapd/swap.go:447-459 | Summing over the image of a one-to-one map is summing over its keys. |
| FeeShares.SharesCover | research/coinswapd/swap.go:312-317 | n rounded-up shares of m + n outputs cover the weight fee of m + n outputs and n kernels, and overpay by at most n - 1. |
| FeeShares.FloorScales | research/coinswapd/swap.go:312-321 | A hop fee that covers a node's minimum for one onion covers it for any number of onions paying that fee. |
| Ledger.ValueLedger | research/coinswapd/swap.go:305-334 | Over a finished round the transaction's outputs are the survivors' destinations and one output per operator, and in integers the survivors' worth is the destinations' plus the operators' values plus the kernel fees plus what the 64-bit fee sums lost. |
| Ledger.NothingLostExactly | research/coinswapd/swap.go:305-310 | What the fee sums lost in all is zero if and only if every node's fees fit 64 bits, and never negative. |
| Ledger.CoinLedger | research/coinswapd/mln_build.go:32-43 | With built onions the values of the coins spent are the values of the destinations, the operator outputs and the fees, plus what the 64-bit fee sums lost. |
| Ledger.BuiltWorth | research/coinswapd/mln_build.go:36-43 | A built onion that survives is worth exactly its coin. |
| Ledger.RunLedger | research/coinswapd/swap.go:294-344 | In every state of every run, what was collected is the survivors' destinations and what each operator's 64-bit fee sum came to beyond the fee. |
| Denomination.RequireSameDenomination | research/coinswapd/swap_denom.go:14-34 | The gate passes exactly when no amount is recorded or all are recorded and equal. |
| BatchTheorems.MixedIsRefusedExactly | research/coinswapd/swap.go:83-92 | The daily swap ends in a refusal for mixed denominations if and only if two valid onions of the queue differ in their recorded amounts, one of them missing included. |
| BatchTheorems.MixedSubmissionsRefused | research/coinswapd/mweb_service.go:266-280 | Two queued route submissions of different coins for different amounts make the daily swap refuse the batch, whatever else is queued, as long as both stay and are valid. |
| BatchTheorems.LoadsTheValid | research/coinswapd/swap.go:55-85 | What the daily swap loads is valid and from the queue, every valid onion of the queue is loaded, and a queue without a valid one is an error. |
| BatchTheorems.OtherwiseForwards | research/coinswapd/swap.go:87-92 | A batch that is neither mixed nor all invalid is peeled and sent on. |
| BatchTheorems.LoadedSameRecorded | research/coinswapd/swap.go:55-91 | If the gate passed over the queue, the loaded onions all have one recorded amount, or none has one. |
| BatchTheorems.DenominationCarries | research/coinswapd/swap.go:87-91 | Whatever the round drops, the onions whose inputs the finished transaction spends all had the same recorded amount, or none had one. |
| SwapMachine.SwapService.PerformSwap | research/coinswapd/swap.go:38-92 | The daily swap runs at node 0 only; it deletes exactly the invalid onions with their amounts, refuses an all-invalid queue and mixed denominations, and otherwise peels the loaded onions, each under the commitment that its input spends, and forwards them to the second of the peers in use or fails for want of the next node; a database failure on the way ends it with some invalid onions deleted and nothing else. |
| SwapMachine.SwapService.Load | research/coinswapd/swap.go:50-81 | The valid onions of the queue and no others stay and are held, keyed by their inputs; the amounts listed are those recorded for them. The first database error ends the loop: some invalid onions are gone with their amounts, at most one amount without its onion besides. |
| SwapMachine.SwapService.PeelOnions | research/coinswapd/swap.go:94-148 | The loop over the map leaves survivors, batch and outputs in the relation that the round theorems are about. |
| SwapMachine.SwapService.PeelOne | research/coinswapd/swap.go:104-145 | One onion is kept if and only if it passes the peel, position and output checks and its next commitment is not taken. |
| SwapMachine.SwapService.ForwardBatch | research/coinswapd/swap.go:150-210 | Peel, then send the batch sorted by commitment to the next of the peers in use, or fail because its key is refused or it cannot be dialed, or turn round at the last node; nothing without a topology. |
| SwapMachine.SwapService.ActiveTopology | research/coinswapd/swap.go:30-36 | The peers in use, their count and the share are those of a pinned route of three, else those of the configured nodes. |
| SwapMachine.SwapService.Forward | research/coinswapd/swap.go:261-292 | The call as a whole: ignored at node 0, an error on a broken stream with the onions read so far held, else the received batch is peeled. |
| SwapMachine.SwapService.Backward | research/coinswapd/swap.go:380-470 | The call as a whole, for any message: ignored at the last node, undecodable, panic exactly without outputs or with an onion that does not peel, one of the two invariant errors exactly when that check fails, else settled; the queue loses nothing but spent onions of an accepted transaction, and all of them unless a deletion fails. |
| SwapMachine.SwapService.Retain | research/coinswapd/swap.go:447-460 | The loop keeps exactly the listed onions and leaves the two differences of sums. |
| SwapMachine.SwapService.ReadOutputs | research/coinswapd/swap.go:414-428 | Running sums of commitments and sender keys are the sums over all outputs, unset if there is none. |
| SwapMachine.SwapService.ReadKernels | research/coinswapd/swap.go:430-445 | Running sums of the excesses, less the fees, are the sums over all kernels. |
| SwapMachine.SwapService.SumHops | research/coinswapd/swap.go:298-310 | Blinds add up modulo the group order, fees modulo 2^64, in any order. |
| SwapMachine.SwapService.BackwardBatch | research/coinswapd/swap.go:294-378 | Short of its share the node fails and sends nothing; else it appends its output and kernel and delivers to the previous of the peers in use, or fails for want of it. |
| SwapMachine.SwapService.AppendOwn | research/coinswapd/swap.go:326-344 | One output to the fee address worth what is left and one kernel with the summed blinds are added, outputs sorted by hash. |
| SwapMachine.SwapService.Finalize | research/coinswapd/swap.go:472-499 | The transaction spends the held onions' inputs; a failed send changes nothing in the queue; after a successful one these onions leave it with their amounts, all of them unless a deletion fails, which the outcome reports. |
| SwapMachine.SwapService.AcceptOnion | research/coinswapd/main.go:250-261 | Node 0 stores a valid onion; every refusal leaves the queue as it was. |
| SwapMachine.SwapService.Swap | research/coinswapd/main.go:263-279 | The vanilla submission stores the onion without an amount, forgets the coordination data and keeps a pinned route of three and the peers in use; the change is a run of the lock holder. |
| SwapMachine.SwapService.AcceptRoute | research/coinswapd/mweb_service.go:266-280 | Three peers are pinned in any case and are from then on the peers in use, with a count of three and the share of three; the onion stays with exactly the amount submitted and every other entry as it was, or is taken back when the amount cannot be recorded; the taking back may itself fail, half done, which goes unreported. |
| SwapMachine.SwapService.RunBatch | research/coinswapd/mweb_service.go:181-206 | The daily swap; an error of it, a peer out of reach, a refused broadcast or a failed deletion included, ends the call with an error and nothing cleared; else with the developers' switch stored onions are deleted, and if the call returns no error none is left. The changes are runs of the lock holder and of the clearing loop. |
| SwapMachine.RollbackIsExact | research/coinswapd/mweb_service.go:275-278 | Taking an onion back restores the queue exactly when neither bucket knew the coin before. |
| SwapMachine.RejectedRestores | research/coinswapd/mweb_service.go:266-280 | A submission whose amount was not recorded and whose rollback worked leaves the queue as it was if and only if the queue knew nothing of the coin; the coin is gone in any case. |
| SwapMachine.RollbackLoses | research/coinswapd/mweb_service.go:275-278 | The input: a queued coin that is submitted again and taken back is lost. |
| SwapMachine.AdmissionIsHolder | research/coinswapd/mweb_service.go:266-280 | Whatever a route submission leaves is left by steps of the lock holder. |
| SwapMachine.BatchIsHolder | research/coinswapd/swap.go:38-92 | Whatever a batch leaves is left by steps of the lock holder. |
| SwapMachine.SwapService.LeftIsHolder | research/coinswapd/swap.go:486-499 | Whatever a forward or backward call leaves is left by steps of the lock holder. |
| SwapMachine.AdmissionKeepsConsistent | research/coinswapd/mweb_service.go:266-280 | Whatever a submission comes to, and even if the rollback fails, recorded amounts belong to stored onions. |
| SwapMachine.OnionDb.SaveOnion | research/coinswapd/db.go:15-27 | An onion is stored under its input's commitment, or nothing changes. |
| SwapMachine.OnionDb.SaveOnionAmount | research/coinswapd/db.go:29-42 | An amount above zero is recorded under the same key, this amount and no other entry changed; zero is silently skipped. |
| SwapMachine.OnionDb.DeleteOnion | research/coinswapd/db.go:81-108 | Amount and onion of one key go in two transactions, nothing else; an error leaves nothing done or only the amount deleted. |
| Queue.RemovalKeepsConsistent | research/coinswapd/db.go:81-108 | Any number of deletions, the last one complete or not, leave recorded amounts with stored onions only. |
| Queue.RemovalIsHolder | research/coinswapd/db.go:81-108 | Whatever a loop of deletions leaves, broken off or not, is left by steps of the lock holder. |
| Queue.RemovalIsClearing | research/coinswapd/mweb_service.go:187-200 | Whatever the developers' loop leaves is left by steps of one clearing loop. |
| Queue.HolderKeepsConsistent | research/coinswapd/mweb_service.go:266-280 | A call that is a run of the lock holder keeps recorded amounts with stored onions. |
| Queue.ConsistentIffLocked | research/coinswapd/mweb_service.go:181-200 | At every step of every interleaving of submissions, batches, rollbacks, deletions and clearing loops, recorded amounts belong to stored onions, if and only if the clearing loop is off. |
| Queue.RunConsistentExactly | research/coinswapd/mweb_service.go:181-200 | A run, with or without the clearing loop, is consistent throughout if and only if no step records the amount of an onion that is not stored or deletes a stored onion whose amount is recorded. |
| Queue.LockedRunKeeps | research/coinswapd/db.go:81-95 | Without the clearing loop every state of every run is consistent, also between the two halves of a deletion. |
| Queue.OrphaningRuns | research/coinswapd/mweb_service.go:187-200 | A run of seven states with the clearing loop that ends with an amount and no onion. |
| OnionCodec.OnionRoundTrip | research/coinswapd/onion/onion.go:57-116 | Peeling an onion of n hops with the matching keys in order returns every hop exactly, whatever input was attached, and one more peel fails. |
| OnionCodec.PeelLayer | research/coinswapd/onion/onion.go:169-254 | The k-th peel returns the k-th hop and leaves the onion of the remaining hops: the keystream offsets line up. |
| OnionCodec.StreamAllTwice | research/coinswapd/onion/onion.go:102-106 | A cipher run over a list of buffers is undone by a fresh one over the same list. |
| OnionCodec.ReadHopBack | research/coinswapd/onion/onion.go:80-97 | A payload is parsed back field by field. |
| OnionCodec.ReadEntriesBack | research/coinswapd/onion/onion.go:108-113 | The length-prefixed buffers are read back. |
| OnionCodec.BareDoesNotPeel | research/coinswapd/onion/onion.go:206-210 | An onion without payloads peels with no key. |
| OnionMachine.New | research/coinswapd/onion/onion.go:57-116 | The loops over stateful ciphers and in-place buffers produce the layered onion, or fail when a key is refused. |
| OnionMachine.Encrypt | research/coinswapd/onion/onion.go:102-106 | The nested loops, innermost layer first, leave each buffer encrypted by its own and all outer ciphers. |
| OnionMachine.Cipher.XORKeyStream | research/coinswapd/onion/onion.go:104-104 | Byte i of the buffer is combined with the keystream byte that is i after the cipher's position, which moves on by the buffer's size. |
| OnionBytes.OnionBytesAt | research/coinswapd/onion/onion.go:57-116 | Every byte of an onion: the count of hops, for each hop the length of its payload, and each byte of the payload under the keystreams of its own and all outer ciphers, each as far on as the buffers before took it. |
| OnionBytes.LayerAt | research/coinswapd/onion/onion.go:102-106 | Byte b of buffer j is the plain byte under cipher i, for each i up to j, at b and the sizes of the buffers i to j - 1. |
| OnionBytes.PayloadFields | research/coinswapd/onion/onion.go:80-97 | The places of version, next key, both blinds, fee, flag and output in a payload. |
| OnionBytes.EntryAt | research/coinswapd/onion/onion.go:108-113 | Where each buffer and its length lie. |
| OnionBytes.BigEndianDigit | research/coinswapd/onion/onion.go:90-90 | Each byte of a written number is the digit of its place, the most significant first. |
| OnionBytes.XorAt | research/coinswapd/onion/onion.go:104-104 | A bit of the combination is set exactly where the two bits differ. |
| OnionBytes.PeelsOnlySound | research/coinswapd/onion/onion.go:169-254 | What comes off an onion came under a key of 32 bytes that was accepted, with scalars below the group order. |
| OnionBytes.RefusesPayload | research/coinswapd/onion/onion.go:203-238 | A wrong version or a scalar that is too large is refused. |
| OnionBytes.OtherFlags | research/coinswapd/onion/onion.go:240-251 | Any flag but 1 means no output, and the rest is not read. |
| OnionBytes.CutShort | research/coinswapd/onion/onion.go:186-199 | A last buffer that is cut short is filled up with zeros, one of which nothing is left is an error. |
| OnionMachine.Peel | research/coinswapd/onion/onion.go:169-254 | Reader cursor and cipher state compute the peeling function, errors included. |
| Builder.BuildOnion | research/coinswapd/mln_build.go:22-143 | Bad parameters are refused exactly when one of the checks fails; the route's length is not among them, and a call can crash only if it has fewer than three hops; an onion comes out only as the closing equations say, for usable secrets. |
| Builder.BuiltPays | research/coinswapd/mln_build.go:79-143 | The three keys of the route take out of a built onion, in this order, each hop's own fee and drawn blinds, no output at the first two, and at the third an output of the amount less the 64-bit fee sum to the address that the request's trimmed destination decodes to. |
| Builder.BuilderMeetsVerifier | research/coinswapd/mln_peel.go:9-31 | A built onion passes the three nodes' peel, position and output checks, if and only if its output's proofs verify and nothing that the route charges was lost: the fees that its three hops take are those subtracted from the coin, but for a multiple of H that is the identity. |
| Builder.ChainCloses | research/coinswapd/mln_build.go:79-101 | The hop blinds take the coin's commitment to the output's, and the stealth keys the input's base to the sender key. |
| Builder.StepAlong | research/coinswapd/mln_peel.go:33-42 | One peel adds the kernel blind, takes the fee off and adds the stealth key. |
| Builder.SignedInput | research/coinswapd/onion/onion.go:128-142 | The input that was signed into an onion is read back from it. |
| Builder.BuiltIsValid | research/coinswapd/main.go:316-342 | A built onion is admitted if and only if the chain knows the coin with its commitment and key and the input signature verifies. |
| Evidence.EvidencePacksApart | mlnd/pkg/litvmevidence/evidence.go:21-34 | Two preimages pack alike if and only if all fields agree up to the sign of the epoch; the packing has 137 bytes if and only if the epoch fits 256 bits. |
| Evidence.EvidenceFields | mlnd/pkg/litvmevidence/evidence.go:21-34 | The place of every field in what is hashed: epoch, accuser, accused, hop index and the two hashes. |
| Evidence.GrievancePacksApart | mlnd/pkg/litvmevidence/evidence.go:37-48 | The same for the grievance id and 104 bytes. |
| Evidence.GrievanceFields | mlnd/pkg/litvmevidence/evidence.go:37-48 | The same for the grievance id: accuser, accused, epoch and evidence hash. |
| Evidence.LogReadsBack | mlnd/internal/litvm/watcher.go:199-215 | The log of an opened grievance has its fields where they belong and is decoded to the event's; its epoch word is the one that the evidence packing begins with. |
| Evidence.EvidenceBinds | mln-cli/internal/grievance/file.go:92-109 | An event opened from a receipt is answered by it at the accused operator; a receipt that answers it agrees on all six fields or exhibits a hash collision. |
| Evidence.EventPins | mlnd/pkg/litvmevidence/defense.go:46-80 | Any two receipts accepted for one event agree on all six fields or exhibit a hash collision, and belong to one operator. |
| Receipts.EmittedParses | research/coinswapd/litvmreceipt/receipt.go:51-81 | What a node writes when forwarding fails has each field under its name and is parsed to the epoch and accuser that the route named, the accused operator, both hashes and the swap id. |
| Receipts.HashTextParses | mlnd/pkg/receiptstore/ndjson.go:91-105 | A hash in hexadecimal is parsed back. |
| Receipts.PlainHashParses | mlnd/pkg/receiptstore/ndjson.go:91-105 | So is one without its prefix. |
| Text.HexAt | mlnd/pkg/receiptstore/ndjson.go:91-105 | Each byte is written as its two hexadecimal digits, the upper one first. |
| Receipts.ChecksumParses | mlnd/pkg/receiptstore/ndjson.go:52-60 | An address with checksum letters, or in lower case, is parsed back. |
| Vault.RowReadsBack | mlnd/pkg/receiptstore/store.go:114-155 | The decimal epoch and the hexadecimal fields of a row read back field for field. |
| Vault.HistoryKeepsTable | mlnd/pkg/receiptstore/store.go:34-50 | After any history of saves each row's key is the hash of its own fields, and hashes and swap ids are unique. |
| Vault.FirstSavedIsFound | mlnd/pkg/receiptstore/store.go:114-200 | Lookup by hash and by swap id returns the receipt that was saved first, whatever came before and after. |
| Vault.FoundWasSaved | mlnd/pkg/receiptstore/store.go:114-155 | What a lookup finds is a receipt of the history that was stored, under that hash. |
| Vault.AlreadySeen | mlnd/pkg/receiptstore/store.go:70-104 | A receipt that was saved, ignored or refused once changes nothing when it comes again later. |
| Vault.ReprocessingIsIdle | mlnd/pkg/receiptstore/store.go:68-70 | Saving a whole history once more changes nothing. |
| Vault.Store.SaveReceipt | mlnd/pkg/receiptstore/store.go:70-104 | A known hash is ignored, a taken swap id refused, else one row is added; the table's invariant is kept. |
| Vault.Store.GetByEvidenceHash | mlnd/pkg/receiptstore/store.go:114-155 | The receipt found has the hash asked for; the only error is that there is none. |
| Vault.VaultAnswers | mlnd/pkg/litvmevidence/defense.go:46-80 | A vault fed by the parser, as it always is, answers every event opened from a receipt that it knows, or exhibits a collision. |
| Vault.AnsweredExactly | mlnd/pkg/receiptstore/store.go:70-155 | Over an arbitrary history in which the hash of a receipt is known, its event is answered, or a collision exhibited, if and only if no stored receipt that agrees with it up to the epoch's sign has a negative epoch. |
| Vault.NegatedEpochShadows | mlnd/pkg/receiptstore/ndjson.go:45-46 | Why the parser refuses negative epochs: saved first, a receipt with the negated epoch takes the place of the genuine one, whose event is then not answered. |
| Vault.TailingIsBatch | mlnd/internal/bridge/coinswapd.go:97-156 | For a growing file and any schedule of scans the lines handed to the parser are exactly the non-blank complete lines, once each and in order. |
| Vault.ResetIsHarmless | mlnd/internal/bridge/coinswapd.go:107-110 | Reading a processed file again from the start leaves the vault as it is. |
| Vault.FileTail.TailFile | mlnd/internal/bridge/coinswapd.go:97-156 | One poll computes the scan's new offset and partial line and saves what parses, in order. |
| Vault.TailedVaultAnswers | mlnd/internal/bridge/coinswapd.go:97-156 | After any schedule of scans the vault answers every event opened from a receipt that it knows, or exhibits a collision. |
| Bridge.WrittenIsKnown | mlnd/internal/bridge/coinswapd.go:117-150 | After any schedule of scans of a growing file, the receipt of every complete line that is not blank and parses is found by its hash, unless its swap id belongs to another receipt. |
| Bridge.EmittedIsAnswered | mlnd/internal/bridge/coinswapd.go:117-150 | What a mix node emits for a failed forward and writes to the file is answered, whatever the schedule of scans, or hashes collide, or its swap id belongs to another receipt. |
| Bridge.LineListed | mlnd/internal/bridge/coinswapd.go:124-131 | A line that ends in a newline after whole lines is among the lines that are handed over. |
| Bridge.SavedIsKnown | mlnd/pkg/receiptstore/store.go:70-155 | A receipt of the history is found by its hash, unless its swap id belongs to another receipt. |
| Bridge.ScanByScan | mlnd/internal/bridge/coinswapd.go:97-156 | Saving scan by scan is saving what all scans hand over. |
| Vault.RecordsAreParsed | mlnd/pkg/receiptstore/ndjson.go:40-89 | Whatever lines are parsed, every receipt has an epoch, and none below zero. |
| Pathfind.PickRoute | mln-cli/internal/pathfind/pathfind.go:35-101 | A route is found if and only if some three dialable makers' fees add up, in 64 bits, to less than 2^63; it is one of the triples with the least fee and among those the most stake, and every such triple can be drawn. |
| Pathfind.PickRouteSelfMiddle | mln-cli/internal/pathfind/pathfind.go:104-181 | The same with the first maker of the given operator in the middle. |
| Pathfind.ChoosesTrulyExactly | mln-cli/internal/pathfind/pathfind.go:52-101 | The search finds a route, and whatever it may choose truly costs least, with the most stake among those, and is reported at its true cost, if and only if the least true cost is below 2^63 and no sum that wraps comes out below it, or at it with as much stake; for both searches. |
| Pathfind.TrulyBestExists | mln-cli/internal/pathfind/pathfind.go:52-79 | Wherever a triple is allowed, one of the allowed triples truly costs least with the most stake among those. |
| Pathfind.RouteIsOptimal | mln-cli/internal/pathfind/pathfind.go:52-181 | With or without a maker fixed in the middle: when the sums searched are below 2^63, the reported fee is the true one, the triple is truly best, and no maker left out is cheaper than one chosen; over makers with distinct operators the three operators differ, whatever the fees. |
| Pathfind.WithTorDistinct | mln-cli/internal/pathfind/pathfind.go:16-24 | Makers with distinct operators keep distinct operators when those without an address are left out. |
| Pathfind.StakesAdd | mln-cli/internal/pathfind/pathfind.go:55-61 | Of makers that the scout lists, the stakes compared are those in the registry, added up. |
| Pathfind.StakeReadsBack | mln-cli/internal/pathfind/pathfind.go:183-189 | A stake written in decimal is read back. |
| Pathfind.CheapestExactly | mln-cli/internal/pathfind/pathfind.go:68-77 | A triple truly costs least if and only if no maker left out is cheaper than one that was chosen, with or without a maker fixed in the middle. |
| Pathfind.WrapMisleads | mln-cli/internal/pathfind/pathfind.go:62-62 | Four makers for which every triple that can be chosen consists of the first three, whose sum wraps: it is reported as 1, is truly 2^64 + 1, and is not the best. |
| Pathfind.FilterMakersWithTor | mln-cli/internal/pathfind/pathfind.go:16-24 | Exactly the makers with an address stay, in order. |
| Scout.CollectLatest | mln-cli/internal/scout/scout.go:134-179 | The map holds for every operator that advertised the newest advertisement, the first to arrive among equally new ones. |
| Scout.Run | mln-cli/internal/scout/scout.go:181-217 | The list has exactly one maker for every registered operator, from its newest advertisement. |
| Scout.MakerCarries | mln-cli/internal/scout/scout.go:197-215 | A listed maker has its advertisement's operator, address, fee and key and the registry's stake in decimal. |
| MlnRoute.Validate | research/coinswapd/mlnroute/request.go:38-80 | A request is accepted if and only if it meets the rules with the fees summed without bound. |
| MlnRoute.AcceptableExactly | research/coinswapd/mlnroute/request.go:38-116 | Acceptance in the fields of a request: three hops with addresses, a destination, an amount that covers the fees, keys on all hops or on none, coordination data complete or missing. |
| MlnRoute.AcceptedKeysResolve | research/coinswapd/mlnroute/keys.go:18-41 | An accepted request that names one key names them all, and they resolve whatever is configured. |
| MlnRoute.ConfiguredKey | research/coinswapd/mlnroute/keys.go:18-41 | Without a key of its own a hop has the one configured for its trimmed address, with or without a slash at the end. |
| MlnRoute.AddFee | research/coinswapd/mlnroute/request.go:132-137 | The test before the addition accepts exactly the sums that fit 64 bits. |
| MlnRoute.CheckMetadata | research/coinswapd/mlnroute/request.go:82-116 | Coordination data are all missing or all well formed, with an operator for every hop. |
| MlnRoute.FeeSum | research/coinswapd/mlnroute/request.go:140-146 | The unbounded sum modulo 2^64. |
| MlnRoute.ResolveKeys | research/coinswapd/mlnroute/keys.go:18-41 | Keys come out if and only if every hop has one, its own or a configured one, and write back to the same text. |
| MixnetDir.WrapAdd | mln-cli/internal/mixnetdir/directory.go:75-79 | Adding first and testing for a smaller sum accepts exactly the sums that fit 64 bits. |
| MixnetDir.LoadPeers | research/coinswapd/mln_directory.go:28-79 | Peers come out if and only if the directory is well formed and its unbounded fee sum is less than its amount. |
| MixnetDir.ToForgerPayload | mln-cli/internal/mixnetdir/directory.go:140-160 | A payload comes out if and only if the directory is accepted and the destination is not blank. |
| MixnetDir.ToRouteFile | mln-cli/internal/mixnetdir/directory.go:88-104 | The route file carries the trimmed hops and the unbounded fee sum. |
| MixnetDir.PayloadAccepted | mln-sidecar/internal/mweb/translator.go:70-112 | The payload of an accepted directory carries the directory's amount and hops and the caller's destination, is accepted by the route validators, and its 64-bit fee sum has not wrapped and leaves a positive output value. |
| MixnetDir.RouteOfDirectory | research/coinswapd/mweb_service.go:257-263 | The peers pinned by submitting a directory's payload are the peers that the mix nodes load from it. |
| SwapTranslator.NormalizeHops | mln-sidecar/internal/mweb/translator.go:29-36 | Every hop's address is normalised in place, nothing else changes. |
| SwapTranslator.NormalizeTwice | mln-sidecar/internal/mweb/translator.go:17-26 | An endpoint without a scheme gets one, any other is only trimmed; normalising twice is normalising once, and blank stays blank. |
| SwapTranslator.NormalizeKeepsAcceptance | mln-sidecar/internal/mweb/translator.go:70-112 | A request is accepted before normalising if and only if it is accepted after. |

## Left out

- Networking, Tor, Nostr relays, HTTP handlers, the forger client, the desktop application and the dashboard.
- The XOR cipher between neighbouring nodes, gob, JSON and ABI encodings: messages are sequences of typed items that decode, or a stream that breaks off.
- Concrete cryptography: signatures, range proofs, hash functions and keystreams are uninterpreted; weights, fee rate and group order are arbitrary constants.
- Commitments as 33 encoded bytes: points are numbers below the group order in the order of their encodings.
- SwapMachine.SwapService.Backward: which of the onions are held after a panic is stated only up to being some of those held before.
- SwapMachine.SwapService.PeelOnions: allocation failures on absurd lengths inside an onion, and nil onions in the database, are not modelled.
- SwapMachine.SwapService.BackwardBatch: the weight product and the output count are unbounded integers, only the hop fee sum is 64-bit; the random generator does not fail.
- SwapMachine.SwapService.Finalize: the final sort of inputs, outputs and kernels is not modelled; the theorems do not depend on their order.
- Round.RoundCompletes: at most one round is under way, and calls that reach their peer arrive as sent.
- Queue.ConsistentIffLocked: processes are interleaved at database transactions; crashes and restarts of the process are not modelled.
- Builder.BuildOnion: which secrets are drawn and that drawing succeeds within the retry limits are not stated, nor that a route of fewer than three hops always crashes once secrets are drawn; failures of the ephemeral key generator are left out.
- MlnRoute.Validate: strings are valid Unicode; the sidecar's validator runs the same statements and has no second copy here.
- Receipts.EmittedParses: lower-casing is ASCII only; no other letter becomes a hexadecimal digit.
- Vault.RowReadsBack: rows that were not written by the vault itself are modelled only as malformed.
- Vault.Store.SaveReceipt: SQLite is a table with the two constraints, the conflict target first; migrations and I/O errors are left out.
- Vault.FileTail.TailFile: the size that is compared and the content that is read are one snapshot of the file; a file replaced by one at least as long is not noticed, as in the code.
- Evidence.LogReadsBack: the court contract is not part of this model; its log carries the id, the parties, the epoch, the hash and a deadline.
- Scout.Run: signature, chain and deployment checks are one flag of an event, the registry is an uninterpreted function.
- Pathfind.PickRoute: the random generator is any natural number.
- Route status, balances, wallet scanning, coin picking, key parsing, receipt recording in memory, the directory's pinning of a node's own index, clocks and the midnight trigger.
