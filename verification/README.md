# sBTC: models and proofs

A Dafny 4.11 model of the protocol-critical parts of the sBTC repository, with proofs of
what they are for. `dafny verify dfyconfig.toml` checks all of it. There are five parts.

**FROST key generation and signing** (`FrostMessages`, `SigningRound`, `FrostCoordinator`,
`FrostProtocol`, `FrostInvariant`, `FrostSafety`, `FrostTheorems`, `FrostProgress`,
`FrostCommands`, `SignerSafety`, `ShareDelivery`). A signer's state machine and the coordinator's blocking
loops are classes, proved equal to functions on values. Those functions drive a transition
system of one coordinator and n signers over one totally ordered log. No receiver compares
an attempt id, and an attempt repeated for an odd y coordinate reuses its id. That attempts
are never mixed follows only from the order of the log and from everybody being waited for,
and needs an inductive invariant over the whole system.

**Bitcoin proofs** (`Bytes`, `BufferReversal`, `Clarity`, `TxParser`, `TxWire`, `Merkle`,
`Spv`, `SpvTopPair`). The bounded parser of `clarity-bitcoin.clar`, its Merkle and witness-commitment
checks, and the trees and paths of `generate-proof.ts` that they must accept. The hash is
any function from byte strings to 32 bytes: soundness says "it is right, or these two
inputs have one hash", and a function computes the two inputs.

**HTTP and the relay** (`HttpText`, `HttpMessage`, `HttpRoundTrip`, `HttpExact`,
`HttpWire`, `Relay`). The printer and the parser of messages, on streams, with the text that
goes over the wire and what is refused, and the proof that the proxy in front of the server
is the message log itself.

**Peg queue and coin selection** (`PegQueue`, `PegQueueRuns`, `CoinSelection`). The
persistent queue over runs with crashes at any statement, restarts and nodes whose tip goes
up and down: that nothing reported is lost, and exactly when it hands an operation out twice; the selection loop of the
wallet, read off the listed outputs, and its accounting.

**The sBTC registry** (`Registry`, `RegistryInvariant`, `RegistryLaws`). The registry's
variables and maps, the contracts that make and settle requests, and the locked token, with
the rollback of failed public functions written out. A fulfilment is checked by the model of
the Bitcoin proofs, and every owner's tokens are accounted for over whole runs.

## Assumptions

- FROST: there is at least one signer; `signer_key_ids` partitions the keys; every post lands
  exactly once; a signer posts what it has before it reads on; no coordinator wait times out.
  Commitments, shares and nonces are symbols: the key they belong to and how often their owner
  had drawn before. Whether a summed key or nonce is even is any choice at every attempt.
- Share delivery: Diffie-Hellman symmetry, decryption undoing encryption, and scalar decoding
  undoing encoding are hypotheses (`Primitives.Lawful`).
- A Clarity call that aborts (a failed `unwrap-panic`, arithmetic out of range) is `Panic`.
- HTTP: `usize` has 64 bits; a header map may be written in any order.
- Peg queue: the operations reported for a height are of that height, and a key belongs to
  one height. One database statement is atomic.

## Where code and documentation differ

- `clarity-bitcoin.clar` documents an error for too many witnesses or stack items. It is never
  returned: a witness of more than eight items aborts the call
  (`TooManyWitnessesUnreachable`, `WitnessAborts`).
- `get-commitment-scriptPubKey` is compared with a script of exactly 38 bytes, where BIP-141
  ("Commitment structure") allows bytes after the commitment.
- A tree of one leaf is refused by `verify-merkle-proof` (`OneLeafRefused`); the caller
  compares the root with the id beforehand.
- `sbtc-withdrawal-verifier.clar` says that a fulfilment must be mined after the request was
  made; the code accepts it only below the height of the request (`FulfilAnswers`).
- A `SqlitePegQueue` can hand an operation out twice: when it is restarted with an explicit
  height at or below it (`ExplicitStartRepeats`), and, without any explicit height, when a
  poll is cut and the next one succeeds at a lower tip (`LowerTipRepeats`). `NeverRepeatsIff`
  gives the exact condition, which can be checked before the step: an operation is handed out
  only at or below the recorded height, and a start lies above everything handed out.
- The two nodes below the root of a block can themselves be read as a coinbase, with any
  commitment; `was-segwit-tx-mined-compact` does not look at the length, and then accepts a
  transaction that is not in the block (`TopPairAccepted`). With any other length of the
  coinbase it does not (`SegwitMinedSound`).
- A response phrase of several words comes back as its first word (`PhraseLosesWords`), and
  text beyond ASCII comes back as other text (`ReadBackIsAscii`).

## Model

| member | source | states |
|---|---|---|
| FrostMessages.Signers | frost-signer/src/signing_round.rs:709-751 | the signer ids are exactly 1 to n |
| SigningRounds.SigningRound.constructor | frost-signer/src/signing_round.rs:709-751 | a signer starts idle with all ids at 1, empty maps and its own keys counted from zero |
| SigningRounds.SigningRound.MoveTo | frost-signer/src/signing_round.rs:95-125 | changes the state exactly along the allowed moves, and fails without a change otherwise |
| SigningRounds.SigningRound.ResetTo | frost-signer/src/signing_round.rs:346-353 | forgets commitments and shares of the previous attempt and draws new polynomials |
| SigningRounds.SigningRound.OnDkgBegin | frost-signer/src/signing_round.rs:597-606 | a new attempt: reset and public distribution, or the error of the state machine |
| SigningRounds.SigningRound.PublicBegin | frost-signer/src/signing_round.rs:608-634 | posts one commitment of the current polynomials for every own key, and stores none itself |
| SigningRounds.SigningRound.OnDkgPrivateBegin | frost-signer/src/signing_round.rs:636-674 | posts one share set for every own key, in any order of the keys |
| SigningRounds.SigningRound.OnSignShareRequest | frost-signer/src/signing_round.rs:541-595 | one response for every listing of this signer, over the ordered lists of the request |
| SigningRounds.SigningRound.OnNonceRequest | frost-signer/src/signing_round.rs:514-539 | answers with freshly drawn nonces for all own keys |
| SigningRounds.SigningRound.ProcessMessage | frost-signer/src/signing_round.rs:355-396 | a handler followed by at most one announcement: new state and output are those of the specification `Process` |
| FrostCoordinators.SortedKeys | frost-coordinator/src/coordinator.rs:233-249 | the iteration order of the collected maps: every key once, ascending |
| FrostCoordinators.Coordinator.WaitForPublicShares | frost-coordinator/src/coordinator.rs:395-439 | with every retry for an odd key, ends where handling the received messages one by one ends, with an even key |
| FrostCoordinators.Coordinator.WaitForDkgEnd | frost-coordinator/src/coordinator.rs:441-457 | returns once every signer has ended, whatever its status, and posts nothing |
| FrostCoordinators.Coordinator.RunDistributedKeyGeneration | frost-coordinator/src/coordinator.rs:140-182 | a whole key generation takes the next id, posts under it one begin for every attempt and one private begin, ends where the one-message-at-a-time machine ends, and returns an even key |
| FrostCoordinators.Coordinator.CollectNonces | frost-coordinator/src/coordinator.rs:184-231 | returns with one response of as many ids as there are signers: the last one of each among the messages received by this call |
| FrostCoordinators.Coordinator.CollectSignatureShares | frost-coordinator/src/coordinator.rs:281-308 | waits for exactly the ids whose nonces were listed and keeps the first shares of each |
| FrostCoordinators.Coordinator.SignMessage | frost-coordinator/src/coordinator.rs:310-371 | refuses without a key and changes nothing; otherwise posts nonce requests under the key's id and then one request for the message it was given, over all collected nonces, whose aggregate is even for that message |
| FrostProtocol.InitialExists | frost-signer/src/signing_round.rs:709-751 | every valid configuration has an initial state, so there are runs |
| FrostSafety.InitialInv | frost-signer/src/signing_round.rs:709-751 | an initial state satisfies the global invariant |
| FrostSafety.StepKeepsInv | frost-coordinator/src/coordinator.rs:140-182 | every step of every party keeps the global invariant of log, read positions, rounds and coordinator |
| FrostTheorems.RunKeepsInv | frost-coordinator/src/coordinator.rs:395-457 | the invariant and the history of requests hold in every state of every run |
| FrostTheorems.NoBadStateChange | frost-signer/src/signing_round.rs:101-125 | in every run, over any commands and any number of odd attempts, no signer's state change ever fails |
| FrostTheorems.AttemptAgreement | frost-coordinator/src/coordinator.rs:387-439 | whenever the coordinator sums a key, even or odd, it sums one commitment of every key, all of the latest attempt, and every signer holds the same map |
| FrostTheorems.KeptKeyAgreed | frost-coordinator/src/coordinator.rs:387-439 | the same of the key that was kept, in every state from then to the next key generation |
| FrostTheorems.EndsAreComplete | frost-signer/src/signing_round.rs:492-512 | a signer announces an end only while it holds all commitments, and all shares, of the latest attempt and of no other |
| FrostTheorems.DeadlockFreedom | frost-coordinator/src/coordinator.rs:395-457 | no reachable state has everything read and posted while the coordinator waits in one of its four loops |
| FrostProgress.InternalStepsProgress | frost-coordinator/src/coordinator.rs:206-228 | every step inside a phase lowers a measure that is never negative |
| FrostProgress.WaitingCanMove | frost-coordinator/src/coordinator.rs:281-307 | while the coordinator waits some party can take a step that is no command |
| FrostProgress.EveryWaitEnds | frost-coordinator/src/coordinator.rs:206-228 | from a waiting state, a run without commands that is longer than the measure, or cannot go on, has left the phase |
| FrostTheorems.SigningConsistency | frost-signer/src/signing_round.rs:541-595 | every signature share is computed over the very lists of its request, with the nonces that the request lists for its signer |
| FrostTheorems.NoNonceReuse | frost-signer/src/signing_round.rs:514-539 | no published nonce is listed in two signature-share requests of a run |
| FrostTheorems.SharesCollectedForRequest | frost-coordinator/src/coordinator.rs:251-308 | after a signing the coordinator holds every signer's shares for its last request, whose lists are those of the nonces it holds |
| FrostCommands.CommandsAreServed | frost-coordinator/src/coordinator.rs:310-371 | from a command until the coordinator is ready again, in every run: a signing posts requests for the message asked for only, under the id of the key, and a key generation posts under the id that follows the one before |
| FrostCommands.SignedIsAsked | frost-coordinator/src/coordinator.rs:310-371 | when the coordinator is ready again it holds a share of every signer over the message that was asked for, for one request and the nonces it lists |
| FrostCommands.RequestListsMatch | frost-coordinator/src/coordinator.rs:233-279 | in every request of a run the signers are listed once each and ascending, and each nonce stands in the place of its key |
| SignerSafety.RunRests | frost-signer/src/signing_round.rs:355-396 | against any verified messages a signer rests only in Idle, DkgPublicGather, DkgPrivateDistribute or DkgPrivateGather, with maps of known keys |
| SignerSafety.EndsOncePerAttempt | frost-signer/src/signing_round.rs:355-396 | from one DkgBegin to the next, whatever arrives, at most one public end and then at most one private end |
| SignerSafety.EndsOnlyWhenFull | frost-signer/src/signer.rs:147-207 | each end is announced only with a commitment, or also a share set, of every key |
| SignerSafety.OthersAreIgnored | frost-signer/src/signer.rs:147-250 | a packet passes the check iff the party whose message it is signed it, the holder of the key for a share; any other is read and changes nothing |
| SignerSafety.RefusesIff | frost-signer/src/signing_round.rs:95-125 | a signer stops at a message iff a begin finds it in the wrong state; a refused public begin has reset it all the same |
| SignerSafety.AnswersCarryIds | frost-signer/src/signing_round.rs:355-396 | what is posted in answer to each message, for which keys and under which ids |
| SignerSafety.ResponsesCarryIds | frost-signer/src/signing_round.rs:541-595 | one response for each listing, under the ids and over the message of the request |
| ShareDelivery.OpenSource | frost-signer/src/signing_round.rs:412-457 | opens exactly the entries for own keys, keeps zero for the others and reports the source iff an entry is invalid |
| ShareDelivery.DkgEnded | frost-signer/src/signing_round.rs:412-457 | computes only when no source is invalid and otherwise reports exactly the invalid ones; aborts iff an entry is too short or of an unknown key |
| ShareDelivery.EntriesMean | frost-signer/src/signing_round.rs:412-457 | in terms of the primitives: a source is invalid iff an entry for an own key cannot be unsealed or is no scalar, the call aborts iff one is shorter than a nonce or of an unknown key, and entries for other keys count as zero |
| ShareDelivery.SealShares | frost-signer/src/signing_round.rs:636-674 | one sealed entry for every destination key |
| ShareDelivery.ShareOpens | frost-signer/src/util.rs:14-58 | what one owner seals for a key, the owner of that key opens, across the shift of key ids |
| ShareDelivery.SharesDelivered | frost-signer/src/signing_round.rs:412-457 | every signer reconstructs exactly the shares made for its keys, zero for the others, and no source is invalid |
| BufferReversal.SwapsReverse | sbtc-mini/contracts/clarity-bitcoin.clar:101-116 | sixteen swaps reverse every 32-byte buffer |
| BufferReversal.ReverseTwice | sbtc-mini/contracts/clarity-bitcoin.clar:113-116 | reversing twice gives the buffer back |
| BufferReversal.FastReverseAgrees | sbtc-mini/contracts/sbtc-testnet-debug-controller.clar:40-51 | the decode-and-encode form and the fold of swaps are the same function: byte reversal |
| BufferReversal.ShortInputPadded | sbtc-mini/contracts/sbtc-testnet-debug-controller.clar:40-42 | a half of fewer than 16 bytes is padded at its end first |
| TxWire.VarintReads | sbtc-mini/contracts/clarity-bitcoin.clar:64-85 | the shortest encoding of every 64-bit number is read back, to its exact end |
| TxWire.VarintTight | sbtc-mini/contracts/clarity-bitcoin.clar:64-85 | what a varint consumed is the encoding of its value iff the value does not fit a narrower form |
| TxWire.VarintIff | sbtc-mini/contracts/clarity-bitcoin.clar:64-85 | every varint that is there in full is read, minimal or not, and anything else is out of bounds |
| TxWire.HashReads | sbtc-mini/contracts/clarity-bitcoin.clar:121-130 | a hash written in reverse order is read as itself |
| TxWire.TxRoundTrip | sbtc-mini/contracts/clarity-bitcoin.clar:344-353 | `parse-tx` reads back every transaction within its bounds, whatever follows, and stops at its end |
| TxWire.WtxRoundTrip | sbtc-mini/contracts/clarity-bitcoin.clar:300-317 | the same for `parse-wtx` and the witness format |
| TxWire.TxReencodes | sbtc-mini/contracts/clarity-bitcoin.clar:344-353 | what `parse-tx` accepts is within the bounds, consumed no less than its serialization, and is that serialization iff every varint in it is minimal |
| TxWire.WtxReencodes | sbtc-mini/contracts/clarity-bitcoin.clar:300-317 | the same for `parse-wtx` |
| TxWire.WtxPrefixFree | sbtc-mini/contracts/clarity-bitcoin.clar:300-317 | no serialized transaction is the beginning of another |
| TxWire.HeaderReads | sbtc-mini/contracts/clarity-bitcoin.clar:365-378 | every 80-byte header is read back, both hashes reversed |
| TxWire.WitnessAborts | sbtc-mini/contracts/clarity-bitcoin.clar:235-253 | one witness aborts the call iff it announces more than eight items |
| TxWire.OnlyWitnessesAbort | sbtc-mini/contracts/clarity-bitcoin.clar:260-353 | `parse-tx` never aborts, and `parse-wtx` aborts iff its witnesses do |
| TxWire.TooManyWitnessesUnreachable | sbtc-mini/contracts/clarity-bitcoin.clar:220-261 | the documented error for too many witnesses is never returned |
| Merkle.HashPairs | sbtc-mini/ext/generate-proof.ts:24-33 | one level up: every pair hashed, the last odd node with itself |
| Merkle.MerkleTree.Generate | sbtc-mini/ext/generate-proof.ts:19-36 | appends all levels of the tree to the list it is given |
| Merkle.GetProofPath | sbtc-mini/ext/generate-proof.ts:93-114 | the loop over the layers returns the path that `PathClimbs` is about |
| Merkle.GetTxIdProofPath | sbtc-mini/ext/generate-proof.ts:82-90 | the path of the first equal leaf, and none iff there is no such leaf |
| Merkle.DepthBounds | sbtc-mini/ext/generate-proof.ts:19-36 | the depth d of a tree of n leaves has 2^(d-1) < n <= 2^d |
| Merkle.LayersShape | sbtc-mini/ext/generate-proof.ts:19-36 | the layers are one more than the depth and the last one is the root alone |
| Merkle.LevelHashes | sbtc-mini/ext/generate-proof.ts:24-33 | every node is the double hash of its left and its right child in this order, the last one of an odd level on both sides |
| Merkle.LayersStack | sbtc-mini/ext/generate-proof.ts:19-36 | each layer consists of the hashes of the one below |
| Merkle.PathClimbs | sbtc-mini/ext/generate-proof.ts:93-114 | the path of every leaf has exactly the depth of the tree and hashes up to its root, odd levels included |
| Merkle.VerifyIsClimb | sbtc-mini/contracts/clarity-bitcoin.clar:414-457 | the verifier accepts iff the proof is not empty, has the announced depth and climbs to the root; it errs iff the proof is shorter |
| Merkle.MerkleComplete | sbtc-mini/contracts/clarity-bitcoin.clar:450-457 | for 2 to 2^14 leaves the generated path of every leaf is accepted |
| Merkle.OneLeafRefused | sbtc-mini/contracts/clarity-bitcoin.clar:450-457 | a tree of one leaf is refused |
| Merkle.LeafReachedIsIndex | sbtc-mini/contracts/clarity-bitcoin.clar:440-457 | an index leads to leaf index mod 2^depth when there is one |
| Merkle.ClimbReachesLeaf | sbtc-mini/contracts/clarity-bitcoin.clar:423-438 | a proof that climbs to the root starts at the leaf its index leads to, or passes a pair that differs from the tree's and has its hash |
| Merkle.MerkleSound | sbtc-mini/contracts/clarity-bitcoin.clar:450-457 | what is accepted at the tree's depth is that leaf, or the proof yields two different 64-byte pairs with one hash |
| Spv.CommitmentIsLast | sbtc-mini/contracts/clarity-bitcoin.clar:463-472 | the script found is that of the last output with the commitment prefix, and empty iff there is none to find |
| Spv.CoinbaseParses | sbtc-mini/contracts/clarity-bitcoin.clar:558-559 | the outputs of a coinbase are found in either format, whatever bytes follow it |
| Spv.SegwitMinedIff | sbtc-mini/contracts/clarity-bitcoin.clar:499-569 | what is accepted, in bytes and hashes: a header whose reversed double hash is recorded at the height, a coinbase proven to its bytes 36 to 68, the witness commitment and the witness proof; the answer is the reversed double hash of the transaction |
| Spv.TxMinedComplete | sbtc-mini/contracts/clarity-bitcoin.clar:499-521 | every transaction of a recorded block of 2 to 2^14 transactions is accepted with its generated path |
| Spv.SegwitMinedComplete | sbtc-mini/contracts/clarity-bitcoin.clar:543-569 | end to end: with a coinbase whose last commitment is to the witness root and reserved value, every transaction is accepted and its witness id returned |
| Spv.CoinbaseSound | sbtc-mini/contracts/clarity-bitcoin.clar:510-521 | an accepted coinbase is the mined one, or the two nodes below the root, or comes with a collision |
| Spv.SoundButForTopPair | sbtc-mini/contracts/clarity-bitcoin.clar:543-569 | what is accepted against a mined block at its depth is the witness id its index leads to, or a collision is computed from the arguments, or the coinbase is the two nodes below the root |
| Spv.SegwitMinedSound | sbtc-mini/contracts/clarity-bitcoin.clar:543-569 | end to end: with a coinbase that is not 64 bytes long, what is accepted is that witness id, or a collision is computed from the arguments |
| SpvTopPair.TopPairAccepted | sbtc-mini/contracts/clarity-bitcoin.clar:510-569 | the guard is needed: a mined block and a 64-byte coinbase with which a transaction outside the block is accepted |
| SpvTopPair.NoCollision | sbtc-mini/contracts/clarity-bitcoin.clar:510-569 | and no two of the inputs hashed for that block and that proof collide |
| Spv.GenerateBlockHeader | sbtc-mini/ext/generate-proof.ts:117-134 | the filled array is the serialization of the header with that root and zeros elsewhere |
| HttpText.ReadBackIsAscii | yarpc/src/read_ex.rs:9-19 | text written as UTF-8 and read byte by byte is unchanged iff it is ASCII |
| HttpText.SplitOfJoin | yarpc/src/http/message.rs:35-66 | splitting undoes joining when no part has the separator |
| HttpText.DecimalParses | yarpc/src/http/message.rs:49-81 | a printed number is parsed back iff it fits the type |
| HttpMessage.Stream.ReadByte | yarpc/src/read_ex.rs:4-8 | the next byte, or the end of the stream as an error |
| HttpMessage.Stream.ReadStringUntil | yarpc/src/read_ex.rs:9-19 | everything up to the first occurrence, which is consumed too |
| HttpMessage.Stream.ReadExactVec | yarpc/src/read_ex.rs:20-24 | exactly the bytes asked for, or an error |
| HttpMessage.Stream.ReadMessage | yarpc/src/http/message.rs:25-60 | reads the message that stands at the position and stops behind it, with the errors of the specification |
| HttpMessage.OutStream.WriteMessage | yarpc/src/http/message.rs:61-87 | appends the message with every header once, in some order |
| HttpRoundTrip.MessageReads | yarpc/src/http/message.rs:25-87 | reading a written message gives fields, headers and content and stops exactly at its end, for every order of headers |
| HttpRoundTrip.RequestReads | yarpc/src/http/request.rs:34-59 | with well-formed headers a request comes back unchanged iff url and protocol are ASCII without space or carriage return |
| HttpExact.RequestRoundTrip | yarpc/src/http/request.rs:34-59 | a request comes back unchanged, to its exact end and whatever follows, iff that holds and every header is an ASCII name in lower case and a trimmed ASCII value without separators |
| HttpExact.ResponseRoundTrip | yarpc/src/http/response.rs:34-59 | a response comes back unchanged iff the same holds of protocol, phrase and headers |
| HttpRoundTrip.PhraseLosesWords | yarpc/src/http/response.rs:34-50 | only the first word of a phrase comes back |
| HttpWire.WireText | yarpc/src/http/message.rs:61-87 | the text of every ASCII message, character by character |
| HttpWire.GetText | relay-server/src/proxy_state.rs:10-20 | the text of the request the proxy sends for a read |
| HttpWire.PostText | relay-server/src/proxy_state.rs:22-30 | the text of the request it sends for a message |
| HttpWire.AnswerText | relay-server/src/server.rs:58-76 | the text of the server's answer |
| HttpWire.MessageExtends | yarpc/src/http/message.rs:25-60 | what is read does not depend on what follows |
| HttpWire.CutIsRefused | yarpc/src/http/message.rs:25-60 | no proper beginning of a well-formed message is read as a message |
| HttpWire.ColonNeeded | yarpc/src/http/message.rs:40-54 | a message with a header line without a colon is refused |
| HttpWire.LengthNeedsNumber | yarpc/src/http/message.rs:40-54 | so is one whose announced length is no number of the machine |
| Relay.MemState.constructor | relay-server/src/mem_state.rs:20-25 | a new state has an empty log and no cursors |
| Relay.MemState.Get | relay-server/src/mem_state.rs:28-40 | the first message the client has not read, moving its cursor alone; nothing, and no change, at the end of the log |
| Relay.MemState.Post | relay-server/src/mem_state.rs:41-44 | appends to the log and moves no cursor |
| Relay.Server.Update | relay-server/src/server.rs:58-76 | serves exactly the request that stands in the stream and writes its answer; an error leaves the log as it was |
| Relay.Server.RawCall | relay-server/src/server.rs:77-85 | bytes behind the request are an error, found only when the request has been served |
| Relay.RawCallTakesAll | relay-server/src/server.rs:77-85 | a buffer that starts with a written request: the request is served, and the answer is an error iff bytes are left over or serving fails |
| Relay.NoQueryRefused | relay-server/src/server.rs:58-76 | a read without a query is refused and changes nothing |
| Relay.Server.Call | relay-server/src/server.rs:88-97 | a call through the text of request and response |
| Relay.ProxyState.Get | relay-server/src/proxy_state.rs:10-20 | the content of the server's answer to the request for an id |
| Relay.ProxyState.Post | relay-server/src/proxy_state.rs:22-30 | the server's acknowledgement of a posted message |
| Relay.ServedIdExact | yarpc/src/http/url.rs:7-17 | the server sees the id the proxy was given iff it is ASCII without space, carriage return or ampersand |
| Relay.NonAsciiRenamed | yarpc/src/http/url.rs:7-17 | an id with other characters reaches the server as another id |
| Relay.ProxyGetIsGet | relay-server/src/proxy_state.rs:10-20 | for such an id a proxied read answers and changes the log's state as a direct one |
| Relay.ProxyPostIsPost | relay-server/src/proxy_state.rs:22-30 | a proxied post is a direct one |
| Relay.ProxyRefinesMem | relay-server/src/proxy_state.rs:9-31 | over every sequence of posts and reads proxy and log give the same replies and the same state |
| Relay.ReadsArePrefix | relay-server/src/mem_state.rs:27-45 | what a client was delivered is a prefix of the messages posted, in order, without gaps or repetitions |
| Relay.OthersDoNotMatter | relay-server/src/mem_state.rs:27-45 | a client is answered as if the others did not exist |
| Relay.HttpNetListen.Poll | frost-signer/src/net.rs:57-80 | pushes at most one message |
| Relay.HttpNetListen.NextMessage | frost-signer/src/net.rs:81-83 | takes the newest message of the queue |
| Relay.HeardInOrder | frost-signer/src/signer.rs:113-145 | polling and taking in turn hears the decodable messages of the log in log order, although the queue is last in, first out |
| Relay.TwoPollsReverse | frost-signer/src/net.rs:57-83 | two polls before a look would reverse two messages |
| PegQueue.SqlitePegQueue.constructor | stacks-coordinator/src/peg_queue/sqlite_peg_queue.rs:176-200 | a new database has no entry and no height |
| PegQueue.SqlitePegQueue.FromConnection | stacks-coordinator/src/peg_queue/sqlite_peg_queue.rs:61-80 | an explicit start makes the next poll begin at that height, a first start at the current one, any other start changes nothing; heights begin at 1 |
| PegQueue.SqlitePegQueue.InsertOps | stacks-coordinator/src/peg_queue/sqlite_peg_queue.rs:82-120 | every operation of the answer is in the table and new, every other entry is as it was; only a failure of the node other than an unknown height is an error |
| PegQueue.SqlitePegQueue.PollHeight | stacks-coordinator/src/peg_queue/sqlite_peg_queue.rs:261-266 | unless the node fails every peg-in and peg-out of the height is in the table and new, every other entry is as it was, and the height is recorded |
| PegQueue.SqlitePegQueue.Poll | stacks-coordinator/src/peg_queue/sqlite_peg_queue.rs:247-268 | on success everything reported above the recorded height and up to the tip is in the table and new, every other entry is as it was and the tip is recorded; it fails iff the node does at one of these heights, and has then done the same below the first of them |
| PegQueue.SqlitePegQueue.NextOp | stacks-coordinator/src/peg_queue/sqlite_peg_queue.rs:234-245 | the new entry that is first by height and text becomes pending; none iff there is no new entry |
| PegQueue.SqlitePegQueue.Acknowledge | stacks-coordinator/src/peg_queue/sqlite_peg_queue.rs:270-281 | changes the status of that entry only, and fails iff there is none |
| PegQueueRuns.StepKeepsInv | stacks-coordinator/src/peg_queue/sqlite_peg_queue.rs:121-134 | every careful start, poll cut anywhere at any tip, hand-out, crash and acknowledgement keeps the invariant |
| PegQueueRuns.CarefulRunsHandOutOnce | stacks-coordinator/src/coordinator.rs:118-142 | in every run of careful steps, with any crashes, restarts and tips, each key is handed out at most once and heights never decrease |
| PegQueueRuns.NeverRepeatsIff | stacks-coordinator/src/peg_queue/sqlite_peg_queue.rs:234-268 | behind a careful run, for any next step: no continuation hands an operation out twice iff the step is careful |
| PegQueueRuns.CanRepeat | stacks-coordinator/src/peg_queue/sqlite_peg_queue.rs:247-268 | an operation handed out above the recorded height is handed out again behind one restart and one poll |
| PegQueueRuns.HandedOutOnceInOrder | stacks-coordinator/src/coordinator.rs:118-142 | in every run without explicit heights on restarts and with tips that never decrease each key is handed out at most once, heights never decrease, and no entry above the recorded height has left New |
| PegQueueRuns.LowerTipRepeats | stacks-coordinator/src/peg_queue/sqlite_peg_queue.rs:247-268 | a run from a new database, without explicit heights, that hands an operation out twice once the tip goes down |
| PegQueueRuns.PendingStays | stacks-coordinator/src/peg_queue/sqlite_peg_queue.rs:202-206 | although inserting replaces, no step makes an entry New again that has left New and lies at or below the recorded height |
| PegQueueRuns.PendingStaysForever | stacks-coordinator/src/peg_queue/sqlite_peg_queue.rs:202-206 | in runs with steady tips an entry that has left New never returns to it |
| PegQueueRuns.NothingIsLost | stacks-coordinator/src/peg_queue/sqlite_peg_queue.rs:247-268 | behind any careful run: an operation reported at a height that a successful poll covers has an entry for ever, which stays new until it is handed out, marked or acknowledged itself, and some careful continuation hands it out |
| PegQueueRuns.ExplicitStartSafeIff | stacks-coordinator/src/peg_queue/sqlite_peg_queue.rs:72-78 | behind any careful run, no continuation of a start at a given height hands an operation out twice iff everything handed out lies below that height |
| PegQueueRuns.ExplicitStartRepeats | stacks-coordinator/src/peg_queue/sqlite_peg_queue.rs:72-78 | a run from a new database that hands an operation out, is started at its height and hands it out again |
| PegQueue.ProcessQueue | stacks-coordinator/src/coordinator.rs:128-142 | hands out new entries once each and in order until none is left or one fails, and changes nothing else |
| CoinSelection.FulfillPegOut | stacks-coordinator/src/bitcoin_wallet.rs:46-128 | read off the listed outputs: the transaction spends exactly the fulfilment output and the shortest prefix of the others that covers the amount, each under its own outpoint, and pays the withdrawal data, the amount and a change that is not dust; an error is that of the first such output that cannot be spent, or names what is missing; it succeeds iff the listed outputs allow it |
| CoinSelection.EnoughIsShortest | stacks-coordinator/src/bitcoin_wallet.rs:62-82 | the number of outputs taken is the least that covers the amount |
| CoinSelection.ChosenIs | stacks-coordinator/src/bitcoin_wallet.rs:62-82 | chosen are the fulfilment output wherever it stands and the shortest sufficient prefix of the others |
| CoinSelection.ChosenInOrder | stacks-coordinator/src/bitcoin_wallet.rs:62-82 | the chosen outputs keep the order in which they were listed |
| CoinSelection.SucceedsIff | stacks-coordinator/src/bitcoin_wallet.rs:62-96 | success iff the fulfilment output is there with the right amount, the others cover the amount and what is needed can be decoded |
| CoinSelection.ValueIsAccountedFor | stacks-coordinator/src/bitcoin_wallet.rs:98-127 | what goes in is what comes out plus the fulfilment fee and a remainder below dust, and one output fewer would not do |
| Registry.SbtcRegistry.constructor | sbtc-mini/contracts/sbtc-registry.clar:21-41 | the initial variables and empty maps |
| Registry.SbtcRegistry.InsertWithdrawalRequest | sbtc-mini/contracts/sbtc-registry.clar:127-141 | a protocol caller gets the next id, and one more request is pending |
| Registry.SbtcRegistry.GetAndSettlePendingWithdrawalRequest | sbtc-mini/contracts/sbtc-registry.clar:151-160 | settles one pending request, or the first error in the order of the checks and no change |
| Registry.SbtcRegistry.InsertCycleSbtcWallet | sbtc-mini/contracts/sbtc-registry.clar:84-90 | both maps get the pair or neither changes, and they do iff cycle and wallet are new |
| Registry.SbtcRegistry.AssertNewBurnWtxidAndHeight | sbtc-mini/contracts/sbtc-registry.clar:67-74 | an id is marked only when it is also confirmed |
| Registry.SbtcRegistry.SetBurnchainConfirmationsRequired | sbtc-mini/contracts/sbtc-registry.clar:60-65 | at least one confirmation |
| Registry.SbtcRegistry.SetPegState | sbtc-mini/contracts/sbtc-registry.clar:118-124 | only for protocol callers |
| Registry.SbtcToken.ProtocolLock | sbtc-mini/contracts/sbtc-token.clar:28-34 | an amount the owner has leaves its tokens and arrives among its locked ones; nobody else's balances change |
| Registry.SbtcToken.ProtocolUnlock | sbtc-mini/contracts/sbtc-token.clar:37-43 | an amount the owner has locked arrives among its tokens; nobody else's balances change |
| Registry.SbtcToken.ProtocolBurnLocked | sbtc-mini/contracts/sbtc-token.clar:62-67 | an amount the owner has locked is gone and no liquid balance changes |
| Registry.SbtcWithdrawalRequestStx.constructor | sbtc-mini/contracts/sbtc-withdrawal-request-stx.clar:15 | no operator has an allowance |
| Registry.SbtcWithdrawalRequestStx.SetAllowance | sbtc-mini/contracts/sbtc-withdrawal-request-stx.clar:22-28 | sets the allowance of another principal only |
| Registry.SbtcWithdrawalRequestStx.IsAllowedOperatorAndDeduct | sbtc-mini/contracts/sbtc-withdrawal-request-stx.clar:30-42 | an operator needs an allowance of the amount, which is used up unless it is unlimited |
| Registry.SbtcWithdrawalRequestStx.RequestWithdrawal | sbtc-mini/contracts/sbtc-withdrawal-request-stx.clar:44-55 | on success the allowance is deducted, the amount has moved from the sender's tokens to its locked ones and the request is inserted; on any error everything is as it was |
| Registry.RegisterWithdrawalRequest | sbtc-mini/contracts/sbtc-withdrawal-request-btc.clar:23-59 | on success the transaction is marked, the amount has moved from the sender's tokens to its locked ones and the request has its own expiry; on any error everything is as it was |
| Registry.ReclaimLockedTokens | sbtc-mini/contracts/sbtc-withdrawal-request-reclaim.clar:6-17 | on success the request had expired and its sender, nobody else, has its value back among its tokens; on any error everything is as it was |
| Registry.RelayWithdrawalFulfilment | sbtc-mini/contracts/sbtc-withdrawal-verifier.clar:20-61 | on success the transaction passed the mined check below the request's height, the value is gone from the sender's locked tokens and no liquid balance changed; on any error everything is as it was |
| RegistryInvariant.UnsettledIsLocked | sbtc-mini/contracts/sbtc-token.clar:37-43 | the value of an unsettled request is locked for its sender and the counter is positive |
| RegistryInvariant.ReclaimSucceedsIff | sbtc-mini/contracts/sbtc-withdrawal-request-reclaim.clar:6-17 | a reclaim succeeds iff the request is there, unsettled and expired and the caller belongs to the protocol; unlocking never fails |
| RegistryLaws.FulfilAnswers | sbtc-mini/contracts/sbtc-withdrawal-verifier.clar:33-60 | the answer to every fulfilment with its errors in order: it succeeds iff the mined check passes, the request is pending, the transaction is new and confirmed, below the request's height and pays the destination enough |
| RegistryLaws.FulfilledIsMined | sbtc-mini/contracts/sbtc-btc-tx-helper.clar:12-43 | soundness: what fulfils a request against the recorded header of a mined block is the transaction of that block the index leads to, or two inputs with one hash are computed from the arguments |
| RegistryLaws.FulfilledPays | sbtc-mini/contracts/sbtc-withdrawal-verifier.clar:7-18 | and its outputs with the script of the destination are worth the value of the request |
| RegistryLaws.MinedFulfilsIff | sbtc-mini/contracts/sbtc-withdrawal-verifier.clar:33-60 | completeness: every transaction of a recorded block, with its generated proofs, fulfils a request iff the state allows it and its outputs pay enough |
| RegistryLaws.PaysIff | sbtc-mini/contracts/sbtc-withdrawal-verifier.clar:7-18 | the sum compared with the value counts exactly the outputs with the script, each once |
| RegistryLaws.ScriptIs | sbtc-mini/contracts/sbtc-btc-tx-helper.clar:80-85 | the script of a destination byte by byte, and which destinations have none |
| RegistryLaws.RequestSucceedsIff | sbtc-mini/contracts/sbtc-withdrawal-request-stx.clar:44-55 | the answer to every request with its errors in order, and what a success takes, locks and records |
| RegistryLaws.RegisterSucceedsIff | sbtc-mini/contracts/sbtc-withdrawal-request-btc.clar:23-59 | when a burnchain request succeeds, and what it then takes, locks, marks and records |
| RegistryLaws.ReclaimPays | sbtc-mini/contracts/sbtc-withdrawal-request-reclaim.clar:6-17 | a reclaim gives the sender exactly the value of the request and nobody else anything |
| RegistryLaws.FulfilBurns | sbtc-mini/contracts/sbtc-withdrawal-verifier.clar:59-60 | a fulfilment burns exactly the value among the sender's locked tokens and leaves all liquid balances |
| RegistryLaws.AllowanceBounds | sbtc-mini/contracts/sbtc-withdrawal-request-stx.clar:30-42 | over every run between two settings: what an operator's successful requests took and what is left add up to the allowance, and the largest one is never used up |
| RegistryInvariant.StepKeepsInv | sbtc-mini/contracts/sbtc-registry.clar:60-160 | every call, through the contracts or directly to the registry and by any caller, keeps the registry's invariant |
| RegistryInvariant.StepKeepsToken | sbtc-mini/contracts/sbtc-token.clar:28-67 | every call besides a direct insertion or settlement keeps the balance of locked tokens and requests |
| RegistryInvariant.EveryRun | sbtc-mini/contracts/sbtc-registry.clar:60-160 | whoever called what: ids are those below the nonce, the counter counts the unsettled ids, the wallet maps are inverses, and no transaction was accepted twice |
| RegistryInvariant.LockedIsOwed | sbtc-mini/contracts/sbtc-withdrawal-request-reclaim.clar:6-17 | while requests go through the contracts, every locked balance is the value of the owner's unsettled requests, and the totals unlocked and burned are those of the requests reclaimed and fulfilled |
| RegistryLaws.WealthConserved | sbtc-mini/contracts/sbtc-token.clar:28-67 | over every run without other transfers: each owner's tokens, locked tokens and fulfilled requests add up to what it started with |
| RegistryInvariant.NeverUnderflows | sbtc-mini/contracts/sbtc-registry.clar:156 | the pending counter never underflows |
| RegistryInvariant.SettledOnce | sbtc-mini/contracts/sbtc-registry.clar:151-160 | a settled request keeps its state for ever and cannot be settled again |
| RegistryInvariant.FailureLeavesNoTrace | sbtc-mini/contracts/sbtc-registry.clar:143-149 | a call that does not return ok changes nothing |
| RegistryInvariant.RollbackNeeded | sbtc-mini/contracts/sbtc-withdrawal-request-reclaim.clar:6-17 | without the rollback a reclaim before expiry would break the invariant |

## Left out

- Spv.SegwitMinedSound: stated for the real depth of the mined tree and for a coinbase of any
  length but 64, for which it is false (`SpvTopPair.TopPairAccepted`).
- The four fixed-width readers are one function with a width, and a
  reader takes buffer and position where the contract passes a tuple of both.
- HttpMessage.Stream.ReadExactVec: the allocation of the announced length is not modelled.
- PegQueueRuns.HandedOutOnceInOrder: heights are unbounded, where the table stores 64-bit
  integers; an operation marked by a crash between marking and handing out is lost, as in the
  code.
- CoinSelection.FulfillPegOut: sums are unbounded; the code's 64-bit sum cannot overflow while
  the amount plus the largest output is below 2^64.
- Registry.RegisterWithdrawalRequest: whether its transaction was mined and what its unlock
  script says are inputs; the script's extraction is a stand-in in the repository. Token
  supplies and the sponsored form of a request are not modelled.
- wsts polynomials, Schnorr and ECDSA signatures, SHA-256 and AES-GCM, which are not in the
  repository: they are symbols or function parameters.
- Coordinator time-outs and back-off inside a run of the protocol; the blocking methods model
  them as the end of their input.
- The fixed coinbase of `generateProofs`: an instance of `SegwitMinedComplete`.
- The hand-off, deposit and stacking-pool contracts, wallet voting and Taproot helpers.
- HTTP clients, sockets, threads, SQLite itself, command lines, configuration and the Swagger
  API: plumbing.
- `paginate_items`, retry counters and poll back-off: they would add only easy members.
