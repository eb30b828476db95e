# Verified models of a Stellar alerting platform

This Dafny project models twelve components of the platform and proves what they promise.
Run `dafny verify dfyconfig.toml` to check all of it.

Every component has a module of plain functions that say what its code computes, or, where
several callers act on shared stores, a protocol whose steps are the atomic operations of
the stores. Theorems about whole runs are proved there. Where the code works by updating
fields and loop variables, a class or method with the same fields and loops is proved to do
exactly what the functions say, or to be a run of the protocol.

| component | files | main results |
|---|---|---|
| StrKey codec | `JsBits`, `Base32`, `Crc16`, `Crc16Bursts`, `Decimal`, `StrKey`, `StrKeyErrors`, `StrKeyReasons` | the 32-bit shift and mask code against bit strings; the checksum as polynomial division; exactly the encodings are accepted; exactly which errors slip through, none of them within two neighbouring characters, and with which reason the others are refused |
| Merkle proofs | `Merkle`, `MerkleBinding`, `MerkleRoots` | completeness; soundness as "equal, or here is a collision", with an arbitrary hash of 32 bytes; exactly which leaf lists share a root |
| Horizon streams | `HorizonPool`, `HorizonStream`, `HorizonFailover` | gap-free, duplicate-free delivery over all interleavings of streams, exactly when none lags more than 10,000 records; which node is used, and that a session leaves a failed one |
| Delivery gate | `Delivery`, `DeliveryOutcomes`, `DeliveryCode` | at most one successful dispatch, each single assumption shown to be needed; a finished delivery is not sent |
| License expressions | `License`, `LicenseGrammar`, `LicenseExact`, `LicenseErrors`, `LicensePolicy`, `LicenseVerdict` | the parser accepts exactly the grammar, which is unambiguous; exactly which trees survive printing and parsing; which error is reported; exceptions and verdicts of the policy |
| Wallet leases | `WalletLock`, `WalletLockCode` | disjoint leases; a lease is honoured for its lifetime and no longer; exactly what an answer means when replies can be lost |
| Database failover | `DbFailover`, `DbFailoverModes`, `DbFailoverCode` | exactly when no mutation is lost, doubled or overtaken; when normal operation resumes; size of the buffer |
| Alert registry | `AlertRegistry`, `AlertRegistryRuns`, `AlertRegistryAuthority`, `AlertRegistryCode` | multisig governance in every reachable state; which proposals can still be executed; who may do what, by what was done before |
| Contract router | `ContractRouter`, `ContractRouterCode` | exactly how often an event is dispatched, with one cursor per contract and a head per request batch |
| Cross-region merge | `MultiRegionSync` | replicas of one set of states converge if and only if one of them beats all others; of all parts of the set, if and only if the states are compatible two by two |
| Rate budgets | `RateBudget`, `RateBudgetCode` | quantitative bounds over any stretch of time, and when they are reached |
| Refresh tokens | `SessionManager`, `SessionOverlap`, `SessionCode` | one open token per family over all runs of single rotations; reuse ends a family; for rotations that overlap, exactly which can still succeed and how many tokens are open |

Hashes, clocks, the outcome of every Redis, database, RPC and handler operation, and
everything random are parameters. Most operations on Redis can work, fail, or be carried out
with their answer lost; the theorems say which of these they tolerate.

Where code and comments of the repository disagree, the model follows the code:

- `getActiveNode` falls back to the node with fewest failures; its comment says lowest latency
  or primary (`apps/api/src/lib/horizon-pool.ts:181-205`).
- `deliverWithIdempotency` does not record a failed attempt as failed, as its comment has it
  (`apps/api/src/lib/delivery.ts:394-449`).
- `recover` routes reads to the replica once more, where the header has normal operation resume
  (`apps/api/src/lib/db-failover.ts:176-190`); `DbFailover.ReadsStayOnReplica` says what follows.
- `set_signers` promises distinct approvals but counts repeated signers
  (`contracts/alert_registry/src/lib.rs:171-187`); see `AlertRegistryRuns.OpenedExecutable`.
- The comment of `evaluateLicensePolicy` describes `A OR B` as satisfied by either side; a denied
  or unknown side is reported all the same (`scripts/release-report.ts:261-326`).
- `replicateNonce` replicates nothing: each region keeps its own log
  (`apps/api/src/lib/multiRegionSync.ts:126-139`).
- `rotateRefreshToken` promises that a consumed token ends its family, but its transaction does not
  look again at what was read before (`apps/api/src/lib/session-manager.ts:121-252`):
  `SessionOverlap.RotatedAgainExactly` says when a token is rotated twice all the same.

## Model

| member | source | states |
|---|---|---|
| Base32.Base32Decode | packages/shared/src/strkey.ts:83-106 | the bit-buffer loop gives the bytes spelled by the five-bit groups of the text, and null exactly for a character outside the alphabet or left-over bits that are not zero |
| Base32.Base32Encode | packages/shared/src/strkey.ts:108-126 | the bit-buffer loop spells the bytes in five-bit groups, the last one padded with zeros |
| Base32.PushQuintet | packages/shared/src/strkey.ts:83-106 | the decoding buffer stays below 2^12, so the 32-bit shifts are exact, and gains the five bits of the character |
| Base32.PushByte | packages/shared/src/strkey.ts:108-126 | the encoding buffer stays in range and gains the eight bits of the byte |
| Base32.DecodeEncode | packages/shared/src/strkey.ts:83-126 | decoding undoes encoding for every byte string |
| Base32.EncodeDecode | packages/shared/src/strkey.ts:83-126 | encoding undoes decoding exactly when 5 times the length leaves a remainder below 5 modulo 8 |
| Base32.AlphabetOrder | packages/shared/src/strkey.ts:64 | the alphabet of section 6 of RFC 4648: A to Z, then 2 to 7 |
| Crc16.Crc16Xmodem | packages/shared/src/strkey.ts:128-137 | the nested shift-and-xor loops compute the remainder of the message polynomial times x^16 by x^16 + x^12 + x^5 + 1 |
| Crc16.RegisterStep | packages/shared/src/strkey.ts:128-137 | one turn of the inner loop multiplies the register by x modulo the generator |
| Crc16Bursts.BodyBurst | packages/shared/src/strkey.ts:128-137 | two messages that differ within 16 consecutive bits have different checksums |
| Crc16Bursts.BoundaryBurst | packages/shared/src/strkey.ts:139-151 | a difference of up to 12 bits across the border to the checksum, whose low byte is stored first, is never cancelled by it |
| Crc16Bursts.BurstDetected | packages/shared/src/strkey.ts:128-174 | two sealed byte strings that differ within 12 consecutive bits anywhere are equal |
| Crc16Bursts.ErrorExactly | packages/shared/src/strkey.ts:128-151 | whether a corruption of a sealed byte string is noticed depends on the corruption alone: the result is sealed if and only if the bits that changed are themselves a codeword |
| StrKey.EncodeStrKey | packages/shared/src/strkey.ts:139-151 | version byte, payload and the little-endian checksum of both, in base32 |
| StrKey.DecodeStrKey | packages/shared/src/strkey.ts:153-174 | the bytes of the text, or the first reason to refuse it; `StrKeyReasons` says which reason each text gets |
| StrKey.VersionBytes | packages/shared/src/strkey.ts:67-71 | the three version bytes are the shifted constants of the source |
| StrKey.EncodedAccepted | packages/shared/src/strkey.ts:139-174 | every encoding with the version byte and payload size of a kind is accepted for it and gives the sealed bytes back |
| StrKey.AcceptedEncoded | packages/shared/src/strkey.ts:139-174 | every accepted text is the encoding of the payload it carries |
| StrKey.DecodeExactly | packages/shared/src/strkey.ts:153-174 | a text is accepted for a kind if and only if it encodes some payload of the right size under its version byte |
| StrKey.EncodedUnique | packages/shared/src/strkey.ts:139-151 | version byte and payload are determined by the text |
| StrKeyErrors.TwoCharacterErrors | packages/shared/src/strkey.ts:83-174 | any change of a valid StrKey confined to two neighbouring characters is rejected: one replaced character, a transposition, or more |
| StrKeyErrors.ThreeCharacterErrors | packages/shared/src/strkey.ts:83-174 | two is the most that holds: every StrKey has a valid neighbour that differs in three neighbouring characters |
| StrKeyErrors.ErrorsExactly | packages/shared/src/strkey.ts:83-174 | which corruptions of a valid StrKey are accepted: exactly those to characters of the alphabet whose pattern of changed bits leaves version and padding alone and is a codeword, whatever the StrKey |
| StrKeyReasons.ReasonExactly | packages/shared/src/strkey.ts:153-161 | for every input and kind: not_a_string, empty and wrong_length by the input alone, and invalid_base32 exactly for the right length with a character outside the alphabet or left-over bits that are not zero |
| StrKeyReasons.AnswerOfBits | packages/shared/src/strkey.ts:161-173 | for the right length, alphabet and padding: wrong_version_byte by the first eight bits, else invalid_checksum unless the bits are a codeword of the cyclic code, else accepted |
| StrKeyReasons.CorruptionReason | packages/shared/src/strkey.ts:153-173 | the answer to every corruption of a valid StrKey of the same length, by its error pattern: padding before version byte before checksum |
| StrKeyReasons.OtherKindReason | packages/shared/src/strkey.ts:158-166 | a valid StrKey read as another kind gives wrong_version_byte, or wrong_length where the lengths differ |
| StrKeyReasons.MistypedReason | packages/shared/src/strkey.ts:167-170 | a change within two neighbouring characters, behind the version byte and before the last character, gives invalid_checksum |
| StrKeyReasons.FirstCharacter | packages/shared/src/strkey.ts:66-71 | public keys begin with G, contract ids with C, muxed addresses with M |
| Decimal.BytesToDecimalString | packages/shared/src/strkey.ts:176-191 | the digit-array loop gives the decimal numeral of the big-endian value, for any length |
| Decimal.NumeralRoundTrip | packages/shared/src/strkey.ts:176-191 | reading the numeral of a number gives the number |
| Decimal.NumeralShape | packages/shared/src/strkey.ts:176-191 | numerals are digits only, and start with 0 only for zero |
| StrKey.ParseMuxedAddress | packages/shared/src/strkey.ts:292-301 | account key and decimal id of an accepted muxed address, and null for anything else |
| StrKey.MuxedRoundTrip | packages/shared/src/strkey.ts:292-301 | the muxed address of an account and a 64-bit id parses back to both, and the account key is valid |
| StrKey.MuxedUnique | packages/shared/src/strkey.ts:292-301 | account key and id together determine the muxed address |
| Merkle.BuildMerkleTree | packages/shared/src/merkle.ts:138-159 | the loop builds every layer up to the root, an odd last node paired with itself; no leaves is an error |
| Merkle.GenerateMerkleProof | packages/shared/src/merkle.ts:161-180 | the siblings on the way from a leaf to the root, or an error for an index out of range |
| Merkle.ComputeMerkleRoot | packages/shared/src/merkle.ts:94-118 | folds the path over the leaf hash, or names the first malformed hash |
| Merkle.VerifyMerkleProof | packages/shared/src/merkle.ts:120-136 | accepts exactly when everything is well formed and the fold is the expected root |
| Merkle.Completeness | packages/shared/src/merkle.ts:120-180 | for every leaf list and index the generated path verifies, and is as long as the number of ceiling-halvings to 1 |
| Merkle.SoundnessAtPosition | packages/shared/src/merkle.ts:94-180 | a proof with length and sides of position i that folds to the root proves leaf i with the tree's own siblings, or shows two inputs with one digest |
| MerkleBinding.PayloadSound | packages/shared/src/merkle.ts:75-136 | a payload whose proof verifies, of any length and sides, is one of the leaves, or a collision is shown: what the 0x00 and 0x01 prefixes are for |
| MerkleBinding.RootBindsLeaves | packages/shared/src/merkle.ts:138-159 | leaf lists of one length with one root are equal, or the trees collide |
| MerkleRoots.RootsExactly | packages/shared/src/merkle.ts:138-159 | two leaf lists of any lengths have one root for every hash when they are alike, that is, show the same leaf at the end of every path down trees of one height; and one root means that they are alike, or two different inputs with one digest are named |
| MerkleRoots.AlikeSameLength | packages/shared/src/merkle.ts:138-159 | lists of one length are alike only when they are equal |
| MerkleBinding.RepeatedLastLeaf | packages/shared/src/merkle.ts:144-155 | a case of it: repeating the last of an odd number of leaves keeps the root |
| Merkle.SmallRoots | packages/shared/src/merkle.ts:69-79 | what is hashed, byte for byte, for one, two and three leaves: leaves behind 0x00, nodes behind 0x01, the odd node twice |
| Merkle.StepHashed | packages/shared/src/merkle.ts:103-115 | a proof step hashes the sibling on its own side; no leaf input is a node input |
| Merkle.FoldErrors | packages/shared/src/merkle.ts:94-108 | a malformed leaf hash is an error, else a malformed sibling hash, else none |
| HorizonPool.HorizonPool.MarkNodeFailure | apps/api/src/lib/horizon-pool.ts:163-179 | one failure, or all that are allowed at once for a rate limit; unknown nodes are ignored; health follows the count |
| HorizonPool.HorizonPool.ProbeNode | apps/api/src/lib/horizon-pool.ts:84-132 | an answer resets the node, a failure counts as in markNodeFailure |
| HorizonPool.HorizonPool.GetActiveNode | apps/api/src/lib/horizon-pool.ts:186-206 | the first healthy endpoint, or else the first of those with fewest failures |
| HorizonPool.FailoverRotates | apps/api/src/lib/horizon-pool.ts:163-206 | when the chosen node has used up its failures and another is healthy, the next choice is a different one, later in the order |
| HorizonFailover.OpenedOnChoice | apps/api/src/lib/horizon-pool.ts:230-306 | over all events of a session and its pool: a stream is opened only by a reconnect of an open session, on the first healthy endpoint or else the first with fewest failures |
| HorizonFailover.HealthExactly | apps/api/src/lib/horizon-pool.ts:84-179 | in every run an endpoint is healthy if and only if its failures since it last answered a probe, a rate limit counting as all that are allowed, are fewer than allowed |
| HorizonFailover.FailsOver | apps/api/src/lib/horizon-pool.ts:268-306 | after an error that uses up a node, whatever happens meanwhile, the next stream is on a healthy and different node, if any endpoint is healthy then and that node has answered no probe |
| HorizonFailover.FailsOverAtOnce | apps/api/src/lib/horizon-pool.ts:268-306 | in particular when the reconnect follows the error and another endpoint was healthy |
| HorizonStream.StreamSession.ConnectToNextNode | apps/api/src/lib/horizon-pool.ts:230-306 | opens a stream at the shared cursor on the node the pool chooses, or counts a failure of that node and schedules one reconnect |
| HorizonStream.StreamSession.OnMessage | apps/api/src/lib/horizon-pool.ts:244-267 | drops seen tokens, otherwise remembers the token, moves the cursor, evicts the oldest of more than 10,000 and delivers; a record without token is always delivered and leaves no trace |
| HorizonStream.StreamSession.OnError | apps/api/src/lib/horizon-pool.ts:268-287 | counts a failure of the stream's own node, closes the active stream and schedules at most one reconnect |
| HorizonStream.StreamSession.OnTimer | apps/api/src/lib/horizon-pool.ts:280-283 | clears the schedule and connects to the node the pool chooses then |
| HorizonStream.StreamSession.CloseSession | apps/api/src/lib/horizon-pool.ts:310-323 | closes for good: no stream, no timer, no tokens |
| HorizonStream.MessageExactly | apps/api/src/lib/horizon-pool.ts:244-267 | what one record does, by its distance from the newest: delivered, dropped, or, past 10,000, delivered again with the cursor going back |
| HorizonStream.DeliveryExactly | apps/api/src/lib/horizon-pool.ts:218-324 | in every interleaving of live and stale streams the delivered records are a contiguous, duplicate-free stretch of the log from the initial cursor, if and only if no record came more than 10,000 behind |
| HorizonStream.SeenSetExactly | apps/api/src/lib/horizon-pool.ts:248-259 | the seen-set is exactly the last min(n, 10,000) tokens delivered |
| HorizonStream.NeverStalls | apps/api/src/lib/horizon-pool.ts:218-324 | an open session always has a stream or a pending reconnect, never both |
| HorizonStream.ClosedSilent | apps/api/src/lib/horizon-pool.ts:310-323 | after closing nothing is delivered and no stream is opened |
| Delivery.AttemptNumbers | apps/api/src/lib/delivery.ts:218-294 | in every run whatever the attempts of a key are numbered 1 to n without repeats |
| Delivery.AtMostOneDispatch | apps/api/src/lib/delivery.ts:398-449 | over any number of interleaved calls at most one provider request succeeds and one call is past the gate, if gates outlive their holders, acquiring does not fail open, and nothing fails between dispatch and its record |
| Delivery.TwoDispatches | apps/api/src/lib/delivery.ts:110-137 | each of these assumptions is needed: a run that breaks any single one, by an expiring gate, a fail-open, a failing mark or a crash before it, and keeps all others, can have two successful requests |
| DeliveryOutcomes.LookExactly | apps/api/src/lib/delivery.ts:165-184 | a look at the delivery row ends a call without a request if and only if the read works and finds delivered, exhausted, suppressed or skipped |
| DeliveryOutcomes.FinishedNotSent | apps/api/src/lib/delivery.ts:218-242 | in every run a call that has read such a row, at any of its looks, never sends a request and never answers that it did |
| DeliveryOutcomes.OutcomeExactly | apps/api/src/lib/delivery.ts:398-449 | what an undisturbed call does in every state: skipped and nothing changed for a finished, delivered or gated delivery; otherwise one attempt under the next number, sent, marked and the gate given back, or left pending when the provider fails |
| DeliveryOutcomes.LostExactly | apps/api/src/lib/delivery.ts:414-425 | without the gate the answer is delivered if the delivery is done by then, else skipped |
| DeliveryOutcomes.SuppressedNotSent | apps/api/src/lib/delivery.ts:367-384 | suppressing a delivery keeps every call that starts then, undisturbed, from sending |
| DeliveryCode.Stores.AlreadyDelivered | apps/api/src/lib/delivery.ts:165-184 | true for a row read as delivered, exhausted, suppressed or skipped; else whether an attempt was delivered, a failing row read falling through and a failing read of attempts throwing |
| DeliveryCode.Stores.AcquireDeliveryGate | apps/api/src/lib/delivery.ts:110-137 | the retry loop, with time passing and other calls acting in the delays, is a run of the protocol that ends holding the gate, failing open, or without it |
| DeliveryCode.Stores.ReleaseDeliveryGate | apps/api/src/lib/delivery.ts:142-158 | deletes the gate only when the caller still holds it |
| DeliveryCode.Stores.RecordDeliveryAttempt | apps/api/src/lib/delivery.ts:218-294 | adds one pending attempt with the next number, or throws and adds none; throws for a row read as finished |
| DeliveryCode.Stores.MarkDeliveryDelivered | apps/api/src/lib/delivery.ts:296-332 | marks exactly this attempt delivered, or throws and changes none |
| DeliveryCode.Stores.DeliverWithIdempotency | apps/api/src/lib/delivery.ts:398-449 | one whole call, with time passing and other calls acting between its functions, is a run of the protocol that ends with the answer the call returns; for a row read as finished at the start it is skipped and nothing changes |
| License.TokenizeLicenseExpression | scripts/release-report.ts:144-161 | the matching loop gives the tokens of the text |
| License.ParseLicenseExpression | scripts/release-report.ts:164-228 | tokenizer and parser together: the tree, UNKNOWN for no tokens, or the error |
| License.ExpressionParser.ParsePrimaryNode | scripts/release-report.ts:178-190 | an identifier or a parenthesized expression read from the current position |
| License.ExpressionParser.ParseWithNode | scripts/release-report.ts:192-203 | identifiers joined by WITH, from the current position |
| License.ExpressionParser.ParseAndNode | scripts/release-report.ts:205-212 | AND to the left, from the current position |
| License.ExpressionParser.ParseOrNode | scripts/release-report.ts:214-221 | OR to the left, from the current position |
| LicenseGrammar.ParsesExactly | scripts/release-report.ts:164-228 | a non-empty token list parses to a tree if and only if a derivation of the grammar, WITH over AND over OR and all to the left, spells it and has that tree |
| LicenseExact.OneDerivation | scripts/release-report.ts:164-228 | the grammar is unambiguous: two derivations that spell the same tokens are the same |
| LicenseErrors.ErrorsExactly | scripts/release-report.ts:164-228 | the parser fails exactly where one pass from left to right, with a mark for each open parenthesis, meets a token that cannot go on, and with the error of that token |
| LicenseGrammar.PrintTokens | scripts/release-report.ts:144-161 | printed text tokenizes to the tokens of its derivation |
| LicenseGrammar.PrintParse | scripts/release-report.ts:144-228 | parsing the printed form of any license tree, with minimal parentheses, gives that tree |
| LicenseExact.PrintParseExactly | scripts/release-report.ts:144-228 | a tree over words without blanks and parentheses comes back from its printed form if and only if none of its words starts with AND, OR or WITH in any case or is WITH in upper case; otherwise parsing fails |
| LicenseGrammar.IdentifierExactly | scripts/release-report.ts:144-161 | a word parses to itself if and only if it does not start with AND, OR or WITH in any case and its upper case is not WITH |
| LicensePolicy.AllowedExactly | scripts/release-report.ts:266-275 | an expression is allowed if and only if some choice of sides at every OR takes on acceptable licenses only |
| LicensePolicy.InsertedDenied | scripts/release-report.ts:230-253 | collecting identifiers in a Set reports the same denied entry as reading all of them in order |
| LicensePolicy.VerdictExactly | scripts/release-report.ts:283-326 | without an exemption that applies, the verdict in order of precedence: parse error, first denied identifier in reading order, unknown license, no acceptable choice |
| LicenseVerdict.ExceptionExactly | scripts/release-report.ts:284-291 | by the fields of the exemptions: a package passes, whatever its license and the lists say, if one for its name is not for another version or license; otherwise it is judged as if there were none |
| LicenseVerdict.SpelledVerdict | scripts/release-report.ts:94-326 | the verdict by spelling: which entry is denied, which licenses are unknown and which choices comply, up to case, outer blanks and a final plus sign |
| LicenseVerdict.TrimExactly | scripts/release-report.ts:94-103 | trimming takes away the blanks at both ends and nothing else |
| LicensePolicy.LongerAllowList | scripts/release-report.ts:306-326 | a longer allow list never turns a passing package away, unless the list was empty |
| LicensePolicy.FirstAllowList | scripts/release-report.ts:306-326 | the first entries of an empty allow list: a passing package goes on passing if and only if some choice takes on licenses only that they accept |
| LicensePolicy.EmptyAllowListPasses | scripts/release-report.ts:315 | an instance: one entry can turn a package away that passed an empty list |
| WalletLock.LeasesDisjoint | apps/api/src/lib/redlock.ts:20-34 | after any run of acquisitions, renewals, releases and clock ticks the leases of one key follow one another without overlap, and a value holds the key if and only if a lease of it is in force |
| WalletLock.LeaseHonoured | apps/api/src/lib/redlock.ts:105-145 | for the whole lifetime after a successful acquisition or renewal the value holds the key, whatever others do |
| WalletLock.LeaseExactly | apps/api/src/lib/redlock.ts:105-145 | and no longer: whatever others do, the value holds the key if and only if its lifetime is not over |
| WalletLock.LeaseEnded | apps/api/src/lib/redlock.ts:20-34 | releasing, and renewing for no time, succeed exactly for the holder and free the key at once |
| WalletLock.NextHolderWaits | apps/api/src/lib/redlock.ts:167-204 | another value gets the key only when that lifetime is over |
| WalletLock.StaleForever | apps/api/src/lib/redlock.ts:105-145 | a value that has lost the key never gets it back by renewing; its renewals and releases fail and change nothing |
| WalletLock.OtherKeys | apps/api/src/lib/redlock.ts:20-34 | an operation on one key leaves all others alone |
| WalletLockCode.DistributedLock.RenewLease | apps/api/src/lib/redlock.ts:105-122 | true exactly when the lock is not released, Redis answered and the value held the key |
| WalletLockCode.DistributedLock.Beat | apps/api/src/lib/redlock.ts:70-93 | the heartbeat goes on exactly as long as renewing succeeds |
| WalletLockCode.DistributedLock.ReleaseLease | apps/api/src/lib/redlock.ts:127-145 | released for good; deletes the key only when the value holds it |
| WalletLockCode.DistributedLockManager.AcquireWalletLock | apps/api/src/lib/redlock.ts:167-204 | the retry loop, with other workers acting in the delays, and the new entry of the map |
| WalletLockCode.AcquiredExactly | apps/api/src/lib/redlock.ts:177-201 | a lock is returned if and only if some attempt within the retries met a free key and heard of it |
| WalletLockCode.AnswerTrue | apps/api/src/lib/redlock.ts:167-204 | with a lock the value holds the key for its full lifetime; with null it does not, provided no answer of Redis was lost |
| WalletLockCode.NullExactly | apps/api/src/lib/redlock.ts:167-204 | with null the value holds the key all the same if and only if some attempt succeeded with its answer lost and its lease is not over when the call returns |
| WalletLockCode.LostAnswer | apps/api/src/lib/redlock.ts:193-196 | which happens from every state in which the key is free |
| WalletLockCode.DistributedLockManager.ReleaseWalletLock | apps/api/src/lib/redlock.ts:209-215 | removes the entry and releases its lock |
| WalletLockCode.DistributedLockManager.ReleaseAll | apps/api/src/lib/redlock.ts:221-233 | empties the map, releases every lock, frees only keys held under these locks and keeps all other holders |
| WalletLockCode.BothSayYes | apps/api/src/lib/redlock.ts:239-242 | an instance of the other case: after a lease ran out two workers both say they hold the wallet, while the server has one holder |
| WalletLockCode.YesIsTrue | apps/api/src/lib/redlock.ts:239-242 | for the lifetime after an acquisition or successful renewal a local yes is true, whatever others did, unless the lease was cut short under its own value |
| WalletLockCode.YesTrueExactly | apps/api/src/lib/redlock.ts:239-242 | after an acquisition or successful renewal, and whatever is done from then on under other values, a local yes is true if and only if less time has passed than the lifetime |
| WalletLockCode.AcquiredStep | apps/api/src/lib/redlock.ts:177-191 | every acquisition ends with a SET that succeeded |
| WalletLockCode.WalletsApart | apps/api/src/lib/redlock.ts:160-162 | different wallets have different keys, and an operation for one leaves the holder of the other alone |
| DbFailover.Conservation | apps/api/src/lib/db-failover.ts:145-244 | in every interleaving the applied mutations, the one in flight and the buffer are the accepted ones in order, without those dropped or lost |
| DbFailover.ExactlyOnce | apps/api/src/lib/db-failover.ts:197-225 | with handlers for every kind from the start every accepted mutation is applied once, in order, however often handlers fail, if and only if no Redis error takes one away: a lost answer of shift on a non-empty list, or a failing put-back |
| DbFailover.EverythingApplied | apps/api/src/lib/db-failover.ts:197-225 | without any assumption on the elements: complete if and only if no step took one away or dropped one |
| DbFailover.LossIsFinal | apps/api/src/lib/db-failover.ts:199-222 | what such a Redis error takes away is missing in every continuation |
| DbFailover.LossIsReal | apps/api/src/lib/db-failover.ts:199-222 | both kinds of error do lose the first element of the list, in every state in which the next successful probe starts a replay |
| DbFailover.HealthyAfterDrain | apps/api/src/lib/db-failover.ts:176-190 | HEALTHY returns only after a replay saw the buffer empty with everything accepted until then processed; the buffer holds what came since |
| DbFailover.HealthyWithBacklog | apps/api/src/lib/db-failover.ts:176-190 | a mutation pushed after that look is still buffered when HEALTHY returns |
| DbFailoverModes.ModesExactly | apps/api/src/lib/db-failover.ts:145-164 | in every run degraded mode begins exactly at a failure that makes failureThreshold in a row since the last good probe, and a replay exactly at a good probe that makes recoveryThreshold in a row since the last failure or put-back |
| DbFailover.ReadsStayOnReplica | apps/api/src/lib/db-failover.ts:166-190 | reads go to the replica if and only if the controller has ever been degraded: recovery does not route them back |
| DbFailover.BufferBound | apps/api/src/lib/db-failover.ts:231-244 | with k buffering calls under way the buffer never exceeds maxBufferSize + k |
| DbFailover.BoundReached | apps/api/src/lib/db-failover.ts:231-244 | the bound is met for every buffer size and every number of callers: a failed entry comes back to a list that others have filled |
| DbFailoverCode.DbFailoverController.Check | apps/api/src/lib/db-failover.ts:145-164 | one probe is a run of the protocol; leaving degraded mode takes a good probe and an empty buffer |
| DbFailoverCode.DbFailoverController.Recover | apps/api/src/lib/db-failover.ts:176-190 | guarded by the flag; exceptions leave it cleared and reach the caller |
| DbFailoverCode.DbFailoverController.ReplayBuffered | apps/api/src/lib/db-failover.ts:197-225 | drains the list, stops at the first failing handler, or throws, as a run of the protocol |
| DbFailoverCode.DbFailoverController.ReplayEntry | apps/api/src/lib/db-failover.ts:202-223 | applied, dropped for lack of a handler or of syntax, or put back at the head |
| DbFailoverCode.DbFailoverController.BufferMutation | apps/api/src/lib/db-failover.ts:231-244 | appends the mutation exactly when the list had room and Redis worked |
| AlertRegistry.Governance | contracts/alert_registry/src/lib.rs:174-257 | in every reachable state approvals are distinct and each was given by a signer of its moment; an executed proposal made exactly one write, of its own key and value, with approvals at least the threshold then in force; a pending one none |
| AlertRegistry.PerformKeeps | contracts/alert_registry/src/lib.rs:112-257 | every entry point keeps this, whether it succeeds, fails, panics or traps |
| AlertRegistryRuns.ConfigIsWrites | contracts/alert_registry/src/lib.rs:402-416 | the stored configuration is the writes in their order |
| AlertRegistryRuns.ThresholdGate | contracts/alert_registry/src/lib.rs:112-134 | while the threshold exceeds 1 only executing a proposal with that many distinct, consented approvals changes configuration |
| AlertRegistryRuns.ProposalsFixed | contracts/alert_registry/src/lib.rs:239-257 | over any run a proposal keeps key and value, only gains approvals, and is frozen once executed |
| AlertRegistryRuns.RulesByAdmin | contracts/alert_registry/src/lib.rs:85-187 | admin, signers, threshold and roles change only by a call the admin authorized, or by the first initialize |
| AlertRegistryAuthority.AcceptedExactly | contracts/alert_registry/src/lib.rs:85-416 | every entry point is accepted if and only if its caller authorized it and what it needs is given; otherwise nothing changes |
| AlertRegistryAuthority.RefusalsExactly | contracts/alert_registry/src/lib.rs:85-235 | exactly when a call traps, is not or already initialized, or panics Unauthorized |
| AlertRegistryAuthority.OtherRefusals | contracts/alert_registry/src/lib.rs:174-357 | exactly when a threshold is invalid, a wallet not registered, a subscription not found |
| AlertRegistryAuthority.ApprovalRefusals | contracts/alert_registry/src/lib.rs:239-257 | exactly when a proposal is not found, already executed or already approved |
| AlertRegistryAuthority.StorageExactly | contracts/alert_registry/src/lib.rs:85-357 | over every run the admin, signers and threshold, each role, listener, wallet and subscription are what the last accepted call about them left |
| AlertRegistryAuthority.RoleExactly | contracts/alert_registry/src/lib.rs:141-166 | over every run an account holds the role if and only if the last accepted grant or revocation for it was a grant |
| AlertRegistryAuthority.DirectWriteExactly | contracts/alert_registry/src/lib.rs:112-134 | in every reachable state configuration is written without a proposal if and only if the call is update_config, authorized by its caller, who is the admin or last granted the role, with no threshold above 1 set |
| AlertRegistryRuns.ExecutableExactly | contracts/alert_registry/src/lib.rs:239-257 | a pending proposal can be brought to execution by approvals if and only if some signer has not approved and signers and approvers together, counted once each, reach the threshold |
| AlertRegistryRuns.OpenedExecutable | contracts/alert_registry/src/lib.rs:208-257 | in every reachable state a proposal opened now can be executed if and only if the signers, counted once each, are at least as many as the threshold |
| AlertRegistryRuns.RepeatedSigner | contracts/alert_registry/src/lib.rs:181-183 | set_signers counts entries: it accepts any threshold up to their number, and with fewer different signers than the threshold no proposal opened under this setting can ever be executed as long as signers and threshold are left as they are |
| AlertRegistryRuns.WalletsSound | contracts/alert_registry/src/lib.rs:288-357 | wallets are listed once each and every subscription is for a wallet its user registered |
| AlertRegistryCode.AlertRegistryContract.SaveProposal | contracts/alert_registry/src/lib.rs:410-416 | stores the proposal, executing it when the approvals reach the threshold |
| AlertRegistryCode.AlertRegistryContract.Initialize | contracts/alert_registry/src/lib.rs:85-92 | sets the admin once, if that address authorized the call |
| AlertRegistryCode.AlertRegistryContract.SetAdmin | contracts/alert_registry/src/lib.rs:100-104 | only the current admin, having authorized the call, names the next one; others panic, and before initialize it fails |
| AlertRegistryCode.AlertRegistryContract.UpdateConfig | contracts/alert_registry/src/lib.rs:112-134 | one direct write for the admin or a config manager at a threshold of 1; traps without authorization, fails before initialize, panics otherwise |
| AlertRegistryCode.AlertRegistryContract.GrantRole | contracts/alert_registry/src/lib.rs:141-148 | the admin gives one account the role, nothing else changes |
| AlertRegistryCode.AlertRegistryContract.RevokeRole | contracts/alert_registry/src/lib.rs:151-158 | the admin takes the role from one account, nothing else changes |
| AlertRegistryCode.AlertRegistryContract.ConfigureSigners | contracts/alert_registry/src/lib.rs:174-187 | the admin replaces signers and threshold together, or neither when the threshold is 0 or above the number of entries |
| AlertRegistryCode.AlertRegistryContract.ProposeConfig | contracts/alert_registry/src/lib.rs:208-235 | a signer opens a proposal under the next id with its own approval, executed at once at a threshold of 1; past the last u32 id it traps and changes nothing |
| AlertRegistryCode.AlertRegistryContract.ApproveProposal | contracts/alert_registry/src/lib.rs:239-257 | adds the signer's approval and executes on reaching the threshold; unknown, executed and already approved proposals are refused in that order |
| AlertRegistryCode.AlertRegistryContract.RegisterWallet | contracts/alert_registry/src/lib.rs:288-301 | adds the wallet at the end of the user's list unless it is there |
| AlertRegistryCode.AlertRegistryContract.RegisterListener | contracts/alert_registry/src/lib.rs:270-278 | one target per user and channel, replaced by a later call |
| AlertRegistryCode.AlertRegistryContract.Subscribe | contracts/alert_registry/src/lib.rs:314-337 | stores the subscription under user, wallet and channel, for registered wallets only |
| AlertRegistryCode.AlertRegistryContract.Unsubscribe | contracts/alert_registry/src/lib.rs:340-357 | removes exactly that subscription, or reports that there is none |
| ContractRouter.DispatchedTimes | apps/api/src/lib/contract-router.ts:174-209 | over any sequence of polls, with failed batches, batches that see different heads, and contracts subscribed and unsubscribed at any time: an event is dispatched exactly as often as a poll brings its ledger, from the start ledger on, in sight anew |
| ContractRouter.ExactlyOnce | apps/api/src/lib/contract-router.ts:174-209 | as long as a contract is not unsubscribed, each of its events from the start ledger to the last head seen for it has been dispatched exactly once, and no other |
| ContractRouter.CursorsNeverBack | apps/api/src/lib/contract-router.ts:195-200 | cursors never decrease, whatever is fetched |
| ContractRouter.AtMostLimit | apps/api/src/lib/contract-router.ts:80-88 | never more than 100 contracts |
| ContractRouter.RegisteredExactly | apps/api/src/lib/contract-router.ts:80-96 | in every run the subscriptions for a contract are those accepted since it was last unsubscribed, in order, a new contract being accepted exactly below 100 |
| ContractRouter.MatchingExactly | apps/api/src/lib/contract-router.ts:117-139 | wherever a subscription stands, it adds one call of its handler at its place for events of its topic, or of any if it asks for all, and none for others |
| ContractRouter.WithoutLedger | apps/api/src/lib/contract-router.ts:186-200 | an event without a ledger is dispatched whenever it is fetched for a subscribed contract |
| ContractRouter.ReplayAfterUnsubscribe | apps/api/src/lib/contract-router.ts:93-96 | unsubscribing forgets the cursor: n rounds of subscribing, polling and unsubscribing dispatch an event n times, for every n |
| ContractRouterCode.ContractRouter.Subscribe | apps/api/src/lib/contract-router.ts:80-88 | adds the pair to the contract's list, or refuses a new contract at the limit |
| ContractRouterCode.ContractRouter.Unsubscribe | apps/api/src/lib/contract-router.ts:93-96 | drops subscriptions and cursor of the contract |
| ContractRouterCode.ContractRouter.DispatchEvent | apps/api/src/lib/contract-router.ts:117-139 | calls every matching handler once, in order, and counts those that do not throw |
| ContractRouterCode.ContractRouter.TakeCursors | apps/api/src/lib/contract-router.ts:180-184 | the cursor of every contract and the oldest of them |
| ContractRouterCode.ContractRouter.PollOnce | apps/api/src/lib/contract-router.ts:174-209 | dispatches exactly the fetched events at or past their contract's cursor, moves cursors behind them, calls the matching handlers of each in order and returns how many calls did not throw |
| MultiRegionSync.MergeCommutes | apps/api/src/lib/multiRegionSync.ts:91-117 | two states merge to one in either order if and only if they are equal, of different terminal class, or ordered alike by version and timestamp |
| MultiRegionSync.ReplicasSwap | apps/api/src/lib/multiRegionSync.ts:110-117 | states that are not ordered alike either change places between two replicas for ever or stay apart |
| MultiRegionSync.ConvergesOnExactly | apps/api/src/lib/multiRegionSync.ts:79-124 | replicas that reconcile all states of a set, in any order and with repetition, always end equal if and only if one of the states wins against every other whichever of the two comes first |
| MultiRegionSync.ConvergesExactly | apps/api/src/lib/multiRegionSync.ts:79-124 | this is so for every part of a set if and only if its states are compatible two by two |
| MultiRegionSync.TerminalStays | apps/api/src/lib/multiRegionSync.ts:91-107 | reconciling never replaces a terminal state by a non-terminal one |
| MultiRegionSync.ReplicasFollow | apps/api/src/lib/multiRegionSync.ts:54-73 | replicas that receive all a region recorded agree with it if and only if its last transition is terminal or none was |
| MultiRegionSync.NonceOnce | apps/api/src/lib/multiRegionSync.ts:129-139 | within one region two accepted uses of a nonce are at least its lifetime apart |
| MultiRegionSync.MultiRegionStateSynchronizer.RecordJobTransition | apps/api/src/lib/multiRegionSync.ts:54-73 | the next version of the job under this region, whatever the state before |
| MultiRegionSync.MultiRegionStateSynchronizer.ReconcileRemoteJobState | apps/api/src/lib/multiRegionSync.ts:79-124 | cache and winner are the merged state; the duplicate flag by its exact condition |
| MultiRegionSync.MultiRegionStateSynchronizer.ReplicateNonce | apps/api/src/lib/multiRegionSync.ts:129-139 | accepts unless the nonce is recorded and alive |
| RateBudget.RateBound | apps/api/src/lib/rate-budget.ts:28-47 | tokens granted between two times never exceed capacity plus the refill of that time, from any state and for any clock readings in between; the level stays between 0 and capacity |
| RateBudget.RateBoundReached | apps/api/src/lib/rate-budget.ts:28-47 | some requests in a stretch of time are granted as much as the bound if and only if a millisecond refills no more than the capacity, or no time passes |
| RateBudget.BurstBound | apps/api/src/lib/rate-budget.ts:151-185 | in any half-open interval of the window length at most twice the burst limit of slots are granted |
| RateBudget.BurstBoundReached | apps/api/src/lib/rate-budget.ts:160-173 | twice the limit is reached across a window border, for all limits |
| RateBudget.GrantExactly | apps/api/src/lib/rate-budget.ts:151-176 | in every run an attempt is granted if and only if fewer slots than maxConcurrentPerWallet are in use and fewer than the burst limit were granted since the current window was opened |
| RateBudget.ActiveExactly | apps/api/src/lib/rate-budget.ts:181-198 | the active count is acquisitions, granted and forced, minus releases if and only if every release had its acquisition; otherwise it is larger |
| RateBudget.ConcurrencyBound | apps/api/src/lib/rate-budget.ts:168-173 | a granted slot never leaves more than maxConcurrentPerWallet active, and without forcing nothing does |
| RateBudgetCode.TokenBucketLimiter.TryConsume | apps/api/src/lib/rate-budget.ts:40-47 | one request at the time the clock shows |
| RateBudgetCode.TokenBucketLimiter.Consume | apps/api/src/lib/rate-budget.ts:52-67 | with other callers acting in the waits: its own requests are all refused but the last, which is granted exactly when the answer is true; it refuses only when the wait is over |
| RateBudgetCode.WorkerFairnessManager.AcquireWalletSlot | apps/api/src/lib/rate-budget.ts:151-185 | with other callers acting in the waits: its own attempts are all refused but the last, which is granted exactly when the answer is true; otherwise the slot is forced, and not before the wait is over but for its last 10 ms |
| RateBudgetCode.WorkerFairnessManager.ReleaseWalletSlot | apps/api/src/lib/rate-budget.ts:190-198 | one slot fewer, never below zero; other wallets untouched |
| SessionManager.Families | apps/api/src/lib/session-manager.ts:53-95 | after any run every family has tokens numbered 1 to its counter, once each, and exactly the current one is not consumed, so consumed and outdated agree for every issued token |
| SessionManager.RotatesExactly | apps/api/src/lib/session-manager.ts:127-279 | an issued token rotates if and only if it is the newest of a family not revoked, with exactly these new rows; a revoked family answers so and changes nothing, an open one is revoked by the attempt |
| SessionManager.LoginExactly | apps/api/src/lib/session-manager.ts:53-112 | a login fails exactly for a family or token already known; otherwise its token rotates unless a readable flag is left from an earlier family of that name |
| SessionManager.FlagRaised | apps/api/src/lib/session-manager.ts:284-329 | with Redis at work, revoking raises the flag, and reading it is enough to refuse until it expires |
| SessionManager.ReuseEndsFamily | apps/api/src/lib/session-manager.ts:159-198 | after a token that is not the current one was presented no rotation of its family succeeds again, unless a readable flag is older than the family |
| SessionManager.ReuseEndsExactly | apps/api/src/lib/session-manager.ts:141-198 | the exception is exact: no later rotation succeeds if and only if no such flag was read |
| SessionManager.RotatedOnce | apps/api/src/lib/session-manager.ts:222-252 | no token is rotated twice by rotations that come one at a time; `SessionOverlap.RotatedAgainExactly` says what happens otherwise |
| SessionOverlap.Undisturbed | apps/api/src/lib/session-manager.ts:127-279 | a rotation made of its single reads and writes does what it does as one step, if no one interferes |
| SessionOverlap.CanWinExactly | apps/api/src/lib/session-manager.ts:127-279 | for any number of overlapping rotations, logins and logouts: which calls can still succeed, as a condition on what each has read and has yet to read |
| SessionOverlap.RotatedAgainExactly | apps/api/src/lib/session-manager.ts:139-252 | a token that has been rotated is rotated again by another call, in some continuation, if and only if that call has made its checks already and its new token is new |
| SessionOverlap.RevokedExactly | apps/api/src/lib/session-manager.ts:139-252 | once a family is revoked a call can still succeed if and only if it read the session row before and nothing in the history speaks against it |
| SessionOverlap.OpenTokens | apps/api/src/lib/session-manager.ts:222-252 | in every interleaving the open tokens of a family are one more than the repeated rotations of its tokens, so there is a single one, the current, if and only if no token was rotated twice |
| SessionManager.RevokedForever | apps/api/src/lib/session-manager.ts:284-308 | a family stays revoked, whatever Redis keeps |
| SessionCode.SessionStore.CreateSessionFamily | apps/api/src/lib/session-manager.ts:53-95 | both rows of a new family, or an error on a clash |
| SessionCode.SessionStore.RotateRefreshToken | apps/api/src/lib/session-manager.ts:127-279 | one call with others acting between any two of its reads and writes is a run of the protocol that ends with its answer, and exactly a rotation when no one interferes |
| SessionCode.SessionStore.RevokeFamily | apps/api/src/lib/session-manager.ts:284-308 | marks the row and, if Redis works, sets the flag |
| SessionCode.SessionStore.CheckRevoked | apps/api/src/lib/session-manager.ts:313-329 | a readable flag or the row says so |

## Left out

- Hex text of digests and SHA-256 itself: digests are byte strings, the hash is any function to 32 bytes; nothing is claimed about its strength.
- `validate*`, `isValid*`, `assertValid*` and transaction hashes in strkey.ts: thin wrappers over decoding.
- Clients of Prisma, Redis, Horizon and Soroban, logging, environment parsing, routes: only the atomic steps they offer are modelled.
- Operations of one transaction that share a fallback hash: the stream theorems are about records with distinct tokens.
- Eviction from the seen-set is modelled by a sequence in insertion order, which is how a JavaScript Set iterates.
- HorizonStream.DeliveryExactly: the initial cursor is one fixed place in the log; a cursor such as "now", whose place moves between connections until the first record arrives, is not modelled.
- DeliveryCode.Stores.DeliverWithIdempotency: other calls act between its functions and in the delays of the gate; between the operations inside one function they do in the protocol only, about which the theorems are.
- `markDeliveryFailed`, `getOrCreateDelivery` and the transition table of delivery.ts: nothing the gate depends on; suppression is one step of the protocol.
- Full Unicode case mapping in release-report.ts: the tokenizer's upper case covers ASCII and the dotless i, which is all that can change an operator word; the policy takes case mapping as a parameter that keeps non-empty text non-empty.
- `normalizeLicense`, SBOM and Markdown output, vulnerability policy in release-report.ts: no property across functions.
- Unguarded calls of the public `replayBuffered`: the failover theorems are about replays started by `check`, which a flag keeps apart.
- Overlapping polls of the router: polls follow one another, and subscriptions change between them, not during one.
- `startPolling`, alert channels and their fan-out in contract-router.ts: a timer and a loop like the one over handlers.
- Events published by the registry contract, and storage lifetimes.
- Provider buckets of the fairness manager: a lookup in front of `TokenBucketLimiter.Consume`; rounding of JavaScript numbers, tokens are reals.
- Access tokens, signatures, token lifetimes and the Redis copies of the current token id in session-manager.ts: nothing reads the copies back.
- Removal of users with their sessions.
- SessionManager.ReuseEndsFamily: leaves aside a revocation flag that is older than the family itself; `SessionManager.ReuseEndsExactly` says what happens then.
- WalletLockCode.AnswerTrue: says nothing about lock values that another worker uses too, because values are random; so does `WalletLockCode.NullExactly`.
- queue.ts, the health toggles, the simpler locks and caches, rule evaluation, the web app, the CLI and the SDK verifiers.
