# Verified model of a SEMP home server and client library

A Dafny model of the parts of the library whose correctness is not visible in any one function: secret sharing over
GF(2^8), canonical JSON and everything that is signed or hashed over it (the server-to-server handshake, the migration
record, the envelope, the device directory, the transparency log with its Merkle proofs), and the delivery machinery
with its deadlines and exactly-once events.
`dafny verify dfyconfig.toml` checks all of it.

## How it is laid out

* **Secret sharing.** `Bits`, `Gf256` (carry-less multiplication modulo 0x11b is a commutative, associative product
  that distributes over xor), `Generator` and `Counting` (3 generates the 255 non-zero elements), `Tables` (the
  logarithm form equals the shift-and-add form, and the tables make a field), `Polynomials` (a polynomial theory over
  any field given by its laws) and `Shamir`.
* **Canonical JSON.** `Json` (values, printing, key order, the loops of `serialize`), `JsonParser` (JSON.parse by
  recursive descent), `Shortest` (no text of the same value is shorter), `Utf8`, `Base64`, `Buffers`, `Signing` (what a
  signature over canonical text commits to).
* **Federation handshake.** `FederationMessages`, `Federation` (each call as a step of a state machine),
  `FederationParties` (the two classes, proved equal to the steps), `FederationRuns` (any number of parties over a
  network that may replay, reorder, drop or rewrite text), `FederationAuthentic` (every message that a call takes was
  made, field by field, by a party of the run that holds the key) and `FederationHonest` (nothing altered: it
  completes, and is a run that the agreement theorem speaks of).
* **Migration.** `Migration` (one signing pass), `Lockout` (the registry of local parts that are locked out),
  `MigrationFlow` (compose, submit, accept, submit again), `MigrationParties` (in place).
* **Envelope.** `Seal` (wrap and unwrap), `Envelope`, `EnvelopeLaws`, `Sizes`, `Padding`, `PadEnvelope`.
* **Delivery.** `Staged`, `StagedRuns`, `StagedVotes` (what the votes of a stage are, from the calls), `StagedRunner`,
  `Partition`; `Retry`, `Queue`, `QueueRuns`, `QueueHistory` (how a record ends, from what its deliver calls
  returned), `Scheduler`; `Policy`.
* **Directory.** `Directory`: the producer of signed revisions and the consumer that never goes back;
  `DirectoryRecords`: what a record lists.
* **Transparency.** `Merkle` (the loops over bits that verify inclusion and consistency proofs, against the tree of
  section 2.1 of RFC 6962) and `TransparencyLog` (the append-only log, and what its heads and proofs commit it to).

Objects whose methods update fields are classes; each method's contract gives its new state as a function of the old
one, and the lemmas are about that function over whole runs. Cryptography is a record of function values; what is
assumed of it is written out in predicates (`Ideal`, `Signs`, `Separates`, `Sound`, `Lawful`) that the theorems
require. A hash has 32 bytes and does collide somewhere: the Merkle theorems ask of it only that no two inputs collide
among those that are hashed, which are listed (`NoCollision`). Clocks, random draws, callbacks and their outcomes are
parameters. Ideal signatures are a hypothesis on the message at hand (`Genuine`): if the key accepts the signature that
the message carries, over the input of that message, then it was made with that key, earlier, over exactly that input.

## What the code does where its comments say otherwise

* The confirmation hash is to be taken over canonical bytes, but the responder hashes the bytes it received
  (`src/handshake/federation.ts:1069`). `FederationRuns.TextsAgree` shows that this is enough: equal hashes still mean
  that the received text was the canonical one.
* `resume` makes a new ephemeral key when there is none, also after `init` has announced another one, and `onResponse`
  can be called again: the second confirmation is letter for letter the first, the responder takes it, and the two ends
  hold keys derived from different ephemeral keys (`FederationHonest.LateResume`). `FederationRuns.Agreement` covers
  every run, resumption calls included, and says exactly when the keys are equal: on the hybrid suite always; on the
  other one, where the primitives separate keys (`Separates`), when the ephemeral key used has the public key that was
  announced, and not otherwise (`FederationRuns.KeysMatchIff`).
* The end of the notice window is cut to a whole second after its length was checked, so a submission built with a
  sub-second `migrated_at` can be refused. `MigrationFlow.BuildThenAccept` gives the exact condition,
  `WindowKept`: the millisecond part is 0, or it and the slack above the minimum make up a second; with the shortest
  window every such submission is refused (`MigrationFlow.ShortestWindowRefused`).
* `acceptSubmission` reserves the local part before it countersigns, and leaves it reserved when that fails. On every
  record this happens exactly when all checks pass and the last slot is not prepared for the key id that countersigns
  (`MigrationFlow.RefusalReserves`); a submission as built that meets another key id is such a record
  (`MigrationFlow.WrongKeyIdLocks`), and it is then refused under the right one too (`MigrationFlow.RefusedAgain`).
* `reserve` has no clock: a reservation whose time has run out blocks as before, until a release, or a lookup or a
  pruning at a later time, takes it away (`Lockout.StandsIff`). Exactly then the same record is taken again under the
  key id it was prepared for (`MigrationFlow.TakenAgain`).
* `reevaluate` leaves an envelope whose stages all vanish to "the next tick", which passes over it: nothing ever
  changes such a record again (`StagedRuns.StuckForever`); `StagedRuns.EmptiedWhen` says exactly when that happens, and
  `StagedRuns.EmptiedRun` is a run of two calls that comes to it.
* Full-access devices are not staged last when no delegate declares a stage; `Partition.FullAccessLast` is the exact
  condition, and in `Partition.UndeclaredTogether` both wait in the same stage.
* `cancelEnvelope` looks twice the configured horizon ahead; with a horizon that is not positive the default applies
  elsewhere and a waiting record is missed (`QueueRuns.CancelReaches`, with the run in `QueueRuns.CancelCanMiss`).
* The reason code of an event is handed over as `reasonCode` and read as `reason_code`
  (`src/delivery/scheduler.ts:393`): in every run the event is true to its record's code exactly when there is none
  (`QueueRuns.CodesLost`, with a code that is lost in `QueueRuns.BlockedCodeLost`).
* With a ceiling below 4096 the default curve still gives out 4096 (`Padding.LowCeiling`).
* `addDevice` asks less of an entry than signing does, and neither it nor `revokeDevice` takes the device map back when
  signing fails. The map changes with nothing published exactly when some device in it cannot be signed
  (`Directory.FailedAddStays`, `Directory.FailedRevokeStays`, with inputs in `Directory.FailedInputs`); nothing is
  published until that device is revoked (`Directory.FailedAddBlocks`), and then publishing resumes exactly when every
  other device can be signed (`Directory.RevokeEmits`, `Directory.RevokeUnblocks`).
* The Merkle proofs are verified with shifts that see 32 bits. Up to 2^32 leaves that is exact
  (`Merkle.InclusionExact`, `Merkle.ConsistencyExact`). In every larger tree the proof made for the first leaf and the
  one made from size 1 are refused (`Merkle.TooLarge`, `Merkle.TooLargeToCompare`), so that all proofs are accepted
  exactly up to 2^32 leaves (`Merkle.InclusionSizes`, `Merkle.ConsistencySizes`), and a proof that was made for no leaf
  is accepted (`Merkle.WrongAccepted`).

## Model

| member | source | states |
|---|---|---|
| Gf256.MulRaw | src/recovery/shamir.ts:171-185 | the shift-and-add loop computes the product modulo 0x11b |
| Gf256.MulComm | src/recovery/shamir.ts:171-185 | the product is commutative |
| Gf256.MulAssoc | src/recovery/shamir.ts:171-185 | the product is associative |
| Gf256.MulAddRight | src/recovery/shamir.ts:171-185 | the product distributes over xor |
| Generator.NoShorterPeriod | src/recovery/shamir.ts:155-169 | no power of 3 below the 255th is 1, so the tables hold every non-zero element once |
| Tables.GfIsField | src/recovery/shamir.ts:155-200 | xor and the product, with zero, one and inverses, satisfy every field law |
| Tables.BuildTables | src/recovery/shamir.ts:155-169 | the filled tables are the powers of 3 and their logarithms, each inverse to the other |
| Tables.TableMul | src/recovery/shamir.ts:187-193 | multiplication by tables is the product |
| Tables.TableInv | src/recovery/shamir.ts:195-200 | inversion by tables gives the inverse, and fails exactly on 0 |
| Polynomials.Field.EvalIsPowerSum | src/recovery/shamir.ts:202-208 | Horner evaluation is the sum of coefficients times powers, over any field |
| Polynomials.Field.TooManyRoots | src/recovery/shamir.ts:202-226 | a polynomial with more distinct roots than its degree is zero |
| Polynomials.Field.InterpolationExact | src/recovery/shamir.ts:210-226 | Lagrange interpolation returns the polynomial's value from any number of distinct points at or above its length, surplus points included |
| Polynomials.Field.InterpolationUnique | src/recovery/shamir.ts:210-226 | any values at distinct points are met by a polynomial of that length, and by one only |
| Shamir.PolyEval | src/recovery/shamir.ts:202-208 | the loop computes the polynomial's value |
| Shamir.LagrangeInterpolateAtZero | src/recovery/shamir.ts:210-226 | the double loop computes the interpolated value at zero |
| Shamir.SplitSecret | src/recovery/shamir.ts:49-99 | the shares are the polynomials' values at 1..total, with the source's argument checks |
| Shamir.CombineShares | src/recovery/shamir.ts:112-153 | interpolates every byte at zero, and fails exactly on no shares, an empty value, unequal lengths, an index outside 1..255 or a repeated index |
| Shamir.RecoveryExact | src/recovery/shamir.ts:49-226 | any threshold-or-more distinct shares, in any order, give the secret back byte for byte, for every secret, threshold, total and random buffer |
| Shamir.BelowThreshold | src/recovery/shamir.ts:79-98 | threshold-1 shares fit every secret of the length: one random buffer, and only one, gives them exactly those shares |
| Json.Serialize | src/canonical/marshal.ts:59-112 | the loops print the value with the keys of every object sorted, at every depth |
| Json.KeyLessIsUnits | src/canonical/marshal.ts:93 | keys are ordered as their UTF-16 code units are: a proper prefix first, else by the smaller unit at the first index where they differ |
| Json.SortKeysSorts | src/canonical/marshal.ts:93 | sorting keeps the keys, and the code units of each are below those of the next |
| Json.CanonOrdered | src/canonical/marshal.ts:59-112 | in the canonical form the keys of every object, at every depth, are in the order of their code units |
| Json.OrderedIsCanon | src/canonical/marshal.ts:59-112 | a value whose keys are in that order at every depth is its own canonical form |
| Json.SortedUnique | src/canonical/marshal.ts:93 | a sorted list of keys is determined by the set of its keys |
| Json.SameCanon | src/canonical/marshal.ts:59-112 | canonical forms are equal exactly for values that differ only in key order |
| JsonParser.ParsePrint | src/canonical/marshal.ts:25-35 | parsing what was printed gives the value back and leaves exactly the text that followed |
| JsonParser.CanonicalRoundTrip | src/canonical/marshal.ts:25-35 | canonical text parses to the value with sorted keys, which is the same value |
| JsonParser.CanonicalInjective | src/canonical/marshal.ts:59-112 | canonical text is equal exactly for values that are the same up to key order |
| JsonParser.SplitsOneWay | src/handshake/confirm.ts:23-31 | two canonical texts one after the other can be told apart in one way only |
| Shortest.CanonicalShortest | src/canonical/marshal.ts:59-112 | no text that JSON.parse reads as a value is shorter than its canonical text: no white space, no escape that need not be |
| Shortest.EscapedOnly | src/canonical/marshal.ts:76-78 | only the quote, the backslash and control characters are escaped, in hexadecimal with small letters |
| JsonParser.ParseValueAppend | src/canonical/marshal.ts:25-35 | text after a parsed value that has closed changes nothing but what is left over |
| Utf8.EncodeInjective | src/canonical/marshal.ts:34 | no two texts have the same bytes |
| Utf8.DecodeEncode | src/envelope/compose.ts:373 | decoding what was encoded gives the text back |
| Base64.RoundTrip | src/handshake/federation.ts:1259-1280 | decoding what was encoded gives the bytes back |
| Base64.EncodeLength | src/envelope/padding.ts:31-34 | the length of base64 text, which makes a signature 88 and a MAC 44 characters |
| Buffers.Concat | src/seal/wrap.ts:268-273 | one part after the other in a new buffer |
| Buffers.ConstantTimeEqual | src/envelope/verify.ts:81-90 | true exactly for equal byte strings |
| Signing.PrefixedInjective | src/migration/sign.ts:383-391 | under one prefix the signed bytes are equal exactly for values with the same canonical form |
| Signing.InputInjective | src/handshake/federation.ts:1194-1221 | equal signing inputs agree on every field but the blanked signature |
| Signing.CanonByKeys | src/canonical/marshal.ts:59-112 | objects are the same up to key order exactly when they agree under every key |
| FederationMessages.IdentityIsNoMessage | src/handshake/federation.ts:409-414 | an identity proof is never the signing input of a message |
| FederationMessages.OtherStep | src/handshake/federation.ts:1194-1203 | a message of another step is never taken for a confirm |
| Federation.PickSuite | src/handshake/federation.ts:1223-1233 | the first supported suite that is offered; none exactly when none is offered |
| Federation.SharedSecret | src/handshake/federation.ts:514-529 | on either suite the initiator derives the secret the responder made |
| FederationParties.ConfirmationHash | src/handshake/confirm.ts:23-31 | the digest of both texts, written into one buffer |
| FederationParties.FederationInitiator.constructor | src/handshake/federation.ts:347-377 | pinned values are taken up, nothing else is set |
| FederationParties.FederationInitiator.Init | src/handshake/federation.ts:380-443 | the whole new state and message 1, as the step function has them |
| FederationParties.FederationInitiator.OnResponse | src/handshake/federation.ts:446-576 | the whole new state and message 3; an error changes nothing |
| FederationParties.FederationInitiator.OnAccepted | src/handshake/federation.ts:579-633 | the session, or an error that changes nothing |
| FederationParties.FederationInitiator.Erase | src/handshake/federation.ts:791-805 | secrets are gone, texts stay |
| FederationParties.FederationInitiator.LoadResumptionSecret | src/handshake/federation.ts:644-649 | the secret is kept, an empty one refused |
| FederationParties.FederationInitiator.Resume | src/handshake/federation.ts:657-694 | the whole new state and the resume message, under the ephemeral key at hand or a new one |
| FederationParties.FederationInitiator.OnResumeAccepted | src/handshake/federation.ts:700-788 | the resumed session, with ephemeral key and secret gone, or an error; the session stands also when the new ticket cannot be decoded |
| FederationParties.FederationResponder.OnInit | src/handshake/federation.ts:912-1074 | the whole new state and message 2; a failed key agreement keeps only the ephemeral key |
| FederationParties.FederationResponder.OnConfirm | src/handshake/federation.ts:1082-1161 | the session and message 4, or an error that changes nothing |
| FederationRuns.NextOk | src/handshake/federation.ts:331-1189 | whatever text arrives, every step of every party keeps what is known of states, signatures made and confirmations sent |
| FederationRuns.TextsAgree | src/handshake/federation.ts:1069-1074 | received text followed by canonical text equals canonical texts only if it is canonical itself |
| FederationRuns.ConfirmSays | src/handshake/federation.ts:554-574 | a message with the signing input of a confirmation carries its session id, hash and acceptance |
| FederationRuns.KeysMatch | src/handshake/federation.ts:446-576 | the same two texts give both ends the same keys on the same suite, and the responder the initiator's domain |
| FederationRuns.KeysMatchIff | src/handshake/federation.ts:446-576 | on the baseline suite, where primitives separate keys, the responder's keys are the initiator's if and only if the ephemeral key used has the public key that init announced |
| FederationRuns.Agreement | src/handshake/federation.ts:912-1161 | in every run, resumption calls included, when onConfirm succeeds some initiator of that domain key confirmed exactly this init and response, accepted the policy, and holds the same session id and, on the same suite, the same keys: with the ephemeral key it announced always, and where primitives separate keys exactly when the public keys are the same |
| FederationAuthentic.RunExplained | src/handshake/federation.ts:331-1189 | in every run, every signature on an init, a response or an accepted message was made by a party of the run, over the message as that party makes it |
| FederationAuthentic.InitAuthentic | src/handshake/federation.ts:912-1000 | in every run, an init message that onInit answers is signed and identity-proved under the key of the domain it names, passed the domain verifier and offers the suite, and agrees in every field but the signature with the init message of an initiator of the run that holds that key |
| FederationAuthentic.ResponseAuthentic | src/handshake/federation.ts:446-535 | in every run, a response that onResponse takes answers the initiator's nonce and agrees in every field but the signature with the response of a responder of the run that holds the peer's key, whose session id it carries |
| FederationAuthentic.ResponseKeys | src/handshake/federation.ts:446-576 | where that responder received the initiator's own ephemeral key and nonce, on the same suite, the two hold the same keys |
| FederationAuthentic.AcceptedAuthentic | src/handshake/federation.ts:579-633 | in every run, when onAccepted succeeds a responder of the run that holds the peer's key has its session under the same id |
| FederationAuthentic.ResumedVerified | src/handshake/federation.ts:700-788 | a resumption that is taken carries a signature that the peer's key accepts over the whole message |
| FederationHonest.HonestRunCompletes | src/handshake/federation.ts:380-1161 | between servers that know each other and with nothing altered, all four messages are accepted and both hold the same session |
| FederationHonest.HonestRunConfirms | src/handshake/federation.ts:380-1161 | the unaltered handshake is a run whose confirmation is taken and whose signature is in the log, so Agreement speaks of it |
| FederationHonest.LateResume | src/handshake/federation.ts:657-671 | init, response, a resumption and the same response again: the same confirmation is sent and taken, and where primitives separate keys the two ends hold the same keys exactly when the two ephemeral keys have the same public key |
| FederationHonest.LawsAreMet | src/handshake/federation.ts:446-576 | the laws asked of the primitives can be met together, with ephemeral keys of different public keys |
| Migration.BlankFromIndex | src/migration/sign.ts:400-415 | the loop blanks the values of this slot and all later ones |
| Migration.BlankFromField | src/migration/sign.ts:400-415 | blanking changes those values and no other field |
| Migration.PassCommits | src/migration/sign.ts:329-361 | two records have the same signing input at a pass exactly when they agree on every field but the values of that slot and later ones |
| Migration.SignKeepsEarlier | src/migration/sign.ts:329-392 | a pass verifies under its key, and every earlier pass verifies exactly as before |
| Migration.PassesDiffer | src/migration/sign.ts:103-157 | the order of passes is in what is signed: inputs of different passes never coincide |
| Migration.Committed | src/migration/sign.ts:363-392 | a signature accepted at pass i of a chain was made at pass i over a record that agrees with this one but for the values of slots i and later |
| Migration.TamperingShows | src/migration/sign.ts:184-215 | a record that differs otherwise from all that the key signed fails at that pass |
| Migration.PassMakesEntry | src/migration/sign.ts:103-157 | a pass that does not throw saw the earlier slots filled and its own slot prepared |
| Migration.CommittedInRuns | src/migration/sign.ts:103-392 | after any signing calls by anyone, what is accepted at pass i of a chain was signed by such a call at pass i over a record that agrees but for the values of slots i and later |
| Migration.TamperingShowsInRuns | src/migration/sign.ts:103-215 | after any signing calls, a record that none of the key's calls at that pass committed to fails |
| MigrationFlow.PrepareReady | src/migration/sign.ts:55-91 | preparing fails exactly for a cooperative record without the old domain's key id, else all slots are ready |
| MigrationFlow.NextPass | src/migration/sign.ts:94-157 | a pass can be made exactly under the key id prepared for it, and extends the verified chain |
| MigrationFlow.ValidIff | src/migration/sign.ts:218-293 | a prepared record is valid exactly when its body is in order and no key id is empty |
| MigrationFlow.ComposeVerifies | src/migration/migration.ts:69-119 | composing succeeds exactly when no key is missing, and the record then verifies exactly when its body is in order |
| MigrationFlow.CutWindow | src/migration/orchestrate.ts:126-130 | the cut to whole seconds keeps the window within bounds exactly under WindowKept |
| MigrationFlow.BuildChains | src/migration/orchestrate.ts:82-164 | a submission is built exactly from acceptable input, and its three passes verify |
| MigrationFlow.BuildThenAccept | src/migration/orchestrate.ts:82-268 | a submission is accepted by a provider with the right keys exactly when the window is kept; the record then verifies and the local part is locked out; a refusal leaves the registry as it was |
| MigrationFlow.RefusalReserves | src/migration/orchestrate.ts:249-262 | on every record a refusal leaves the local part reserved exactly when all checks pass, it can be reserved, and the last slot is not prepared for the key id that countersigns |
| MigrationFlow.AcceptedWhen | src/migration/orchestrate.ts:212-268 | a submission is taken exactly when all checks pass, the last slot is prepared for the key id that countersigns, and the old local part is not empty and not reserved |
| MigrationFlow.CountersignedVerifies | src/migration/orchestrate.ts:212-268 | whatever record is countersigned then verifies: four signatures, under the three keys the provider knows and its own |
| MigrationFlow.AcceptedVerifies | src/migration/orchestrate.ts:212-268 | and so does whatever submission is accepted |
| MigrationFlow.AcceptedCommitted | src/migration/orchestrate.ts:212-268 | of an accepted or countersigned submission, after any signing calls: each of the three keys was used in such a call at its own pass, over a record that agrees but for the values of that slot and later ones |
| MigrationFlow.VerifiedCommitted | src/migration/sign.ts:184-293 | of any record that verifies, after any signing calls: the same of each of its three keys, and of the fourth when it is cooperative |
| MigrationFlow.BoundRefuses | src/migration/sign.ts:304-324 | a migrated_at before the old key was created, or more than the skew (five minutes if none is given) ahead of the provider's clock, is refused and reserves nothing |
| MigrationFlow.AcceptedSays | src/migration/orchestrate.ts:212-268 | any accepted record names its id, addresses and new key, has 30 to 730 days of notice, and no empty algorithm, key id or value in the first three slots |
| MigrationFlow.TakenAgain | src/migration/lockout.ts:57-111 | the same record again after any run of registry calls: taken exactly when all checks pass, the slot is prepared for the key id and the local part is free; where nobody else reserves it, exactly when some call has cleared the reservation |
| MigrationFlow.RefusedAgain | src/migration/lockout.ts:57-111 | after any run of registry calls of which none clears the reservation, the same record is refused under every key id and at every time, and changes nothing more |
| MigrationFlow.AcceptedPublishes | src/migration/publication_store.ts:36-47 | what is countersigned keeps its record id and old address and can always be published |
| Lockout.StandsIff | src/migration/lockout.ts:57-111 | after any run of calls a reservation stands exactly when it stood at the start or a call made it where the local part was free, and no later call cleared it |
| Lockout.FreeIff | src/migration/lockout.ts:57-111 | while nobody else reserves it, a reserved local part is free again exactly when some call cleared its reservation |
| Lockout.LookupThenReserve | src/migration/lockout.ts:79-94 | a local part can be reserved right after a lookup exactly when the lookup says it is not locked out |
| MigrationFlow.WrongKeyIdLocks | src/migration/orchestrate.ts:249-262 | a submission as built that meets another key id for the countersignature is refused and its local part locked out |
| MigrationFlow.ShortestWindowRefused | src/migration/orchestrate.ts:126-130 | with milliseconds in migrated_at and the shortest window the submission is built and every provider refuses it |
| MigrationParties.MigrationRecord.PrepareSignatures | src/migration/sign.ts:55-91 | the record after preparing, also when it throws half way |
| MigrationParties.MigrationRecord.Sign | src/migration/sign.ts:329-361 | the record after one pass, unchanged when it throws |
| MigrationParties.LockoutRegistry.Reserve | src/migration/lockout.ts:57-77 | the registry after a reservation, unchanged when it throws |
| MigrationParties.LockoutRegistry.IsLockedOut | src/migration/lockout.ts:79-94 | the reservation that has not run out, if any; one that has is dropped |
| MigrationParties.LockoutRegistry.Release | src/migration/lockout.ts:96-98 | the reservation is gone and no other |
| MigrationParties.LockoutRegistry.PruneExpired | src/migration/lockout.ts:100-110 | exactly the reservations that have run out are removed and counted |
| MigrationParties.PublicationStore.PutRecord | src/migration/publication_store.ts:36-47 | both maps after a record is put, unchanged when it throws |
| MigrationParties.AcceptSubmission | src/migration/orchestrate.ts:212-268 | record, registry and store after acceptance, with or without a registry and a store; the reservation stays when the countersignature throws, and what is countersigned is published |
| MigrationParties.ComposeMigrationRecord | src/migration/migration.ts:69-119 | a new record signed in place is the one composed |
| Seal.WrapWithRandomness | src/seal/wrap.ts:156-188 | the wrap, buffer by buffer |
| Seal.DecapsulateEncapsulate | src/seal/wrap.ts:190-257 | on both suites the recipient gets the sender's secret, from a ciphertext of the suite's size |
| Seal.UnwrapWrap | src/seal/wrap.ts:55-97 | unwrapping what was wrapped gives the key back, exactly for keys of 32 bytes |
| Envelope.CoveredByProofs | src/envelope/compose.ts:282-297 | two envelopes have the same canonical bytes exactly when they agree outside seal.signature and seal.session_mac |
| Envelope.WrapEach | src/envelope/compose.ts:194-220 | the loop over the recipients gives the slot map, or the first failure |
| Envelope.CheckSessionMac | src/envelope/verify.ts:56-69 | decides whether the session MAC is that of the canonical bytes |
| EnvelopeLaws.WrapAllHas | src/envelope/compose.ts:194-220 | the slot of a key id holds the wrap for the last recipient that has it |
| EnvelopeLaws.ComposeVerifies | src/envelope/verify.ts:28-69 | both proofs of a composed envelope verify under the sender's keys |
| EnvelopeLaws.SealCommitted | src/envelope/verify.ts:28-47 | a seal that verifies was signed by the holder of the key over an envelope that agrees outside the two proofs |
| EnvelopeLaws.MacCommitted | src/envelope/verify.ts:56-69 | a session MAC that verifies was made by a holder of its key over an envelope that agrees outside the two proofs |
| EnvelopeLaws.OpensBoth | src/envelope/compose.ts:169-407 | a recipient in both lists opens brief and enclosure to the original values, up to key order |
| Sizes.PutSize | src/envelope/padding.ts:95-109 | the printed size of an object grows exactly as the size of the field assigned |
| Padding.SelectSizeBucket | src/envelope/buckets.ts:30-55 | the doubling loop, with the errors in order |
| Padding.ValidateBucketSequence | src/envelope/padding.ts:170-188 | accepts exactly increasing sequences between the floor and the ceiling |
| Padding.PickFits | src/envelope/padding.ts:154-168 | the pick is the smallest bucket of the curve (or of the sequence) that fits, else the ceiling |
| Padding.LowCeiling | src/envelope/buckets.ts:46-54 | below 4096 the ceiling is passed |
| Padding.BuildPaddingValue | src/envelope/padding.ts:123-152 | the filler: base64 of random bytes and up to three more characters |
| Padding.PaddingLength | src/envelope/padding.ts:123-152 | the filler is as long as asked for exactly when the random source gives the bytes asked for, or one or two fewer |
| PadEnvelope.ProofsKeepSize | src/envelope/padding.ts:82-92 | proofs of 88 and 44 characters leave the padded size as it was measured |
| PadEnvelope.FillLands | src/envelope/padding.ts:66-114 | padding ends on the smallest bucket that fits, and "did not land" is reached exactly when the random source does not serve |
| PadEnvelope.ProvedLands | src/envelope/padding.ts:58-114 | an envelope that was padded and is then signed and authenticated, for the first time or anew, has exactly the size of the smallest bucket that fits |
| PadEnvelope.WireEnvelope.FillPadding | src/envelope/padding.ts:66-114 | the envelope after padding has its placeholders taken out again, whatever the outcome |
| Staged.IsStageComplete | src/delivery/disposition.ts:146-175 | complete exactly when no device is waited for, time is up, or all have voted |
| Staged.AggregateDispositions | src/delivery/disposition.ts:81-88 | suppress exactly when some vote says so |
| Staged.TickOne | src/delivery/staged_runner.ts:236-273 | what one tick makes of one record |
| StagedRuns.LivesOk | src/delivery/staged_runner.ts:113-298 | without re-evaluation, in every run: deliveries on a strictly increasing prefix of the stages, then at most one suppression or completion and nothing after; a stage is left only when all voted or its time was up, and with a suppress vote only to suppress |
| StagedRuns.LateTicksBounded | src/delivery/staged_runner.ts:224-273 | counting, over the run since the hold, the ticks at or after the deadline of their time: an envelope with k stages that is still held has seen fewer than k, whatever the votes |
| StagedRuns.LateTickPasses | src/delivery/staged_runner.ts:237-273 | a tick at or after the deadline passes a stage, whatever the votes |
| StagedRuns.ReevaluatedRises | src/delivery/staged_runner.ts:317-353 | re-evaluation leaves increasing stages, none below the current one |
| StagedRuns.ReevaluatedStages | src/delivery/staged_runner.ts:317-353 | re-evaluation takes exactly the stages given that are not below the current one and have devices; the current one keeps its votes and the deadline stays |
| StagedRuns.DeliveriesRise | src/delivery/staged_runner.ts:113-353 | with re-evaluation on distinct stage numbers, delivered stage numbers of every life strictly increase |
| StagedRuns.EmptiedWhen | src/delivery/staged_runner.ts:347-351 | re-evaluation empties a record exactly when no stage from the current one on has devices |
| StagedRuns.StuckForever | src/delivery/staged_runner.ts:237-239 | an emptied record is never changed or completed by any later call |
| StagedRuns.EmptiedRun | src/delivery/staged_runner.ts:317-353 | held for one device and re-evaluated to nothing, an envelope stays held with no stages through whatever calls follow |
| StagedVotes.VotesAsCast | src/delivery/staged_runner.ts:176-216 | in every run without re-evaluation the votes of the current stage are, in order, the first valid vote that each device it waits for has handed in itself since the stage was entered |
| StagedVotes.TickAsCast | src/delivery/staged_runner.ts:236-273 | after any such run a tick leaves the stage exactly when its time is up or every device has cast, and then suppresses exactly when one of those first votes says so |
| StagedRunner.MapIsLives | src/delivery/staged_runner.ts:80-353 | the map holds for each id what that id's own run gives: envelopes do not affect each other |
| StagedRunner.SortCallsSorts | src/delivery/staged_runner.ts:275-278 | the calls of a tick in order of envelope id, none lost |
| StagedRunner.LogIsLives | src/delivery/staged_runner.ts:80-353 | in every run the calls made for an id are the events of the id's lives, in order |
| StagedRunner.Runner.Hold | src/delivery/staged_runner.ts:113-165 | the map and the call after a hold; a failed delivery leaves the map as it was |
| StagedRunner.Runner.IngestDisposition | src/delivery/staged_runner.ts:176-216 | the first vote of a waited-for device is recorded, and nothing else |
| StagedRunner.Runner.Tick | src/delivery/staged_runner.ts:224-309 | every record is advanced, exactly the calls this leads to are made in order of envelope id, and the first error among them is given back |
| StagedRunner.Runner.Reevaluate | src/delivery/staged_runner.ts:317-353 | the map after a re-evaluation |
| Partition.PartitionStages | src/delivery/stage_partition.ts:92-173 | stages in increasing order, none empty, each with the sorted ids placed there, and every placement in one |
| Partition.InOneStage | src/delivery/stage_partition.ts:92-173 | an id is waited for at a stage exactly when it is an eligible device's and that is its stage, and once only |
| Partition.PlacedOnce | src/delivery/stage_partition.ts:92-173 | every eligible device has one stage and one only |
| Partition.HoldAccepts | src/delivery/staged_runner.ts:113-142 | hold takes any non-empty partition as it is |
| Partition.FullAccessLast | src/delivery/stage_partition.ts:105-143 | full-access devices come strictly after every served delegate exactly when a stage is declared or no delegate is served |
| Partition.DeclaredOrder | src/delivery/stage_partition.ts:105-143 | two delegates that are served wait at the stages their certificates declare, and in the order of those stages |
| Partition.FullAccessAfterHighest | src/delivery/stage_partition.ts:130-143 | full-access devices wait one stage after the highest that a delegate declares, or at the first when none declares one |
| Partition.UndeclaredTogether | src/delivery/stage_partition.ts:130-143 | a delegate served without a stage and a full-access device wait in the same stage of every partition |
| Retry.BaseIntervalMs | src/delivery/retry.ts:83-98 | the loop that stops early gives the grown interval cut at the maximum, as if it had not stopped |
| Retry.GrownIsPower | src/delivery/retry.ts:83-98 | the grown interval is the initial one times the multiplier to the power of the attempt |
| Retry.SanitizeKeeps | src/delivery/retry.ts:62-77 | what is configured within the bounds is kept, and the rest gives way to bound or default |
| Retry.JitterWithin | src/delivery/retry.ts:105-121 | the interval is within the jitter of its base, or at the floor of 30 seconds |
| Retry.DeadlineIsEarlier | src/delivery/retry.ts:165-184 | the deadline is the earlier of expiry and horizon; the horizon is the configured one up to seven days, and three days when none is |
| Retry.NextAttemptLater | src/delivery/retry.ts:62-139 | for every configuration and draw there is a next attempt, at least 30 seconds away |
| QueueRuns.RunsOk | src/delivery/scheduler.ts:156-379 | in every run attempts are deliver calls, a next attempt is set exactly while queued, no event while queued and exactly one that tells the outcome once terminal, and a queued record's next attempt is not after its enqueueing or its deadline, whichever is later |
| QueueHistory.HistoryTrue | src/delivery/scheduler.ts:156-379 | in every run: delivered exactly when the last deliver call returned that, rejected exactly when it returned a rejection with none of the six codes that are tried again, canceled exactly by a cancellation, expired at the deadline or when the next attempt would be after it; the fields are those of the last call, the next attempt is its interval away, and the sink is told once and truly |
| QueueHistory.TickTouches | src/delivery/scheduler.ts:196-352 | after any run a tick leaves a queued record alone before its time, expires it at its deadline, and between the two hands it to deliver once |
| QueueRuns.CodesLost | src/delivery/scheduler.ts:381-408 | in every run the event of a terminal record has the record's reason code exactly when that is none |
| QueueRuns.BlockedCodeLost | src/delivery/submission.ts:96-124 | a rejection with a code, and an event without |
| QueueRuns.TerminalAbsorbs | src/delivery/queue.ts:58-72 | a terminal record is not changed by anything but pruning |
| QueueRuns.AttemptsBounded | src/delivery/scheduler.ts:323-358 | 29000 times (attempts - 1) is below the clamped horizon plus a second, in every run, for every configuration and draw |
| QueueRuns.NoFallback | src/delivery/scheduler.ts:347-352 | the fallback of one second is never taken |
| QueueRuns.TickClears | src/delivery/scheduler.ts:202-241 | with a clock that does not go back a tick leaves nothing due or past its deadline, except unchanged records whose deliver call threw |
| QueueRuns.SecondTick | src/delivery/scheduler.ts:202-241 | an immediate second tick changes nothing, when the deliver call returned |
| QueueRuns.CancelReaches | src/delivery/scheduler.ts:276-303 | after cancelEnvelope a record stays queued exactly when its next attempt is beyond twice the horizon |
| QueueRuns.CancelLeavesNone | src/delivery/scheduler.ts:276-303 | with a positive horizon no record of the envelope stays queued |
| QueueRuns.CancelCanMiss | src/delivery/scheduler.ts:282-286 | with a horizon of 0 a record waiting for its retry escapes |
| Scheduler.StoreIsRuns | src/delivery/scheduler.ts:416-480 | the store holds under each key what that key's own run gives |
| Scheduler.LogIsRuns | src/delivery/scheduler.ts:156-408 | in every run the sink receives for each key just the events of the key's lives, in order |
| Scheduler.OneEventEach | src/delivery/scheduler.ts:156-408 | in every run the sink has received one event for each record of the key that turned terminal, and no more |
| Scheduler.SchedulerObject.Enqueue | src/delivery/scheduler.ts:156-190 | the store after enqueueing, and when it throws |
| Scheduler.SchedulerObject.DueRecords | src/delivery/scheduler.ts:439-461 | exactly the due records, by next attempt and then envelope id |
| Scheduler.SchedulerObject.Tick | src/delivery/scheduler.ts:202-241 | store, events in order, count and first error after a tick; a tick in flight refuses |
| Scheduler.SchedulerObject.Cancel | src/delivery/scheduler.ts:249-269 | store, event and state after a cancellation |
| Scheduler.SchedulerObject.CancelEnvelope | src/delivery/scheduler.ts:276-303 | throws exactly on an empty envelope id, and then changes nothing; else store and events in order after the cancellation, and the records canceled, in that order and once each |
| Scheduler.SchedulerObject.PruneTerminal | src/delivery/scheduler.ts:310-318 | exactly the stale terminal records are gone, and counted |
| Policy.PolicyState.Apply | src/delivery/policy_state.ts:156-216 | the reason for refusal and the whole new state; a refused message changes nothing |
| Policy.RunsOk | src/delivery/policy_state.ts:156-216 | in every run accepted messages strictly increase in (version, time) and the state is the fold of their operations in order |
| Policy.AcceptedIff | src/delivery/policy_state.ts:156-216 | in every run a message is accepted exactly when it is in order, signed, for this user and of known kinds, and later than the last one accepted |
| Policy.Replay | src/delivery/policy_state.ts:185-199 | a message once accepted is refused for ever after |
| Policy.LastWriteHolds | src/delivery/policy_state.ts:218-246 | an entry is what the last operation on it made of it |
| Directory.LivesOk | src/keys/directory_state.ts:86-176 | over one lifetime exactly one record is emitted for every revision from 1 on |
| Directory.BeginOk | src/keys/directory_state.ts:51-79 | the constructor's errors, and else a lifetime that starts with revision 1 when there are devices and with none when there are none |
| Directory.IdsStay | src/keys/directory_state.ts:86-135 | device ids stay present and distinct whatever is added and revoked |
| DirectoryRecords.NextRecordLists | src/keys/directory_state.ts:151-176 | the next record lists exactly the devices of the map, each field under its name, in the order of their ids, and is signed under the state's key |
| DirectoryRecords.EmittedLists | src/keys/directory_state.ts:86-176 | whatever an add or a revocation emits lists the devices that are there after it, under the next revision |
| DirectoryRecords.EmittedAccepted | src/keys/directory_cache.ts:67-106 | a consumer with the right key that has seen no later revision takes what is emitted and remembers its revision |
| DirectoryRecords.AcceptedMeans | src/keys/directory_cache.ts:67-106 | whatever a consumer takes is signed under the key, not below the highest revision seen, and lists devices with different ids and checked certificates |
| Directory.FailedAddStays | src/keys/directory_state.ts:86-113 | an add changes the device map and publishes nothing exactly when the entry is new and addable and it or a device already there cannot be signed |
| Directory.FailedRevokeStays | src/keys/directory_state.ts:122-135 | a revocation changes the device map and publishes nothing exactly when the device is there and another cannot be signed; the published record stays |
| Directory.RevokeEmits | src/keys/directory_state.ts:122-135 | a revocation publishes exactly when the device is there and every other one can be signed |
| Directory.RevokeUnblocks | src/keys/directory_state.ts:151-176 | revoking a device whose add failed in signing takes the add back, and publishing resumes |
| Directory.FailedInputs | src/keys/directory_state.ts:110-135 | beside a published device an entry without an algorithm stays, a valid one added then stays unpublished, and revoking the published device leaves the published record as it was |
| Directory.FailedAddBlocks | src/keys/directory_state.ts:151-176 | until that device is revoked nothing is ever emitted |
| Directory.OnlyForward | src/keys/directory_cache.ts:67-106 | records accepted from a replaying network come from the emission history in order, and equal revisions list equal devices |
| Directory.DirectoryState.EmitRecord | src/keys/directory_state.ts:151-176 | the next signed revision, or the revision taken back |
| Directory.DirectoryState.AddDevice | src/keys/directory_state.ts:86-113 | the device map and the record emitted |
| Directory.DirectoryState.RevokeDevice | src/keys/directory_state.ts:122-135 | the device map without the device and the record emitted |
| Directory.DirectoryCache.VerifyAndCache | src/keys/directory_cache.ts:67-106 | accepts exactly under the four rules, and then advances the cached revision |
| Merkle.LargestPowerOfTwoLessThan | src/transparency/merkle.ts:237-246 | the doubling loop finds where a tree is split |
| Merkle.ComputeRootFromInclusion | src/transparency/merkle.ts:94-129 | the two nested loops over bits, against one recursive function |
| Merkle.ComputeRootsFromConsistency | src/transparency/merkle.ts:179-231 | the loops over bits that climb two roots at once, against one recursive function |
| Merkle.ClimbIsRootFrom | src/transparency/merkle.ts:94-129 | for every index, size up to 2^32 and path, the loop over bits leads to the root that the shape of the tree leads to |
| Merkle.BeginIsRootsFrom | src/transparency/merkle.ts:179-231 | for every two sizes up to 2^32 and every path, the loops over bits lead to the two roots that the shape of the tree leads to |
| Merkle.InclusionExact | src/transparency/merkle.ts:62-92 | when what the proof hashes does not collide with what the tree hashes, an inclusion proof is accepted under the tree's root exactly when it is the one auditPath makes for its leaf |
| Merkle.InclusionComplete | src/transparency/merkle.ts:268-281 | the proof made for a leaf is accepted, whatever the hash |
| Merkle.ConsistencyExact | src/transparency/merkle.ts:135-177 | likewise a consistency proof, from any older size: accepted exactly when the older root is that of the tree's first leaves and the proof is the one subproof makes for it, and from size 0 exactly when its path is empty |
| Merkle.ConsistencyComplete | src/transparency/merkle.ts:284-304 | the proof made for a prefix is accepted, whatever the hash |
| Merkle.RefusedWithoutCollision | src/transparency/merkle.ts:62-177 | a hash of 32 bytes, a tree and two proofs not made for it where nothing collides, and both are refused |
| Merkle.TooLarge | src/transparency/merkle.ts:100-121 | in every tree of more than 2^32 leaves the proof made for the first leaf is refused, whatever the hash |
| Merkle.TooLargeToCompare | src/transparency/merkle.ts:179-231 | and the consistency proof made from size 1 is refused |
| Merkle.InclusionSizes | src/transparency/merkle.ts:62-129 | all proofs made for leaves of a tree are accepted exactly when it has 2^32 leaves at most |
| Merkle.ConsistencySizes | src/transparency/merkle.ts:135-231 | all consistency proofs made for a tree are accepted exactly when it has 2^32 leaves at most |
| Merkle.WrongAccepted | src/transparency/merkle.ts:94-129 | in every tree of more than 2^32 leaves a proof made for no leaf is accepted: the hash of a whole subtree stands in for the first leaf |
| Merkle.RootsBind | src/transparency/merkle.ts:34-56 | when nothing hashed for two lists of entries collides, equal roots mean the same number of entries and the same entries |
| Merkle.LogsWithoutCollision | src/transparency/merkle.ts:34-56 | two lists of entries where nothing hashed collides, with different roots |
| TransparencyLog.ConsistentMeansPrefix | src/transparency/merkle.ts:135-177 | two heads with a proof between them that verifies, and no collision among what the two logs and the proof hash: the older log is the beginning of the newer one, entry by entry |
| TransparencyLog.IncludedMeansThere | src/transparency/merkle.ts:62-92 | a head with a proof for an entry that verifies, and no collision among what the log and the proof hash: the log has that entry at that place |
| TransparencyLog.Log.Append | src/transparency/log.ts:65-71 | the entry is added at the end and its index returned, or nothing changes |
| TransparencyLog.Log.InclusionProof | src/transparency/log.ts:111-133 | fails exactly on sizes and indices out of range; else the proof names the entry and verifies under the root of that earlier state |
| TransparencyLog.Log.ConsistencyProof | src/transparency/log.ts:139-167 | fails exactly on sizes out of range; else the proof verifies under the roots of both earlier states |

## Left out

- JsonParser.ParseValue: numbers are integers of any size; fractions, exponents and lone surrogates are refused, negative zero is read as 0, and nesting depth is not limited.
- Json.Serialize: the two errors for values that JSON.parse never produces (non-finite numbers, unsupported types) cannot arise here.
- Utf8.Decode: malformed bytes are refused, where TextDecoder would put replacement characters; a leading byte order mark is not stripped. Messages on the network are texts.
- Federation.CheckInit: a field that must be base64 text and is something else is refused, also where Buffer.from would take an array; property reads that throw a TypeError and checks that throw are both errors.
- FederationRuns.Agreement: forward secrecy is not stated; on the initiator's side a response binds the nonce of the init it answers and not the whole of it, so FederationAuthentic.ResponseAuthentic says no more; the initiator does not compare the negotiated suite with its own, so keys are equal only when both ends are configured with the same suite.
- Federation.OnAccepted: a session_ttl that is not a number counts as absent; the resumption ticket and extensions of the session are not kept.
- FederationParties.FederationInitiator.Init: zeroing a caller's pinned key or nonce in place is not modelled; keys are values.
- FederationParties.FederationInitiator.constructor: the errors for empty configuration fields are a requires; an unknown suite cannot be written down.
- FederationParties.FederationInitiator.OnAccepted: the resumption ticket and extensions of the session are not kept.
- FederationParties.FederationInitiator.OnResumeAccepted: the session's ticket and extensions and the decoded new ticket are not kept.
- MigrationFlow.BuildThenAccept: hooks that mutate the record are left out; minting a record id is a parameter.
- MigrationParties.AcceptSubmission: each call runs alone, so two submissions that wait for the same registry are not covered; an abstract registry or store that fails in ways of its own is not modelled.
- MigrationFlow.Valid: validation is one predicate; which error is thrown first is not modelled.
- Shamir.SplitSecret: threshold, total and index are integers; the random source is the buffer it returned.
- Seal.Wrap: primitives are function values with the laws in `Lawful`; constant-time behaviour is not modelled.
- Envelope.WrapAll: a key id that names a property of every JavaScript object (such as `__proto__`) is not treated specially.
- PadEnvelope.Fill: sizes are integers, and the random source returns rather than throws.
- Staged.IsStageComplete: a deadline is a time; one that is empty or cannot be read, which the source takes as not yet reached, is not modelled.
- Staged.NewHeld: the times are integers within the range of dates.
- Partition.PartitionStages: stage numbers are integers; the sender matcher's verdict is part of the certificate.
- Retry.NextAttempt: real arithmetic without rounding, and times within the range of dates, so a jitter fraction of astronomic size does not overflow.
- QueueRuns.RunsOk: the event sink returns; each operation is atomic, so a cancellation during an awaited delivery is not covered.
- Policy.Check: the text of the errors and their classification by message are replaced by a reason and an index.
- Directory.LivesOk: entries are values, so mutation of a device entry by the caller afterwards is not modelled; clearing a cached revision by hand (`reset`) is left out.
- Merkle.VerifyConsistency: roots have 32 bytes, and sizes and indices are integers.
- TransparencyLog.Log.Append: the validation of an entry is a parameter; signed tree heads and their freshness are left out.
- Session handling, transports, discovery, reputation, large attachments and the remaining record types are left out: mostly plumbing and field-by-field validators, and no theorem here speaks of them.
- Primitive internals (Ed25519, X25519, ML-KEM, ChaCha20-Poly1305, HMAC, SHA-2, HKDF) are not part of this model.
