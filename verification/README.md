# dZTA in Dafny

A model of the decentralised zero-trust access stack: the clearance circuit and the arithmetic that feeds it, the
revocation protocol between ledger, daemon and edge, and attested key release with wallet storage. Each part follows
the code; what the code promises is proved for every input, every run or every reachable state.

## What is modelled

**Clearance circuit** (`Arithmetic.dfy`, `Circuit.dfy`). A constraint system is an object that collects instance
values, witness values and rank-1 constraints `<A,z> * <B,z> = <C,z>` modulo r. `GenerateConstraints` allocates the
five values, decomposes `clearance - required` into the n canonical bits that `to_bits_le` yields (booleanity, one
packing equation, and a comparison of the bits with r - 1 from the top), enforces that the low eight bits are all of it,
and enforces the two products of the commitment. The comparison allocates one flag for each one bit of r - 1. The main
theorem, `CircuitExact`, is an equivalence for every prime r and every assignment: the constraints hold exactly when the
five values are in the relation and everything else is the honest witness. Soundness, completeness and uniqueness of the
witness all follow. The circuit's doc comment speaks of about 40 constraints; a full canonical decomposition has several
hundred, and the model follows the calls in the code.

**From record to circuit** (`Bytes.dfy`, `ZkpCore.dfy`, `Envelope.dfy`, `Json.dfy`, `Unsealing.dfy`). Decimal text is read
as `BigUint::from_str_radix` reads it (one plus sign, skipped underscores), bytes as little- or big-endian numbers. The
byte-and-decimal route of the prover refines the direct field route, the derived instance satisfies the circuit exactly
when the clearance covers the requirement by at most 255, and commitments and nullifiers collide exactly in the families
that are named.

**Revocation** (`Ledger.dfy`, `Edge.dfy`, `Revocation.dfy`, `Daemon.dfy`). One state machine interleaves ledger
transactions, (re)connects that restart at block 0, single event deliveries, single push attempts (lost on the way,
answered, or handled with the reply lost), stream errors, restarts of edge and daemon, and public traffic. Any transaction may commit at
any time, a repeated record included. The daemon's push and block loops are methods; `PushLoopIsRun` and `BlockIsRun` show
that they are runs of the machine, so what is proved of all runs holds of them.

**Ledger client** (`FabricClient.dfy`). The two-read activity check with transactions between its reads, and the two
retry loops with their exact bounds.

**Attested release and wallet** (`Broker.dfy`, `Wallet.dfy`, `Issuance.dfy`, `Lifecycle.dfy`). Enclaves bind messages into
quotes, the broker checks quotes and answers over a Vault, whose data-key engine and handlers are methods over one object
that draws secrets and issues ciphertexts, and issued credentials travel through wallet and enclave to the
circuit. Concurrent creation of the master seed is a machine of its own.

SHA-256, AES-GCM, RSA-OAEP, Groth16, DCAP verification, Vault, the JSON text codec, RFC 3339 parsing, clocks and random
numbers are parameters: functions with the one law that is used of them (32-byte digests, no collision among the messages
of the run, open undoes seal, parse undoes write, an accepted proof has an assignment behind it), or values that carry
their contents. The modulus r is a parameter as well: a prime where the field is needed, above 2^64 + 255 and within 32
bytes where 64-bit levels and byte encodings meet.

## Properties that fail in general, and where they hold

- The log's ids and the ledger's revoked flags agree after a run of transactions if and only if no id is recorded after a
  logged revocation of it without being revoked again (`AgreementOfRun`; `AgreementStep` per transaction,
  `ReissueBreaksAgreement` the witness). Revoked ids are logged in any case.
- A healed edge refuses exactly the prefixes of the logged ids up to the first `#`, `?`, `&` or `=`. These are exactly the
  revoked ids if and only if the revoked ids are free of delimiters and the prefix of every logged id is revoked
  (`ReplayHeals`): for delimiter-free logged ids that is agreement, under agreement it is delimiter-freeness. The id "a&b"
  ends with "a" refused instead (`DelimiterRefusesPrefix`), and an id recorded again stays refused (`ReissueStaysRefused`).
  Between a restart of the edge and the end of a replay a standing revocation is not enforced (`RestartsForget`).
- The activity check is decided by the state at its first read if and only if the id was missing or revoked then, or the
  expiry recorded last between the reads is on the same side of the clock (`ReissueBetweenReads`; the witness is
  `ReissueReportsActive`).
- A commitment determines its nullifier modulo r if and only if clearance and role are nonzero (`CommitmentInNullifier`);
  an empty role is the scalar 0, and any two residues then share a commitment (`EmptyRole`, `EmptyRoleCollides`).
- The three stored forms of a document unseal alike only in part: its XORed form is read through the clear reading, or,
  when that is rejected, if and only if the document is the bare struct (`FormsAgree`). A W3C credential, which is what the
  issuer produces, is then lost (`XoredCredentialLost`).
- Nullifier pre-images are unambiguous for ids of one length; across lengths a byte can move between did and id
  (`PreimagesIff`, `NullifierShift`).
- A key handshake and a proof session hash the same message if and only if the "key" is the first 64 bytes of the
  session's public inputs and the clearance spells the rest (`BindingsIff`). A proof session then passes for a handshake
  that nobody made and secrets go to an unbound key (`ProofPassesForHandshake`); no RSA key text is that short, and
  `SecretsGoToBoundKeys` assumes just that.
- The endorsement backoff overflows 64 bits if and only if more than 59 retries are allowed and 59 calls fail
  (`GetEndorsementsWithRetry`).

## Model

| member | source | states |
|---|---|---|
| R1cs.ConstraintSystem.IsSatisfied | dzta-gramine-prover/src/main.rs:135-147 | the satisfaction check is true exactly when every enforced constraint holds of the assigned values modulo r |
| RoleCircuit.AllocateValues | zkp-core-crypto/src/lib.rs:28-50 | private values, then public ones, in the declared order; fails exactly when one is missing |
| RoleCircuit.AllocateBits | zkp-core-crypto/src/lib.rs:56 | allocates the n little-endian bits of the difference, each with its booleanity constraint |
| RoleCircuit.EnforceInField | zkp-core-crypto/src/lib.rs:56 | appends the comparison of the bits with r - 1 and assigns its honest flags |
| RoleCircuit.EnforceRange | zkp-core-crypto/src/lib.rs:52-58 | decomposes the difference and ties it to its low eight bits |
| RoleCircuit.EnforceProducts | zkp-core-crypto/src/lib.rs:60-62 | allocates the two products and enforces them and the public commitment |
| RoleCircuit.GenerateConstraints | zkp-core-crypto/src/lib.rs:27-65 | a missing value is the only error; otherwise the system holds exactly the compiled constraints and the honest assignment, in the public order |
| RoleCircuit.BitsMean | zkp-core-crypto/src/lib.rs:56 | over a prime modulus the booleanity constraints hold exactly for bits 0 and 1 |
| RoleCircuit.InFieldMeans | zkp-core-crypto/src/lib.rs:56 | the comparison chain holds exactly when the bits are at most the bound and every flag is the honest one |
| RoleCircuit.PackingMeans | zkp-core-crypto/src/lib.rs:56-58 | on canonical bits the two packing equations say that the bits are those of the difference and that it is at most 255 |
| RoleCircuit.ProductsMean | zkp-core-crypto/src/lib.rs:60-62 | the product constraints hold exactly when commitment = nullifier * clearance * role and both intermediate products are right |
| RoleCircuit.CircuitExact | zkp-core-crypto/src/lib.rs:27-65 | for every prime modulus and every assignment, the constraints hold if and only if the five values are in the relation and all other values are the honest witness |
| RoleCircuit.SatisfiableIff | zkp-core-crypto/src/lib.rs:27-65 | some choice of bits, flags and products satisfies the constraints if and only if (clearance - required) mod r is in 0..255 and the commitment matches |
| RoleCircuit.HonestShaped | zkp-core-crypto/src/lib.rs:28-50 | the honest assignment consists of field elements in the declared layout and gives the five values back |
| RoleCircuit.RangeOnU64 | zkp-core-crypto/src/lib.rs:55-58 | for 64-bit levels and r > 2^64 + 255 the range condition is required <= clearance <= required + 255 |
| RoleCircuit.CheckInstance | dzta-gramine-prover/src/main.rs:126-147 | synthesis followed by the satisfaction check decides the relation |
| ByteStrings.LeRoundTrip | shared/src/zkp_core.rs:257 | shortest little-endian bytes read back to the number |
| ByteStrings.LeFixedRoundTrip | shared/src/zkp_core.rs:318-321 | fixed-length little-endian bytes read back to every number that fits |
| ByteStrings.LeLast | shared/src/zkp_core.rs:257 | each further byte of a little-endian number weighs 256 times more |
| ByteStrings.BeFirst | shared/src/zkp_core.rs:356 | the first byte of a big-endian number is the most significant |
| ByteStrings.DecimalIff | shared/src/zkp_core.rs:348-350 | which texts parse as decimal numbers, exactly, and what a further digit or underscore does |
| ByteStrings.BlankTrims | dzta-issuer/src/lib.rs:77 | blank text is the text that trims to nothing |
| ByteStrings.BlankBytesTrim | dzta-attestation-broker/src/routes/datakey.rs:134 | the same for text given as bytes |
| ByteStrings.Utf8CharReads | shared/src/zkp_core.rs:332-333 | the bytes of a character in UTF-8, by length and by the bits they carry |
| ByteStrings.DecimalRoundTrip | shared/src/zkp_core.rs:348-360 | decimal printing is undone by the parser, plus sign and underscore rules included |
| ZkpCore.OrderIsScalarField | shared/src/zkp_core.rs:17-18 | the BLS12-381 scalar order has 255 bits, exceeds 2^64 + 255 and fits 32 bytes |
| ZkpCore.DeriveNullifier | shared/src/zkp_core.rs:325-336 | hashes the one message made of the 24-character domain tag, did, id and seed, in that order |
| ZkpCore.PreimageLayout | shared/src/zkp_core.rs:330-334 | the pre-image is that message, slice by slice, and no other |
| ZkpCore.ScalarParses | shared/src/zkp_core.rs:343-361 | every scalar string parses, so the zero default is never taken, and normalising twice changes nothing |
| ZkpCore.RoleMeans | shared/src/zkp_core.rs:343-361 | the role element: 0 for no text, the number mod r for decimal text, and otherwise the big-endian digest mod r, printed as shortest decimal |
| ZkpCore.HashedRolesIff | shared/src/zkp_core.rs:352-360 | two non-decimal roles are one element if and only if their digests agree mod r |
| ZkpCore.RoutesAgree | shared/src/zkp_core.rs:246-276 | the prover's route through bytes and decimal text gives the same field elements as the direct route, for every subject, seed and requirement |
| ZkpCore.CommitIsProduct | shared/src/zkp_core.rs:316 | reducing after each factor gives nullifier * clearance * role mod r |
| ZkpCore.DerivedInstanceIff | shared/src/zkp_core.rs:157-202 | the derived instance holds the subject's clearance, the requirement, the role element and the nullifier digest read little-endian mod r; it always meets the commitment constraint and is in the relation if and only if required <= clearance <= required + 255 |
| ZkpCore.ProverCheck | dzta-gramine-prover/src/main.rs:84-147 | the prover's whole check, from subject to constraint satisfaction, accepts if and only if required <= clearance <= required + 255 |
| ZkpCore.ProversAgree | dzta-protected-prover/src/main.rs:34-60 | from any encodings of the same values two provers build one circuit instance for every 64-bit level, and the third, whose levels are bytes, builds it too exactly when the nullifier has 32 bytes |
| ZkpCore.CommitmentInNullifier | shared/src/zkp_core.rs:304-322 | two commitments agree if and only if the nullifiers agree modulo r or another factor is zero |
| ZkpCore.EmptyRole | shared/src/zkp_core.rs:304-322 | the empty role is the field element 0, and all nullifiers then share one commitment |
| ZkpCore.EmptyRoleCollides | shared/src/zkp_core.rs:304-322 | for any two residues there are 32-byte nullifiers with those residues and one commitment |
| ZkpCore.CommitmentInClearance | shared/src/zkp_core.rs:304-322 | the same for two clearances |
| ZkpCore.CommitmentInRole | shared/src/zkp_core.rs:304-322 | the same for two roles |
| ZkpCore.PreimagesIff | shared/src/zkp_core.rs:325-336 | pre-images agree if and only if the seeds and the did-id concatenations agree, for ids of one length if and only if all parts agree |
| ZkpCore.NullifiersDistinct | shared/src/zkp_core.rs:325-336 | without a collision of the two pre-images, nullifiers agree if and only if did, id and seed do |
| ZkpCore.NullifierShift | shared/src/zkp_core.rs:325-336 | moving a byte from id to did leaves the pre-image unchanged |
| Envelope.EncryptWalletRecord | shared/src/zkp_core.rs:24-53 | the envelope is magic, nonce, ciphertext and tag, in that order |
| Envelope.EnvelopeRoundTrip | shared/src/zkp_core.rs:24-82 | every plaintext decrypts from its envelope under its passphrase, and the envelope is 33 bytes longer |
| Envelope.EnvelopeLayout | shared/src/zkp_core.rs:24-82 | the envelope by position: the text DZTA1, nonce, ciphertext and tag under the digest of the passphrase; opening accepts exactly envelopes of that form that pass the tag check |
| Envelope.XorTwice | shared/src/zkp_core.rs:169-173 | cyclic XOR undoes itself if and only if the key is nonempty (or there is no data) |
| Envelope.XorCycleMeans | shared/src/zkp_core.rs:169-173 | bit k of byte i is set exactly when those of the data and of the repeated key differ |
| Unsealing.FormsAgree | shared/src/zkp_core.rs:157-179 | sealed and plain forms of one document unseal to one subject; under a nonempty key the XORed form does if and only if its clear reading gives that subject, or is rejected and the document is the bare struct; any other document is lost when the clear reading is rejected |
| Unsealing.FieldsRead | shared/src/zkp_core.rs:204-241 | which JSON field becomes which part of the subject, for the bare struct and for a W3C credential, as equivalences |
| Unsealing.TupleReads | shared/src/zkp_core.rs:117-123 | the struct written as its four values in order |
| Issuance.ValidateIff | fabric-client/src/schema_engine.rs:12-63 | validation succeeds if and only if every schema attribute is present and well typed |
| Issuance.ValidateError | fabric-client/src/schema_engine.rs:12-63 | a rejection names the first attribute that is missing or ill typed, and which of the three reasons it is |
| Issuance.CreateCredential | dzta-issuer/src/lib.rs:69-138 | exact success condition; every field of document, subject and proof by name; the proof value signs the document without it; the ledger records the id on success and is untouched on failure |
| Issuance.StoredCredentialRoundTrip | dzta-wallet/src/lib.rs:68-90 | a stored credential decrypts to itself, the wallet reads its attributes back, and the enclave reads clearance, role, did and id |
| Issuance.XoredCredentialLost | shared/src/zkp_core.rs:169-178 | the XORed form of an issued credential gives its subject if and only if the clear reading of the bytes does, and fails whenever that reading is rejected |
| Issuance.IssuedCredentialProves | shared/src/zkp_core.rs:204-241 | the instance built from the stored record is satisfiable if and only if the issued clearance covers the requirement by at most 255 |
| Lifecycle.StoreAndUnseal | dzta-wallet/src/lib.rs:195-209 | storing, reading through the wallet and unsealing the raw record recover the issued values |
| Lifecycle.IssueStoreProve | dzta-issuer/src/lib.rs:89-107 | if issuing succeeds, the wallet gives back the signed document with every issued field, the later stages see the issued values, every schema attribute is well typed, and the circuit accepts exactly the covered requirements |
| WalletStore.Wallet.StoreCredential | dzta-wallet/src/lib.rs:68-80 | succeeds exactly for a new name in an initialized wallet, and the entry then reads back as the document |
| WalletStore.Wallet.FetchRawEncryptedRecord | dzta-wallet/src/lib.rs:60-66 | returns the sealed bytes as stored |
| WalletStore.Wallet.GetCredential | dzta-wallet/src/lib.rs:82-90 | decrypts and parses the entry, or says why not |
| WalletStore.Wallet.MarkCredentialRevoked | dzta-wallet/src/lib.rs:211-223 | changes one entry's tag; every credential reads as before |
| WalletStore.Wallet.GetOrCreateZkpSecretSeed | dzta-wallet/src/lib.rs:92-104 | returns the stored seed, or stores and returns the new one |
| SeedRace.RunInv | dzta-wallet/src/lib.rs:92-104 | in every interleaving whoever holds a seed holds the stored one, and a stored seed never changes |
| SeedRace.OneSeed | dzta-wallet/src/lib.rs:92-104 | all calls that succeed in a run return one and the same seed |
| Ledger.KeysApart | dztac/main.go:76-132 | the three key namespaces are disjoint and credential keys are injective |
| Ledger.ApplyValid | dztac/main.go:75-282 | every transaction keeps credential keys holding metadata of their own id |
| Ledger.ApplyFrame | dztac/main.go:131-248 | a transaction changes the metadata of at most the credential it names; a record sets every field to its own argument |
| Ledger.ApplyWrites | dztac/main.go:75-282 | which key each transaction writes, every field of the credential, schema or DID document stored there, and that nothing else changes |
| Ledger.ApplyLog | dztac/main.go:225-245 | exactly the revocation of an existing credential appends one event, with its name, id, time and reason |
| Ledger.EventIdIff | dzta-revocation-daemon/src/main.rs:180-203 | which events count as revocations, and of which id |
| Ledger.ApplySets | dztac/main.go:131-248 | the effect of each transaction on the revoked set and on the set of logged ids |
| Ledger.AgreementStep | dztac/main.go:140-154 | logged ids and revoked flags stay equal if and only if the transaction does not record a revoked id |
| Ledger.ReissueBreaksAgreement | dztac/main.go:140-154 | recording a revoked id again clears the flag while the event remains |
| Ledger.RunSets | dztac/main.go:131-248 | after any run of transactions an id exists if recorded, is logged if revoked after a record, and is revoked if logged and not reissued, all as equivalences on the transactions |
| Ledger.MetadataOfRun | dztac/main.go:131-174 | after any run the getter reports the arguments of the last record of the id, field by field, and the flag |
| Ledger.AgreementOfRun | dztac/main.go:140-154 | a run ends with log and flags in agreement if and only if no id was recorded after a logged revocation and left unrevoked; revoked ids are always logged |
| Ledger.RecordedOnceAgrees | dztac/main.go:131-155 | when every id is recorded at most once, log and flags agree |
| Ledger.RevokedMeans | dztac/main.go:177-183 | membership in the revoked set is the flag that the getter reports |
| Ledger.DztaContract.RecordCredentialMetadata | dztac/main.go:131-155 | overwrites the entry with an unrevoked one that carries each argument in its own field |
| Ledger.DztaContract.GetCredentialMetadata | dztac/main.go:158-174 | returns the entry or not-found |
| Ledger.DztaContract.IsCredentialRevoked | dztac/main.go:177-183 | errs exactly for a missing credential and otherwise decides the revoked set |
| Ledger.DztaContract.RevokeCredential | dztac/main.go:203-248 | errs exactly for a missing credential; otherwise sets the flag and appends one event |
| Ledger.DztaContract.RegisterSchema | dztac/main.go:75-105 | writes only the schema's key |
| Ledger.DztaContract.RegisterDid | dztac/main.go:255-282 | rejects empty arguments and writes only the did's key |
| Edge.CleanPrefix | dzta-edge-wasm/src/lib.rs:104-116 | a delimiter-free prefix that cannot be extended |
| Edge.PushPathRoundTrip | dzta-edge-wasm/src/lib.rs:104-127 | extraction from the daemon's path yields the longest delimiter-free prefix of what was appended, the whole of it if and only if it is clean |
| Edge.QueryReads | dzta-edge-wasm/src/lib.rs:104-116 | in a query of plain pairs the first "id" is found and other pairs are passed over |
| Edge.NoQuery | dzta-edge-wasm/src/lib.rs:104-116 | a path without a query names no id |
| Edge.EdgeFilter.OnHttpRequestHeaders | dzta-edge-wasm/src/lib.rs:81-194 | the handler as a function of store and request; it continues if and only if the path is public, the key loaded, all headers present, the id not stored and the proof accepted |
| Edge.AdminAnswerIff | dzta-edge-wasm/src/lib.rs:87-139 | on the admin path each of the five statuses, exactly when, and the one entry that a 200 stores |
| Edge.GateAnswerIff | dzta-edge-wasm/src/lib.rs:144-193 | on every other path continuing and each of the four statuses, exactly when; the store never changes |
| Edge.ContinueMeans | dzta-edge-wasm/src/lib.rs:144-193 | a request that continues has an id not refused at that moment and public inputs witnessed within the range |
| Edge.StoreChanges | dzta-edge-wasm/src/lib.rs:87-138 | only authorised admin requests change the store, they only add, and only the id they name |
| Edge.RefusedForGood | dzta-edge-wasm/src/lib.rs:172-179 | once stored, an id is refused after any further requests |
| Revocation.AttemptStores | dzta-revocation-daemon/src/main.rs:211-237 | an attempt stores the pushed prefix if and only if it reaches a writable edge with the daemon's token and the prefix is nonempty, reply or not |
| Revocation.LedgerStep | dztac/main.go:131-248 | every machine step, repeated records included, keeps the ledger well formed and its revoked ids within the log |
| Revocation.DaemonStep | dzta-revocation-daemon/src/main.rs:170-207 | every step keeps the cache equal to the longest prefix delivered since the daemon started and within the log; only a daemon restart shrinks it |
| Revocation.EdgeStep | dzta-edge-wasm/src/lib.rs:126-137 | every step, a daemon restart included, keeps each stored key the key of an id that was cached once |
| Revocation.RunInv | dzta-revocation-daemon/src/main.rs:59-207 | the whole invariant holds in every state of every run, restarts of either process included |
| Revocation.LedgerOfRun | dztac/main.go:131-248 | the ledger after a run is the committed transactions applied in order; no other step touches it |
| Revocation.ReachableStates | dzta-revocation-daemon/src/main.rs:162-207 | in every reachable state the revoked ids are logged, and equal to the logged ids if and only if no committed record is a lasting reissue; cache = longest prefix delivered since the daemon started; the edge refuses only prefixes of ids ever cached, which are logged and, without a daemon restart, the cache; the backoff fits the errors in a row |
| Revocation.ReplayStep | dzta-revocation-daemon/src/main.rs:162-207 | an undisturbed step keeps every replayed event stored or being pushed |
| Revocation.ReplayHeals | dzta-revocation-daemon/src/main.rs:126-134 | after any history, restarts included, one undisturbed replay makes the edge refuse exactly the prefixes of the logged ids: the prefix of every revoked id, and every clean revoked id itself; and exactly the revoked ids if and only if they are clean and every logged prefix is revoked; with clean logged ids this is agreement, with agreement it is cleanness |
| Revocation.PushSucceedsIff | dzta-revocation-daemon/src/main.rs:225-237 | an attempt succeeds if and only if it is answered by a writable edge with the daemon's token and the id has a nonempty clean prefix |
| Revocation.ReplayExists | dzta-revocation-daemon/src/main.rs:162-207 | from any connected state an undisturbed replay of the rest of the log exists when every logged id has a nonempty prefix |
| Revocation.HealingIsPossible | dzta-revocation-daemon/src/main.rs:126-134 | after any history an accepting edge has an undisturbed replay that heals it, provided every logged id has a nonempty prefix, which ReplayHeals shows necessary |
| Revocation.HealedGate | dzta-edge-wasm/src/lib.rs:172-193 | once healed, a request that continues names no prefix of a logged id and no clean revoked id, and carries witnessed inputs |
| Revocation.HealedGateIff | dzta-edge-wasm/src/lib.rs:144-193 | once healed, a public request continues if and only if the key is loaded, all headers are present, the proof is accepted and the id is no prefix of a logged id |
| Revocation.OneRevocationRun | dzta-revocation-daemon/src/main.rs:170-237 | recording, revoking, delivering and pushing one id is a run that ends with its prefix refused |
| Revocation.DelimiterRefusesPrefix | dzta-edge-wasm/src/lib.rs:104-137 | for the id "a&b" that run ends with "a" refused and "a&b" revoked |
| Revocation.ReissueStaysRefused | dztac/main.go:140-154 | an id recorded again after that run is still refused though no longer revoked |
| Revocation.RestartsForget | dzta-revocation-daemon/src/main.rs:126-134 | after restarts of edge and daemon a standing revocation is neither stored nor cached until a replay |
| Daemon.PushLoopIsRun | dzta-revocation-daemon/src/main.rs:221-258 | the push loop is a run of the machine with the same store, and abandons exactly when it reports failure |
| Daemon.PushAllIff | dzta-revocation-daemon/src/main.rs:224-258 | the loop succeeds if and only if some attempt can, and stops at the first such attempt |
| Daemon.DelayClosedForm | dzta-revocation-daemon/src/main.rs:222-256 | the wait after attempt i is min(500 * 2^i, 5000) ms |
| Daemon.EventIsRun | dzta-revocation-daemon/src/main.rs:183-205 | handling one event is a delivery and its push loop, with the same cache and store |
| Daemon.BlockIsRun | dzta-revocation-daemon/src/main.rs:170-207 | processing a block is a legal run of deliveries and pushes with the same cache and store and the position advanced by the block, undisturbed if and only if no push is given up |
| Daemon.BlockStores | dzta-revocation-daemon/src/main.rs:170-207 | a block keeps every stored key, adds only keys of its own ids, and all of them when no push is given up |
| Daemon.BlockHeals | dzta-revocation-daemon/src/main.rs:126-207 | after any history and a reconnect, processing the whole log without giving up a push leaves the edge refusing exactly the prefixes of the logged ids, every clean revoked id among them |
| Daemon.FabricRevocationListener.TryPush | dzta-revocation-daemon/src/main.rs:225-237 | one attempt's effect on the edge store, and success exactly for a 200 that arrives |
| Daemon.FabricRevocationListener.SyncToEnvoyMemory | dzta-revocation-daemon/src/main.rs:211-264 | at most five attempts, exact store and attempts; success means the key is stored; the total sleep for each number of attempts, 12.5 s on failure |
| Daemon.FabricRevocationListener.ProcessChaincodeEventsResponse | dzta-revocation-daemon/src/main.rs:170-207 | caches exactly the ids of the block and leaves the store of the machine run in BlockIsRun; every id is stored when no push is given up |
| Daemon.BackoffClosedForm | dzta-revocation-daemon/src/main.rs:62-80 | the backoff after k errors in a row is min(2^k, 30) |
| Daemon.BackoffOfRun | dzta-revocation-daemon/src/main.rs:59-82 | in every machine run the wait is min(2^k, 30) for the k errors since the last graceful end or restart |
| Daemon.Run | dzta-revocation-daemon/src/main.rs:59-82 | for every sequence of stream outcomes the wait after the k-th error in a row is min(2^(k-1), 30) s |
| FabricClient.MetadataFrame | dztac/main.go:203-221 | without a record of the id, transactions change at most its flag |
| FabricClient.ExpiryAfter | dztac/main.go:140-221 | an existing credential stays through any transactions, with the expiry of its last record |
| FabricClient.VerifyActiveLinearizable | fabric-client/src/fabric_client.rs:380-397 | with any transactions between the reads and no record of an existing id, the call answers as at its first read; Ok(true) if and only if then present, unrevoked and not expiring before the later clock |
| FabricClient.ReissueBetweenReads | fabric-client/src/fabric_client.rs:380-397 | with any transactions in between, the answer is that of the first read if and only if the id was missing or revoked then or the last recorded expiry is on the same side of the clock; Ok(true) exactly by first flag and last expiry |
| FabricClient.ReissueReportsActive | fabric-client/src/fabric_client.rs:380-397 | a credential expired at the first read can be reported active |
| FabricClient.BackoffFits | fabric-client/src/fabric_client.rs:731 | 100 * 2^k fits 64 bits if and only if k <= 57 |
| FabricClient.GetEndorsementsWithRetry | fabric-client/src/fabric_client.rs:700-739 | which of the four endings occurs, exactly; calls made and total sleep in closed form for each, 59 calls at an overflow |
| FabricClient.WaitForTransactionCommit | fabric-client/src/fabric_client.rs:651-697 | at most 2T + 1 polls, all inside the window; the answer is the first decisive status, a timeout only after the window |
| Broker.BindUserReportData | dzta-gramine-prover/src/attestation.rs:23-42 | writes the data cut or zero-padded to 64 bytes, and nothing without enclave hardware |
| Broker.BindSession | dzta-gramine-prover/src/attestation.rs:46-51 | writes the padded digest of tag and data, and nothing without enclave hardware |
| Broker.BindingsIff | dzta-gramine-prover/src/main.rs:49-51 | a key handshake determines key and clearance, and equals a proof session if and only if the inputs spell it |
| Broker.BindingLayout | dzta-gramine-prover/src/attestation.rs:46-51 | both hashed messages part by part: the 19-character tag, then key text and big-endian clearance, or the public inputs |
| Broker.VerifySgxQuote | dzta-attestation-broker/src/routes/datakey.rs:59-125 | the quote check, with its three rejections in order |
| Broker.QuoteAnswerIff | dzta-attestation-broker/src/routes/datakey.rs:59-125 | acceptance and each rejection of the quote check, exactly when |
| Broker.RequestErrorIff | dzta-attestation-broker/src/routes/datakey.rs:174-243 | success and each error of a request for secrets, exactly when, and the secrets returned |
| Broker.QuotesStep | dzta-gramine-prover/src/main.rs:162-167 | every quote of the expected enclave binds a recorded handshake or a proof session |
| Broker.VerifiedIsBound | dzta-attestation-broker/src/routes/datakey.rs:95-116 | a verified request was bound before, as (key, clearance), by an expected enclave |
| Broker.EmittedStep | dzta-attestation-broker/src/routes/datakey.rs:174-243 | each answer of unwrap or release goes to a key bound in the state before it |
| Broker.SecretsGoToBoundKeys | dzta-attestation-broker/src/routes/datakey.rs:174-243 | over every run each emitted secret is the answer of a step before which its key had been bound with the requested clearance |
| Broker.ProofPassesForHandshake | dzta-gramine-prover/src/main.rs:162-167 | for every usable 64-byte key a run of proof session, provisioning and unwrap emits the secrets to it although no key was bound |
| Broker.VaultKeeps | dzta-attestation-broker/src/lib.rs:398-411 | a Vault ciphertext keeps its plaintext through every run |
| Broker.VaultDatakeyEngine.ProvisionDatakey | dzta-attestation-broker/src/lib.rs:342-393 | draws a data key and a seed under two new ciphertexts that open to the wrapped secrets; an unusable key errs after one draw |
| Broker.VaultDatakeyEngine.UnwrapDatakeyForEnclave | dzta-attestation-broker/src/lib.rs:398-411 | re-wraps what the ciphertext decrypts to, and errs exactly for an unknown ciphertext or unusable key |
| Broker.ProvisionDatakey | dzta-attestation-broker/src/routes/datakey.rs:131-172 | exact success and error cases; draws three secrets and returns two, each returned ciphertext opening to the secret wrapped beside it; the Vault afterwards is the machine's |
| Broker.UnwrapDatakey | dzta-attestation-broker/src/routes/datakey.rs:174-219 | answers as the machine does, and succeeds if and only if the request is admitted and Vault knows both ciphertexts |
| Broker.ReleaseForVerifiedEnclave | dzta-attestation-broker/src/lib.rs:136-173 | exact success condition, and the stored secrets wrapped to the key of the request |
| Broker.ReleaseKey | dzta-attestation-broker/src/routes/datakey.rs:221-243 | answers as the machine does, and succeeds if and only if the request is admitted and Vault knows both ciphertexts |
| Broker.ProvisionOpens | dzta-attestation-broker/src/routes/datakey.rs:149-171 | the returned ciphertexts open to the secrets in the returned wrapped values |
| Broker.DataKeysConserved | dzta-attestation-broker/src/routes/datakey.rs:131-219 | after any run, unwrapping a provisioning's ciphertexts succeeds if and only if the request is admitted, and yields the provisioned secrets wrapped to the new key |
| Broker.HandshakeVerifies | dzta-attestation-broker/src/routes/datakey.rs:95-116 | a handshake's quote verifies for its own key and clearance from then on |
| Broker.SessionRecoversSecrets | dzta-attestation-broker/src/routes/datakey.rs:131-219 | an expected enclave that shook hands after a provisioning, with any usable key, gets the provisioned secrets |

## Left out

- RoleCircuit.GenerateConstraints: starts from a new constraint system, as every caller does, and models proving; the
  setup pass, which never asks for values, is not modelled.
- RoleCircuit.EnforceInField: uses one flag for each one bit of r - 1, where the library groups runs of ones; the bits it
  admits are the same.
- ZkpCore.OrderIsScalarField: does not state that the order is prime; primality is a hypothesis where it is used.
- Revocation.ReachableStates: only the daemon is authorised on the admin path, as the admin token intends.
- Broker.ProvisionDatakey: Vault requests that fail or answer with malformed data.
- Edge.PushPathRoundTrip: the HTTP client's percent-encoding is not modelled.
- Broker.SecretsGoToBoundKeys: covers unwrap and release through Vault. Provisioning wraps its secrets without a quote, and
  the HTTPS key service answers by itself.
- Issuance.CreateCredential: canonicalisation and Ed25519 are one function from document to signature.
- Wallet and ledger input/output errors other than missing or duplicate entries.
- Duplicate keys and number formats inside JSON text: values are parsed objects.
- Trimming knows only ASCII blanks.
- The key-exchange wire format between runner and broker, transport headers, configuration getters and mock mode.
- DID resolution by clients and rich queries by issuer.
- Memory zeroization and secrecy: only functional behaviour is stated.
