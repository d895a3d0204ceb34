# Verified model of the hybrid OPAQUE protocol

This project models a three-message password-authenticated key exchange (an OPRF, a sealed credential envelope,
4DH and ML-KEM) and the C-callable layer around it, and proves what the protocol and that layer promise. Check it
with `dafny verify dfyconfig.toml`.

The two parties are the agent (initiator) and the relay (responder).

* **Specification.** `Agent` and `Relay` give every library step as a function from a state and its inputs to the
  new state and the result, exit by exit. `Crypto`, `Kdf`, `Oprf`, `Envelopes`, `PqKem`, `Schedule` and `Wire` hold
  what the steps are made of. `Suites` is the interface to foreign primitives: an arbitrary record of functions with
  output lengths, canonical encodings, "opening undoes sealing", and a group of prime order represented by its
  residues (`PrimeField` proves inverses and the absence of zero divisors from primality). No hash is assumed
  injective; where a collision matters it is named as a hypothesis about the strings of the run at hand.
* **Exactness.** `Derivations` writes every derivation out in the suite's primitives and says what it binds;
  `ExactRegistration` and `ExactLogin` say, over message bytes, exactly when each step succeeds, what it then produces
  and what every refusal leaves; `Arguments` does the same for the argument checks of the entry points.
* **Implementation.** `AgentObject` and `RelayObject` are the state objects, updated in place step by step, each
  method proved equal to its specification step. The loops (HKDF-Expand, the two rejection loops, XOR masking,
  branch-free selection, the zero test, message writers, the transcript buffer) work on arrays and are proved
  against recursive or pointwise definitions.
* **Handle layer.** `AgentFfi` and `RelayFfi` specify an admitted call as a transaction; `AgentEntry` and
  `RelayEntry` are the entry points on handle objects and a flat byte memory (`FfiMemory`). `Admission` is the
  interleaving of any number of calls on shared handles; `OneShot` and `ConcurrentFfi` draw the consequences.
* **Theorems over runs.** `Agreement` (honest runs; `FfiAgreement` and `HonestCallers` carry it to the C callers'
  transactions and buffers), `Matching` (any two sessions with one transcript), `Correspondence` (any number of
  sessions, any delivery), `AgentRuns` and `RelayRuns` (any call sequence and clock trace on one state),
  `AnswerShape` (registered and unknown accounts).
  `Witness` and `HonestSessions` show that the hypotheses of `Agreement` and `Correspondence` can be met.

Randomness, clock readings and panics are inputs of the steps. A scalar draw is given 256 wide strings, as many as
the code tries. Time is counted in nanoseconds of a monotonic clock that may, as the code allows for, go backwards.

Where the code and its documentation disagree the model follows the code:

* A state lives 900 seconds (rust/crates/opaque-core/src/types.rs:52), not the five minutes of several comments.
* `initiator_finish` has no expiry check.
* The credential request is not part of the transcript.
* At library level an error half-way through `generate_ke1`, `generate_ke2` or most of `finalize_registration`
  leaves the state live; only the handle layer ends it.

The properties that hold only under a condition carry it as an equivalence or with a companion. A correctly sized
KE3 ends a waiting relay state exactly when the session key is non-zero or the deadline has passed
(`RelayRuns.SizedKe3EndsSession`). Where a registered account is answered, an unknown one is answered exactly when
its stand-in masking key is non-zero (`AnswerShape.AnswersAreAlikeExactly`).

## Model

| member | source | states |
|---|---|---|
| `Agreement.EndToEndAgreement` | rust/crates/opaque-agent/src/authentication.rs:99-270 | every honest registration and login with acceptable inputs goes through; a non-zero session key comes out of both finish steps (with the account's export key on the agent), a zero one is refused by both |
| `Agreement.RegistrationSucceeds` | rust/crates/opaque-agent/src/registration.rs:49-131 | registration over the wire stores exactly the masking key, sealed envelope and public key of this password, seed and account id, a value in which no blind appears |
| `Agreement.Ke1Succeeds` | rust/crates/opaque-agent/src/authentication.rs:22-77 | on acceptable inputs KE1 carries the blinded password and ephemeral keys that belong to the drawn secrets, and the state is armed |
| `Agreement.Ke2Succeeds` | rust/crates/opaque-relay/src/authentication.rs:107-275 | the relay answers an honest KE1 and keeps exactly the session key and expected MAC of its derivation |
| `Agreement.CredentialsRecovered` | rust/crates/opaque-agent/src/authentication.rs:136-169 | the sealed (relay key, private key, public key) survives record layout, masking, unmasking with the client's own masking key, splitting and opening |
| `Agreement.AgentDerivesSameKeys` | rust/crates/opaque-agent/src/authentication.rs:185-259 | from an honest KE2 the agent derives the relay's session key and both MACs |
| `Agreement.Ke3Succeeds` | rust/crates/opaque-agent/src/authentication.rs:79-279 | an honest login reaches KE3, with equal session keys on both sides and a KE3 that is the relay's expected MAC |
| `Witness.HonestRunExists` | rust/crates/opaque-agent/src/authentication.rs:22-77 | the hypotheses of the honest-run theorem are met together by a concrete suite and run, with a relay that the key check and the seed check accept |
| `Witness.CompletedRunExists` | rust/crates/opaque-relay/src/authentication.rs:277-332 | there is a run in which a relay session completes on an agent session's KE3 and every hypothesis of the correspondence theorem holds |
| `FfiAgreement.OutputsAgree` | rust/crates/opaque-ffi/src/agent_ffi.rs:854-905 | after an honest run both finish transactions return 0, the relay's output is the first 64 bytes of the agent's and the rest is the account's export key; a zero session key makes both fail with -5 and -1 |
| `HonestCallers.HonestRun` | rust/include/opaque_common.h:77-91 | nine entry-point calls passing every message through one memory of any size and any layout of disjoint buffers: all codes are 0, the relay's and the agent's session-key buffers hold the same 64 bytes and the export buffer the account's export key; only a zero session key makes the finish calls fail |
| `HonestCallers.RunScript` | rust/crates/opaque-ffi/src/relay_ffi.rs:834-964 | for any inputs whose transactions are known, the calls on memory return their codes and leave their outputs in the callers' buffers |
| `FfiAgreement.CredentialsGiven` | rust/crates/opaque-ffi/src/relay_ffi.rs:737-789 | the record the entry points tell the caller to store is stored byte for byte and read back by KE2 as exactly this account's credentials |
| `FfiAgreement.HonestScript` | rust/crates/opaque-ffi/src/agent_ffi.rs:774-818 | each of the nine calls of an honest run, made on the handle the calls before it left, returns 0 before the finish calls and gives the message and handle of the library run |
| `Matching.MatchingTranscriptsMatchKeys` | rust/crates/opaque-agent/src/authentication.rs:185-259 | for any agent session past credential recovery and any relay session, equal transcript bytes force equal sessions field by field, 4DH input, shared secret, session key and MACs, whoever sent what |
| `Matching.HalvesAgree` | rust/crates/opaque-relay/src/authentication.rs:187-254 | with one session between them, the two sides' separately built 4DH inputs and KEM secrets coincide, and so do all keys |
| `Matching.MirroredIkm` | rust/crates/opaque-relay/src/authentication.rs:187-198 | over four key pairs both inputs are defined and are the same 128 bytes: the encodings of a*b, x*b, a*y and x*y, static and ephemeral scalars of both sides multiplied modulo the order |
| `Matching.AgentIkmForm` | rust/crates/opaque-agent/src/authentication.rs:185-208 | the agent's 4DH input is defined exactly on non-zero scalars and non-identity points, and is the four products in this order |
| `Matching.RelayIkmForm` | rust/crates/opaque-relay/src/authentication.rs:187-212 | the relay's 4DH input likewise, with scalars and points exchanged |
| `Schedule.TranscriptInjective` | rust/crates/opaque-agent/src/authentication.rs:210-226 | the ten fixed-width transcript fields are determined by the transcript bytes |
| `Schedule.ComputeKeys` | rust/crates/opaque-relay/src/authentication.rs:232-254 | the key-by-key schedule with its expansion buffers equals the specification, which is total on 128-byte and 32-byte inputs |
| `Schedule.TranscriptBuffer.Append` | rust/crates/opaque-relay/src/authentication.rs:214-220 | the moving-offset append extends the written bytes by its data, inside the buffer |
| `Correspondence.InjectiveCorrespondence` | rust/crates/opaque-relay/src/authentication.rs:277-332 | over every run of any number of sessions with arbitrary delivery, a relay completion on an agent-made KE3 belongs to exactly one agent session and that agent session to exactly one relay session, with the same session and key |
| `Correspondence.CompletionAgrees` | rust/crates/opaque-relay/src/authentication.rs:310-331 | completing on an agent's KE3 means sharing its session, both MACs and the session key that agent hands out |
| `Correspondence.AcceptanceAgrees` | rust/crates/opaque-agent/src/authentication.rs:246-248 | the agent's half of mutual authentication: over every run, an agent that accepted a KE2 with a relay session's MAC shares its session, session key and both MACs |
| `Correspondence.InjectiveAcceptance` | rust/crates/opaque-agent/src/authentication.rs:246-268 | over every run, the relay session an agent accepted and that agent session determine each other |
| `HonestSessions.HonestLoginCorresponds` | rust/crates/opaque-relay/src/authentication.rs:277-332 | every honest login with a non-zero session key is a run of the multi-session model in which the relay completes on the agent's KE3 and every hypothesis of the correspondence theorem holds |
| `Correspondence.AgentCallKeepsOk` | rust/crates/opaque-agent/src/authentication.rs:22-310 | every agent call, successful or not, keeps the record of what its session derived true to its state |
| `Correspondence.RelayCallKeepsOk` | rust/crates/opaque-relay/src/authentication.rs:107-332 | every relay call keeps the expected MAC and session key of a waiting state equal to those of its own KE2 |
| `Oprf.BlindCancels` | rust/crates/opaque-core/src/oprf.rs:35-91 | blind, evaluate, finalize give the hash of the input and key times its group element, for every non-zero blind |
| `Oprf.PasswordKeyIndependentOfBlind` | rust/crates/opaque-core/src/crypto.rs:285-323 | registration and every login reach one randomized password, a function of password, seed and account id |
| `Oprf.ExportKeyIndependentOfBlind` | rust/crates/opaque-core/src/crypto.rs:328-340 | two logins with different blinds give the same export key |
| `PrimeField.InverseCorrect` | rust/crates/opaque-core/src/crypto.rs:490-506 | the extended Euclidean inverse of a non-zero residue is its multiplicative inverse modulo a prime |
| `PrimeField.Unblind` | rust/crates/opaque-core/src/oprf.rs:62-91 | multiplying by the inverse blind removes the blind from an evaluated element |
| `PrimeField.NoZeroDivisors` | rust/crates/opaque-core/src/crypto.rs:86-108 | a product of non-zero residues modulo a prime is non-zero, so scalar multiplication never yields the identity |
| `Crypto.ValidationAccepts` | rust/crates/opaque-core/src/crypto.rs:110-124 | both validators and the point decoder accept exactly the encodings of non-identity elements |
| `Crypto.ScalarMultDefined` | rust/crates/opaque-core/src/crypto.rs:86-108 | scalar multiplication succeeds exactly on a non-zero scalar and a non-identity point, and yields their product, again a non-identity point |
| `Crypto.DiffieHellmanMirrors` | rust/crates/opaque-core/src/crypto.rs:472-488 | for two key pairs the two shared points exist and are equal |
| `Crypto.DrawNonzeroScalar` | rust/crates/opaque-core/src/crypto.rs:456-469 | the rejection loop returns the first of 256 draws with a non-zero scalar, otherwise an error |
| `Derivations.DrawIsFirstNonzero` | rust/crates/opaque-core/src/crypto.rs:456-469 | a draw yields the first of the 256 strings, from the very first on, that does not reduce to zero |
| `Derivations.DrawFailsExactly` | rust/crates/opaque-core/src/crypto.rs:456-469 | a draw fails if and only if all 256 strings reduce to zero |
| `Crypto.ComputeOprfKey` | rust/crates/opaque-core/src/crypto.rs:239-283 | the counter loop gives the derivation whose value and failure the two rows below state |
| `Derivations.OprfKeyIsLeastCounter` | rust/crates/opaque-core/src/crypto.rs:239-283 | from the relay secret on: the key is the reduction at the least counter, counting from 0, that is not zero |
| `Derivations.OprfKeyFailsExactly` | rust/crates/opaque-core/src/crypto.rs:239-283 | empty inputs are refused; otherwise the derivation fails, with a crypto error, if and only if all 256 counters reduce to zero |
| `Crypto.MaskingIsAnInvolution` | rust/crates/opaque-core/src/crypto.rs:354-384 | masking succeeds by its guard alone, and masking twice in one context returns the input |
| `Crypto.MaskCredentialEnvelope` | rust/crates/opaque-core/src/crypto.rs:354-384 | the XOR loop fills the output with the masked envelope, or fails and leaves it alone |
| `Kdf.KeyDerivationExpand` | rust/crates/opaque-core/src/crypto.rs:195-237 | the loop with two swapped buffers writes the first L bytes of T(1), T(2), ... of section 2.3 of RFC 5869 for every L from 1 to 255 * 64, with a counter that always fits its octet, and fails without writing otherwise |
| `Kdf.ExpandIsPrefix` | rust/crates/opaque-core/src/crypto.rs:195-237 | a shorter output is a prefix of every longer one |
| `Kdf.ExpandChains` | rust/crates/opaque-core/src/crypto.rs:214-230 | on the output itself: each block is the HMAC of the block before it, the info string and its octet, cut off at the end |
| `Kdf.ExpandShort` | rust/crates/opaque-core/src/crypto.rs:195-237 | an output of at most 64 bytes is the start of the HMAC of the info string and the octet 1 |
| `Kdf.BlockPosition` | rust/crates/opaque-core/src/crypto.rs:214-234 | T(i) sits at offset 64 * (i - 1) of the whole output |
| `Types.OctetIsExact` | rust/crates/opaque-core/src/crypto.rs:222-222 | the counter octet has the value of the counter for every value below 256 |
| `Types.OctetIsInjective` | rust/crates/opaque-core/src/crypto.rs:255-283 | different counters are hashed with different octets |
| `ByteOps.IsAllZero` | rust/crates/opaque-core/src/types.rs:332-337 | the OR accumulator is zero exactly when every byte is |
| `ByteOps.CtSelectBytes` | rust/crates/opaque-core/src/types.rs:342-348 | the branch-free loop leaves one whole input in the buffer, chosen by the flag |
| `Types.OpaqueError.ToCInt` | rust/crates/opaque-core/src/types.rs:209-222 | every error has its documented code and no other error shares it, except that exactly the five protocol-stage errors share -5; none is a panic, busy or corrupted-record code |
| `Envelopes.OpenUndoesSeal` | rust/crates/opaque-core/src/envelope.rs:96-160 | opening under the same password key and relay key returns the sealed credentials |
| `Envelopes.SealEnvelope` | rust/crates/opaque-core/src/envelope.rs:29-73 | the filled plaintext buffer seals to the specified envelope |
| `Envelopes.KeyBuffers.Open` | rust/crates/opaque-core/src/envelope.rs:96-160 | the three output buffers receive the credentials, whose public key is checked against the private one; on failure they are unchanged or all zero |
| `Envelopes.SplitSerialized` | rust/crates/opaque-agent/src/authentication.rs:151-154 | splitting an envelope's layout gives its three parts back |
| `PqKem.Combine` | rust/crates/opaque-core/src/pq_kem.rs:104-132 | the two labelled buffers give HMAC under the labelled transcript hash of the 4DH input followed by the KEM secret, on the three fixed lengths only |
| `Derivations.CombinerBinds` | rust/crates/opaque-core/src/pq_kem.rs:104-132 | unless the two named HMAC inputs collide, one combined secret comes from one 4DH input, one KEM secret and one transcript hash |
| `Derivations.KeysForm` | rust/crates/opaque-agent/src/authentication.rs:228-259 | session key and MAC keys are the HMACs of their labels under the combined secret of 4DH input, KEM secret and transcript, and both MACs cover the transcript |
| `Derivations.SessionKeyBinds` | rust/crates/opaque-relay/src/authentication.rs:232-254 | unless named hash inputs collide, one session key comes from one 4DH input, one KEM secret and one transcript |
| `Derivations.LabelsAreApart` | rust/crates/opaque-core/src/types.rs:138-163 | the labels of the session key and of the two MAC keys differ, and so do those of masking and export key |
| `Derivations.RandomizedPasswordForm` | rust/crates/opaque-core/src/crypto.rs:285-323 | the randomized password in SHA-512 and Argon2id, with its salt |
| `Derivations.ClientPasswordKeyForm` | rust/crates/opaque-core/src/oprf.rs:62-91 | the agent's password key is defined exactly for a password, a non-zero blind and a non-identity element, and is the stated hash of the unblinded element |
| `Derivations.ExportKeyForm` | rust/crates/opaque-core/src/crypto.rs:328-340 | the export key in HMAC, from randomized password and account hash |
| `Derivations.MaskingKeyForm` | rust/crates/opaque-core/src/crypto.rs:342-352 | the masking key in HMAC, from the randomized password |
| `Derivations.MaskingPadForm` | rust/crates/opaque-core/src/crypto.rs:354-384 | the pad in HMAC: account hash and masking key below, responder nonce and evaluated element in the info string; refused exactly for zero keys, zero hashes and wrong lengths |
| `Derivations.EnvelopeKeyForm` | rust/crates/opaque-core/src/envelope.rs:13-27 | the envelope key in HMAC, from relay key and randomized password |
| `Derivations.KeyPairForm` | rust/crates/opaque-core/src/crypto.rs:52-83 | the derived key pair is the reduction of the labelled hash, refused exactly when it is zero |
| `Derivations.AccountHashBinds` | rust/crates/opaque-relay/src/authentication.rs:141-145 | unless two hash inputs collide, different account ids have different context hashes |
| `Derivations.FakeMaterialBinds` | rust/crates/opaque-core/src/oprf.rs:142-149 | unless two hash inputs collide, stand-in material belongs to one seed and one account id |
| `Wire.ParseRegistrationRequest` | rust/crates/opaque-core/src/protocol.rs:97-103 | accepts exactly the messages of the right length and version |
| `Wire.ParseRegistrationResponse` | rust/crates/opaque-core/src/protocol.rs:105-114 | accepts exactly the messages of the right length and version, with fields of fixed widths |
| `Wire.ParseRegistrationRecord` | rust/crates/opaque-core/src/protocol.rs:116-126 | accepts exactly the messages of the right length and version, with fields of fixed widths |
| `Wire.ParseKe1` | rust/crates/opaque-core/src/protocol.rs:128-139 | accepts exactly the messages of the right length and version, with fields of fixed widths |
| `Wire.ParseKe2` | rust/crates/opaque-core/src/protocol.rs:141-153 | accepts exactly the messages of the right length and version, with fields of fixed widths |
| `Wire.ParseKe3` | rust/crates/opaque-core/src/protocol.rs:155-163 | accepts exactly the messages of the right length and version |
| `Wire.Offsets` | rust/crates/opaque-core/src/protocol.rs:97-163 | every field of every message sits at its byte offsets |
| `Wire.Refusals` | rust/crates/opaque-core/src/protocol.rs:47-163 | a wrong length is reported before a wrong version |
| `Wire.RegistrationRequestRoundTrip` | rust/crates/opaque-core/src/protocol.rs:242-250 | parse after write returns the payload, write after parse the bytes |
| `Wire.RegistrationResponseRoundTrip` | rust/crates/opaque-core/src/protocol.rs:252-269 | parse after write returns the fields, write after parse the bytes |
| `Wire.RegistrationRecordRoundTrip` | rust/crates/opaque-core/src/protocol.rs:165-182 | parse after write returns the fields, write after parse the bytes |
| `Wire.Ke1RoundTrip` | rust/crates/opaque-core/src/protocol.rs:184-205 | parse after write returns the fields, write after parse the bytes |
| `Wire.Ke2RoundTrip` | rust/crates/opaque-core/src/protocol.rs:207-231 | parse after write returns the fields, write after parse the bytes |
| `Wire.Ke3RoundTrip` | rust/crates/opaque-core/src/protocol.rs:233-240 | parse after write returns the MAC, write after parse the bytes |
| `Wire.WriteRegistrationRequest` | rust/crates/opaque-core/src/protocol.rs:242-250 | writes exactly the message prefix of the buffer, or rejects and leaves it alone |
| `Wire.WriteRegistrationResponse` | rust/crates/opaque-core/src/protocol.rs:252-269 | writes exactly the message prefix of the buffer, or rejects and leaves it alone |
| `Wire.WriteRegistrationRecord` | rust/crates/opaque-core/src/protocol.rs:165-182 | writes exactly the message prefix of the buffer, or rejects and leaves it alone |
| `Wire.WriteKe1` | rust/crates/opaque-core/src/protocol.rs:184-205 | writes exactly the message prefix of the buffer, or rejects and leaves it alone |
| `Wire.WriteKe2` | rust/crates/opaque-core/src/protocol.rs:207-231 | writes exactly the message prefix of the buffer, or rejects and leaves it alone |
| `Wire.WriteKe3` | rust/crates/opaque-core/src/protocol.rs:233-240 | writes exactly the message prefix of the buffer, or rejects and leaves it alone |
| `AgentObject.InitiatorState.constructor` | rust/crates/opaque-agent/src/state.rs:139-161 | a new state is blank and in the created phase |
| `AgentObject.InitiatorState.Invalidate` | rust/crates/opaque-agent/src/state.rs:129-132 | everything but the clock reading is zeroed and the phase is finished |
| `AgentObject.InitiatorState.IsExpired` | rust/crates/opaque-agent/src/state.rs:71-87 | an armed state is expired after 900 whole seconds or when the clock went backwards; an idle one never |
| `AgentObject.InitiatorState.Guard` | rust/crates/opaque-agent/src/authentication.rs:85-94 | a wrong phase changes nothing, an expired state is wiped, both are validation errors |
| `AgentObject.InitiatorState.CreateRegistrationRequest` | rust/crates/opaque-agent/src/registration.rs:15-47 | the in-place step leaves exactly the state and result of the specification step, at every exit |
| `AgentObject.InitiatorState.FinalizeRegistration` | rust/crates/opaque-agent/src/registration.rs:49-131 | the in-place step leaves exactly the state and result of the specification step, at every exit; it succeeds only for a response that carries the expected relay key |
| `ExactRegistration.RequestIsExact` | rust/crates/opaque-agent/src/registration.rs:15-47 | the request succeeds exactly on a fresh state, a password of 1 to 4096 bytes, good draws and a non-identity hash, and is blind * H(password); the new state is stated field by field |
| `ExactRegistration.FinalizeRefusals` | rust/crates/opaque-agent/src/registration.rs:55-76 | every refusal with its error and state: in particular a genuine relay key other than the expected one is an authentication failure that ends the state |
| `ExactRegistration.FinalizeIsExact` | rust/crates/opaque-agent/src/registration.rs:49-131 | finalization succeeds exactly on a live state and a response with the expected relay key, a genuine element, and password and blind still there; record and new state are stated in primitives |
| `ExactLogin.Ke1Refusals` | rust/crates/opaque-agent/src/authentication.rs:28-40 | bad inputs and a wrong phase leave the state alone |
| `ExactLogin.Ke1IsExact` | rust/crates/opaque-agent/src/authentication.rs:22-77 | KE1 succeeds exactly on a fresh state, inputs in bounds, good draws and a non-identity hash; message and state are stated in primitives |
| `ExactLogin.OpenIsExact` | rust/crates/opaque-core/src/envelope.rs:96-160 | an envelope opens exactly when the box does and holds a key pair |
| `ExactLogin.RecoveryIsExact` | rust/crates/opaque-agent/src/authentication.rs:112-173 | the agent recovers credentials exactly from a genuine element, non-zero masking key and account hash, and an envelope that opens to the expected relay key and a key pair |
| `ExactLogin.AgentDeriveForm` | rust/crates/opaque-agent/src/authentication.rs:175-259 | the agent's 4DH input, transcript and keys, from message bytes and state |
| `ExactLogin.Ke3Refusals` | rust/crates/opaque-agent/src/authentication.rs:85-97 | refusals before the derivation leave or wipe the state as the code does; every later one wipes it |
| `ExactLogin.Ke3IsExact` | rust/crates/opaque-agent/src/authentication.rs:79-279 | KE3 succeeds exactly on a live state, a well-formed KE2 with genuine keys, a derivation that succeeds and the relay's own MAC in the message; the new state is stated field by field |
| `ExactLogin.AgentFinishIsExact` | rust/crates/opaque-agent/src/authentication.rs:281-310 | keys are handed out exactly in the KE3 phase with a non-zero session key, and no secret stays |
| `AgentObject.InitiatorState.GenerateKe1` | rust/crates/opaque-agent/src/authentication.rs:22-77 | the in-place step leaves exactly the state and result of the specification step, at every exit |
| `AgentObject.InitiatorState.WriteTranscript` | rust/crates/opaque-agent/src/authentication.rs:210-226 | the ten appends write the transcript of the agent's view of the session |
| `AgentObject.InitiatorState.GenerateKe3` | rust/crates/opaque-agent/src/authentication.rs:79-279 | the in-place step leaves exactly the state and result of the specification step; any error past the guards leaves the wiped state |
| `AgentObject.InitiatorState.InitiatorFinish` | rust/crates/opaque-agent/src/authentication.rs:281-310 | the in-place step leaves exactly the state and result of the specification step |
| `AgentRuns.SuccessOnlyInTime` | rust/crates/opaque-agent/src/state.rs:71-95 | over every call sequence and clock trace, finalization and KE3 succeed only within 900 seconds after the step that armed the state |
| `AgentRuns.LateAttemptsWipe` | rust/crates/opaque-agent/src/authentication.rs:85-94 | a late attempt of the right size in the right phase fails and leaves the wiped, terminal state |
| `AgentRuns.ExpiryIsExact` | rust/crates/opaque-agent/src/state.rs:71-87 | an agent state expires in its three armed phases only, from 900 seconds on or when the clock went backwards |
| `AgentRuns.ConsumedOrUntouched` | rust/crates/opaque-agent/src/registration.rs:79-131 | finalization and KE3 leave the state as it was or consume the password, and consume it whenever they succeed |
| `AgentRuns.GonePasswordBlocks` | rust/crates/opaque-core/src/oprf.rs:68-70 | with the password gone, no call but the finish step succeeds and none restores it, in whatever phase the state was left |
| `AgentRuns.NothingDerivedLater` | rust/crates/opaque-agent/src/authentication.rs:272-278 | after the password is consumed, no call of any later sequence registers or authenticates |
| `Relay.FromKeysAccepts` | rust/crates/opaque-relay/src/state.rs:156-177 | restoring a relay succeeds if and only if the public key is base times the private key and the seed is not zero |
| `RelayObject.FakeSelection` | rust/crates/opaque-relay/src/authentication.rs:34-48 | the stand-in computed through buffers is the specified one |
| `RelayObject.SelectCredentials` | rust/crates/opaque-relay/src/authentication.rs:25-105 | three branch-free selections yield the stored triple or the stand-in as specified, with the same errors |
| `RelayObject.Respond` | rust/crates/opaque-relay/src/authentication.rs:163-198 | evaluation, masking through a buffer and 4DH give the specified response and input |
| `RelayObject.ResponderState.constructor` | rust/crates/opaque-relay/src/state.rs:114-130 | a new state is blank and in the created phase |
| `RelayObject.ResponderState.Invalidate` | rust/crates/opaque-relay/src/state.rs:103-107 | everything but the clock reading is zeroed and the phase is finished |
| `RelayObject.ResponderState.IsExpired` | rust/crates/opaque-relay/src/state.rs:55-69 | a waiting state is expired after 900 whole seconds or when the clock went backwards; other phases never |
| `RelayObject.ResponderState.WriteTranscript` | rust/crates/opaque-relay/src/authentication.rs:214-230 | the ten appends write the transcript of the relay's view of the session |
| `RelayObject.ResponderState.GenerateKe2` | rust/crates/opaque-relay/src/authentication.rs:107-275 | the in-place step leaves exactly the state and message of the specification step, at every exit |
| `RelayObject.ResponderState.ResponderFinish` | rust/crates/opaque-relay/src/authentication.rs:277-332 | the in-place step leaves exactly the state and result of the specification step |
| `RelayObject.CreateRegistrationResponse` | rust/crates/opaque-relay/src/registration.rs:9-31 | evaluates the request under the account's key or fails as specified |
| `RelayObject.CredentialStore.Build` | rust/crates/opaque-relay/src/registration.rs:33-53 | stores a valid record once; an account already registered is refused and keeps its credentials, as does one offered a bad record |
| `ExactRegistration.BuildIsExact` | rust/crates/opaque-relay/src/registration.rs:33-53 | credentials are built exactly from a whole version-2 record with a genuine key for an account not yet registered, field by field; every refusal has its error |
| `ExactRegistration.FirstRecordStays` | rust/crates/opaque-relay/src/registration.rs:37-39 | after a first record every further one is refused |
| `ExactRegistration.ResponseIsExact` | rust/crates/opaque-relay/src/registration.rs:9-31 | the relay answers exactly a well-formed request for a named account, with key * request and its public key |
| `ExactLogin.StandInForm` | rust/crates/opaque-relay/src/authentication.rs:34-48 | the stand-in triple in primitives of seed and account id, and exactly when there is one |
| `ExactLogin.SelectionIsExact` | rust/crates/opaque-relay/src/authentication.rs:25-105 | a registered account is answered exactly from a sound stored triple, an unknown one from its stand-in |
| `ExactLogin.AdmissionIsExact` | rust/crates/opaque-relay/src/authentication.rs:129-150 | KE1 is admitted exactly if well-formed, with genuine request and key and a selected triple |
| `ExactLogin.RespondForm` | rust/crates/opaque-relay/src/authentication.rs:163-198 | key * request, the masked envelope and the 4DH input, and exactly when they exist |
| `ExactLogin.RelayDeriveForm` | rust/crates/opaque-relay/src/authentication.rs:200-254 | the relay's transcript, keys and message, from message bytes and its own values |
| `ExactLogin.Ke2Refusals` | rust/crates/opaque-relay/src/authentication.rs:115-150 | what is refused before the state is touched leaves it alone; no refusal changes the phase |
| `ExactLogin.Ke2IsExact` | rust/crates/opaque-relay/src/authentication.rs:107-275 | KE2 succeeds exactly on a fresh state, a named account, an admitted KE1 and a derivation that succeeds; the new state is stated field by field |
| `ExactLogin.RelayFinishRefusals` | rust/crates/opaque-relay/src/authentication.rs:282-319 | every refusal of the finish step with its error |
| `RelayRuns.ReleaseNeedsExpectedMac` | rust/crates/opaque-relay/src/authentication.rs:277-332 | over every call sequence and clock trace, a key is released only for the KE3 that this state's own KE2 expected, is that KE2's key, and leaves within 900 seconds of it |
| `RelayRuns.ReleaseHappensOnce` | rust/crates/opaque-relay/src/authentication.rs:277-332 | a state releases at most one session key |
| `RelayRuns.NothingReleasedYet` | rust/crates/opaque-relay/src/authentication.rs:277-332 | over every call sequence, a state that is not finished has released no key |
| `RelayRuns.SizedKe3EndsSession` | rust/crates/opaque-relay/src/authentication.rs:282-329 | a KE3 of the right size ends a waiting state with its secrets cleared if and only if the session key is non-zero or the deadline has passed; it is accepted if and only if it is in time and carries the expected MAC under a non-zero key |
| `RelayRuns.FinishedIsFinal` | rust/crates/opaque-relay/src/authentication.rs:282-290 | no call leads out of the finished phase |
| `RelayRuns.ExpiryIsExact` | rust/crates/opaque-relay/src/state.rs:55-69 | a relay state expires while waiting only, from 900 seconds on or when the clock went backwards |
| `AnswerShape.SameAnswerShape` | rust/crates/opaque-relay/src/authentication.rs:107-275 | for one KE1, account id and randomness, registered and unknown accounts get the same error or success, the same phase and equally shaped messages, given a non-zero stand-in masking key |
| `AnswerShape.SelectionByRegistration` | rust/crates/opaque-relay/src/authentication.rs:50-104 | a registered account is answered from its stored triple; an unknown one from a triple fixed by seed and account id |
| `AnswerShape.ZeroStandInFails` | rust/crates/opaque-core/src/crypto.rs:354-384 | the condition is needed: a zero stand-in masking key makes every answer for an unknown account fail |
| `AnswerShape.AnswersAreAlikeExactly` | rust/crates/opaque-relay/src/authentication.rs:107-275 | where a registered account is answered, an unknown one is answered if and only if its stand-in masking key is not zero |
| `AgentFfi.AdmittedCallContract` | rust/include/opaque_common.h:77-91 | an admitted call, with a panic anywhere before the commit or none: non-zero code means no output and a finished handle without secrets; a live handle rises in rank; a finished one stays so and yields nothing; the inventory holds |
| `AgentFfi.SuccessKeepsHandleOk` | rust/crates/opaque-agent/src/authentication.rs:201-268 | a success moves along one of five phase edges, keeps the secret inventory of the new phase, and the exported flag is set exactly in the KE3 phase |
| `AgentFfi.InvalidatedIsOk` | rust/crates/opaque-ffi/src/agent_ffi.rs:218-222 | an invalidated handle is finished and holds no secret, whatever it held |
| `AgentFfi.ReturnCodes` | rust/crates/opaque-ffi/src/agent_ffi.rs:224-239 | a call returns the code of its library step, -99 for a panic, -5 for a finish before KE3 was exported |
| `RelayFfi.AdmittedCallContract` | rust/crates/opaque-ffi/src/relay_ffi.rs:270-285 | the same contract for an admitted relay call |
| `RelayFfi.ReturnCodes` | rust/crates/opaque-ffi/src/relay_ffi.rs:270-285 | a call returns the code of its library step, or -99 for a panic |
| `RelayFfi.CheckRecordIsExact` | rust/crates/opaque-ffi/src/relay_ffi.rs:911-934 | a stored record passes exactly if whole, of version 2 and with a genuine key, and is read field by field |
| `RelayFfi.BuildCredentialsIsIdentity` | rust/crates/opaque-ffi/src/relay_ffi.rs:737-789 | when the credentials entry point succeeds it returns its input record; it succeeds exactly on records KE2 accepts |
| `RelayFfi.RecordsAreRead` | rust/crates/opaque-ffi/src/relay_ffi.rs:887-934 | a stored record is read back as what was built from it; an absent one always passes for a relay with a valid key |
| `RelayFfi.UnknownAccountLooksKnown` | rust/crates/opaque-ffi/src/relay_ffi.rs:834-964 | presenting a stored record and presenting none give the same return code, phase and output length |
| `Admission.SchedulesAreSerializable` | rust/crates/opaque-ffi/src/agent_ffi.rs:170-239 | at every point of every schedule, against running the calls admitted so far one at a time in admission order: a state with no pending operation has the same contents, a returned call the same result, a rejected call no part; once all calls have returned no flag is left set |
| `Admission.Execute` | rust/crates/opaque-ffi/src/agent_ffi.rs:170-216 | after every event of every schedule a flag is set if and only if exactly one call in flight holds that handle, and the world agrees with the sequential run of its admissions |
| `Admission.BusyStateIsFullyAdmitted` | rust/crates/opaque-ffi/src/relay_ffi.rs:206-244 | a busy state handle belongs to exactly one call, which holds its primary handle too |
| `Admission.CallsNeverWait` | rust/crates/opaque-ffi/src/agent_ffi.rs:186-192 | each action of a call brings it nearer to its return, whoever holds what, and touches no other call |
| `Admission.RejectionsHaveReasons` | rust/crates/opaque-ffi/src/lib.rs:76-81 | -100 exactly for a busy handle, -1 for bad arguments or a missing one; a rejected call leaves every state and the log alone |
| `OneShot.SchedulesAreOneShot` | rust/include/opaque_common.h:81-91 | after every event of every schedule, calls in flight included: a handle with no pending operation is sound and is terminal once as many calls have been admitted on it as there are ranks, and every handle has released at most once |
| `ConcurrentFfi.AgentHandlesAreOneShot` | rust/crates/opaque-ffi/src/agent_ffi.rs:218-239 | after every event of every schedule, with panics and calls in flight: an agent state with no pending operation keeps its secret inventory and is finished and empty once three calls have been admitted on it, and at most one call ever gets its session key |
| `ConcurrentFfi.RelayHandlesAreOneShot` | rust/crates/opaque-ffi/src/relay_ffi.rs:246-285 | after every event of every schedule, with panics and calls in flight: a relay state with no pending operation is finished and empty once two calls have been admitted on it, and at most one call ever gets its session key |
| `FfiMemory.OverlapIsExact` | rust/crates/opaque-ffi/src/lib.rs:83-107 | ranges whose ends fit a machine word pass the overlap test if and only if they share no address |
| `Arguments.RequestArguments` | rust/crates/opaque-ffi/src/agent_ffi.rs:493-509 | by addresses: non-null, lengths in bounds, room for the output, and input and output separate, and nothing else |
| `Arguments.FinalizeArguments` | rust/crates/opaque-ffi/src/agent_ffi.rs:584-597 | the same exactness for finalization |
| `Arguments.Ke1Arguments` | rust/crates/opaque-ffi/src/agent_ffi.rs:678-703 | the same exactness for KE1, account id included |
| `Arguments.Ke3Arguments` | rust/crates/opaque-ffi/src/agent_ffi.rs:783-791 | the same exactness for KE3 |
| `Arguments.AgentFinishArguments` | rust/crates/opaque-ffi/src/agent_ffi.rs:863-876 | the two outputs must be separate |
| `Arguments.ResponseArguments` | rust/crates/opaque-ffi/src/relay_ffi.rs:651-673 | the same exactness for the registration response |
| `Arguments.BuildArguments` | rust/crates/opaque-ffi/src/relay_ffi.rs:744-757 | the same exactness for the credentials call |
| `Arguments.Ke2Arguments` | rust/crates/opaque-ffi/src/relay_ffi.rs:847-880 | the same exactness for KE2; a record is absent or whole |
| `Arguments.RelayFinishArguments` | rust/crates/opaque-ffi/src/relay_ffi.rs:1007-1014 | the same exactness for the relay's finish call |
| `Arguments.RecordIsCheckedBetweenHandles` | rust/crates/opaque-ffi/src/relay_ffi.rs:882-940 | a bad record gives -101 after the relay handle was taken and before the state handle is looked at |
| `Arguments.AgentIsTriedFirst` | rust/crates/opaque-ffi/src/agent_ffi.rs:510-517 | bad arguments first, then the agent handle, then the state handle |
| `FfiMemory.CommitIsExact` | rust/crates/opaque-ffi/src/agent_ffi.rs:886-902 | a committed result is in memory whole, both keys of the finish call included, and no byte outside the output changed |
| `FfiMemory.CommitOutput` | rust/crates/opaque-ffi/src/agent_ffi.rs:886-902 | copying out changes memory to the committed one |
| `AgentEntry.AgentStateHandle.constructor` | rust/crates/opaque-ffi/src/agent_ffi.rs:394-398 | a newly boxed state handle is free, blank and within its inventory |
| `AgentEntry.Acquire` | rust/crates/opaque-ffi/src/agent_ffi.rs:170-216 | agent handle first, then state handle; a null or busy handle gives -1 or -100 and returns what was taken |
| `AgentEntry.RunAgentStateful` | rust/crates/opaque-ffi/src/agent_ffi.rs:224-239 | the transaction on a handle object equals the specification; non-zero codes leave it finished and without secrets |
| `AgentEntry.CreateRegistrationRequest` | rust/crates/opaque-ffi/src/agent_ffi.rs:484-540 | on flat memory: rejected arguments and refused admission change nothing, also when the busy handle is in the middle of another call; a non-zero code leaves all bytes, code 0 changes exactly the output prefix, flags are restored, an admitted failure ends the handle |
| `AgentEntry.FinalizeRegistration` | rust/crates/opaque-ffi/src/agent_ffi.rs:575-628 | the same transaction contract for the registration record |
| `AgentEntry.GenerateKe1` | rust/crates/opaque-ffi/src/agent_ffi.rs:667-735 | the same transaction contract for KE1 |
| `AgentEntry.GenerateKe3` | rust/crates/opaque-ffi/src/agent_ffi.rs:774-818 | the same transaction contract for KE3, with the exported flag set only on success |
| `AgentEntry.Finish` | rust/crates/opaque-ffi/src/agent_ffi.rs:854-905 | the same transaction contract with two disjoint outputs: both keys or neither |
| `RelayEntry.RunRelayStateful` | rust/crates/opaque-ffi/src/relay_ffi.rs:270-285 | the transaction on a state object equals the specification; non-zero codes leave it finished and without secrets |
| `RelayEntry.ReadRecord` | rust/crates/opaque-ffi/src/relay_ffi.rs:887-934 | a record, or the stand-in written for its absence, is parsed and validated into the specified credentials |
| `RelayEntry.GenerateKe2` | rust/crates/opaque-ffi/src/relay_ffi.rs:834-964 | the transaction contract on flat memory, with a corrupted record refused by -101 before the state is admitted |
| `RelayEntry.Finish` | rust/crates/opaque-ffi/src/relay_ffi.rs:998-1037 | the transaction contract on flat memory for the relay's session key |
| `RelayEntry.CreateRegistrationResponse` | rust/crates/opaque-ffi/src/relay_ffi.rs:641-709 | code 0 and exactly the response written, or an error code and memory unchanged; the relay flag is restored |
| `RelayEntry.BuildCredentials` | rust/crates/opaque-ffi/src/relay_ffi.rs:737-789 | returns -1 for bad arguments, the record's own error code for a bad record, and otherwise 0 with the record itself copied into the output; memory is unchanged unless the code is 0 |

## Left out

- Internals of SHA-512, HMAC, Argon2id, XSalsa20-Poly1305, ML-KEM and Ristretto encoding: foreign libraries, present
  as functions with lengths and correctness equations. KEM correctness is a hypothesis on the coins of a run.
- Secrecy, attacker knowledge, constant-time behaviour and compiler-resistant zeroization: not visible in the
  functional meaning of the source. Zeroing of local temporaries is not modelled, zeroing of state and outputs is.
- Relays built on a caller's own OPRF evaluator (`with_evaluator`); the in-memory evaluator is modelled.
- Pointer validity and destruction racing with use: obligations of the caller under the C contract. Readable and
  writable extents inside the caller's memory are preconditions of the entry points.
- Construction and destruction of handles through out-slots (`create`, `try_destroy`, key pair handles): they null,
  fill or clear one pointer around a constructor and take no part in a protocol run. Handle objects start as the
  boxed values of those calls.
- Panics in the two relay entry points that have no state: nothing is committed before their last statement.
- Memory ordering of the atomics: each compare-exchange, operation and release is one step of an interleaving.
- Swift wrapper, length getters, version and error strings: they forward or return constants. `crypto::hash_to_group`,
  `hash_to_scalar`, `SecureBytes` and `verify_hmac`: no step of the protocol calls them.
- AgentObject.InitiatorState and RelayObject.ResponderState hold their fields in one record that every assignment
  updates; aliasing between individual fields is not captured (the source has none).
- KEM key generation, encapsulation and decapsulation and the straight-line OPRF code are modelled on values, not on
  out-parameters; the order of their writes is not captured.
- AgentRuns.NothingDerivedLater: speaks of calls on one state; that callers keep no copy of the password is theirs.
- Correspondence.InjectiveCorrespondence: takes as hypotheses KEM correctness for session pairs with one KEM public
  key, absence of MAC collisions among the run's sessions, and distinct ephemeral-key-and-nonce pairs.
- HonestCallers.HonestRun: speaks of callers that make the nine calls one after the other; concurrent callers are the
  subject of Admission and ConcurrentFfi.
