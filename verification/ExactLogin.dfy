/**
 The login steps over message bytes and primitives: exactly when each succeeds, what it then produces, and what
 every refusal leaves behind.
 */
module ExactLogin {
  import opened Types
  import opened ByteOps
  import opened PrimeField
  import opened Suites
  import opened Kdf
  import opened Crypto
  import opened Oprf
  import opened Envelopes
  import opened PqKem
  import opened Wire
  import opened Schedule
  import opened Derivations
  import opened ExactRegistration
  import opened Matching
  import A = Agent
  import R = Relay

  // ---- KE1 -----------------------------------------------------------------------------------------

  lemma Ke1Refusals(
    cs: Suite, password: Bytes, accountId: Bytes, s: A.AgentState, rnd: A.Ke1Random, now: nat, later: nat)
    requires cs.Valid()
    ensures var r := A.GenerateKe1(cs, password, accountId, s, rnd, now, later);
            var inputOk := 1 <= |password| <= 4096 && accountId != [];
            && (!inputOk ==> r == (s, Err(InvalidInput)))
            && (inputOk && s.phase != A.Created ==> r == (s, Err(ValidationError)))
            && (r.1.Err? ==> r.0.phase == s.phase && r.0.createdAt == s.createdAt)
  {
  }

  /** KE1 succeeds exactly on a fresh state, inputs in bounds, good draws and a non-identity hash. */
  lemma Ke1IsExact(
    cs: Suite, password: Bytes, accountId: Bytes, s: A.AgentState, rnd: A.Ke1Random, now: nat, later: nat)
    requires cs.Valid()
    ensures var (t, r) := A.GenerateKe1(cs, password, accountId, s, rnd, now, later);
            && (r.Ok? <==> 1 <= |password| <= 4096 && accountId != [] && s.phase == A.Created
                           && RandomNonzeroScalar(cs, rnd.ephemeral).Ok? && RandomNonzeroScalar(cs, rnd.blind).Ok?
                           && PasswordPoint(cs, password) != 0)
            && (r.Ok? ==>
                  var e, blind := RandomNonzeroScalar(cs, rnd.ephemeral).value,
                                  RandomNonzeroScalar(cs, rnd.blind).value;
                  var pub := cs.pointBytes(cs.scalarOf(e).value);
                  var (pqPublic, pqSecret) := cs.kemKeygen(rnd.kemCoins);
                  && r.value == Ke1(Blinded(cs, password, cs.scalarOf(blind).value), pub, rnd.nonce, pqPublic)
                  && t == s.(secureKey := A.Padded(password), secureKeyLen := |password|,
                             accountHash := cs.sha512(ACCOUNT_CONTEXT_BINDING + accountId),
                             ephemeralPrivateKey := e, ephemeralPublicKey := pub, pqPublicKey := pqPublic,
                             pqSecretKey := pqSecret, nonce := rnd.nonce, blind := blind, createdAt := later,
                             phase := A.Ke1Generated))
  {
    if 1 <= |password| <= 4096 && RandomNonzeroScalar(cs, rnd.blind).Ok? {
      BlindForm(cs, password, RandomNonzeroScalar(cs, rnd.blind).value);
    }
  }

  // ---- The triple the relay answers from -----------------------------------------------------------

  /** The stand-in of an unknown account. */
  function StandIn(cs: Suite, seed: Bytes, accountId: Bytes): R.Selected
    requires cs.Valid()
  {
    var material := cs.sha512(FAKE_CREDENTIALS_CONTEXT + seed + accountId);
    ExpandLong(cs, material, FAKE_CREDENTIALS_CONTEXT);
    R.Selected(
      cs.pointBytes(cs.wideToScalar(cs.sha512(DERIVE_KEYPAIR_CONTEXT + material))),
      ThreeBlocks(cs, material, FAKE_CREDENTIALS_CONTEXT)[..136],
      cs.hmac(cs.hmac(MASKING_KEY_INFO, material), MASKING_KEY_INFO + [1])[..32])
  }

  predicate StandInExists(cs: Suite, seed: Bytes, accountId: Bytes) {
    cs.wideToScalar(cs.sha512(DERIVE_KEYPAIR_CONTEXT + cs.sha512(FAKE_CREDENTIALS_CONTEXT + seed + accountId))) != 0
  }

  lemma StandInForm(cs: Suite, seed: Bytes, accountId: Bytes)
    requires cs.Valid()
    ensures R.FakeSelection(cs, seed, accountId)
            == if StandInExists(cs, seed, accountId) then Ok(StandIn(cs, seed, accountId)) else Err(InvalidInput)
  {
    var material := FakeMaterial(cs, seed, accountId);
    KeyPairForm(cs, material);
    ExpandLong(cs, material, FAKE_CREDENTIALS_CONTEXT);
    MaskingKeyForm(cs, material);
  }

  /** A registered account is answered from a sound stored triple only, an unknown one from its stand-in. */
  lemma SelectionIsExact(cs: Suite, seed: Bytes, accountId: Bytes, c: R.ResponderCredentials)
    requires cs.Valid()
    ensures var r := R.SelectCredentials(cs, seed, accountId, c);
            && (r.Ok? <==> StandInExists(cs, seed, accountId)
                           && (c.registered ==>
                                 |c.envelope| == 136 && !AllZero(c.maskingKey) && IsPoint(cs, c.initiatorPublicKey)))
            && (r.Ok? ==>
                  r.value == if c.registered then R.Selected(c.initiatorPublicKey, c.envelope, c.maskingKey)
                             else StandIn(cs, seed, accountId))
  {
    StandInForm(cs, seed, accountId);
    ValidationAccepts(cs, c.initiatorPublicKey);
  }

  // ---- KE2 -----------------------------------------------------------------------------------------

  /** What the relay refuses before it touches its state. */
  lemma Ke2Refusals(
    cs: Suite, responder: R.Responder, ke1: Bytes, accountId: Bytes, c: R.ResponderCredentials, s: R.RelayState,
    rnd: R.Ke2Random, now: nat, later: nat)
    requires cs.Valid() && responder.WellFormed() && rnd.WellFormed()
    ensures var r := R.GenerateKe2(cs, responder, ke1, accountId, c, s, rnd, now, later);
            && (|ke1| != 1273 ==> r == (s, Err(InvalidProtocolMessage)))
            && (|ke1| == 1273 && s.phase != R.Created ==> r == (s, Err(ValidationError)))
            && (|ke1| == 1273 && s.phase == R.Created && accountId == [] ==> r == (s, Err(InvalidInput)))
            && (|ke1| == 1273 && s.phase == R.Created && accountId != [] ==>
                  && (ke1[0] != 2 ==> r == (s, Err(UnsupportedVersion)))
                  && (!IsPoint(cs, ke1[1..33]) || !IsPoint(cs, ke1[33..65]) ==> r.0 == s && r.1.Err?)
                  && (R.SelectCredentials(cs, responder.oprfSeed, accountId, c).Err? ==> r.0 == s && r.1.Err?))
            && (r.1.Err? ==> r.0.phase == s.phase && r.0.createdAt == s.createdAt)
  {
    Offsets(ke1);
    Refusals(ke1);
    if |ke1| == 1273 {
      ValidationAccepts(cs, ke1[1..33]);
      ValidationAccepts(cs, ke1[33..65]);
    }
  }

  lemma AdmissionIsExact(
    cs: Suite, responder: R.Responder, ke1: Bytes, accountId: Bytes, c: R.ResponderCredentials)
    requires cs.Valid()
    ensures var selected := R.SelectCredentials(cs, responder.oprfSeed, accountId, c);
            var r := R.AdmitKe1(cs, responder, ke1, accountId, c);
            && (r.Ok? <==> |ke1| == 1273 && ke1[0] == 2 && selected.Ok? && IsPoint(cs, ke1[1..33])
                           && IsPoint(cs, ke1[33..65]))
            && (r.Ok? ==>
                  r.value == (Ke1(ke1[1..33], ke1[33..65], ke1[65..89], ke1[89..1273]), selected.value))
  {
    Offsets(ke1);
    var selected := R.SelectCredentials(cs, responder.oprfSeed, accountId, c);
    if |ke1| == 1273 && selected.Ok? {
      ValidationAccepts(cs, ke1[1..33]);
      ValidationAccepts(cs, ke1[33..65]);
      SelectedKeyIsPoint(cs, responder.oprfSeed, accountId, c);
    }
  }

  lemma SelectedKeyIsPoint(cs: Suite, seed: Bytes, accountId: Bytes, c: R.ResponderCredentials)
    requires cs.Valid() && R.SelectCredentials(cs, seed, accountId, c).Ok?
    ensures IsPoint(cs, R.SelectCredentials(cs, seed, accountId, c).value.publicKey)
    ensures ValidatePublicKey(cs, R.SelectCredentials(cs, seed, accountId, c).value.publicKey).Pass?
  {
    SelectionIsExact(cs, seed, accountId, c);
    ValidationAccepts(cs, R.SelectCredentials(cs, seed, accountId, c).value.publicKey);
  }

  /** The masked envelope: the envelope XOR the pad of its four inputs. */
  function Masked(
    cs: Suite, maskingKey: Bytes, nonce: Bytes, element: Bytes, accountHash: Bytes, envelope: Bytes): Bytes
    requires cs.Valid() && |envelope| == 136
  {
    var prk := cs.hmac(accountHash, maskingKey);
    ExpandLong(cs, prk, CREDENTIAL_MASKING_INFO + nonce + element);
    Xor(envelope, ThreeBlocks(cs, prk, CREDENTIAL_MASKING_INFO + nonce + element)[..136])
  }

  lemma MaskForm(cs: Suite, maskingKey: Bytes, nonce: Bytes, element: Bytes, accountHash: Bytes, envelope: Bytes)
    requires cs.Valid() && |envelope| == 136 && |nonce| == 24 && |element| == 32
    ensures MaskEnvelope(cs, maskingKey, nonce, element, accountHash, envelope)
            == if AllZero(maskingKey) || AllZero(accountHash) then Err(InvalidInput)
               else Ok(Masked(cs, maskingKey, nonce, element, accountHash, envelope))
  {
    MaskingPadForm(cs, maskingKey, nonce, element, accountHash);
  }

  /** The relay's response: key * request, then the masked envelope; and its 4DH input. */
  lemma RespondForm(
    cs: Suite, responder: R.Responder, m: Ke1, selected: R.Selected, accountId: Bytes, ephemeral: Bytes, nonce: Bytes)
    requires cs.Valid() && |selected.envelope| == 136 && |nonce| == 24 && IsPoint(cs, m.credentialRequest)
    requires IsPoint(cs, m.initiatorPublicKey) && IsPoint(cs, selected.publicKey) && IsScalar(cs, ephemeral)
    ensures var r := R.Respond(cs, responder, m, selected, accountId, ephemeral, nonce);
            var key := DeriveOprfKey(cs, responder.oprfSeed, accountId);
            var accountHash := cs.sha512(ACCOUNT_CONTEXT_BINDING + accountId);
            && (r.Ok? <==> key.Ok? && !AllZero(selected.maskingKey) && !AllZero(accountHash)
                           && IsScalar(cs, responder.privateKey))
            && (r.Ok? ==>
                  && cs.scalarOf(key.value).Some?
                  && var element := cs.pointBytes(MulMod(cs.scalarOf(key.value).value,
                                                         cs.pointOf(m.credentialRequest).value, cs.order));
                  && r.value.0 == element + Masked(cs, selected.maskingKey, nonce, element, accountHash,
                                                   selected.envelope)
                  && r.value.1 == FourProducts(cs, cs.pointOf(selected.publicKey).value,
                                               cs.pointOf(m.initiatorPublicKey).value,
                                               cs.scalarOf(responder.privateKey).value, cs.scalarOf(ephemeral).value))
  {
    OprfKeyWellFormed(cs, responder.oprfSeed, accountId);
    var key := DeriveOprfKey(cs, responder.oprfSeed, accountId);
    if key.Ok? {
      ScalarMultDefined(cs, key.value, m.credentialRequest);
      var element := Evaluate(cs, m.credentialRequest, key.value).value;
      MaskForm(cs, selected.maskingKey, nonce, element, AccountHash(cs, accountId), selected.envelope);
    }
    RelayIkmForm(cs, responder.privateKey, ephemeral, selected.publicKey, m.initiatorPublicKey);
  }

  /** The ten fields in transcript order. */
  function TranscriptOf(
    initiatorEphemeral: Bytes, responderEphemeral: Bytes, initiatorNonce: Bytes, responderNonce: Bytes,
    initiatorKey: Bytes, responderKey: Bytes, response: Bytes, pqPublicKey: Bytes, ciphertext: Bytes,
    accountHash: Bytes): Bytes
  {
    initiatorEphemeral + responderEphemeral + initiatorNonce + responderNonce + initiatorKey + responderKey
    + response + pqPublicKey + ciphertext + accountHash
  }

  /** The relay's derivation: what goes into the transcript, the key schedule and the message. */
  lemma RelayDeriveForm(
    cs: Suite, responder: R.Responder, m: Ke1, selected: R.Selected, accountId: Bytes, rnd: R.Ke2Random,
    e: Bytes, pub: Bytes)
    requires cs.Valid() && responder.WellFormed() && m.WellFormed() && rnd.WellFormed()
    requires |selected.publicKey| == 32 && |selected.envelope| == 136 && |pub| == 32
    ensures var r := R.RelayDerive(cs, responder, m, selected, accountId, rnd, e, pub);
            var response := R.Respond(cs, responder, m, selected, accountId, e, rnd.nonce);
            var kem := cs.kemEncaps(m.pqPublicKey, rnd.kemCoins);
            && (r.Ok? <==> response.Ok? && kem.Some?)
            && (r.Ok? ==>
                  var transcript := TranscriptOf(
                                      m.initiatorPublicKey, pub, m.initiatorNonce, rnd.nonce, selected.publicKey,
                                      responder.publicKey, response.value.0, m.pqPublicKey, kem.value.0,
                                      cs.sha512(ACCOUNT_CONTEXT_BINDING + accountId));
                  && r.value.session.Transcript() == transcript && transcript != []
                  && DeriveKeys(cs, response.value.1, kem.value.1, transcript) == Ok(r.value.keys)
                  && r.value.sharedSecret == kem.value.1
                  && r.value.Message() == Ke2(rnd.nonce, pub, response.value.0, r.value.keys.responderMac, kem.value.0))
  {
  }

  /**
   KE2 succeeds exactly on a fresh state, a named account, a well-formed KE1 and a derivation that succeeds; the
   state then holds that derivation's secrets and waits for its MAC.
   */
  lemma Ke2IsExact(
    cs: Suite, responder: R.Responder, ke1: Bytes, accountId: Bytes, c: R.ResponderCredentials, s: R.RelayState,
    rnd: R.Ke2Random, now: nat, later: nat)
    requires cs.Valid() && responder.WellFormed() && rnd.WellFormed()
    ensures var (t, r) := R.GenerateKe2(cs, responder, ke1, accountId, c, s, rnd, now, later);
            var selected := R.SelectCredentials(cs, responder.oprfSeed, accountId, c);
            var e := RandomNonzeroScalar(cs, rnd.ephemeral);
            && (r.Ok? ==>
                  && |ke1| == 1273 && ke1[0] == 2 && s.phase == R.Created && accountId != [] && selected.Ok?
                  && IsPoint(cs, ke1[1..33]) && IsPoint(cs, ke1[33..65]) && e.Ok?)
            && (|ke1| == 1273 && ke1[0] == 2 && s.phase == R.Created && accountId != [] && selected.Ok?
                && IsPoint(cs, ke1[1..33]) && IsPoint(cs, ke1[33..65]) && e.Ok? ==>
                  var m := Ke1(ke1[1..33], ke1[33..65], ke1[65..89], ke1[89..1273]);
                  var pub := cs.pointBytes(cs.scalarOf(e.value).value);
                  var y := R.RelayDerive(cs, responder, m, selected.value, accountId, rnd, e.value, pub);
                  && r == y
                  && (r.Ok? ==>
                        t == s.(initiatorPublicKey := ke1[33..65], responderPrivateKey := responder.privateKey,
                                responderPublicKey := responder.publicKey, handshakeComplete := false,
                                ephemeralPrivateKey := e.value, ephemeralPublicKey := pub,
                                pqSharedSecret := y.value.sharedSecret, sessionKey := y.value.keys.sessionKey,
                                expectedInitiatorMac := y.value.keys.initiatorMac, createdAt := later,
                                phase := R.Ke2Generated)))
  {
    AdmissionIsExact(cs, responder, ke1, accountId, c);
    Ke2Refusals(cs, responder, ke1, accountId, c, s, rnd, now, later);
  }

  // ---- KE3 -----------------------------------------------------------------------------------------

  /** The plaintext of an unmasked envelope: nonce, then ciphertext, then tag. */
  function Opened(cs: Suite, envelope: Bytes, randomizedPwd: Bytes, relayKey: Bytes): Option<Bytes>
    requires cs.Valid() && |envelope| == 136
  {
    var boxKey := cs.hmac(cs.hmac(ENVELOPE_CONTEXT + relayKey, randomizedPwd), ENVELOPE_CONTEXT + [1])[..32];
    cs.boxOpen(boxKey, envelope[..24], envelope[120..] + envelope[24..120])
  }

  /** An envelope opens exactly when the box does and holds a key pair; the keys are its three parts. */
  lemma OpenIsExact(cs: Suite, envelope: Bytes, randomizedPwd: Bytes, relayKey: Bytes)
    requires cs.Valid() && |envelope| == 136 && randomizedPwd != []
    ensures var r := OpenRaw(cs, Split(envelope), randomizedPwd, relayKey);
            var plain := Opened(cs, envelope, randomizedPwd, relayKey);
            && (plain.Some? ==> |plain.value| == 96)
            && (r.Ok? <==> plain.Some? && IsKeyPair(cs, plain.value[32..64], plain.value[64..96]))
            && (r.Ok? ==> r.value == Credentials(plain.value[..32], plain.value[32..64], plain.value[64..96]))
  {
    EnvelopeKeyForm(cs, relayKey, randomizedPwd);
    var plain := Opened(cs, envelope, randomizedPwd, relayKey);
    if plain.Some? {
      assert plain.value[64..] == plain.value[64..96];
    }
  }

  /**
   The agent recovers credentials exactly from a genuine evaluated element, a masking key and account hash that are
   not zero, and an envelope that opens to the expected relay key and a key pair.
   */
  lemma RecoveryIsExact(cs: Suite, relayKey: Bytes, m: Ke2, s: A.AgentState)
    requires cs.Valid() && s.WellFormed() && m.WellFormed()
    ensures var r := A.RecoverCredentials(cs, relayKey, m, s);
            var element := m.credentialResponse[..32];
            var defined := s.Password() != [] && IsScalar(cs, s.blind) && IsPoint(cs, element);
            && (r.Ok? ==> defined)
            && (defined ==>
                  var pwd := PasswordKeyForm(cs, s.Password(), cs.scalarOf(s.blind).value, cs.pointOf(element).value);
                  var maskingKey := cs.hmac(cs.hmac(MASKING_KEY_INFO, pwd), MASKING_KEY_INFO + [1])[..32];
                  var envelope := Masked(cs, maskingKey, m.responderNonce, element, s.accountHash,
                                         m.credentialResponse[32..]);
                  var plain := Opened(cs, envelope, pwd, relayKey);
                  && (plain.Some? ==> |plain.value| == 96)
                  && (r.Ok? <==> !AllZero(maskingKey) && !AllZero(s.accountHash) && plain.Some?
                                 && plain.value[..32] == relayKey
                                 && IsKeyPair(cs, plain.value[32..64], plain.value[64..96]))
                  && (r.Ok? ==>
                        r.value == A.Recovered(pwd, Credentials(relayKey, plain.value[32..64], plain.value[64..96]))))
  {
    var element := m.credentialResponse[..32];
    ClientPasswordKeyForm(cs, s.Password(), s.blind, element);
    var k := ClientPasswordKey(cs, s.Password(), s.blind, element);
    if k.Ok? {
      MaskingKeyForm(cs, k.value);
      var maskingKey := DeriveMaskingKey(cs, k.value).value;
      MaskForm(cs, maskingKey, m.responderNonce, element, s.accountHash, m.credentialResponse[32..]);
      OpenIsExact(cs, Masked(cs, maskingKey, m.responderNonce, element, s.accountHash, m.credentialResponse[32..]),
                  k.value, relayKey);
    }
  }

  /** The agent's derivation: what goes into the 4DH input, the transcript and the key schedule. */
  lemma AgentDeriveForm(cs: Suite, relayKey: Bytes, m: Ke2, s: A.AgentState)
    requires cs.Valid() && s.WellFormed() && m.WellFormed() && A.RecoverCredentials(cs, relayKey, m, s).Ok?
    ensures var r := A.AgentDerive(cs, relayKey, m, s);
            var c := A.RecoverCredentials(cs, relayKey, m, s).value.credentials;
            var kem := cs.kemDecaps(s.pqSecretKey, m.kemCiphertext);
            && (r.Ok? <==> IsScalar(cs, s.ephemeralPrivateKey) && IsPoint(cs, relayKey)
                           && IsPoint(cs, m.responderPublicKey) && kem.Some?)
            && (r.Ok? ==>
                  var transcript := TranscriptOf(
                                      s.ephemeralPublicKey, m.responderPublicKey, s.nonce, m.responderNonce,
                                      c.publicKey, relayKey, m.credentialResponse, s.pqPublicKey, m.kemCiphertext,
                                      s.accountHash);
                  && cs.scalarOf(c.privateKey).Some? && transcript != []
                  && DeriveKeys(cs,
                                FourProducts(cs, cs.scalarOf(c.privateKey).value,
                                             cs.scalarOf(s.ephemeralPrivateKey).value, cs.pointOf(relayKey).value,
                                             cs.pointOf(m.responderPublicKey).value),
                                kem.value, transcript) == Ok(r.value.keys)
                  && r.value.sharedSecret == kem.value
                  && r.value.recovered == A.RecoverCredentials(cs, relayKey, m, s).value)
  {
    var c := A.RecoverCredentials(cs, relayKey, m, s).value.credentials;
    ScalarMultBaseDefined(cs, c.privateKey);
    AgentIkmForm(cs, c, s.ephemeralPrivateKey, m.responderPublicKey);
  }

  /** What KE3 refuses: before the guards end the state is left alone (or wiped if expired), after them it is wiped. */
  lemma Ke3Refusals(cs: Suite, relayKey: Bytes, ke2: Bytes, s: A.AgentState, now: nat, later: nat)
    requires cs.Valid() && s.WellFormed()
    ensures var r := A.GenerateKe3(cs, relayKey, ke2, s, now, later);
            && (|ke2| != 1377 ==> r == (s, Err(InvalidProtocolMessage)))
            && (|ke2| == 1377 && s.phase != A.Ke1Generated ==> r == (s, Err(ValidationError)))
            && (|ke2| == 1377 && s.phase == A.Ke1Generated && s.Expired(now) ==>
                  r == (s.Invalidated(), Err(ValidationError)))
            && (|ke2| == 1377 && s.phase == A.Ke1Generated && !s.Expired(now) && AllZero(s.accountHash) ==>
                  r == (s, Err(ValidationError)))
            && (|ke2| == 1377 && s.phase == A.Ke1Generated && !s.Expired(now) && !AllZero(s.accountHash) && r.1.Err? ==>
                  r.0 == s.Invalidated())
  {
  }

  /** The parts of a KE2. */
  function Ke2At(ke2: Bytes): Ke2
    requires |ke2| == 1377
  {
    Ke2(ke2[1..25], ke2[25..57], ke2[57..225], ke2[225..289], ke2[289..1377])
  }

  lemma Ke3CoreIsExact(cs: Suite, relayKey: Bytes, ke2: Bytes, s: A.AgentState)
    requires cs.Valid() && s.WellFormed() && |ke2| == 1377 && !AllZero(s.accountHash)
    ensures var r := A.Ke3Core(cs, relayKey, ke2, s);
            var x := A.AgentDerive(cs, relayKey, Ke2At(ke2), s);
            && (r.Ok? <==> ke2[0] == 2 && IsPoint(cs, relayKey) && IsPoint(cs, ke2[25..57]) && x.Ok?
                           && ke2[225..289] == x.value.keys.responderMac)
            && (r.Ok? ==>
                  && r.value.derived == x.value
                  && r.value.exportKey == cs.hmac(cs.hmac(s.accountHash, x.value.recovered.randomizedPwd),
                                                  CLIENT_EXPORT_KEY_INFO + [1])[..32])
  {
    Offsets(ke2);
    ValidationAccepts(cs, relayKey);
    ValidationAccepts(cs, ke2[25..57]);
    var x := A.AgentDerive(cs, relayKey, Ke2At(ke2), s);
    if x.Ok? {
      RecoveredPasswordIsThere(cs, relayKey, Ke2At(ke2), s);
      ExportKeyForm(cs, x.value.recovered.randomizedPwd, s.accountHash);
    }
  }

  lemma RecoveredPasswordIsThere(cs: Suite, relayKey: Bytes, m: Ke2, s: A.AgentState)
    requires cs.Valid() && s.WellFormed() && m.WellFormed() && A.AgentDerive(cs, relayKey, m, s).Ok?
    ensures A.AgentDerive(cs, relayKey, m, s).value.recovered.randomizedPwd != []
  {
    PasswordIsThere(cs, relayKey, m, s);
    assert A.AgentDerive(cs, relayKey, m, s).value.recovered == A.RecoverCredentials(cs, relayKey, m, s).value;
  }

  lemma PasswordIsThere(cs: Suite, relayKey: Bytes, m: Ke2, s: A.AgentState)
    requires cs.Valid() && s.WellFormed() && m.WellFormed() && A.RecoverCredentials(cs, relayKey, m, s).Ok?
    ensures A.RecoverCredentials(cs, relayKey, m, s).value.randomizedPwd != []
  {
    ClientPasswordKeyForm(cs, s.Password(), s.blind, m.credentialResponse[..32]);
  }

  /**
   KE3 succeeds exactly on a live state with an account, a well-formed KE2 with genuine keys, a derivation that
   succeeds, and the relay's own MAC in the message. The state then holds the session's secrets and no password.
   */
  lemma Ke3IsExact(cs: Suite, relayKey: Bytes, ke2: Bytes, s: A.AgentState, now: nat, later: nat)
    requires cs.Valid() && s.WellFormed()
    ensures var (t, r) := A.GenerateKe3(cs, relayKey, ke2, s, now, later);
            && (r.Ok? <==> |ke2| == 1377 && s.phase == A.Ke1Generated && !s.Expired(now) && !AllZero(s.accountHash)
                           && ke2[0] == 2 && IsPoint(cs, relayKey) && IsPoint(cs, ke2[25..57])
                           && A.AgentDerive(cs, relayKey, Ke2At(ke2), s).Ok?
                           && ke2[225..289] == A.AgentDerive(cs, relayKey, Ke2At(ke2), s).value.keys.responderMac)
            && (r.Ok? ==>
                  var x := A.AgentDerive(cs, relayKey, Ke2At(ke2), s).value;
                  var c := x.recovered.credentials;
                  && r.value == x.keys.initiatorMac
                  && t == s.(secureKey := Zeros(4096), secureKeyLen := 0, blind := Zeros(32),
                             pqSecretKey := Zeros(2400), pqSharedSecret := x.sharedSecret,
                             responderKey := relayKey, privateKey := c.privateKey, publicKey := c.publicKey,
                             exportKey := cs.hmac(cs.hmac(s.accountHash, x.recovered.randomizedPwd),
                                                  CLIENT_EXPORT_KEY_INFO + [1])[..32],
                             sessionKey := x.keys.sessionKey, createdAt := later, phase := A.Ke3Generated))
  {
    if |ke2| == 1377 && !AllZero(s.accountHash) {
      Ke3CoreIsExact(cs, relayKey, ke2, s);
    }
  }

  // ---- The finish steps ----------------------------------------------------------------------------

  /** The agent hands out both keys exactly in the KE3 phase with a non-zero session key, and keeps no secret. */
  lemma AgentFinishIsExact(s: A.AgentState)
    ensures var (t, r) := A.InitiatorFinish(s);
            && (r.Ok? <==> s.phase == A.Ke3Generated && !AllZero(s.sessionKey))
            && (s.phase != A.Ke3Generated ==> t == s && r == Err(ValidationError))
            && (s.phase == A.Ke3Generated && AllZero(s.sessionKey) ==>
                  t == s.Invalidated() && r == Err(InvalidInput))
            && (r.Ok? ==>
                  && r.value == A.AgentOutput(s.sessionKey, s.exportKey)
                  && t.phase == A.Finished && t.secureKeyLen == 0
                  && AllZero(t.sessionKey) && AllZero(t.exportKey) && AllZero(t.pqSharedSecret)
                  && AllZero(t.pqSecretKey) && AllZero(t.secureKey) && AllZero(t.accountHash) && AllZero(t.blind)
                  && AllZero(t.privateKey) && AllZero(t.ephemeralPrivateKey)
                  && t.publicKey == s.publicKey && t.responderKey == s.responderKey && t.createdAt == s.createdAt)
  {
    ZerosAreAllZero(4096);
    ZerosAreAllZero(2400);
    ZerosAreAllZero(64);
    ZerosAreAllZero(32);
  }

  /** What the relay's finish step refuses without a look at the MAC. */
  lemma RelayFinishRefusals(ke3: Bytes, s: R.RelayState, now: nat)
    ensures var r := R.ResponderFinish(ke3, s, now);
            && (|ke3| != 65 ==> r == (s, Err(InvalidProtocolMessage)))
            && (|ke3| == 65 && s.phase != R.Ke2Generated ==> r == (s, Err(ValidationError)))
            && (|ke3| == 65 && s.phase == R.Ke2Generated && s.Expired(now) ==>
                  r == (s.Invalidated(), Err(ValidationError)))
            && (|ke3| == 65 && s.phase == R.Ke2Generated && !s.Expired(now) && AllZero(s.sessionKey) ==>
                  r == (s, Err(ValidationError)))
            && (|ke3| == 65 && s.phase == R.Ke2Generated && !s.Expired(now) && !AllZero(s.sessionKey) ==>
                  && (ke3[0] != 2 ==> r.1 == Err(UnsupportedVersion))
                  && (ke3[0] == 2 && ke3[1..65] != s.expectedInitiatorMac ==> r.1 == Err(AuthenticationError)))
  {
    Offsets(ke3);
    Refusals(ke3);
  }
}
