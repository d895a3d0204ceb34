/** An honest registration followed by an honest login ends with both parties holding the same session key. */
module Agreement {
  import opened Types
  import opened Suites
  import opened Crypto
  import opened Oprf
  import opened Envelopes
  import opened PqKem
  import opened Wire
  import opened Matching
  import A = Agent
  import R = Relay

  /** Everything an honest run depends on: secrets, randomness and clock readings. */
  datatype Honest = Honest(
    responder: R.Responder, password: Bytes, accountId: Bytes,
    keyDraws: Draws, blindDraws: Draws, envelopeNonce: Bytes, ke1Random: A.Ke1Random, ke2Random: R.Ke2Random,
    requestedAt: nat, finalizedAt: nat, ke1At: nat, ke2At: nat, ke3At: nat, finishedAt: nat)

  predicate SizesOk(h: Honest) {
    && 1 <= |h.password| <= MAX_SECURE_KEY_LENGTH && h.accountId != [] && h.responder.WellFormed()
    && |h.envelopeNonce| == NONCE_LENGTH && h.ke1Random.WellFormed() && h.ke2Random.WellFormed()
  }

  /** Every draw of a scalar succeeds. */
  predicate DrawsOk(cs: Suite, h: Honest)
    requires cs.Valid()
  {
    && RandomNonzeroScalar(cs, h.keyDraws).Ok? && RandomNonzeroScalar(cs, h.blindDraws).Ok?
    && RandomNonzeroScalar(cs, h.ke1Random.ephemeral).Ok? && RandomNonzeroScalar(cs, h.ke1Random.blind).Ok?
    && RandomNonzeroScalar(cs, h.ke2Random.ephemeral).Ok?
  }

  /** The relay has a key pair, and nothing derived for this password and account is degenerate. */
  predicate AccountOk(cs: Suite, h: Honest)
    requires cs.Valid()
  {
    var randomizedPwd := PasswordKey(cs, h.password, h.responder.oprfSeed, h.accountId);
    && IsKeyPair(cs, h.responder.privateKey, h.responder.publicKey)
    && PasswordPoint(cs, h.password) != 0
    && DeriveOprfKey(cs, h.responder.oprfSeed, h.accountId).Ok?
    && R.FakeSelection(cs, h.responder.oprfSeed, h.accountId).Ok?
    && !AllZero(AccountHash(cs, h.accountId))
    && randomizedPwd.Ok? && DeriveMaskingKey(cs, randomizedPwd.value).Ok?
    && !AllZero(DeriveMaskingKey(cs, randomizedPwd.value).value)
  }

  /** Every message arrives before its deadline. */
  predicate ClockOk(h: Honest) {
    && !LifetimeOver(h.requestedAt, h.finalizedAt) && !LifetimeOver(h.ke1At, h.ke3At)
    && !LifetimeOver(h.ke2At, h.finishedAt)
  }

  /** The inputs the code does not turn away. */
  predicate Acceptable(cs: Suite, h: Honest)
    requires cs.Valid()
  {
    && SizesOk(h) && DrawsOk(cs, h) && AccountOk(cs, h) && ClockOk(h)
    && cs.KemRoundTrip(h.ke1Random.kemCoins, h.ke2Random.kemCoins)
  }

  /** The randomized password of this account, with no blinding in its definition. */
  function PasswordKeyOf(cs: Suite, h: Honest): (k: Bytes)
    requires cs.Valid() && Acceptable(cs, h)
    ensures PasswordKey(cs, h.password, h.responder.oprfSeed, h.accountId) == Ok(k) && |k| == HASH_LENGTH
  {
    PasswordKeyIndependentOfBlind(cs, h.password, RandomNonzeroScalar(cs, h.blindDraws).value, h.responder.oprfSeed,
                                  h.accountId);
    PasswordKey(cs, h.password, h.responder.oprfSeed, h.accountId).value
  }

  /** Registration over the wire, ending with the credentials the relay stores. */
  function Register(cs: Suite, h: Honest): Result<R.ResponderCredentials>
    requires cs.Valid() && |h.envelopeNonce| == NONCE_LENGTH
  {
    var (a1, requested) := A.CreateRegistrationRequest(
                             cs, h.password, A.Blank(A.Created, 0), h.keyDraws, h.blindDraws, 0, h.requestedAt);
    var request :- requested;
    var response :- R.CreateRegistrationResponse(cs, h.responder, RegistrationRequestWire(request), h.accountId);
    var (a2, finalized) := A.FinalizeRegistration(
                             cs, h.responder.publicKey, RegistrationResponseWire(response), a1, h.envelopeNonce,
                             h.finalizedAt);
    var record :- finalized;
    R.BuildCredentials(cs, RegistrationRecordWire(record), R.NewCredentials())
  }

  datatype LoginEnd = LoginEnd(agent: A.AgentState, relay: R.RelayState, ke3: Bytes)

  /** Login over the wire up to the delivery of KE3. */
  function Login(cs: Suite, h: Honest, c: R.ResponderCredentials): Result<LoginEnd>
    requires cs.Valid() && h.responder.WellFormed() && h.ke1Random.WellFormed() && h.ke2Random.WellFormed()
  {
    var (a1, sent) := A.GenerateKe1(cs, h.password, h.accountId, A.Blank(A.Created, 0), h.ke1Random, 0, h.ke1At);
    var ke1 :- sent;
    var (b1, answered) := R.GenerateKe2(cs, h.responder, Ke1Wire(ke1), h.accountId, c, R.Blank(R.Created, 0),
                                        h.ke2Random, 0, h.ke2At);
    var answer :- answered;
    var (a2, confirmed) := A.GenerateKe3(cs, h.responder.publicKey, Ke2Wire(answer.Message()), a1, h.ke3At, h.ke3At);
    var mac :- confirmed;
    Ok(LoginEnd(a2, b1, Ke3Wire(mac)))
  }

  /** The agent's long-term keys, as drawn at registration. */
  function RegisteredKeys(cs: Suite, h: Honest): (c: Credentials)
    requires cs.Valid() && Acceptable(cs, h)
    ensures |c.responderKey| == 32 && |c.privateKey| == 32 && |c.publicKey| == 32
    ensures IsKeyPair(cs, c.privateKey, c.publicKey)
  {
    var privateKey := RandomNonzeroScalar(cs, h.keyDraws).value;
    Credentials(h.responder.publicKey, privateKey, ScalarMultBase(cs, privateKey).value)
  }

  /** This account's sealed keys. */
  function EnvelopeOf(cs: Suite, h: Honest): (e: Envelope)
    requires cs.Valid() && Acceptable(cs, h)
    ensures Seal(cs, PasswordKeyOf(cs, h), RegisteredKeys(cs, h), h.envelopeNonce) == Ok(e) && e.WellFormed()
    ensures |e.Serialized()| == ENVELOPE_LENGTH
  {
    Seal(cs, PasswordKeyOf(cs, h), RegisteredKeys(cs, h), h.envelopeNonce).value
  }

  function MaskingKeyOf(cs: Suite, h: Honest): (k: Bytes)
    requires cs.Valid() && Acceptable(cs, h)
    ensures DeriveMaskingKey(cs, PasswordKeyOf(cs, h)) == Ok(k) && |k| == MASKING_KEY_LENGTH && !AllZero(k)
  {
    MaskingKeyDefined(cs, PasswordKeyOf(cs, h));
    DeriveMaskingKey(cs, PasswordKeyOf(cs, h)).value
  }

  /** What the relay stores: the masking key, the sealed envelope and the public key of this account. */
  function StoredCredentials(cs: Suite, h: Honest): R.ResponderCredentials
    requires cs.Valid() && Acceptable(cs, h)
  {
    R.ResponderCredentials(EnvelopeOf(cs, h).Serialized(), MaskingKeyOf(cs, h), RegisteredKeys(cs, h).publicKey, true)
  }

  // ---- Registration ----------------------------------------------------------------------------

  /** The agent's state and its registration request. */
  function RequestOf(cs: Suite, h: Honest): (r: (A.AgentState, Bytes))
    requires cs.Valid() && Acceptable(cs, h)
    ensures A.CreateRegistrationRequest(
              cs, h.password, A.Blank(A.Created, 0), h.keyDraws, h.blindDraws, 0, h.requestedAt) == (r.0, Ok(r.1))
    ensures r.0.WellFormed() && |r.1| == 32
  {
    BlindDefined(cs, h.password, RandomNonzeroScalar(cs, h.blindDraws).value);
    RequestFrom(cs, h.password, h.keyDraws, h.blindDraws, h.requestedAt);
    var (a, requested) := A.CreateRegistrationRequest(
                            cs, h.password, A.Blank(A.Created, 0), h.keyDraws, h.blindDraws, 0, h.requestedAt);
    (a, requested.value)
  }

  lemma RequestSucceeds(cs: Suite, h: Honest)
    requires cs.Valid() && Acceptable(cs, h)
    ensures var blind := RandomNonzeroScalar(cs, h.blindDraws).value;
            var (a, request) := RequestOf(cs, h);
            && BlindWith(cs, h.password, blind) == Ok(request) && IsPoint(cs, request)
            && a.phase == A.RegistrationRequested && a.createdAt == h.requestedAt
            && a.Password() == h.password && a.blind == blind
            && a.privateKey == RegisteredKeys(cs, h).privateKey && a.publicKey == RegisteredKeys(cs, h).publicKey
  {
    BlindDefined(cs, h.password, RandomNonzeroScalar(cs, h.blindDraws).value);
    RequestFrom(cs, h.password, h.keyDraws, h.blindDraws, h.requestedAt);
  }

  /** The registration request from its parts, on a fresh state. */
  lemma RequestFrom(cs: Suite, password: Bytes, keyDraws: Draws, blindDraws: Draws, later: nat)
    requires cs.Valid() && 1 <= |password| <= MAX_SECURE_KEY_LENGTH
    requires RandomNonzeroScalar(cs, keyDraws).Ok? && RandomNonzeroScalar(cs, blindDraws).Ok?
    requires BlindWith(cs, password, RandomNonzeroScalar(cs, blindDraws).value).Ok?
    ensures var (a, requested) := A.CreateRegistrationRequest(
                                    cs, password, A.Blank(A.Created, 0), keyDraws, blindDraws, 0, later);
            && requested == BlindWith(cs, password, RandomNonzeroScalar(cs, blindDraws).value)
            && a.phase == A.RegistrationRequested && a.createdAt == later && a.Password() == password
            && a.blind == RandomNonzeroScalar(cs, blindDraws).value
            && Ok(a.privateKey) == RandomNonzeroScalar(cs, keyDraws) && IsKeyPair(cs, a.privateKey, a.publicKey)
  {
    var publicKey := ScalarMultBase(cs, RandomNonzeroScalar(cs, keyDraws).value);
    assert publicKey.Ok?;
  }

  /** The relay's answer to the request; the agent unblinds it to this account's password key. */
  function ResponseOf(cs: Suite, h: Honest): (m: RegistrationResponse)
    requires cs.Valid() && Acceptable(cs, h)
    ensures R.CreateRegistrationResponse(cs, h.responder, RegistrationRequestWire(RequestOf(cs, h).1), h.accountId)
            == Ok(m)
    ensures m.WellFormed() && m.responderPublicKey == h.responder.publicKey
    ensures var a := RequestOf(cs, h).0;
            ClientPasswordKey(cs, a.Password(), a.blind, m.evaluatedElement) == Ok(PasswordKeyOf(cs, h))
  {
    var (a, request) := RequestOf(cs, h);
    RequestSucceeds(cs, h);
    RegistrationRequestRoundTrip(request, []);
    ValidationAccepts(cs, request);
    PasswordKeyIndependentOfBlind(cs, h.password, a.blind, h.responder.oprfSeed, h.accountId);
    R.CreateRegistrationResponse(cs, h.responder, RegistrationRequestWire(request), h.accountId).value
  }

  /** The record the agent uploads. */
  function RecordOf(cs: Suite, h: Honest): (m: RegistrationRecord)
    requires cs.Valid() && Acceptable(cs, h)
    ensures m.WellFormed()
  {
    RegistrationRecord(MaskingKeyOf(cs, h), EnvelopeOf(cs, h).Serialized(), RegisteredKeys(cs, h).publicKey)
  }

  lemma FinalizeSucceeds(cs: Suite, h: Honest)
    requires cs.Valid() && Acceptable(cs, h)
    ensures A.FinalizeRegistration(
              cs, h.responder.publicKey, RegistrationResponseWire(ResponseOf(cs, h)), RequestOf(cs, h).0,
              h.envelopeNonce, h.finalizedAt).1 == Ok(RecordOf(cs, h))
  {
    RequestSucceeds(cs, h);
    RegistrationResponseRoundTrip(ResponseOf(cs, h), []);
    KeyPairIsValid(cs, h.responder.privateKey, h.responder.publicKey);
    SealedRecord(cs, h, RequestOf(cs, h).0.PasswordWiped());
  }

  lemma RecordIsAccepted(cs: Suite, h: Honest)
    requires cs.Valid() && Acceptable(cs, h)
    ensures R.BuildCredentials(cs, RegistrationRecordWire(RecordOf(cs, h)), R.NewCredentials())
            == Ok(StoredCredentials(cs, h))
  {
    RegistrationRecordRoundTrip(RecordOf(cs, h), []);
    KeyPairIsValid(cs, RegisteredKeys(cs, h).privateKey, RegisteredKeys(cs, h).publicKey);
  }

  /** Registration stores exactly this account's credentials. */
  lemma RegistrationSucceeds(cs: Suite, h: Honest)
    requires cs.Valid() && Acceptable(cs, h)
    ensures Register(cs, h) == Ok(StoredCredentials(cs, h))
  {
    FinalizeSucceeds(cs, h);
    RecordIsAccepted(cs, h);
  }

  lemma KeyPairIsValid(cs: Suite, privateKey: Bytes, publicKey: Bytes)
    requires cs.Valid() && IsKeyPair(cs, privateKey, publicKey)
    ensures IsPoint(cs, publicKey) && ValidatePublicKey(cs, publicKey).Pass?
  {
    ScalarMultBaseDefined(cs, privateKey);
    ValidationAccepts(cs, publicKey);
  }

  /** Sealing this account's keys yields its record. */
  lemma SealedRecord(cs: Suite, h: Honest, s: A.AgentState)
    requires cs.Valid() && Acceptable(cs, h) && s.WellFormed()
    requires s.privateKey == RegisteredKeys(cs, h).privateKey && s.publicKey == RegisteredKeys(cs, h).publicKey
    ensures A.SealRecord(cs, h.responder.publicKey, PasswordKeyOf(cs, h), s, h.envelopeNonce).1 == Ok(RecordOf(cs, h))
  {
  }

  // ---- Login: KE1 ------------------------------------------------------------------------------

  /** The agent's state and KE1 after the first login step. */
  function Ke1Of(cs: Suite, h: Honest): (r: (A.AgentState, Ke1))
    requires cs.Valid() && Acceptable(cs, h)
    ensures A.GenerateKe1(cs, h.password, h.accountId, A.Blank(A.Created, 0), h.ke1Random, 0, h.ke1At)
            == (r.0, Ok(r.1))
    ensures r.0.WellFormed() && r.1.WellFormed()
  {
    BlindDefined(cs, h.password, RandomNonzeroScalar(cs, h.ke1Random.blind).value);
    Ke1From(cs, h.password, h.accountId, h.ke1Random, h.ke1At);
    var (a, sent) := A.GenerateKe1(cs, h.password, h.accountId, A.Blank(A.Created, 0), h.ke1Random, 0, h.ke1At);
    (a, sent.value)
  }

  /** KE1 from its parts, on a fresh state. */
  lemma Ke1From(cs: Suite, password: Bytes, accountId: Bytes, rnd: A.Ke1Random, later: nat)
    requires cs.Valid() && 1 <= |password| <= MAX_SECURE_KEY_LENGTH && accountId != [] && rnd.WellFormed()
    requires RandomNonzeroScalar(cs, rnd.ephemeral).Ok? && RandomNonzeroScalar(cs, rnd.blind).Ok?
    requires BlindWith(cs, password, RandomNonzeroScalar(cs, rnd.blind).value).Ok?
    ensures var (a, sent) := A.GenerateKe1(cs, password, accountId, A.Blank(A.Created, 0), rnd, 0, later);
            && sent.Ok?
            && BlindWith(cs, password, RandomNonzeroScalar(cs, rnd.blind).value) == Ok(sent.value.credentialRequest)
            && sent.value.initiatorPublicKey == a.ephemeralPublicKey && sent.value.initiatorNonce == a.nonce
            && sent.value.pqPublicKey == a.pqPublicKey && EphemeralsConsistent(cs, a, rnd.kemCoins)
            && a.phase == A.Ke1Generated && a.createdAt == later && a.Password() == password
            && a.blind == RandomNonzeroScalar(cs, rnd.blind).value && a.accountHash == AccountHash(cs, accountId)
  {
    var pub := ScalarMultBase(cs, RandomNonzeroScalar(cs, rnd.ephemeral).value);
    assert pub.Ok?;
  }

  lemma Ke1Succeeds(cs: Suite, h: Honest)
    requires cs.Valid() && Acceptable(cs, h)
    ensures var blind := RandomNonzeroScalar(cs, h.ke1Random.blind).value;
            var (a, m) := Ke1Of(cs, h);
            && BlindWith(cs, h.password, blind) == Ok(m.credentialRequest) && IsPoint(cs, m.credentialRequest)
            && m.initiatorPublicKey == a.ephemeralPublicKey && m.initiatorNonce == a.nonce
            && m.pqPublicKey == a.pqPublicKey
            && EphemeralsConsistent(cs, a, h.ke1Random.kemCoins)
            && a.phase == A.Ke1Generated && a.createdAt == h.ke1At
            && a.Password() == h.password && a.blind == blind && a.accountHash == AccountHash(cs, h.accountId)
  {
    BlindDefined(cs, h.password, RandomNonzeroScalar(cs, h.ke1Random.blind).value);
    Ke1From(cs, h.password, h.accountId, h.ke1Random, h.ke1At);
  }

  // ---- Login: KE2 ------------------------------------------------------------------------------

  /** The triple the relay selects for this account. */
  function SelectedFor(cs: Suite, h: Honest): (s: R.Selected)
    requires cs.Valid() && Acceptable(cs, h)
    ensures |s.publicKey| == 32 && |s.envelope| == 136
  {
    R.Selected(RegisteredKeys(cs, h).publicKey, EnvelopeOf(cs, h).Serialized(), MaskingKeyOf(cs, h))
  }

  lemma SelectionIsStored(cs: Suite, h: Honest)
    requires cs.Valid() && Acceptable(cs, h)
    ensures R.SelectCredentials(cs, h.responder.oprfSeed, h.accountId, StoredCredentials(cs, h))
            == Ok(SelectedFor(cs, h))
    ensures ValidatePublicKey(cs, SelectedFor(cs, h).publicKey).Pass?
  {
    KeyPairIsValid(cs, RegisteredKeys(cs, h).privateKey, RegisteredKeys(cs, h).publicKey);
  }

  lemma Ke1Admitted(cs: Suite, h: Honest)
    requires cs.Valid() && Acceptable(cs, h)
    ensures var ke1 := Ke1Of(cs, h).1;
            && |Ke1Wire(ke1)| == KE1_LENGTH
            && R.AdmitKe1(cs, h.responder, Ke1Wire(ke1), h.accountId, StoredCredentials(cs, h))
               == Ok((ke1, SelectedFor(cs, h)))
  {
    Ke1Succeeds(cs, h);
    var (a, ke1) := Ke1Of(cs, h);
    Ke1RoundTrip(ke1, []);
    SelectionIsStored(cs, h);
    ValidationAccepts(cs, ke1.credentialRequest);
    KeyPairIsValid(cs, a.ephemeralPrivateKey, ke1.initiatorPublicKey);
  }

  /** The relay's ephemeral key pair. */
  function RelayEphemeral(cs: Suite, h: Honest): (k: (Bytes, Bytes))
    requires cs.Valid() && Acceptable(cs, h)
    ensures RandomNonzeroScalar(cs, h.ke2Random.ephemeral) == Ok(k.0) && IsKeyPair(cs, k.0, k.1) && |k.1| == 32
  {
    var e := RandomNonzeroScalar(cs, h.ke2Random.ephemeral).value;
    (e, ScalarMultBase(cs, e).value)
  }

  /** The element the relay evaluates for this login; the agent unblinds it to this account's password key. */
  function EvaluatedFor(cs: Suite, h: Honest): (e: Bytes)
    requires cs.Valid() && Acceptable(cs, h)
    ensures EvaluateOprf(cs, h.responder.oprfSeed, Ke1Of(cs, h).1.credentialRequest, h.accountId) == Ok(e)
    ensures |e| == 32
    ensures var a := Ke1Of(cs, h).0;
            ClientPasswordKey(cs, a.Password(), a.blind, e) == Ok(PasswordKeyOf(cs, h))
  {
    Ke1Succeeds(cs, h);
    PasswordKeyIndependentOfBlind(cs, h.password, Ke1Of(cs, h).0.blind, h.responder.oprfSeed, h.accountId);
    EvaluateOprf(cs, h.responder.oprfSeed, Ke1Of(cs, h).1.credentialRequest, h.accountId).value
  }

  /** The envelope as masked for this login. */
  function MaskedFor(cs: Suite, h: Honest): (m: Bytes)
    requires cs.Valid() && Acceptable(cs, h)
    ensures var s, nonce, e := SelectedFor(cs, h), h.ke2Random.nonce, EvaluatedFor(cs, h);
            var accountHash := AccountHash(cs, h.accountId);
            && MaskEnvelope(cs, s.maskingKey, nonce, e, accountHash, s.envelope) == Ok(m) && |m| == 136
            && MaskEnvelope(cs, s.maskingKey, nonce, e, accountHash, m) == Ok(s.envelope)
  {
    var s, nonce, e := SelectedFor(cs, h), h.ke2Random.nonce, EvaluatedFor(cs, h);
    MaskingIsAnInvolution(cs, s.maskingKey, nonce, e, AccountHash(cs, h.accountId), s.envelope);
    MaskEnvelope(cs, s.maskingKey, nonce, e, AccountHash(cs, h.accountId), s.envelope).value
  }

  /** The relay answers with the evaluated element and the masked envelope. */
  lemma RespondSucceeds(cs: Suite, h: Honest)
    requires cs.Valid() && Acceptable(cs, h)
    ensures var r := R.Respond(cs, h.responder, Ke1Of(cs, h).1, SelectedFor(cs, h), h.accountId,
                               RelayEphemeral(cs, h).0, h.ke2Random.nonce);
            r.Ok? && r.value.0 == EvaluatedFor(cs, h) + MaskedFor(cs, h)
  {
    Ke1Succeeds(cs, h);
    var (a, m) := Ke1Of(cs, h);
    var e := RelayEphemeral(cs, h);
    MirroredIkm(cs, RegisteredKeys(cs, h), a.ephemeralPrivateKey, a.ephemeralPublicKey, h.responder.privateKey, e.0,
                e.1);
    RespondFrom(cs, h.responder, m, SelectedFor(cs, h), h.accountId, e.0, h.ke2Random.nonce, EvaluatedFor(cs, h),
                MaskedFor(cs, h));
  }

  /** The relay's response from its parts. */
  lemma RespondFrom(
    cs: Suite, responder: R.Responder, m: Ke1, selected: R.Selected, accountId: Bytes, ephemeral: Bytes, nonce: Bytes,
    evaluated: Bytes, masked: Bytes)
    requires cs.Valid() && |selected.envelope| == 136
    requires EvaluateOprf(cs, responder.oprfSeed, m.credentialRequest, accountId) == Ok(evaluated)
    requires MaskEnvelope(cs, selected.maskingKey, nonce, evaluated, AccountHash(cs, accountId), selected.envelope)
             == Ok(masked)
    requires R.RelayIkm(cs, responder.privateKey, ephemeral, selected.publicKey, m.initiatorPublicKey).Ok?
    ensures var r := R.Respond(cs, responder, m, selected, accountId, ephemeral, nonce);
            r.Ok? && r.value.0 == evaluated + masked
  {
  }

  /** The relay's derivation for this login. */
  function RelayKeysOf(cs: Suite, h: Honest): (y: R.RelayKeys)
    requires cs.Valid() && Acceptable(cs, h)
    ensures R.RelayDerive(cs, h.responder, Ke1Of(cs, h).1, SelectedFor(cs, h), h.accountId, h.ke2Random,
                          RelayEphemeral(cs, h).0, RelayEphemeral(cs, h).1) == Ok(y)
    ensures y.Message().WellFormed() && y.keys.WellFormed()
  {
    Ke1Succeeds(cs, h);
    RespondSucceeds(cs, h);
    RelayDeriveFrom(cs, h.responder, Ke1Of(cs, h).1, SelectedFor(cs, h), h.accountId, h.ke2Random,
                    RelayEphemeral(cs, h));
    R.RelayDerive(cs, h.responder, Ke1Of(cs, h).1, SelectedFor(cs, h), h.accountId, h.ke2Random,
                  RelayEphemeral(cs, h).0, RelayEphemeral(cs, h).1).value
  }

  /** The relay's derivation from its parts: past the response only encapsulation can fail. */
  lemma RelayDeriveFrom(
    cs: Suite, responder: R.Responder, m: Ke1, selected: R.Selected, accountId: Bytes, rnd: R.Ke2Random,
    e: (Bytes, Bytes))
    requires cs.Valid() && responder.WellFormed() && m.WellFormed() && rnd.WellFormed()
    requires |selected.publicKey| == 32 && |selected.envelope| == 136 && |e.1| == 32
    requires R.Respond(cs, responder, m, selected, accountId, e.0, rnd.nonce).Ok?
    requires Encapsulate(cs, m.pqPublicKey, rnd.kemCoins).Ok?
    ensures R.RelayDerive(cs, responder, m, selected, accountId, rnd, e.0, e.1).Ok?
  {
  }

  /** The relay's state after its step, and what it answered. */
  function Ke2Of(cs: Suite, h: Honest): (R.RelayState, Result<R.RelayKeys>)
    requires cs.Valid() && Acceptable(cs, h)
  {
    R.GenerateKe2(cs, h.responder, Ke1Wire(Ke1Of(cs, h).1), h.accountId, StoredCredentials(cs, h),
                  R.Blank(R.Created, 0), h.ke2Random, 0, h.ke2At)
  }

  /** The relay keeps the session key and the expected MAC of its derivation. */
  lemma Ke2Succeeds(cs: Suite, h: Honest)
    requires cs.Valid() && Acceptable(cs, h)
    ensures var y := RelayKeysOf(cs, h);
            var (b, answered) := Ke2Of(cs, h);
            && answered == Ok(y)
            && b.phase == R.Ke2Generated && b.createdAt == h.ke2At
            && b.sessionKey == y.keys.sessionKey && b.expectedInitiatorMac == y.keys.initiatorMac
  {
    Ke1Admitted(cs, h);
    DeriveIntoFrom(cs, h.responder, Ke1Of(cs, h).1, SelectedFor(cs, h), h.accountId, h.ke2Random,
                   R.Blank(R.Created, 0), RelayEphemeral(cs, h), RelayKeysOf(cs, h));
  }

  /** The state writes of the relay's step from its parts. */
  lemma DeriveIntoFrom(
    cs: Suite, responder: R.Responder, m: Ke1, selected: R.Selected, accountId: Bytes, rnd: R.Ke2Random,
    s: R.RelayState, e: (Bytes, Bytes), y: R.RelayKeys)
    requires cs.Valid() && responder.WellFormed() && m.WellFormed() && rnd.WellFormed()
    requires |selected.publicKey| == 32 && |selected.envelope| == 136 && |e.1| == 32
    requires RandomNonzeroScalar(cs, rnd.ephemeral) == Ok(e.0) && ScalarMultBase(cs, e.0) == Ok(e.1)
    requires R.RelayDerive(cs, responder, m, selected, accountId, rnd, e.0, e.1) == Ok(y)
    ensures var (t, r) := R.DeriveInto(cs, responder, m, selected, accountId, rnd, s);
            r == Ok(y) && t.sessionKey == y.keys.sessionKey && t.expectedInitiatorMac == y.keys.initiatorMac
  {
  }

  // ---- Login: KE3 ------------------------------------------------------------------------------

  /** The session as the relay sees it, in the agent's terms. */
  lemma RelaySessionFields(cs: Suite, h: Honest)
    requires cs.Valid() && Acceptable(cs, h)
    ensures var y, a := RelayKeysOf(cs, h), Ke1Of(cs, h).0;
            && y.session.credentialResponse == EvaluatedFor(cs, h) + MaskedFor(cs, h)
            && y.session.responderNonce == h.ke2Random.nonce
            && y.session == A.AgentSession(y.Message(), RegisteredKeys(cs, h), a)
  {
    Ke1Succeeds(cs, h);
    RespondSucceeds(cs, h);
  }

  /** Credential recovery: what registration sealed comes back through masking, splitting and opening. */
  lemma CredentialsRecovered(cs: Suite, h: Honest)
    requires cs.Valid() && Acceptable(cs, h)
    ensures A.RecoverCredentials(cs, h.responder.publicKey, RelayKeysOf(cs, h).Message(), Ke1Of(cs, h).0)
            == Ok(A.Recovered(PasswordKeyOf(cs, h), RegisteredKeys(cs, h)))
  {
    Ke1Succeeds(cs, h);
    RelaySessionFields(cs, h);
    var response := EvaluatedFor(cs, h) + MaskedFor(cs, h);
    assert response[..32] == EvaluatedFor(cs, h) && response[32..] == MaskedFor(cs, h);
    SplitSerialized(EnvelopeOf(cs, h));
    OpenUndoesSeal(cs, PasswordKeyOf(cs, h), RegisteredKeys(cs, h), h.envelopeNonce);
  }

  /** The agent's derivation for this login. */
  function AgentKeysOf(cs: Suite, h: Honest): (x: A.AgentKeys)
    requires cs.Valid() && Acceptable(cs, h)
    ensures A.AgentDerive(cs, h.responder.publicKey, RelayKeysOf(cs, h).Message(), Ke1Of(cs, h).0) == Ok(x)
    ensures x.recovered == A.Recovered(PasswordKeyOf(cs, h), RegisteredKeys(cs, h))
    ensures x.session == RelayKeysOf(cs, h).session
  {
    AgentDerives(cs, h);
    A.AgentDerive(cs, h.responder.publicKey, RelayKeysOf(cs, h).Message(), Ke1Of(cs, h).0).value
  }

  /** The agent recovers its credentials, completes its 4DH and decapsulates, over the relay's own session. */
  lemma AgentDerives(cs: Suite, h: Honest)
    requires cs.Valid() && Acceptable(cs, h)
    ensures var r := A.AgentDerive(cs, h.responder.publicKey, RelayKeysOf(cs, h).Message(), Ke1Of(cs, h).0);
            && r.Ok?
            && r.value.recovered == A.Recovered(PasswordKeyOf(cs, h), RegisteredKeys(cs, h))
            && r.value.session == RelayKeysOf(cs, h).session
  {
    CredentialsRecovered(cs, h);
    RelaySessionFields(cs, h);
    AgentInputsDefined(cs, h);
    AgentDeriveFrom(cs, h.responder.publicKey, RelayKeysOf(cs, h).Message(), Ke1Of(cs, h).0,
                    A.Recovered(PasswordKeyOf(cs, h), RegisteredKeys(cs, h)));
  }

  /** The agent's 4DH and decapsulation succeed on the honest KE2. */
  lemma AgentInputsDefined(cs: Suite, h: Honest)
    requires cs.Valid() && Acceptable(cs, h)
    ensures var m, a := RelayKeysOf(cs, h).Message(), Ke1Of(cs, h).0;
            var ikm := A.AgentIkm(cs, RegisteredKeys(cs, h), a.ephemeralPrivateKey, m.responderPublicKey);
            ikm.Ok? && |ikm.value| == 128 && Decapsulate(cs, a.pqSecretKey, m.kemCiphertext).Ok?
  {
    Ke1Succeeds(cs, h);
    RelaySessionFields(cs, h);
    RelayHalfOf(cs, h);
    var a, e := Ke1Of(cs, h).0, RelayEphemeral(cs, h);
    MirroredIkm(cs, RegisteredKeys(cs, h), a.ephemeralPrivateKey, a.ephemeralPublicKey, h.responder.privateKey, e.0,
                e.1);
  }

  /** The agent's derivation from its parts: past recovery only 4DH and decapsulation can fail. */
  lemma AgentDeriveFrom(cs: Suite, key: Bytes, m: Ke2, s: A.AgentState, recovered: A.Recovered)
    requires cs.Valid() && s.WellFormed() && m.WellFormed()
    requires A.RecoverCredentials(cs, key, m, s) == Ok(recovered)
    requires A.AgentIkm(cs, recovered.credentials, s.ephemeralPrivateKey, m.responderPublicKey).Ok?
    requires |A.AgentIkm(cs, recovered.credentials, s.ephemeralPrivateKey, m.responderPublicKey).value| == 128
    requires Decapsulate(cs, s.pqSecretKey, m.kemCiphertext).Ok?
    ensures var r := A.AgentDerive(cs, key, m, s);
            && r.Ok? && r.value.recovered == recovered
            && r.value.session == A.AgentSession(m, recovered.credentials, s)
  {
  }

  lemma RelayHalfOf(cs: Suite, h: Honest)
    requires cs.Valid() && Acceptable(cs, h)
    ensures RelayHalf(cs, RelayKeysOf(cs, h), h.responder.privateKey, h.ke2Random.kemCoins)
    ensures RelayKeysOf(cs, h).ephemeral == RelayEphemeral(cs, h).0
            && RelayKeysOf(cs, h).ephemeralPublic == RelayEphemeral(cs, h).1
            && RelayKeysOf(cs, h).session.responderKey == h.responder.publicKey
  {
    RelayHalfFrom(cs, h.responder, Ke1Of(cs, h).1, SelectedFor(cs, h), h.accountId, h.ke2Random,
                  RelayEphemeral(cs, h), RelayKeysOf(cs, h));
  }

  lemma RelayHalfFrom(
    cs: Suite, responder: R.Responder, m: Ke1, selected: R.Selected, accountId: Bytes, rnd: R.Ke2Random,
    e: (Bytes, Bytes), y: R.RelayKeys)
    requires cs.Valid() && responder.WellFormed() && m.WellFormed() && rnd.WellFormed()
    requires |selected.publicKey| == 32 && |selected.envelope| == 136 && |e.1| == 32
    requires R.RelayDerive(cs, responder, m, selected, accountId, rnd, e.0, e.1) == Ok(y)
    ensures RelayHalf(cs, y, responder.privateKey, rnd.kemCoins)
    ensures y.ephemeral == e.0 && y.ephemeralPublic == e.1 && y.session.responderKey == responder.publicKey
  {
    RelayDeriveIsRelayHalf(cs, responder, m, selected, accountId, rnd, e.0, e.1);
  }

  /** One session, so one set of keys. */
  lemma AgentDerivesSameKeys(cs: Suite, h: Honest)
    requires cs.Valid() && Acceptable(cs, h)
    ensures AgentKeysOf(cs, h).keys == RelayKeysOf(cs, h).keys
    ensures AgentKeysOf(cs, h).session == RelayKeysOf(cs, h).session
    ensures AgentKeysOf(cs, h).recovered == A.Recovered(PasswordKeyOf(cs, h), RegisteredKeys(cs, h))
  {
    Ke1Succeeds(cs, h);
    RelayHalfOf(cs, h);
    var a, x, y := Ke1Of(cs, h).0, AgentKeysOf(cs, h), RelayKeysOf(cs, h);
    AgentDeriveIsAgentHalf(cs, h.responder.publicKey, y.Message(), a);
    HalvesAgree(cs, x, a.ephemeralPrivateKey, a.pqSecretKey, h.ke1Random.kemCoins, y, h.responder.privateKey,
                h.ke2Random.kemCoins);
  }

  /** The client's export key for this account. */
  function ExportKeyOf(cs: Suite, h: Honest): (k: Bytes)
    requires cs.Valid() && Acceptable(cs, h)
    ensures DeriveClientExportKey(cs, PasswordKeyOf(cs, h), AccountHash(cs, h.accountId)) == Ok(k)
  {
    DeriveClientExportKey(cs, PasswordKeyOf(cs, h), AccountHash(cs, h.accountId)).value
  }

  lemma Ke3CoreSucceeds(cs: Suite, h: Honest)
    requires cs.Valid() && Acceptable(cs, h)
    ensures |Ke2Wire(RelayKeysOf(cs, h).Message())| == KE2_LENGTH
    ensures A.Ke3Core(cs, h.responder.publicKey, Ke2Wire(RelayKeysOf(cs, h).Message()), Ke1Of(cs, h).0)
            == Ok(A.Ke3Secrets(AgentKeysOf(cs, h), ExportKeyOf(cs, h)))
  {
    AgentDerivesSameKeys(cs, h);
    Ke1Succeeds(cs, h);
    var m, e := RelayKeysOf(cs, h).Message(), RelayEphemeral(cs, h);
    Ke2RoundTrip(m, []);
    KeyPairIsValid(cs, h.responder.privateKey, h.responder.publicKey);
    KeyPairIsValid(cs, e.0, e.1);
    RelayHalfOf(cs, h);
    Ke3CoreFrom(cs, h.responder.publicKey, m, Ke1Of(cs, h).0, AgentKeysOf(cs, h), ExportKeyOf(cs, h));
  }

  /** The core of KE3 from its parts. */
  lemma Ke3CoreFrom(cs: Suite, key: Bytes, m: Ke2, s: A.AgentState, x: A.AgentKeys, exportKey: Bytes)
    requires cs.Valid() && s.WellFormed() && m.WellFormed() && ParseKe2(Ke2Wire(m)) == Ok(m)
    requires ValidatePublicKey(cs, key).Pass? && ValidatePublicKey(cs, m.responderPublicKey).Pass?
    requires A.AgentDerive(cs, key, m, s) == Ok(x) && m.responderMac == x.keys.responderMac
    requires DeriveClientExportKey(cs, x.recovered.randomizedPwd, s.accountHash) == Ok(exportKey)
    ensures A.Ke3Core(cs, key, Ke2Wire(m), s) == Ok(A.Ke3Secrets(x, exportKey))
  {
  }

  /** The agent's state after KE3. */
  function Ke3Of(cs: Suite, h: Honest): (s: A.AgentState)
    requires cs.Valid() && Acceptable(cs, h)
    ensures A.GenerateKe3(cs, h.responder.publicKey, Ke2Wire(RelayKeysOf(cs, h).Message()), Ke1Of(cs, h).0, h.ke3At,
                          h.ke3At) == (s, Ok(RelayKeysOf(cs, h).keys.initiatorMac))
    ensures s.phase == A.Ke3Generated && s.exportKey == ExportKeyOf(cs, h)
    ensures s.sessionKey == RelayKeysOf(cs, h).keys.sessionKey
  {
    Ke1Succeeds(cs, h);
    Ke3CoreSucceeds(cs, h);
    AgentDerivesSameKeys(cs, h);
    A.GenerateKe3(cs, h.responder.publicKey, Ke2Wire(RelayKeysOf(cs, h).Message()), Ke1Of(cs, h).0, h.ke3At,
                  h.ke3At).0
  }

  /** What the two finish steps give after an honest login. */
  lemma HonestFinish(cs: Suite, h: Honest)
    requires cs.Valid() && Acceptable(cs, h)
    ensures var key := RelayKeysOf(cs, h).keys.sessionKey;
            var ke3 := Ke3Wire(RelayKeysOf(cs, h).keys.initiatorMac);
            var (b, relayOut) := R.ResponderFinish(ke3, Ke2Of(cs, h).0, h.finishedAt);
            var (a, agentOut) := A.InitiatorFinish(Ke3Of(cs, h));
            && (!AllZero(key) ==>
                  && relayOut == Ok(key) && b.handshakeComplete
                  && agentOut == Ok(A.AgentOutput(key, ExportKeyOf(cs, h)))
                  && b.phase == R.Finished && a.phase == A.Finished)
            && (AllZero(key) ==> relayOut == Err(ValidationError) && agentOut == Err(InvalidInput))
  {
    Ke2Succeeds(cs, h);
    Ke3RoundTrip(RelayKeysOf(cs, h).keys.initiatorMac, []);
  }

  /** The login goes through, message by message. */
  lemma Ke3Succeeds(cs: Suite, h: Honest)
    requires cs.Valid() && Acceptable(cs, h)
    ensures Login(cs, h, StoredCredentials(cs, h))
            == Ok(LoginEnd(Ke3Of(cs, h), Ke2Of(cs, h).0, Ke3Wire(RelayKeysOf(cs, h).keys.initiatorMac)))
    ensures var end := Login(cs, h, StoredCredentials(cs, h)).value;
            && end.agent.phase == A.Ke3Generated && end.agent.exportKey == ExportKeyOf(cs, h)
            && end.relay.phase == R.Ke2Generated && end.relay.createdAt == h.ke2At
            && end.agent.sessionKey == end.relay.sessionKey
            && |end.relay.expectedInitiatorMac| == MAC_LENGTH && end.ke3 == Ke3Wire(end.relay.expectedInitiatorMac)
  {
    Ke2Succeeds(cs, h);
  }

  /**
   End-to-end agreement. On every acceptable input the registration and the login go through and leave the
   same session key on both sides; if that key is not the zero string both sides finish with it (and the
   agent with its export key), and if it is, both sides refuse.
   */
  lemma EndToEndAgreement(cs: Suite, h: Honest)
    requires cs.Valid() && Acceptable(cs, h)
    ensures Register(cs, h).Ok? && Login(cs, h, Register(cs, h).value).Ok?
    ensures var end := Login(cs, h, Register(cs, h).value).value;
            var key := end.relay.sessionKey;
            var (b, relayOut) := R.ResponderFinish(end.ke3, end.relay, h.finishedAt);
            var (a, agentOut) := A.InitiatorFinish(end.agent);
            && end.agent.sessionKey == key
            && (!AllZero(key) ==>
                  && relayOut == Ok(key) && b.handshakeComplete
                  && agentOut == Ok(A.AgentOutput(key, ExportKeyOf(cs, h)))
                  && b.phase == R.Finished && a.phase == A.Finished)
            && (AllZero(key) ==> relayOut == Err(ValidationError) && agentOut == Err(InvalidInput))
  {
    RegistrationSucceeds(cs, h);
    Ke3Succeeds(cs, h);
    Ke2Succeeds(cs, h);
    HonestFinish(cs, h);
  }
}
