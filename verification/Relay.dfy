/** The relay (responder): credentials, its state, and what every library step does to it. */
module Relay {
  import opened Types
  import opened Suites
  import opened Kdf
  import opened Crypto
  import opened Oprf
  import opened PqKem
  import opened Wire
  import opened Schedule

  datatype Phase = Created | Ke2Generated | Finished

  /** The relay's static key pair and the seed of its in-memory OPRF evaluator. */
  datatype Responder = Responder(privateKey: Bytes, publicKey: Bytes, oprfSeed: Bytes) {
    predicate WellFormed() { |privateKey| == 32 && |publicKey| == 32 && |oprfSeed| == 32 }
  }

  /** Restoring a relay from stored keys: the public key must belong to the private one. */
  function FromKeys(cs: Suite, privateKey: Bytes, publicKey: Bytes, oprfSeed: Bytes): (r: Result<Responder>)
    requires cs.Valid() && |oprfSeed| == OPRF_SEED_LENGTH
    ensures r.Ok? ==> r.value == Responder(privateKey, publicKey, oprfSeed) && r.value.WellFormed()
  {
    if |privateKey| != PRIVATE_KEY_LENGTH || |publicKey| != PUBLIC_KEY_LENGTH then Err(InvalidInput) else
      :- ValidatePublicKey(cs, publicKey);
      var derived :- ScalarMultBase(cs, privateKey);
      if publicKey != derived then Err(InvalidPublicKey)
      else if AllZero(oprfSeed) then Err(InvalidInput)
      else Ok(Responder(privateKey, publicKey, oprfSeed))
  }

  /** It succeeds exactly on a key pair and a non-zero seed. */
  lemma FromKeysAccepts(cs: Suite, privateKey: Bytes, publicKey: Bytes, oprfSeed: Bytes)
    requires cs.Valid() && |oprfSeed| == OPRF_SEED_LENGTH
    ensures FromKeys(cs, privateKey, publicKey, oprfSeed).Ok?
            <==> IsKeyPair(cs, privateKey, publicKey) && !AllZero(oprfSeed)
  {
    ScalarMultBaseDefined(cs, privateKey);
    ValidationAccepts(cs, publicKey);
  }

  datatype ResponderCredentials = ResponderCredentials(
    envelope: Bytes, maskingKey: Bytes, initiatorPublicKey: Bytes, registered: bool)

  function NewCredentials(): ResponderCredentials {
    ResponderCredentials(Zeros(ENVELOPE_LENGTH), Zeros(MASKING_KEY_LENGTH), Zeros(PUBLIC_KEY_LENGTH), false)
  }

  // ---- Registration ----------------------------------------------------------------------------

  function CreateRegistrationResponse(cs: Suite, responder: Responder, request: Bytes, accountId: Bytes)
    : Result<RegistrationResponse>
    requires cs.Valid()
  {
    var payload :- ParseRegistrationRequest(request);
    if accountId == [] then Err(InvalidInput) else
      :- ValidateRistrettoPoint(cs, payload);
      var evaluated :- EvaluateOprf(cs, responder.oprfSeed, payload, accountId);
      Ok(RegistrationResponse(evaluated, responder.publicKey))
  }

  function BuildCredentials(cs: Suite, record: Bytes, credentials: ResponderCredentials): Result<ResponderCredentials> {
    if credentials.registered then Err(AlreadyRegistered) else
      var view :- ParseRegistrationRecord(record);
      :- ValidatePublicKey(cs, view.initiatorPublicKey);
      Ok(ResponderCredentials(view.envelope, view.maskingKey, view.initiatorPublicKey, true))
  }

  // ---- Login -----------------------------------------------------------------------------------

  datatype RelayState = RelayState(
    phase: Phase,
    createdAt: nat,
    responderPrivateKey: Bytes,
    responderPublicKey: Bytes,
    ephemeralPrivateKey: Bytes,
    ephemeralPublicKey: Bytes,
    initiatorPublicKey: Bytes,
    sessionKey: Bytes,
    expectedInitiatorMac: Bytes,
    handshakeComplete: bool,
    pqSharedSecret: Bytes)
  {
    predicate WellFormed() {
      && |responderPrivateKey| == 32 && |responderPublicKey| == 32 && |ephemeralPrivateKey| == 32
      && |ephemeralPublicKey| == 32 && |initiatorPublicKey| == 32 && |sessionKey| == 64
      && |expectedInitiatorMac| == 64 && |pqSharedSecret| == 32
    }

    predicate Expired(now: nat) {
      phase.Ke2Generated? && LifetimeOver(createdAt, now)
    }

    function Invalidated(): RelayState {
      Blank(Finished, createdAt)
    }

    /** The wiping common to every exit of the finish step. */
    function Closed(complete: bool): RelayState {
      this.(sessionKey := Zeros(64), pqSharedSecret := Zeros(32), expectedInitiatorMac := Zeros(64),
      ephemeralPrivateKey := Zeros(32), responderPrivateKey := Zeros(32), handshakeComplete := complete,
      phase := Finished)
    }
  }

  function Blank(phase: Phase, createdAt: nat): (s: RelayState)
    ensures s.WellFormed()
  {
    RelayState(phase, createdAt, Zeros(32), Zeros(32), Zeros(32), Zeros(32), Zeros(32), Zeros(64), Zeros(64), false,
               Zeros(32))
  }

  datatype Selected = Selected(publicKey: Bytes, envelope: Bytes, maskingKey: Bytes)

  /** The deterministic stand-in for an unknown account. */
  function FakeSelection(cs: Suite, oprfSeed: Bytes, accountId: Bytes): (r: Result<Selected>)
    requires cs.Valid()
    ensures r.Ok? ==> |r.value.publicKey| == 32 && |r.value.envelope| == 136 && |r.value.maskingKey| == 32
  {
    var material := FakeMaterial(cs, oprfSeed, accountId);
    var keyPair :- DeriveKeyPair(cs, material);
    var envelope :- Expand(cs, material, FAKE_CREDENTIALS_CONTEXT, ENVELOPE_LENGTH);
    var maskingKey :- DeriveMaskingKey(cs, material);
    Ok(Selected(keyPair.1, envelope, maskingKey))
  }

  /** The stored triple when registered, the stand-in otherwise; the stand-in is derived either way. */
  function SelectCredentials(cs: Suite, oprfSeed: Bytes, accountId: Bytes, c: ResponderCredentials)
    : (r: Result<Selected>)
    requires cs.Valid()
    ensures r.Ok? ==> |r.value.publicKey| == 32 && |r.value.envelope| == 136
  {
    var fake :- FakeSelection(cs, oprfSeed, accountId);
    if !c.registered then Ok(fake)
    else if |c.envelope| != ENVELOPE_LENGTH || AllZero(c.maskingKey) then Err(ValidationError)
    else
      :- ValidatePublicKey(cs, c.initiatorPublicKey);
      Ok(Selected(c.initiatorPublicKey, c.envelope, c.maskingKey))
  }

  datatype Ke2Random = Ke2Random(ephemeral: Draws, nonce: Bytes, kemCoins: Bytes) {
    predicate WellFormed() { |nonce| == NONCE_LENGTH }
  }

  /** The relay's four Diffie-Hellman products. */
  function RelayIkm(cs: Suite, privateKey: Bytes, ephemeral: Bytes, initiatorKey: Bytes, initiatorEphemeral: Bytes)
    : Result<Bytes>
    requires cs.Valid()
  {
    var dh1 :- ScalarMult(cs, privateKey, initiatorKey);
    var dh2 :- ScalarMult(cs, privateKey, initiatorEphemeral);
    var dh3 :- ScalarMult(cs, ephemeral, initiatorKey);
    var dh4 :- ScalarMult(cs, ephemeral, initiatorEphemeral);
    Ok(dh1 + dh2 + dh3 + dh4)
  }

  /** Everything checked before the relay touches its state. */
  function AdmitKe1(cs: Suite, responder: Responder, ke1: Bytes, accountId: Bytes, c: ResponderCredentials)
    : (r: Result<(Ke1, Selected)>)
    requires cs.Valid()
    ensures r.Ok? ==> r.value.0.WellFormed() && |r.value.1.publicKey| == 32 && |r.value.1.envelope| == 136
  {
    var m :- ParseKe1(ke1);
    var selected :- SelectCredentials(cs, responder.oprfSeed, accountId, c);
    :- ValidateRistrettoPoint(cs, m.credentialRequest);
    :- ValidatePublicKey(cs, m.initiatorPublicKey);
    :- ValidatePublicKey(cs, selected.publicKey);
    Ok((m, selected))
  }

  /** The evaluated element and the masked envelope, followed by the 4DH input. */
  function Respond(
    cs: Suite, responder: Responder, m: Ke1, selected: Selected, accountId: Bytes, ephemeral: Bytes, nonce: Bytes)
    : (r: Result<(Bytes, Bytes)>)
    requires cs.Valid() && |selected.envelope| == 136
    ensures r.Ok? ==> |r.value.0| == 168 && |r.value.1| == CLASSICAL_IKM_LENGTH
  {
    var evaluated :- EvaluateOprf(cs, responder.oprfSeed, m.credentialRequest, accountId);
    var accountHash := AccountHash(cs, accountId);
    var masked :- MaskEnvelope(cs, selected.maskingKey, nonce, evaluated, accountHash, selected.envelope);
    var ikm :- RelayIkm(cs, responder.privateKey, ephemeral, selected.publicKey, m.initiatorPublicKey);
    Ok((evaluated + masked, ikm))
  }

  /** The relay's view of the session. */
  function RelaySession(
    responder: Responder, m: Ke1, selected: Selected, ephemeralPublic: Bytes, nonce: Bytes, credentialResponse: Bytes,
    kemCiphertext: Bytes, accountHash: Bytes): Session
  {
    Session(m.initiatorPublicKey, ephemeralPublic, m.initiatorNonce, nonce, selected.publicKey, responder.publicKey,
            credentialResponse, m.pqPublicKey, kemCiphertext, accountHash)
  }

  datatype RelayKeys = RelayKeys(
    ephemeral: Bytes, ephemeralPublic: Bytes, session: Session, sharedSecret: Bytes, keys: Keys)
  {
    function Message(): Ke2 {
      Ke2(session.responderNonce, ephemeralPublic, session.credentialResponse, keys.responderMac,
          session.kemCiphertext)
    }
  }

  /** The relay's derivation for a drawn ephemeral key. The key schedule itself cannot fail. */
  function RelayDerive(
    cs: Suite, responder: Responder, m: Ke1, selected: Selected, accountId: Bytes, rnd: Ke2Random, ephemeral: Bytes,
    ephemeralPublic: Bytes): (r: Result<RelayKeys>)
    requires cs.Valid() && responder.WellFormed() && m.WellFormed() && rnd.WellFormed()
    requires |selected.publicKey| == 32 && |selected.envelope| == 136 && |ephemeralPublic| == 32
    ensures r.Ok? ==> r.value.session.WellFormed() && r.value.keys.WellFormed() && |r.value.sharedSecret| == 32
    ensures r.Ok? ==> r.value.ephemeral == ephemeral && r.value.ephemeralPublic == ephemeralPublic
  {
    var response :- Respond(cs, responder, m, selected, accountId, ephemeral, rnd.nonce);
    var kem :- Encapsulate(cs, m.pqPublicKey, rnd.kemCoins);
    var session := RelaySession(responder, m, selected, ephemeralPublic, rnd.nonce, response.0, kem.0,
                                AccountHash(cs, accountId));
    var keys := DeriveKeys(cs, response.1, kem.1, session.Transcript()).value;
    Ok(RelayKeys(ephemeral, ephemeralPublic, session, kem.1, keys))
  }

  /** The derivation together with the state fields already written at each exit. */
  function DeriveInto(
    cs: Suite, responder: Responder, m: Ke1, selected: Selected, accountId: Bytes, rnd: Ke2Random, s: RelayState)
    : (r: (RelayState, Result<RelayKeys>))
    requires cs.Valid() && responder.WellFormed() && m.WellFormed() && rnd.WellFormed()
    requires |selected.publicKey| == 32 && |selected.envelope| == 136
    ensures s.WellFormed() ==> r.0.WellFormed()
    ensures r.1.Ok? ==> r.1.value.Message().WellFormed()
  {
    var s1 := s.(initiatorPublicKey := m.initiatorPublicKey, responderPrivateKey := responder.privateKey,
                 responderPublicKey := responder.publicKey, handshakeComplete := false);
    match RandomNonzeroScalar(cs, rnd.ephemeral)
    case Err(e) => (s1, Err(e))
    case Ok(ephemeral) =>
      var s2 := s1.(ephemeralPrivateKey := ephemeral);
      match ScalarMultBase(cs, ephemeral)
      case Err(e) => (s2, Err(e))
      case Ok(ephemeralPublic) =>
        var s3 := s2.(ephemeralPublicKey := ephemeralPublic);
        match RelayDerive(cs, responder, m, selected, accountId, rnd, ephemeral, ephemeralPublic)
        case Err(e) => (s3, Err(e))
        case Ok(k) =>
          (s3.(pqSharedSecret := k.sharedSecret, sessionKey := k.keys.sessionKey,
           expectedInitiatorMac := k.keys.initiatorMac), Ok(k))
  }

  function GenerateKe2(
    cs: Suite, responder: Responder, ke1: Bytes, accountId: Bytes, c: ResponderCredentials, s: RelayState,
    rnd: Ke2Random, now: nat, later: nat): (r: (RelayState, Result<RelayKeys>))
    requires cs.Valid() && responder.WellFormed() && rnd.WellFormed()
    ensures s.WellFormed() ==> r.0.WellFormed()
    ensures r.1.Ok? ==> r.1.value.Message().WellFormed()
  {
    if |ke1| != KE1_LENGTH then (s, Err(InvalidProtocolMessage))
    else if s.phase != Created then (s, Err(ValidationError))
    else if s.Expired(now) then (s.Invalidated(), Err(ValidationError))
    else if accountId == [] then (s, Err(InvalidInput))
    else match AdmitKe1(cs, responder, ke1, accountId, c)
      case Err(e) => (s, Err(e))
      case Ok((m, selected)) =>
        match DeriveInto(cs, responder, m, selected, accountId, rnd, s)
        case (s1, Err(e)) => (s1, Err(e))
        case (s1, Ok(k)) => (s1.(createdAt := later, phase := Ke2Generated), Ok(k))
  }

  function ResponderFinish(ke3: Bytes, s: RelayState, now: nat): (r: (RelayState, Result<Bytes>))
    ensures s.WellFormed() ==> r.0.WellFormed()
  {
    if |ke3| != KE3_LENGTH then (s, Err(InvalidProtocolMessage))
    else if s.phase != Ke2Generated then (s, Err(ValidationError))
    else if s.Expired(now) then (s.Invalidated(), Err(ValidationError))
    else if AllZero(s.sessionKey) then (s, Err(ValidationError))
    else match ParseKe3(ke3)
      case Err(e) => (s.Closed(false), Err(e))
      case Ok(mac) =>
        if mac != s.expectedInitiatorMac then (s.Closed(false), Err(AuthenticationError))
        else (s.Closed(true), Ok(s.sessionKey))
  }
}
