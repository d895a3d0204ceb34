/** The agent (initiator): its state and what every library step does to it. */
module Agent {
  import opened Types
  import opened Suites
  import opened Crypto
  import opened Oprf
  import opened Envelopes
  import opened PqKem
  import opened Wire
  import opened Schedule

  datatype Phase = Created | RegistrationRequested | RegistrationFinalized | Ke1Generated | Ke3Generated | Finished

  datatype AgentState = AgentState(
    phase: Phase,
    createdAt: nat,
    secureKey: Bytes,
    secureKeyLen: nat,
    privateKey: Bytes,
    publicKey: Bytes,
    ephemeralPrivateKey: Bytes,
    ephemeralPublicKey: Bytes,
    responderKey: Bytes,
    sessionKey: Bytes,
    blind: Bytes,
    nonce: Bytes,
    accountHash: Bytes,
    exportKey: Bytes,
    pqPublicKey: Bytes,
    pqSecretKey: Bytes,
    pqSharedSecret: Bytes)
  {
    /** The array sizes of the struct. */
    predicate WellFormed() {
      && |secureKey| == MAX_SECURE_KEY_LENGTH && secureKeyLen <= MAX_SECURE_KEY_LENGTH
      && |privateKey| == 32 && |publicKey| == 32 && |ephemeralPrivateKey| == 32 && |ephemeralPublicKey| == 32
      && |responderKey| == 32 && |sessionKey| == 64 && |blind| == 32 && |nonce| == 24 && |accountHash| == 64
      && |exportKey| == 32 && |pqPublicKey| == 1184 && |pqSecretKey| == 2400 && |pqSharedSecret| == 32
    }

    predicate Expired(now: nat) {
      !phase.Created? && !phase.RegistrationFinalized? && !phase.Finished? && LifetimeOver(createdAt, now)
    }

    function Password(): Bytes
      requires WellFormed()
    {
      secureKey[..secureKeyLen]
    }

    /** Zeroized and terminal. */
    function Invalidated(): AgentState {
      Blank(Finished, createdAt)
    }

    /** The password and its blind are gone. */
    function PasswordWiped(): AgentState {
      this.(secureKey := Zeros(MAX_SECURE_KEY_LENGTH), secureKeyLen := 0, blind := Zeros(32))
    }
  }

  function Blank(phase: Phase, createdAt: nat): (s: AgentState)
    ensures s.WellFormed()
  {
    AgentState(phase, createdAt, Zeros(4096), 0, Zeros(32), Zeros(32), Zeros(32), Zeros(32), Zeros(32), Zeros(64),
               Zeros(32), Zeros(24), Zeros(64), Zeros(32), Zeros(1184), Zeros(2400), Zeros(32))
  }

  /** The password in its zero-padded buffer. */
  function Padded(secureKey: Bytes): (b: Bytes)
    requires |secureKey| <= MAX_SECURE_KEY_LENGTH
    ensures |b| == MAX_SECURE_KEY_LENGTH && b[..|secureKey|] == secureKey
  {
    secureKey + Zeros(MAX_SECURE_KEY_LENGTH - |secureKey|)
  }

  // ---- Registration ----------------------------------------------------------------------------

  function CreateRegistrationRequest(
    cs: Suite, secureKey: Bytes, s: AgentState, keyDraws: Draws, blindDraws: Draws, now: nat, later: nat)
    : (r: (AgentState, Result<Bytes>))
    requires cs.Valid()
    ensures s.WellFormed() ==> r.0.WellFormed()
  {
    if secureKey == [] || |secureKey| > MAX_SECURE_KEY_LENGTH then (s, Err(InvalidInput))
    else if s.phase != Created then (s, Err(ValidationError))
    else if s.Expired(now) then (s.Invalidated(), Err(ValidationError))
    else match RandomNonzeroScalar(cs, keyDraws)
      case Err(e) => (s, Err(e))
      case Ok(privateKey) =>
        var s1 := s.(privateKey := privateKey);
        match ScalarMultBase(cs, privateKey)
        case Err(e) => (s1, Err(e))
        case Ok(publicKey) =>
          var s2 := s1.(publicKey := publicKey, secureKey := Padded(secureKey), secureKeyLen := |secureKey|);
          match BlindInto(cs, secureKey, blindDraws, s2)
          case (s3, Err(e)) => (s3, Err(e))
          case (s3, Ok(request)) => (s3.(createdAt := later, phase := RegistrationRequested), Ok(request))
  }

  /** Draws the blind into the state, then blinds the password with it. */
  function BlindInto(cs: Suite, secureKey: Bytes, draws: Draws, s: AgentState): (r: (AgentState, Result<Bytes>))
    requires cs.Valid()
    ensures s.WellFormed() ==> r.0.WellFormed()
  {
    match RandomNonzeroScalar(cs, draws)
    case Err(e) => (s, Err(e))
    case Ok(blind) => (s.(blind := blind), BlindWith(cs, secureKey, blind))
  }

  function FinalizeRegistration(
    cs: Suite, responderKey: Bytes, response: Bytes, s: AgentState, envelopeNonce: Bytes, now: nat)
    : (r: (AgentState, Result<RegistrationRecord>))
    requires cs.Valid() && s.WellFormed() && |envelopeNonce| == NONCE_LENGTH
    ensures r.0.WellFormed()
  {
    if |response| != REGISTRATION_RESPONSE_WIRE_LENGTH then (s, Err(InvalidProtocolMessage))
    else if s.phase != RegistrationRequested then (s, Err(ValidationError))
    else if s.Expired(now) then (s.Invalidated(), Err(ValidationError))
    else match ParseRegistrationResponse(response)
      case Err(e) => (s, Err(e))
      case Ok(m) =>
        if ValidatePublicKey(cs, m.responderPublicKey).Fail? then
          (s, Err(ValidatePublicKey(cs, m.responderPublicKey).error))
        else if m.responderPublicKey != responderKey then (s.Invalidated(), Err(AuthenticationError))
        else match ClientPasswordKey(cs, s.Password(), s.blind, m.evaluatedElement)
          case Err(e) => (s, Err(e))
          case Ok(randomizedPwd) =>
            SealRecord(cs, m.responderPublicKey, randomizedPwd, s.PasswordWiped(), envelopeNonce)
  }

  /** The part of finalization after the password has been wiped. */
  function SealRecord(cs: Suite, responderKey: Bytes, randomizedPwd: Bytes, s: AgentState, envelopeNonce: Bytes)
    : (r: (AgentState, Result<RegistrationRecord>))
    requires cs.Valid() && s.WellFormed() && |envelopeNonce| == NONCE_LENGTH && |responderKey| == PUBLIC_KEY_LENGTH
    ensures r.0.WellFormed()
  {
    match Seal(cs, randomizedPwd, Credentials(responderKey, s.privateKey, s.publicKey), envelopeNonce)
    case Err(e) => (s, Err(e))
    case Ok(envelope) =>
      var s1 := s.(responderKey := responderKey);
      match DeriveMaskingKey(cs, randomizedPwd)
      case Err(e) => (s1, Err(e))
      case Ok(maskingKey) =>
        (s1.(privateKey := Zeros(32), phase := RegistrationFinalized),
         Ok(RegistrationRecord(maskingKey, envelope.Serialized(), s.publicKey)))
  }

  // ---- Login -----------------------------------------------------------------------------------

  datatype Ke1Random = Ke1Random(ephemeral: Draws, kemCoins: Bytes, nonce: Bytes, blind: Draws) {
    predicate WellFormed() { |nonce| == NONCE_LENGTH }
  }

  function GenerateKe1(
    cs: Suite, secureKey: Bytes, accountId: Bytes, s: AgentState, rnd: Ke1Random, now: nat, later: nat)
    : (r: (AgentState, Result<Ke1>))
    requires cs.Valid()
    ensures s.WellFormed() && rnd.WellFormed() ==> r.0.WellFormed() && (r.1.Ok? ==> r.1.value.WellFormed())
  {
    if secureKey == [] || |secureKey| > MAX_SECURE_KEY_LENGTH then (s, Err(InvalidInput))
    else if accountId == [] then (s, Err(InvalidInput))
    else if s.phase != Created then (s, Err(ValidationError))
    else if s.Expired(now) then (s.Invalidated(), Err(ValidationError))
    else
      var s1 := s.(secureKey := Padded(secureKey), secureKeyLen := |secureKey|,
                   accountHash := AccountHash(cs, accountId));
      match RandomNonzeroScalar(cs, rnd.ephemeral)
      case Err(e) => (s1, Err(e))
      case Ok(ephemeral) =>
        var s2 := s1.(ephemeralPrivateKey := ephemeral);
        match ScalarMultBase(cs, ephemeral)
        case Err(e) => (s2, Err(e))
        case Ok(ephemeralPublic) =>
          var (pqPublic, pqSecret) := cs.kemKeygen(rnd.kemCoins);
          var s3 := s2.(ephemeralPublicKey := ephemeralPublic, pqPublicKey := pqPublic, pqSecretKey := pqSecret,
                        nonce := rnd.nonce);
          match BlindInto(cs, secureKey, rnd.blind, s3)
          case (s4, Err(e)) => (s4, Err(e))
          case (s4, Ok(request)) =>
            (s4.(createdAt := later, phase := Ke1Generated),
             Ok(Ke1(request, ephemeralPublic, rnd.nonce, pqPublic)))
  }

  /** What the agent recovers from a KE2 before any MAC is checked. */
  datatype Recovered = Recovered(randomizedPwd: Bytes, credentials: Credentials)

  function RecoverCredentials(cs: Suite, responderKey: Bytes, m: Ke2, s: AgentState): (r: Result<Recovered>)
    requires cs.Valid() && s.WellFormed() && m.WellFormed()
    ensures r.Ok? ==>
              && r.value.credentials.responderKey == responderKey
              && |r.value.credentials.responderKey| == 32 && |r.value.credentials.publicKey| == 32
              && IsKeyPair(cs, r.value.credentials.privateKey, r.value.credentials.publicKey)
              && |r.value.credentials.privateKey| == 32
  {
    var evaluated := m.credentialResponse[..PUBLIC_KEY_LENGTH];
    var masked := m.credentialResponse[PUBLIC_KEY_LENGTH..];
    var randomizedPwd :- ClientPasswordKey(cs, s.Password(), s.blind, evaluated);
    var maskingKey :- DeriveMaskingKey(cs, randomizedPwd);
    var envelope :- MaskEnvelope(cs, maskingKey, m.responderNonce, evaluated, s.accountHash, masked);
    var c :- OpenRaw(cs, Split(envelope), randomizedPwd, responderKey);
    if c.responderKey != responderKey then Err(AuthenticationError) else Ok(Recovered(randomizedPwd, c))
  }

  /** The agent's four Diffie-Hellman products. */
  function AgentIkm(cs: Suite, c: Credentials, ephemeral: Bytes, responderEphemeral: Bytes): Result<Bytes>
    requires cs.Valid()
  {
    var dh1 :- ScalarMult(cs, c.privateKey, c.responderKey);
    var dh2 :- ScalarMult(cs, ephemeral, c.responderKey);
    var dh3 :- ScalarMult(cs, c.privateKey, responderEphemeral);
    var dh4 :- ScalarMult(cs, ephemeral, responderEphemeral);
    Ok(dh1 + dh2 + dh3 + dh4)
  }

  /** The agent's view of the session. */
  function AgentSession(m: Ke2, c: Credentials, s: AgentState): Session {
    Session(s.ephemeralPublicKey, m.responderPublicKey, s.nonce, m.responderNonce, c.publicKey, c.responderKey,
            m.credentialResponse, s.pqPublicKey, m.kemCiphertext, s.accountHash)
  }

  datatype AgentKeys = AgentKeys(recovered: Recovered, session: Session, sharedSecret: Bytes, keys: Keys)

  /** Everything the agent derives from a KE2, up to but excluding the MAC check. */
  function AgentDerive(cs: Suite, responderKey: Bytes, m: Ke2, s: AgentState): (r: Result<AgentKeys>)
    requires cs.Valid() && s.WellFormed() && m.WellFormed()
    ensures r.Ok? ==> r.value.session.WellFormed() && r.value.keys.WellFormed() && |r.value.sharedSecret| == 32
  {
    var recovered :- RecoverCredentials(cs, responderKey, m, s);
    var ikm :- AgentIkm(cs, recovered.credentials, s.ephemeralPrivateKey, m.responderPublicKey);
    var sharedSecret :- Decapsulate(cs, s.pqSecretKey, m.kemCiphertext);
    var session := AgentSession(m, recovered.credentials, s);
    var keys :- DeriveKeys(cs, ikm, sharedSecret, session.Transcript());
    Ok(AgentKeys(recovered, session, sharedSecret, keys))
  }

  datatype Ke3Secrets = Ke3Secrets(derived: AgentKeys, exportKey: Bytes)

  /** The fallible core of KE3 generation: validation, derivation and the responder's MAC. */
  function Ke3Core(cs: Suite, responderKey: Bytes, ke2: Bytes, s: AgentState): (r: Result<Ke3Secrets>)
    requires cs.Valid() && s.WellFormed()
    ensures r.Ok? ==> |r.value.exportKey| == 32
    ensures r.Ok? ==> ParseKe2(ke2).Ok? && AgentDerive(cs, responderKey, ParseKe2(ke2).value, s) == Ok(r.value.derived)
                      && ParseKe2(ke2).value.responderMac == r.value.derived.keys.responderMac
  {
    var keyCheck := ValidatePublicKey(cs, responderKey);
    :- keyCheck;
    var m :- ParseKe2(ke2);
    :- ValidatePublicKey(cs, m.responderPublicKey);
    var derived :- AgentDerive(cs, responderKey, m, s);
    if m.responderMac != derived.keys.responderMac then Err(AuthenticationError) else
      var exportKey :- DeriveClientExportKey(cs, derived.recovered.randomizedPwd, s.accountHash);
      Ok(Ke3Secrets(derived, exportKey))
  }

  function GenerateKe3(cs: Suite, responderKey: Bytes, ke2: Bytes, s: AgentState, now: nat, later: nat)
    : (r: (AgentState, Result<Bytes>))
    requires cs.Valid() && s.WellFormed()
    ensures r.0.WellFormed() && (r.1.Ok? ==> |r.1.value| == MAC_LENGTH)
  {
    if |ke2| != KE2_LENGTH then (s, Err(InvalidProtocolMessage))
    else if s.phase != Ke1Generated then (s, Err(ValidationError))
    else if s.Expired(now) then (s.Invalidated(), Err(ValidationError))
    else if AllZero(s.accountHash) then (s, Err(ValidationError))
    else match Ke3Core(cs, responderKey, ke2, s)
      case Err(e) => (s.Invalidated(), Err(e))
      case Ok(k) => (Ke3State(s, k, later), Ok(k.derived.keys.initiatorMac))
  }

  /** The state once KE3 has been produced: password, blind and KEM key gone, session secrets in. */
  function Ke3State(s: AgentState, k: Ke3Secrets, later: nat): AgentState {
    s.PasswordWiped().(
    pqSecretKey := Zeros(2400), pqSharedSecret := k.derived.sharedSecret,
    responderKey := k.derived.recovered.credentials.responderKey,
    privateKey := k.derived.recovered.credentials.privateKey,
    publicKey := k.derived.recovered.credentials.publicKey,
    exportKey := k.exportKey, sessionKey := k.derived.keys.sessionKey,
    createdAt := later, phase := Ke3Generated)
  }

  datatype AgentOutput = AgentOutput(sessionKey: Bytes, exportKey: Bytes)

  function InitiatorFinish(s: AgentState): (r: (AgentState, Result<AgentOutput>))
    ensures s.WellFormed() ==> r.0.WellFormed()
  {
    if s.phase != Ke3Generated then (s, Err(ValidationError))
    else if AllZero(s.sessionKey) then (s.Invalidated(), Err(InvalidInput))
    else
      (s.PasswordWiped().(
       sessionKey := Zeros(64), exportKey := Zeros(32), pqSharedSecret := Zeros(32), pqSecretKey := Zeros(2400),
       accountHash := Zeros(64), privateKey := Zeros(32), ephemeralPrivateKey := Zeros(32), phase := Finished),
       Ok(AgentOutput(s.sessionKey, s.exportKey)))
  }
}
