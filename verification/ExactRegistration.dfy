/**
 The registration steps over message bytes and primitives: exactly when each succeeds, what it then produces, and
 what every refusal leaves behind.
 */
module ExactRegistration {
  import opened Types
  import opened PrimeField
  import opened Suites
  import opened Crypto
  import opened Oprf
  import opened Envelopes
  import opened Wire
  import opened Derivations
  import opened Agent
  import R = Relay

  /** The encoding of blind * H(password), the hash being the first-domain hash of the password. */
  function Blinded(cs: Suite, password: Bytes, blind: nat): Bytes
    requires cs.Valid()
  {
    var h := cs.uniformToPoint(cs.sha512(OPRF_CONTEXT + [0x00] + password));
    cs.pointBytes(MulMod(blind, h, cs.order))
  }

  lemma BlindForm(cs: Suite, password: Bytes, blind: Bytes)
    requires cs.Valid() && password != [] && IsScalar(cs, blind)
    ensures BlindWith(cs, password, blind)
            == if PasswordPoint(cs, password) == 0 then Err(CryptoError)
               else Ok(Blinded(cs, password, cs.scalarOf(blind).value))
  {
    var point := cs.pointBytes(PasswordPoint(cs, password));
    ScalarMultDefined(cs, blind, point);
    assert cs.pointOf(point) == Some(PasswordPoint(cs, password));
    if PasswordPoint(cs, password) != 0 {
      NoZeroDivisors(cs.scalarOf(blind).value, PasswordPoint(cs, password), cs.order);
    }
  }

  // ---- The request ---------------------------------------------------------------------------------

  /** Both scalars the request draws, when it draws them. */
  predicate DrawsOk(cs: Suite, keyDraws: Draws, blindDraws: Draws)
    requires cs.Valid()
  {
    RandomNonzeroScalar(cs, keyDraws).Ok? && RandomNonzeroScalar(cs, blindDraws).Ok?
  }

  lemma RequestRefusals(
    cs: Suite, password: Bytes, s: AgentState, keyDraws: Draws, blindDraws: Draws, now: nat, later: nat)
    requires cs.Valid()
    ensures var r := CreateRegistrationRequest(cs, password, s, keyDraws, blindDraws, now, later);
            && (|password| == 0 || |password| > 4096 ==> r == (s, Err(InvalidInput)))
            && (1 <= |password| <= 4096 && s.phase != Created ==> r == (s, Err(ValidationError)))
            && (r.1.Err? ==> r.0.phase == s.phase && r.0.createdAt == s.createdAt)
  {
  }

  /** The request succeeds exactly on a fresh state, a password in bounds, good draws and a non-identity hash. */
  lemma RequestIsExact(
    cs: Suite, password: Bytes, s: AgentState, keyDraws: Draws, blindDraws: Draws, now: nat, later: nat)
    requires cs.Valid()
    ensures var (t, r) := CreateRegistrationRequest(cs, password, s, keyDraws, blindDraws, now, later);
            && (r.Ok? <==> 1 <= |password| <= 4096 && s.phase == Created && DrawsOk(cs, keyDraws, blindDraws)
                           && PasswordPoint(cs, password) != 0)
            && (r.Ok? ==>
                  var key, blind := RandomNonzeroScalar(cs, keyDraws).value, RandomNonzeroScalar(cs, blindDraws).value;
                  && r.value == Blinded(cs, password, cs.scalarOf(blind).value)
                  && t == s.(privateKey := key, publicKey := cs.pointBytes(cs.scalarOf(key).value),
                             secureKey := Padded(password), secureKeyLen := |password|, blind := blind,
                             createdAt := later, phase := RegistrationRequested))
  {
    if 1 <= |password| <= 4096 && RandomNonzeroScalar(cs, blindDraws).Ok? {
      BlindForm(cs, password, RandomNonzeroScalar(cs, blindDraws).value);
    }
  }

  // ---- The response --------------------------------------------------------------------------------

  /** The relay answers exactly a well-formed request for a named account, with key * request and its public key. */
  lemma ResponseIsExact(cs: Suite, responder: R.Responder, request: Bytes, accountId: Bytes)
    requires cs.Valid()
    ensures var r := R.CreateRegistrationResponse(cs, responder, request, accountId);
            var key := DeriveOprfKey(cs, responder.oprfSeed, accountId);
            && (r.Ok? <==> |request| == 33 && request[0] == 2 && accountId != [] && IsPoint(cs, request[1..33])
                           && key.Ok?)
            && (r.Ok? ==>
                  && cs.scalarOf(key.value).Some?
                  && r.value.evaluatedElement
                     == cs.pointBytes(MulMod(cs.scalarOf(key.value).value, cs.pointOf(request[1..33]).value, cs.order))
                  && r.value.responderPublicKey == responder.publicKey)
  {
    Offsets(request);
    if |request| == 33 {
      ValidationAccepts(cs, request[1..33]);
      OprfKeyWellFormed(cs, responder.oprfSeed, accountId);
      var key := DeriveOprfKey(cs, responder.oprfSeed, accountId);
      if key.Ok? {
        ScalarMultDefined(cs, key.value, request[1..33]);
      }
    }
  }

  // ---- Finalization --------------------------------------------------------------------------------

  /** A state that may still finalize. */
  predicate Live(s: AgentState, now: nat) { s.phase == RegistrationRequested && !s.Expired(now) }

  /**
   Every refusal of finalization. The relay key in the response must be a point and must be the expected one; a
   different valid key is an authentication failure and ends the state, everything else before it leaves it alone.
   */
  lemma FinalizeRefusals(
    cs: Suite, expectedKey: Bytes, response: Bytes, s: AgentState, envelopeNonce: Bytes, now: nat)
    requires cs.Valid() && s.WellFormed() && |envelopeNonce| == NONCE_LENGTH
    ensures var r := FinalizeRegistration(cs, expectedKey, response, s, envelopeNonce, now);
            && (|response| != 65 ==> r == (s, Err(InvalidProtocolMessage)))
            && (|response| == 65 && s.phase != RegistrationRequested ==> r == (s, Err(ValidationError)))
            && (|response| == 65 && s.phase == RegistrationRequested && s.Expired(now) ==>
                  r == (s.Invalidated(), Err(ValidationError)))
            && (|response| == 65 && Live(s, now) ==>
                  && (response[0] != 2 ==> r == (s, Err(UnsupportedVersion)))
                  && (response[0] == 2 && !IsPoint(cs, response[33..65]) ==> r == (s, Err(InvalidPublicKey)))
                  && (response[0] == 2 && IsPoint(cs, response[33..65]) && response[33..65] != expectedKey ==>
                        r == (s.Invalidated(), Err(AuthenticationError))))
  {
    Offsets(response);
    Refusals(response);
    if |response| == 65 {
      ValidationAccepts(cs, response[33..65]);
      KeyErrorIsPublicKey(cs, response[33..65]);
    }
  }

  lemma KeyErrorIsPublicKey(cs: Suite, key: Bytes)
    ensures ValidatePublicKey(cs, key).Fail? ==> ValidatePublicKey(cs, key).error == InvalidPublicKey
  {
  }

  /** What the agent uploads for a randomized password: its masking key, the sealed keys and its public key. */
  function RecordFor(
    cs: Suite, randomizedPwd: Bytes, relayKey: Bytes, privateKey: Bytes, publicKey: Bytes, nonce: Bytes)
    : RegistrationRecord
    requires cs.Valid()
  {
    var boxKey := cs.hmac(cs.hmac(ENVELOPE_CONTEXT + relayKey, randomizedPwd), ENVELOPE_CONTEXT + [1])[..32];
    var sealed := cs.boxSeal(boxKey, nonce, relayKey + privateKey + publicKey);
    RegistrationRecord(
      cs.hmac(cs.hmac(MASKING_KEY_INFO, randomizedPwd), MASKING_KEY_INFO + [1])[..32],
      nonce + sealed[16..] + sealed[..16],
      publicKey)
  }

  lemma SealRecordForm(cs: Suite, relayKey: Bytes, randomizedPwd: Bytes, s: AgentState, nonce: Bytes)
    requires cs.Valid() && s.WellFormed() && |nonce| == NONCE_LENGTH && |relayKey| == 32 && randomizedPwd != []
    ensures SealRecord(cs, relayKey, randomizedPwd, s, nonce)
            == (s.(responderKey := relayKey, privateKey := Zeros(32), phase := RegistrationFinalized),
                Ok(RecordFor(cs, randomizedPwd, relayKey, s.privateKey, s.publicKey, nonce)))
  {
    EnvelopeKeyForm(cs, relayKey, randomizedPwd);
    MaskingKeyForm(cs, randomizedPwd);
  }

  /**
   Finalization succeeds exactly on a live state, a response under the expected relay key with a genuine evaluated
   element, and a password and blind still there. It then wipes password, blind and private key and yields the
   record sealed to that relay key.
   */
  lemma FinalizeIsExact(
    cs: Suite, expectedKey: Bytes, response: Bytes, s: AgentState, envelopeNonce: Bytes, now: nat)
    requires cs.Valid() && s.WellFormed() && |envelopeNonce| == NONCE_LENGTH
    ensures var (t, r) := FinalizeRegistration(cs, expectedKey, response, s, envelopeNonce, now);
            && (r.Ok? <==> |response| == 65 && Live(s, now) && response[0] == 2 && response[33..65] == expectedKey
                           && IsPoint(cs, response[33..65]) && IsPoint(cs, response[1..33]) && s.Password() != []
                           && IsScalar(cs, s.blind))
            && (r.Ok? ==>
                  var randomizedPwd := PasswordKeyForm(cs, s.Password(), cs.scalarOf(s.blind).value,
                                                       cs.pointOf(response[1..33]).value);
                  && r.value == RecordFor(cs, randomizedPwd, expectedKey, s.privateKey, s.publicKey, envelopeNonce)
                  && t == s.PasswordWiped().(responderKey := expectedKey, privateKey := Zeros(32),
                                             phase := RegistrationFinalized))
            && (r.Err? && |response| == 65 && response[0] == 2 && Live(s, now) && response[33..65] == expectedKey ==>
                  t == s)
  {
    FinalizeRefusals(cs, expectedKey, response, s, envelopeNonce, now);
    Offsets(response);
    if |response| == 65 && response[0] == 2 && Live(s, now) && response[33..65] == expectedKey {
      ValidationAccepts(cs, response[33..65]);
      ClientPasswordKeyForm(cs, s.Password(), s.blind, response[1..33]);
      var k := ClientPasswordKey(cs, s.Password(), s.blind, response[1..33]);
      if k.Ok? {
        SealRecordForm(cs, expectedKey, k.value, s.PasswordWiped(), envelopeNonce);
      }
    }
  }

  // ---- Storing the record --------------------------------------------------------------------------

  /** An account is registered once, from a well-formed record with a genuine public key, field by field. */
  lemma BuildIsExact(cs: Suite, record: Bytes, c: R.ResponderCredentials)
    requires cs.Valid()
    ensures var r := R.BuildCredentials(cs, record, c);
            && (r.Ok? <==> !c.registered && |record| == 201 && record[0] == 2 && IsPoint(cs, record[169..201]))
            && (r.Ok? ==> r.value == R.ResponderCredentials(record[33..169], record[1..33], record[169..201], true))
            && (c.registered ==> r == Err(AlreadyRegistered))
            && (!c.registered && |record| != 201 ==> r == Err(InvalidProtocolMessage))
            && (!c.registered && |record| == 201 && record[0] != 2 ==> r == Err(UnsupportedVersion))
            && (!c.registered && |record| == 201 && record[0] == 2 && !IsPoint(cs, record[169..201]) ==>
                  r == Err(InvalidPublicKey))
  {
    Offsets(record);
    Refusals(record);
    if |record| == 201 {
      ValidationAccepts(cs, record[169..201]);
      KeyErrorIsPublicKey(cs, record[169..201]);
    }
  }

  /** Registering twice changes nothing: after a first record every further one is refused. */
  lemma FirstRecordStays(cs: Suite, record: Bytes, second: Bytes, c: R.ResponderCredentials)
    requires cs.Valid() && R.BuildCredentials(cs, record, c).Ok?
    ensures R.BuildCredentials(cs, second, R.BuildCredentials(cs, record, c).value) == Err(AlreadyRegistered)
  {
    BuildIsExact(cs, record, c);
    BuildIsExact(cs, second, R.BuildCredentials(cs, record, c).value);
  }
}
