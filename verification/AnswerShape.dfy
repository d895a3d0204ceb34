/** A relay's answer has the same outcome for a registered account as for an unknown one. */
module AnswerShape {
  import opened Types
  import opened Suites
  import opened Crypto
  import opened Oprf
  import opened Wire
  import opened Relay

  /** Credentials a registration can leave behind. */
  predicate WellFormedCredentials(cs: Suite, c: ResponderCredentials) {
    && c.registered && |c.envelope| == ENVELOPE_LENGTH && !AllZero(c.maskingKey)
    && IsPoint(cs, c.initiatorPublicKey) && |c.initiatorPublicKey| == PUBLIC_KEY_LENGTH
  }

  /** Two results that look alike from outside: both succeed, or both fail with the same error. */
  predicate SameOutcome<T, U>(r: Result<T>, s: Result<U>) {
    (r.Ok? <==> s.Ok?) && (r.Err? && s.Err? ==> r.error == s.error)
  }

  /** The stand-in key is a genuine public key. */
  lemma FakeKeyIsPoint(cs: Suite, oprfSeed: Bytes, accountId: Bytes)
    requires cs.Valid()
    ensures var f := FakeSelection(cs, oprfSeed, accountId);
            f.Ok? ==> IsPoint(cs, f.value.publicKey)
  {
    var scalar := cs.wideToScalar(cs.sha512(DERIVE_KEYPAIR_CONTEXT + FakeMaterial(cs, oprfSeed, accountId)));
    ZeroEncoding(cs, scalar);
  }

  /**
   A registered account is answered from its stored triple; an unknown one from a triple that depends on the
   relay seed and the account id only, whatever else the credential record holds.
   */
  lemma SelectionByRegistration(cs: Suite, oprfSeed: Bytes, accountId: Bytes, c: ResponderCredentials)
    requires cs.Valid()
    ensures !c.registered ==>
              SelectCredentials(cs, oprfSeed, accountId, c) == FakeSelection(cs, oprfSeed, accountId)
    ensures WellFormedCredentials(cs, c) && FakeSelection(cs, oprfSeed, accountId).Ok? ==>
              SelectCredentials(cs, oprfSeed, accountId, c)
              == Ok(Selected(c.initiatorPublicKey, c.envelope, c.maskingKey))
  {
    ValidationAccepts(cs, c.initiatorPublicKey);
  }

  lemma AdmissionAlike(
    cs: Suite, responder: Responder, ke1: Bytes, accountId: Bytes, c: ResponderCredentials, u: ResponderCredentials)
    requires cs.Valid() && WellFormedCredentials(cs, c) && !u.registered
    ensures var r, f := AdmitKe1(cs, responder, ke1, accountId, c), AdmitKe1(cs, responder, ke1, accountId, u);
            && SameOutcome(r, f)
            && (r.Ok? ==>
                  && r.value.0 == f.value.0 && IsPoint(cs, r.value.0.initiatorPublicKey)
                  && r.value.1 == Selected(c.initiatorPublicKey, c.envelope, c.maskingKey)
                  && FakeSelection(cs, responder.oprfSeed, accountId) == Ok(f.value.1)
                  && IsPoint(cs, f.value.1.publicKey))
  {
    SelectionByRegistration(cs, responder.oprfSeed, accountId, c);
    SelectionByRegistration(cs, responder.oprfSeed, accountId, u);
    FakeKeyIsPoint(cs, responder.oprfSeed, accountId);
    ValidationAccepts(cs, c.initiatorPublicKey);
    if FakeSelection(cs, responder.oprfSeed, accountId).Ok? {
      ValidationAccepts(cs, FakeSelection(cs, responder.oprfSeed, accountId).value.publicKey);
    }
    if ParseKe1(ke1).Ok? {
      ValidationAccepts(cs, ParseKe1(ke1).value.initiatorPublicKey);
    }
  }

  /** For genuine points the relay's 4DH fails on a bad static key only. */
  lemma RelayIkmDefined(cs: Suite, privateKey: Bytes, ephemeral: Bytes, key: Bytes, initiatorEphemeral: Bytes)
    requires cs.Valid() && IsScalar(cs, ephemeral) && IsPoint(cs, key) && IsPoint(cs, initiatorEphemeral)
    ensures var r := RelayIkm(cs, privateKey, ephemeral, key, initiatorEphemeral);
            && (r.Ok? <==> IsScalar(cs, privateKey))
            && (r.Err? ==> r.error == CryptoError)
  {
    ScalarMultDefined(cs, privateKey, key);
    ScalarMultDefined(cs, privateKey, initiatorEphemeral);
    ScalarMultDefined(cs, ephemeral, key);
    ScalarMultDefined(cs, ephemeral, initiatorEphemeral);
  }

  predicate Selectable(cs: Suite, s: Selected) {
    IsPoint(cs, s.publicKey) && |s.publicKey| == 32 && |s.envelope| == 136 && !AllZero(s.maskingKey)
  }

  lemma RespondAlike(
    cs: Suite, responder: Responder, m: Ke1, s: Selected, f: Selected, accountId: Bytes, ephemeral: Bytes,
    nonce: Bytes)
    requires cs.Valid() && Selectable(cs, s) && Selectable(cs, f)
    requires IsPoint(cs, m.initiatorPublicKey) && IsScalar(cs, ephemeral)
    ensures SameOutcome(Respond(cs, responder, m, s, accountId, ephemeral, nonce),
                        Respond(cs, responder, m, f, accountId, ephemeral, nonce))
  {
    var evaluated := EvaluateOprf(cs, responder.oprfSeed, m.credentialRequest, accountId);
    if evaluated.Ok? {
      MaskingIsAnInvolution(cs, s.maskingKey, nonce, evaluated.value, AccountHash(cs, accountId), s.envelope);
      MaskingIsAnInvolution(cs, f.maskingKey, nonce, evaluated.value, AccountHash(cs, accountId), f.envelope);
    }
    RelayIkmDefined(cs, responder.privateKey, ephemeral, s.publicKey, m.initiatorPublicKey);
    RelayIkmDefined(cs, responder.privateKey, ephemeral, f.publicKey, m.initiatorPublicKey);
  }

  lemma DerivationAlike(
    cs: Suite, responder: Responder, m: Ke1, s: Selected, f: Selected, accountId: Bytes, rnd: Ke2Random,
    ephemeral: Bytes, ephemeralPublic: Bytes)
    requires cs.Valid() && responder.WellFormed() && m.WellFormed() && rnd.WellFormed() && |ephemeralPublic| == 32
    requires Selectable(cs, s) && Selectable(cs, f) && IsPoint(cs, m.initiatorPublicKey) && IsScalar(cs, ephemeral)
    ensures SameOutcome(RelayDerive(cs, responder, m, s, accountId, rnd, ephemeral, ephemeralPublic),
                        RelayDerive(cs, responder, m, f, accountId, rnd, ephemeral, ephemeralPublic))
  {
    RespondAlike(cs, responder, m, s, f, accountId, ephemeral, rnd.nonce);
  }

  lemma DeriveIntoAlike(
    cs: Suite, responder: Responder, m: Ke1, sel: Selected, f: Selected, accountId: Bytes, rnd: Ke2Random,
    s: RelayState)
    requires cs.Valid() && responder.WellFormed() && m.WellFormed() && rnd.WellFormed()
    requires Selectable(cs, sel) && Selectable(cs, f) && IsPoint(cs, m.initiatorPublicKey)
    ensures var (t, r) := DeriveInto(cs, responder, m, sel, accountId, rnd, s);
            var (v, g) := DeriveInto(cs, responder, m, f, accountId, rnd, s);
            SameOutcome(r, g) && t.phase == v.phase == s.phase && t.createdAt == v.createdAt
  {
    var drawn := RandomNonzeroScalar(cs, rnd.ephemeral);
    if drawn.Ok? {
      DerivationAlike(cs, responder, m, sel, f, accountId, rnd, drawn.value, ScalarMultBase(cs, drawn.value).value);
    }
  }

  /**
   For one KE1, account id and randomness, a registered and an unknown account get the same result code, the
   same resulting phase and messages of the same shape, provided the stand-in masking key is not zero.
   */
  lemma SameAnswerShape(
    cs: Suite, responder: Responder, ke1: Bytes, accountId: Bytes, c: ResponderCredentials, u: ResponderCredentials,
    s: RelayState, rnd: Ke2Random, now: nat, later: nat)
    requires cs.Valid() && responder.WellFormed() && rnd.WellFormed()
    requires WellFormedCredentials(cs, c) && !u.registered
    requires FakeSelection(cs, responder.oprfSeed, accountId).Ok? ==>
               !AllZero(FakeSelection(cs, responder.oprfSeed, accountId).value.maskingKey)
    ensures var (t, r) := GenerateKe2(cs, responder, ke1, accountId, c, s, rnd, now, later);
            var (v, f) := GenerateKe2(cs, responder, ke1, accountId, u, s, rnd, now, later);
            && SameOutcome(r, f) && t.phase == v.phase && t.createdAt == v.createdAt
            && (r.Ok? ==> r.value.Message().WellFormed() && f.value.Message().WellFormed())
  {
    AdmissionAlike(cs, responder, ke1, accountId, c, u);
    var admitted, stood := AdmitKe1(cs, responder, ke1, accountId, c), AdmitKe1(cs, responder, ke1, accountId, u);
    if admitted.Ok? {
      DeriveIntoAlike(cs, responder, admitted.value.0, admitted.value.1, stood.value.1, accountId, rnd, s);
    }
  }

  lemma ZeroMaskingKeyFails(
    cs: Suite, responder: Responder, m: Ke1, sel: Selected, accountId: Bytes, rnd: Ke2Random, s: RelayState)
    requires cs.Valid() && responder.WellFormed() && m.WellFormed() && rnd.WellFormed()
    requires |sel.publicKey| == 32 && |sel.envelope| == 136 && AllZero(sel.maskingKey)
    ensures DeriveInto(cs, responder, m, sel, accountId, rnd, s).1.Err?
  {
    var drawn := RandomNonzeroScalar(cs, rnd.ephemeral);
    if drawn.Ok? {
      assert Respond(cs, responder, m, sel, accountId, drawn.value, rnd.nonce).Err?;
    }
  }

  /** The condition is needed: a zero stand-in masking key makes every answer for an unknown account fail. */
  lemma ZeroStandInFails(
    cs: Suite, responder: Responder, ke1: Bytes, accountId: Bytes, u: ResponderCredentials, s: RelayState,
    rnd: Ke2Random, now: nat, later: nat)
    requires cs.Valid() && responder.WellFormed() && rnd.WellFormed() && !u.registered
    requires FakeSelection(cs, responder.oprfSeed, accountId).Ok?
    requires AllZero(FakeSelection(cs, responder.oprfSeed, accountId).value.maskingKey)
    ensures GenerateKe2(cs, responder, ke1, accountId, u, s, rnd, now, later).1.Err?
  {
    SelectionByRegistration(cs, responder.oprfSeed, accountId, u);
    var admitted := AdmitKe1(cs, responder, ke1, accountId, u);
    if admitted.Ok? {
      ZeroMaskingKeyFails(cs, responder, admitted.value.0, admitted.value.1, accountId, rnd, s);
    }
  }

  /** Where a registered account is answered, an unknown one is if and only if its stand-in masking key is not zero. */
  lemma AnswersAreAlikeExactly(
    cs: Suite, responder: Responder, ke1: Bytes, accountId: Bytes, c: ResponderCredentials, u: ResponderCredentials,
    s: RelayState, rnd: Ke2Random, now: nat, later: nat)
    requires cs.Valid() && responder.WellFormed() && rnd.WellFormed()
    requires WellFormedCredentials(cs, c) && !u.registered
    requires GenerateKe2(cs, responder, ke1, accountId, c, s, rnd, now, later).1.Ok?
    ensures var fake := FakeSelection(cs, responder.oprfSeed, accountId);
            && fake.Ok?
            && (GenerateKe2(cs, responder, ke1, accountId, u, s, rnd, now, later).1.Ok?
                <==> !AllZero(fake.value.maskingKey))
  {
    if AllZero(FakeSelection(cs, responder.oprfSeed, accountId).value.maskingKey) {
      ZeroStandInFails(cs, responder, ke1, accountId, u, s, rnd, now, later);
    } else {
      SameAnswerShape(cs, responder, ke1, accountId, c, u, s, rnd, now, later);
    }
  }
}
