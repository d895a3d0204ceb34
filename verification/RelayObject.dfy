/** The relay state as an object updated in place, one method per library step. */
module RelayObject {
  import opened Types
  import opened ByteOps
  import opened Suites
  import opened Kdf
  import opened Crypto
  import opened Oprf
  import opened PqKem
  import opened Wire
  import opened Schedule
  import R = Relay

  // ---- Steps that touch no state -------------------------------------------------------------------

  /** The stand-in for an unknown account, its envelope expanded into a buffer. */
  method FakeSelection(cs: Suite, oprfSeed: Bytes, accountId: Bytes) returns (r: Result<R.Selected>)
    requires cs.Valid()
    ensures r == R.FakeSelection(cs, oprfSeed, accountId)
  {
    var material := FakeMaterial(cs, oprfSeed, accountId);
    var keyPair := DeriveKeyPair(cs, material);
    if keyPair.Err? {
      return Err(keyPair.error);
    }
    var envelope := new byte[ENVELOPE_LENGTH];
    var expanded := KeyDerivationExpand(cs, material, FAKE_CREDENTIALS_CONTEXT, envelope);
    match DeriveMaskingKey(cs, material)
    case Err(e) => return Err(e);
    case Ok(maskingKey) => r := Ok(R.Selected(keyPair.value.1, envelope[..], maskingKey));
  }

  /** Three branch-free selections between the stored triple and the stand-in. */
  method SelectCredentials(cs: Suite, oprfSeed: Bytes, accountId: Bytes, c: R.ResponderCredentials)
    returns (r: Result<R.Selected>)
    requires cs.Valid() && |c.maskingKey| == MASKING_KEY_LENGTH && |c.initiatorPublicKey| == PUBLIC_KEY_LENGTH
    ensures r == R.SelectCredentials(cs, oprfSeed, accountId, c)
  {
    var fake := FakeSelection(cs, oprfSeed, accountId);
    if fake.Err? {
      return Err(fake.error);
    }
    var stored := R.Selected(Zeros(PUBLIC_KEY_LENGTH), Zeros(ENVELOPE_LENGTH), Zeros(MASKING_KEY_LENGTH));
    if c.registered {
      var zero := IsAllZero(c.maskingKey);
      if |c.envelope| != ENVELOPE_LENGTH || zero {
        return Err(ValidationError);
      }
      var valid := ValidatePublicKey(cs, c.initiatorPublicKey);
      if valid.Fail? {
        return Err(valid.error);
      }
      stored := R.Selected(c.initiatorPublicKey, c.envelope, c.maskingKey);
    }
    r := SelectTriple(stored, fake.value, c.registered);
  }

  method SelectTriple(stored: R.Selected, fake: R.Selected, choice: bool) returns (r: Result<R.Selected>)
    requires |stored.publicKey| == |fake.publicKey| && |stored.envelope| == |fake.envelope|
    requires |stored.maskingKey| == |fake.maskingKey|
    ensures r == Ok(if choice then stored else fake)
  {
    var publicKey := new byte[|stored.publicKey|];
    var maskingKey := new byte[|stored.maskingKey|];
    var envelope := new byte[|stored.envelope|];
    CtSelectBytes(publicKey, stored.publicKey, fake.publicKey, choice);
    CtSelectBytes(maskingKey, stored.maskingKey, fake.maskingKey, choice);
    CtSelectBytes(envelope, stored.envelope, fake.envelope, choice);
    r := Ok(R.Selected(publicKey[..], envelope[..], maskingKey[..]));
  }

  /** Everything checked before the relay touches its state. */
  method AdmitKe1(cs: Suite, responder: R.Responder, ke1: Bytes, accountId: Bytes, c: R.ResponderCredentials)
    returns (r: Result<(Ke1, R.Selected)>)
    requires cs.Valid() && |c.maskingKey| == MASKING_KEY_LENGTH && |c.initiatorPublicKey| == PUBLIC_KEY_LENGTH
    ensures r == R.AdmitKe1(cs, responder, ke1, accountId, c)
  {
    var parsed := ParseKe1(ke1);
    if parsed.Err? {
      return Err(parsed.error);
    }
    var selected := SelectCredentials(cs, responder.oprfSeed, accountId, c);
    if selected.Err? {
      return Err(selected.error);
    }
    var request := ValidateRistrettoPoint(cs, parsed.value.credentialRequest);
    if request.Fail? {
      return Err(request.error);
    }
    var ephemeral := ValidatePublicKey(cs, parsed.value.initiatorPublicKey);
    if ephemeral.Fail? {
      return Err(ephemeral.error);
    }
    match ValidatePublicKey(cs, selected.value.publicKey)
    case Fail(e) => return Err(e);
    case Pass => r := Ok((parsed.value, selected.value));
  }

  /** The credential response is filled in two parts: the evaluated element, then the masked envelope. */
  method Respond(
    cs: Suite, responder: R.Responder, m: Ke1, selected: R.Selected, accountId: Bytes, ephemeral: Bytes, nonce: Bytes)
    returns (r: Result<(Bytes, Bytes)>)
    requires cs.Valid() && |selected.envelope| == 136
    ensures r == R.Respond(cs, responder, m, selected, accountId, ephemeral, nonce)
  {
    var key := ComputeOprfKey(cs, responder.oprfSeed, accountId);
    if key.Err? {
      return Err(key.error);
    }
    var evaluated := Evaluate(cs, m.credentialRequest, key.value);
    if evaluated.Err? {
      return Err(evaluated.error);
    }
    var masked := new byte[ENVELOPE_LENGTH];
    var check := MaskCredentialEnvelope(cs, selected.maskingKey, nonce, evaluated.value, AccountHash(cs, accountId),
                                        selected.envelope, masked);
    if check.Fail? {
      return Err(check.error);
    }
    var ikm := R.RelayIkm(cs, responder.privateKey, ephemeral, selected.publicKey, m.initiatorPublicKey);
    if ikm.Err? {
      return Err(ikm.error);
    }
    r := Ok((evaluated.value + masked[..], ikm.value));
  }

  /** The evaluated element, then the relay's public key. */
  method CreateRegistrationResponse(cs: Suite, responder: R.Responder, request: Bytes, accountId: Bytes)
    returns (r: Result<RegistrationResponse>)
    requires cs.Valid()
    ensures r == R.CreateRegistrationResponse(cs, responder, request, accountId)
  {
    var payload := ParseRegistrationRequest(request);
    if payload.Err? {
      return Err(payload.error);
    }
    if accountId == [] {
      return Err(InvalidInput);
    }
    var valid := ValidateRistrettoPoint(cs, payload.value);
    if valid.Fail? {
      return Err(valid.error);
    }
    var key := ComputeOprfKey(cs, responder.oprfSeed, accountId);
    if key.Err? {
      return Err(key.error);
    }
    var evaluated := Evaluate(cs, payload.value, key.value);
    if evaluated.Err? {
      return Err(evaluated.error);
    }
    r := Ok(RegistrationResponse(evaluated.value, responder.publicKey));
  }

  /** The credentials struct a registration record is stored into, once. */
  class CredentialStore {
    var c: R.ResponderCredentials

    constructor ()
      ensures c == R.NewCredentials()
    {
      c := R.NewCredentials();
    }

    /** A refused record, or a second one, leaves the stored credentials alone. */
    method Build(cs: Suite, record: Bytes) returns (r: Check)
      modifies this
      ensures var built := R.BuildCredentials(cs, record, old(c));
              && (r.Pass? <==> built.Ok?)
              && (r.Pass? ==> c == built.value)
              && (r.Fail? ==> r.error == built.error && c == old(c))
      ensures old(c).registered ==> r == Fail(AlreadyRegistered) && c == old(c)
    {
      if c.registered {
        return Fail(AlreadyRegistered);
      }
      var view := ParseRegistrationRecord(record);
      if view.Err? {
        return Fail(view.error);
      }
      var valid := ValidatePublicKey(cs, view.value.initiatorPublicKey);
      if valid.Fail? {
        return valid;
      }
      c := c.(envelope := view.value.envelope);
      c := c.(maskingKey := view.value.maskingKey);
      c := c.(initiatorPublicKey := view.value.initiatorPublicKey);
      c := c.(registered := true);
      r := Pass;
    }
  }

  /** The struct behind a mutable reference: `s` holds its fields, and every field assignment updates it. */
  class ResponderState {
    var s: R.RelayState

    ghost predicate Valid()
      reads this
    {
      s.WellFormed()
    }

    constructor (now: nat)
      ensures Valid() && s == R.Blank(R.Created, now)
    {
      s := R.Blank(R.Created, now);
    }

    method Invalidate()
      modifies this
      ensures Valid() && s == old(s).Invalidated()
    {
      s := s.(responderPrivateKey := Zeros(32), responderPublicKey := Zeros(32));
      s := s.(ephemeralPrivateKey := Zeros(32), ephemeralPublicKey := Zeros(32), initiatorPublicKey := Zeros(32));
      s := s.(sessionKey := Zeros(64), expectedInitiatorMac := Zeros(64), pqSharedSecret := Zeros(32));
      s := s.(handshakeComplete := false);
      s := s.(phase := R.Finished);
    }

    method IsExpired(now: nat) returns (expired: bool)
      ensures expired == s.Expired(now)
    {
      if s.phase == R.Created || s.phase == R.Finished {
        return false;
      }
      if now < s.createdAt {
        return true;
      }
      expired := (now - s.createdAt) / 1_000_000_000 >= STATE_MAX_LIFETIME_SECS;
    }

    /** The phase and expiry checks every step starts with; only an expired state is touched, and it is wiped. */
    method Guard(expected: R.Phase, now: nat) returns (g: Check)
      requires Valid()
      modifies this
      ensures Valid()
      ensures g.Pass? <==> old(s).phase == expected && !old(s).Expired(now)
      ensures g.Fail? ==> g.error == ValidationError
      ensures s == if old(s).phase == expected && old(s).Expired(now) then old(s).Invalidated() else old(s)
    {
      if s.phase != expected {
        return Fail(ValidationError);
      }
      var expired := IsExpired(now);
      if expired {
        Invalidate();
        return Fail(ValidationError);
      }
      g := Pass;
    }

    /** Appends the ten transcript fields, in the relay's own terms. */
    method WriteTranscript(
      responder: R.Responder, m: Ke1, selected: R.Selected, nonce: Bytes, response: Bytes, kemCiphertext: Bytes,
      accountHash: Bytes) returns (transcript: Bytes)
      requires Valid() && responder.WellFormed() && m.WellFormed() && |selected.publicKey| == 32 && |nonce| == 24
      requires |response| == 168 && |kemCiphertext| == 1088 && |accountHash| == 64
      ensures transcript == R.RelaySession(responder, m, selected, s.ephemeralPublicKey, nonce, response,
                                           kemCiphertext, accountHash).Transcript()
    {
      var t := new TranscriptBuffer();
      t.AppendFive(m.initiatorPublicKey, s.ephemeralPublicKey, m.initiatorNonce, nonce, selected.publicKey);
      t.AppendFive(responder.publicKey, response, m.pqPublicKey, kemCiphertext, accountHash);
      transcript := t.Written();
    }

    /** Evaluation, masking, 4DH, encapsulation and key schedule; the secrets go into the state. */
    method Derive(
      cs: Suite, responder: R.Responder, m: Ke1, selected: R.Selected, accountId: Bytes, rnd: R.Ke2Random)
      returns (r: Result<Ke2>)
      requires cs.Valid() && Valid() && responder.WellFormed() && m.WellFormed() && rnd.WellFormed()
      requires |selected.publicKey| == 32 && |selected.envelope| == 136
      modifies this
      ensures Valid()
      ensures var k := R.RelayDerive(cs, responder, m, selected, accountId, rnd, old(s).ephemeralPrivateKey,
                                     old(s).ephemeralPublicKey);
              && (k.Ok? ==> r == Ok(k.value.Message())
                            && s == old(s).(pqSharedSecret := k.value.sharedSecret,
                            sessionKey := k.value.keys.sessionKey,
                            expectedInitiatorMac := k.value.keys.initiatorMac))
              && (k.Err? ==> r == Err(k.error) && s == old(s))
    {
      var response := Respond(cs, responder, m, selected, accountId, s.ephemeralPrivateKey, rnd.nonce);
      if response.Err? {
        return Err(response.error);
      }
      var kem := Encapsulate(cs, m.pqPublicKey, rnd.kemCoins);
      if kem.Err? {
        return Err(kem.error);
      }
      s := s.(pqSharedSecret := kem.value.1);
      var transcript := WriteTranscript(responder, m, selected, rnd.nonce, response.value.0, kem.value.0,
                                        AccountHash(cs, accountId));
      var schedule := ComputeKeys(cs, response.value.1, kem.value.1, transcript);
      match schedule
      case Err(e) => return Err(e);
      case Ok(keys) =>
        s := s.(sessionKey := keys.sessionKey);
        s := s.(expectedInitiatorMac := keys.initiatorMac);
        r := Ok(Ke2(rnd.nonce, s.ephemeralPublicKey, response.value.0, keys.responderMac, kem.value.0));
    }

    /** From the first state write on. */
    method DeriveInto(
      cs: Suite, responder: R.Responder, m: Ke1, selected: R.Selected, accountId: Bytes, rnd: R.Ke2Random)
      returns (r: Result<Ke2>)
      requires cs.Valid() && Valid() && responder.WellFormed() && m.WellFormed() && rnd.WellFormed()
      requires |selected.publicKey| == 32 && |selected.envelope| == 136
      modifies this
      ensures Valid()
      ensures var k := R.DeriveInto(cs, responder, m, selected, accountId, rnd, old(s));
              && s == k.0
              && (k.1.Ok? ==> r == Ok(k.1.value.Message()))
              && (k.1.Err? ==> r == Err(k.1.error))
    {
      s := s.(initiatorPublicKey := m.initiatorPublicKey);
      s := s.(responderPrivateKey := responder.privateKey, responderPublicKey := responder.publicKey);
      s := s.(handshakeComplete := false);
      var drawn := DrawNonzeroScalar(cs, rnd.ephemeral);
      if drawn.Err? {
        return Err(drawn.error);
      }
      s := s.(ephemeralPrivateKey := drawn.value);
      match ScalarMultBase(cs, s.ephemeralPrivateKey) {
        case Err(e) => return Err(e);
        case Ok(ephemeralPublic) => s := s.(ephemeralPublicKey := ephemeralPublic);
      }
      r := Derive(cs, responder, m, selected, accountId, rnd);
    }

    method GenerateKe2(
      cs: Suite, responder: R.Responder, ke1: Bytes, accountId: Bytes, c: R.ResponderCredentials, rnd: R.Ke2Random,
      now: nat, later: nat) returns (r: Result<Ke2>)
      requires cs.Valid() && Valid() && responder.WellFormed() && rnd.WellFormed()
      requires |c.maskingKey| == MASKING_KEY_LENGTH && |c.initiatorPublicKey| == PUBLIC_KEY_LENGTH
      modifies this
      ensures Valid()
      ensures var k := R.GenerateKe2(cs, responder, ke1, accountId, c, old(s), rnd, now, later);
              && s == k.0
              && (k.1.Ok? ==> r == Ok(k.1.value.Message()))
              && (k.1.Err? ==> r == Err(k.1.error))
    {
      if |ke1| != KE1_LENGTH {
        return Err(InvalidProtocolMessage);
      }
      var g := Guard(R.Created, now);
      if g.Fail? {
        return Err(g.error);
      }
      if accountId == [] {
        return Err(InvalidInput);
      }
      var admitted := AdmitKe1(cs, responder, ke1, accountId, c);
      if admitted.Err? {
        return Err(admitted.error);
      }
      r := DeriveInto(cs, responder, admitted.value.0, admitted.value.1, accountId, rnd);
      if r.Ok? {
        s := s.(createdAt := later);
        s := s.(phase := R.Ke2Generated);
      }
    }

    /** The wiping common to every exit of the finish step. */
    method Close(complete: bool)
      modifies this
      ensures s == old(s).Closed(complete)
    {
      s := s.(sessionKey := Zeros(64));
      s := s.(pqSharedSecret := Zeros(32));
      s := s.(expectedInitiatorMac := Zeros(64));
      s := s.(ephemeralPrivateKey := Zeros(32), responderPrivateKey := Zeros(32));
      s := s.(handshakeComplete := complete);
      s := s.(phase := R.Finished);
    }

    method ResponderFinish(ke3: Bytes, now: nat) returns (r: Result<Bytes>)
      requires Valid()
      modifies this
      ensures Valid()
      ensures (s, r) == R.ResponderFinish(ke3, old(s), now)
    {
      if |ke3| != KE3_LENGTH {
        return Err(InvalidProtocolMessage);
      }
      var g := Guard(R.Ke2Generated, now);
      if g.Fail? {
        return Err(g.error);
      }
      var zero := IsAllZero(s.sessionKey);
      if zero {
        return Err(ValidationError);
      }
      var mac := ParseKe3(ke3);
      if mac.Err? {
        Close(false);
        return Err(mac.error);
      }
      if mac.value != s.expectedInitiatorMac {
        Close(false);
        return Err(AuthenticationError);
      }
      r := Ok(s.sessionKey);
      Close(true);
    }
  }
}
