/** The agent state as an object updated in place, one method per library step. */
module AgentObject {
  import opened Types
  import opened ByteOps
  import opened Suites
  import opened Crypto
  import opened Oprf
  import opened Envelopes
  import opened PqKem
  import opened Wire
  import opened Schedule
  import A = Agent

  /** The struct behind a mutable reference: `s` holds its fields, and every field assignment updates it. */
  class InitiatorState {
    var s: A.AgentState

    ghost predicate Valid()
      reads this
    {
      s.WellFormed()
    }

    constructor (now: nat)
      ensures Valid() && s == A.Blank(A.Created, now)
    {
      s := A.Blank(A.Created, now);
    }

    /** Zeroizes every field but the phase and the clock reading, then marks the state finished. */
    method Invalidate()
      modifies this
      ensures Valid() && s == old(s).Invalidated()
    {
      s := s.(secureKey := Zeros(4096), secureKeyLen := 0, blind := Zeros(32), accountHash := Zeros(64));
      s := s.(privateKey := Zeros(32), publicKey := Zeros(32), responderKey := Zeros(32));
      s := s.(ephemeralPrivateKey := Zeros(32), ephemeralPublicKey := Zeros(32), nonce := Zeros(24));
      s := s.(sessionKey := Zeros(64), exportKey := Zeros(32));
      s := s.(pqPublicKey := Zeros(1184), pqSecretKey := Zeros(2400), pqSharedSecret := Zeros(32));
      s := s.(phase := A.Finished);
    }

    /** Whole seconds since arming; an idle phase never expires and a clock gone backwards has expired. */
    method IsExpired(now: nat) returns (expired: bool)
      ensures expired == s.Expired(now)
    {
      if s.phase == A.Created || s.phase == A.RegistrationFinalized || s.phase == A.Finished {
        return false;
      }
      if now < s.createdAt {
        return true;
      }
      expired := (now - s.createdAt) / 1_000_000_000 >= STATE_MAX_LIFETIME_SECS;
    }

    /** The phase and expiry checks every step starts with; only an expired state is touched, and it is wiped. */
    method Guard(expected: A.Phase, now: nat) returns (g: Check)
      requires Valid()
      modifies this
      ensures Valid()
      ensures g.Pass? <==> old(s).phase == expected && !old(s).Expired(now)
      ensures g.Fail? ==> g.error == ValidationError
      ensures s == if old(s).phase == expected && old(s).Expired(now) then old(s).Invalidated() else old(s)
    {
      if s.phase != expected {
        return Fail(ValidationError);
      }
      var expired := IsExpired(now);
      if expired {
        Invalidate();
        return Fail(ValidationError);
      }
      g := Pass;
    }

    method WipePassword()
      modifies this
      ensures s == old(s).PasswordWiped()
    {
      s := s.(secureKey := Zeros(MAX_SECURE_KEY_LENGTH));
      s := s.(secureKeyLen := 0);
      s := s.(blind := Zeros(32));
    }

    /** Draws the blind into the state, then blinds the password. */
    method DrawBlind(cs: Suite, password: Bytes, draws: Draws) returns (r: Result<Bytes>)
      requires cs.Valid() && Valid()
      modifies this
      ensures Valid() && (s, r) == A.BlindInto(cs, password, draws, old(s))
    {
      var drawn := DrawNonzeroScalar(cs, draws);
      match drawn
      case Err(e) => return Err(e);
      case Ok(blind) =>
        s := s.(blind := blind);
        r := BlindWith(cs, password, blind);
    }

    method CreateRegistrationRequest(
      cs: Suite, password: Bytes, keyDraws: Draws, blindDraws: Draws, now: nat, later: nat) returns (r: Result<Bytes>)
      requires cs.Valid() && Valid()
      modifies this
      ensures Valid()
      ensures (s, r) == A.CreateRegistrationRequest(cs, password, old(s), keyDraws, blindDraws, now, later)
    {
      if password == [] || |password| > MAX_SECURE_KEY_LENGTH {
        return Err(InvalidInput);
      }
      var g := Guard(A.Created, now);
      if g.Fail? {
        return Err(g.error);
      }
      var drawn := DrawNonzeroScalar(cs, keyDraws);
      if drawn.Err? {
        return Err(drawn.error);
      }
      s := s.(privateKey := drawn.value);
      match ScalarMultBase(cs, s.privateKey) {
        case Err(e) => return Err(e);
        case Ok(publicKey) => s := s.(publicKey := publicKey);
      }
      s := s.(secureKey := A.Padded(password));
      s := s.(secureKeyLen := |password|);
      r := DrawBlind(cs, password, blindDraws);
      if r.Ok? {
        s := s.(createdAt := later);
        s := s.(phase := A.RegistrationRequested);
      }
    }

    method FinalizeRegistration(
      cs: Suite, expectedKey: Bytes, response: Bytes, envelopeNonce: Bytes, now: nat)
      returns (r: Result<RegistrationRecord>)
      requires cs.Valid() && Valid() && |envelopeNonce| == NONCE_LENGTH
      modifies this
      ensures Valid()
      ensures (s, r) == A.FinalizeRegistration(cs, expectedKey, response, old(s), envelopeNonce, now)
      ensures r.Ok? ==> |response| == 65 && response[33..65] == expectedKey
    {
      if |response| != REGISTRATION_RESPONSE_WIRE_LENGTH {
        return Err(InvalidProtocolMessage);
      }
      var g := Guard(A.RegistrationRequested, now);
      if g.Fail? {
        return Err(g.error);
      }
      Offsets(response);
      var parsed := ParseRegistrationResponse(response);
      if parsed.Err? {
        return Err(parsed.error);
      }
      var m := parsed.value;
      var valid := ValidatePublicKey(cs, m.responderPublicKey);
      if valid.Fail? {
        return Err(valid.error);
      }
      if m.responderPublicKey != expectedKey {
        Invalidate();
        return Err(AuthenticationError);
      }
      var randomizedPwd := ClientPasswordKey(cs, s.secureKey[..s.secureKeyLen], s.blind, m.evaluatedElement);
      if randomizedPwd.Err? {
        return Err(randomizedPwd.error);
      }
      WipePassword();
      r := SealRecord(cs, m.responderPublicKey, randomizedPwd.value, envelopeNonce);
    }

    /** The tail of finalization, after the password is gone. */
    method SealRecord(cs: Suite, responderKey: Bytes, randomizedPwd: Bytes, envelopeNonce: Bytes)
      returns (r: Result<RegistrationRecord>)
      requires cs.Valid() && Valid() && |envelopeNonce| == NONCE_LENGTH && |responderKey| == PUBLIC_KEY_LENGTH
      modifies this
      ensures Valid()
      ensures (s, r) == A.SealRecord(cs, responderKey, randomizedPwd, old(s), envelopeNonce)
    {
      var c := Credentials(responderKey, s.privateKey, s.publicKey);
      var sealed := SealEnvelope(cs, randomizedPwd, c, envelopeNonce);
      if sealed.Err? {
        return Err(sealed.error);
      }
      s := s.(responderKey := responderKey);
      match DeriveMaskingKey(cs, randomizedPwd)
      case Err(e) => return Err(e);
      case Ok(maskingKey) =>
        r := Ok(RegistrationRecord(maskingKey, sealed.value.Serialized(), s.publicKey));
        s := s.(privateKey := Zeros(32));
        s := s.(phase := A.RegistrationFinalized);
    }

    method GenerateKe1(
      cs: Suite, password: Bytes, accountId: Bytes, rnd: A.Ke1Random, now: nat, later: nat) returns (r: Result<Ke1>)
      requires cs.Valid() && Valid() && rnd.WellFormed()
      modifies this
      ensures Valid()
      ensures (s, r) == A.GenerateKe1(cs, password, accountId, old(s), rnd, now, later)
    {
      if password == [] || |password| > MAX_SECURE_KEY_LENGTH {
        return Err(InvalidInput);
      }
      if accountId == [] {
        return Err(InvalidInput);
      }
      var g := Guard(A.Created, now);
      if g.Fail? {
        return Err(g.error);
      }
      s := s.(secureKey := A.Padded(password));
      s := s.(secureKeyLen := |password|);
      s := s.(accountHash := AccountHash(cs, accountId));
      var drawn := DrawNonzeroScalar(cs, rnd.ephemeral);
      if drawn.Err? {
        return Err(drawn.error);
      }
      s := s.(ephemeralPrivateKey := drawn.value);
      match ScalarMultBase(cs, s.ephemeralPrivateKey) {
        case Err(e) => return Err(e);
        case Ok(ephemeralPublic) => s := s.(ephemeralPublicKey := ephemeralPublic);
      }
      var pair := cs.kemKeygen(rnd.kemCoins);
      s := s.(pqPublicKey := pair.0, pqSecretKey := pair.1);
      s := s.(nonce := rnd.nonce);
      var request := DrawBlind(cs, password, rnd.blind);
      if request.Err? {
        return Err(request.error);
      }
      r := Ok(Ke1(request.value, s.ephemeralPublicKey, s.nonce, s.pqPublicKey));
      s := s.(createdAt := later);
      s := s.(phase := A.Ke1Generated);
    }

    /** Unblinds, wipes the password, unmasks into a buffer and opens the envelope. */
    method Recover(cs: Suite, agentKey: Bytes, m: Ke2) returns (r: Result<A.Recovered>)
      requires cs.Valid() && Valid() && m.WellFormed()
      modifies this
      ensures Valid() && s.createdAt == old(s).createdAt
      ensures r == A.RecoverCredentials(cs, agentKey, m, old(s))
      ensures r.Ok? ==> s == old(s).PasswordWiped()
    {
      var evaluated := m.credentialResponse[..PUBLIC_KEY_LENGTH];
      var randomizedPwd := ClientPasswordKey(cs, s.secureKey[..s.secureKeyLen], s.blind, evaluated);
      if randomizedPwd.Err? {
        return Err(randomizedPwd.error);
      }
      WipePassword();
      match DeriveMaskingKey(cs, randomizedPwd.value)
      case Err(e) => return Err(e);
      case Ok(maskingKey) =>
        var buffer := new byte[ENVELOPE_LENGTH];
        var unmasked := MaskCredentialEnvelope(cs, maskingKey, m.responderNonce, evaluated, s.accountHash,
                                               m.credentialResponse[PUBLIC_KEY_LENGTH..], buffer);
        if unmasked.Fail? {
          return Err(unmasked.error);
        }
        var found := new KeyBuffers();
        var unsealed := found.Open(cs, Split(buffer[..]), randomizedPwd.value, agentKey);
        if unsealed.Fail? {
          return Err(unsealed.error);
        }
        if found.responderKey[..] != agentKey {
          return Err(AuthenticationError);
        }
        var c := Credentials(found.responderKey[..], found.privateKey[..], found.publicKey[..]);
        r := Ok(A.Recovered(randomizedPwd.value, c));
    }

    /** Appends the ten transcript fields, in the agent's own terms. */
    method WriteTranscript(m: Ke2, c: Credentials) returns (transcript: Bytes)
      requires Valid() && m.WellFormed() && |c.publicKey| == 32 && |c.responderKey| == 32
      ensures transcript == A.AgentSession(m, c, s).Transcript()
    {
      var t := new TranscriptBuffer();
      t.AppendFive(s.ephemeralPublicKey, m.responderPublicKey, s.nonce, m.responderNonce, c.publicKey);
      t.AppendFive(c.responderKey, m.credentialResponse, s.pqPublicKey, m.kemCiphertext, s.accountHash);
      transcript := t.Written();
    }

    /** Credential recovery, 4DH, decapsulation and key schedule, with the KEM secret wiped on the way. */
    method Derive(cs: Suite, agentKey: Bytes, m: Ke2) returns (r: Result<A.AgentKeys>)
      requires cs.Valid() && Valid() && m.WellFormed()
      modifies this
      ensures Valid() && s.createdAt == old(s).createdAt
      ensures r == A.AgentDerive(cs, agentKey, m, old(s))
      ensures r.Ok? ==>
                s == old(s).PasswordWiped().(pqSecretKey := Zeros(2400), pqSharedSecret := r.value.sharedSecret)
    {
      var recovered := Recover(cs, agentKey, m);
      if recovered.Err? {
        return Err(recovered.error);
      }
      var c := recovered.value.credentials;
      var ikm := A.AgentIkm(cs, c, s.ephemeralPrivateKey, m.responderPublicKey);
      if ikm.Err? {
        return Err(ikm.error);
      }
      var kem := Decapsulate(cs, s.pqSecretKey, m.kemCiphertext);
      if kem.Err? {
        return Err(kem.error);
      }
      s := s.(pqSecretKey := Zeros(2400));
      s := s.(pqSharedSecret := kem.value);
      var transcript := WriteTranscript(m, c);
      var schedule := ComputeKeys(cs, ikm.value, kem.value, transcript);
      match schedule
      case Err(e) => return Err(e);
      case Ok(keys) => r := Ok(A.AgentKeys(recovered.value, A.AgentSession(m, c, s), kem.value, keys));
    }

    /** Everything between the guards and the invalidation of a failed KE3. */
    method Ke3Body(cs: Suite, agentKey: Bytes, ke2: Bytes, later: nat) returns (r: Result<Bytes>)
      requires cs.Valid() && Valid()
      modifies this
      ensures Valid()
      ensures var core := A.Ke3Core(cs, agentKey, ke2, old(s));
              && (core.Ok? ==> r == Ok(core.value.derived.keys.initiatorMac)
                               && s == A.Ke3State(old(s), core.value, later))
              && (core.Err? ==> r == Err(core.error) && s.createdAt == old(s).createdAt)
    {
      var keyCheck := ValidatePublicKey(cs, agentKey);
      if keyCheck.Fail? {
        return Err(keyCheck.error);
      }
      var parsed := ParseKe2(ke2);
      if parsed.Err? {
        return Err(parsed.error);
      }
      var m := parsed.value;
      var ephemeralCheck := ValidatePublicKey(cs, m.responderPublicKey);
      if ephemeralCheck.Fail? {
        return Err(ephemeralCheck.error);
      }
      var derived := Derive(cs, agentKey, m);
      if derived.Err? {
        return Err(derived.error);
      }
      if m.responderMac != derived.value.keys.responderMac {
        return Err(AuthenticationError);
      }
      var c := derived.value.recovered.credentials;
      var export_ := DeriveClientExportKey(cs, derived.value.recovered.randomizedPwd, s.accountHash);
      if export_.Err? {
        return Err(export_.error);
      }
      r := Ok(derived.value.keys.initiatorMac);
      s := s.(responderKey := c.responderKey, privateKey := c.privateKey, publicKey := c.publicKey);
      s := s.(exportKey := export_.value, sessionKey := derived.value.keys.sessionKey);
      s := s.(createdAt := later);
      s := s.(phase := A.Ke3Generated);
    }

    method GenerateKe3(cs: Suite, agentKey: Bytes, ke2: Bytes, now: nat, later: nat) returns (r: Result<Bytes>)
      requires cs.Valid() && Valid()
      modifies this
      ensures Valid()
      ensures (s, r) == A.GenerateKe3(cs, agentKey, ke2, old(s), now, later)
    {
      if |ke2| != KE2_LENGTH {
        return Err(InvalidProtocolMessage);
      }
      var g := Guard(A.Ke1Generated, now);
      if g.Fail? {
        return Err(g.error);
      }
      var zero := IsAllZero(s.accountHash);
      if zero {
        return Err(ValidationError);
      }
      r := Ke3Body(cs, agentKey, ke2, later);
      if r.Err? {
        Invalidate();
      }
    }

    method InitiatorFinish() returns (r: Result<A.AgentOutput>)
      requires Valid()
      modifies this
      ensures Valid()
      ensures (s, r) == A.InitiatorFinish(old(s))
    {
      if s.phase != A.Ke3Generated {
        return Err(ValidationError);
      }
      var zero := IsAllZero(s.sessionKey);
      if zero {
        Invalidate();
        return Err(InvalidInput);
      }
      r := Ok(A.AgentOutput(s.sessionKey, s.exportKey));
      s := s.(sessionKey := Zeros(64), exportKey := Zeros(32));
      s := s.(pqSharedSecret := Zeros(32), pqSecretKey := Zeros(2400));
      WipePassword();
      s := s.(accountHash := Zeros(64));
      s := s.(privateKey := Zeros(32), ephemeralPrivateKey := Zeros(32));
      s := s.(phase := A.Finished);
    }
  }
}
