/** Equal transcripts force equal keys, although each side computes its half with different code. */
module Matching {
  import opened Types
  import opened PrimeField
  import opened Suites
  import opened Crypto
  import opened Envelopes
  import opened PqKem
  import opened Wire
  import opened Schedule
  import opened Agent
  import opened Relay

  /** The encodings of a*b, x*b, a*y and x*y times the base point. */
  function FourProducts(cs: Suite, a: nat, x: nat, b: nat, y: nat): Bytes
    requires cs.Valid()
  {
    cs.pointBytes(MulMod(a, b, cs.order)) + cs.pointBytes(MulMod(x, b, cs.order))
    + cs.pointBytes(MulMod(a, y, cs.order)) + cs.pointBytes(MulMod(x, y, cs.order))
  }

  /** The agent's input is defined exactly on scalars and points, and is these four products in this order. */
  lemma AgentIkmForm(cs: Suite, c: Credentials, ephemeral: Bytes, responderEphemeral: Bytes)
    requires cs.Valid()
    ensures AgentIkm(cs, c, ephemeral, responderEphemeral).Ok?
            <==> IsScalar(cs, c.privateKey) && IsScalar(cs, ephemeral) && IsPoint(cs, c.responderKey)
                 && IsPoint(cs, responderEphemeral)
    ensures AgentIkm(cs, c, ephemeral, responderEphemeral).Ok? ==>
              AgentIkm(cs, c, ephemeral, responderEphemeral).value
              == FourProducts(cs, cs.scalarOf(c.privateKey).value, cs.scalarOf(ephemeral).value,
                              cs.pointOf(c.responderKey).value, cs.pointOf(responderEphemeral).value)
  {
    ProductForm(cs, c.privateKey, c.responderKey);
    ProductForm(cs, ephemeral, c.responderKey);
    ProductForm(cs, c.privateKey, responderEphemeral);
    ProductForm(cs, ephemeral, responderEphemeral);
  }

  /** The relay's input likewise, with the roles of scalars and points exchanged. */
  lemma RelayIkmForm(cs: Suite, privateKey: Bytes, ephemeral: Bytes, initiatorKey: Bytes, initiatorEphemeral: Bytes)
    requires cs.Valid()
    ensures RelayIkm(cs, privateKey, ephemeral, initiatorKey, initiatorEphemeral).Ok?
            <==> IsScalar(cs, privateKey) && IsScalar(cs, ephemeral) && IsPoint(cs, initiatorKey)
                 && IsPoint(cs, initiatorEphemeral)
    ensures RelayIkm(cs, privateKey, ephemeral, initiatorKey, initiatorEphemeral).Ok? ==>
              RelayIkm(cs, privateKey, ephemeral, initiatorKey, initiatorEphemeral).value
              == FourProducts(cs, cs.pointOf(initiatorKey).value, cs.pointOf(initiatorEphemeral).value,
                              cs.scalarOf(privateKey).value, cs.scalarOf(ephemeral).value)
  {
    ProductForm(cs, privateKey, initiatorKey);
    ProductForm(cs, privateKey, initiatorEphemeral);
    ProductForm(cs, ephemeral, initiatorKey);
    ProductForm(cs, ephemeral, initiatorEphemeral);
  }

  lemma ProductForm(cs: Suite, scalar: Bytes, point: Bytes)
    requires cs.Valid()
    ensures ScalarMult(cs, scalar, point).Ok? <==> IsScalar(cs, scalar) && IsPoint(cs, point)
    ensures ScalarMult(cs, scalar, point).Ok? ==>
              var s, p := cs.scalarOf(scalar).value, cs.pointOf(point).value;
              && ScalarMult(cs, scalar, point).value == cs.pointBytes(MulMod(s, p, cs.order))
              && ScalarMult(cs, scalar, point).value == cs.pointBytes(MulMod(p, s, cs.order))
  {
    ScalarMultDefined(cs, scalar, point);
    if IsScalar(cs, scalar) && IsPoint(cs, point) {
      MulModCommutes(cs.scalarOf(scalar).value, cs.pointOf(point).value, cs.order);
    }
  }

  /** Over four key pairs both sides' inputs are defined, and they are the same four products. */
  lemma MirroredIkm(
    cs: Suite, c: Credentials, eI: Bytes, pubI: Bytes, privateKey: Bytes, eR: Bytes, pubR: Bytes)
    requires cs.Valid()
    requires IsKeyPair(cs, c.privateKey, c.publicKey) && IsKeyPair(cs, privateKey, c.responderKey)
    requires IsKeyPair(cs, eI, pubI) && IsKeyPair(cs, eR, pubR)
    ensures AgentIkm(cs, c, eI, pubR).Ok?
    ensures AgentIkm(cs, c, eI, pubR) == RelayIkm(cs, privateKey, eR, c.publicKey, pubI)
    ensures |AgentIkm(cs, c, eI, pubR).value| == CLASSICAL_IKM_LENGTH
    ensures cs.scalarOf(c.privateKey).Some? && cs.scalarOf(eI).Some? && cs.scalarOf(privateKey).Some?
    ensures cs.scalarOf(eR).Some?
    ensures AgentIkm(cs, c, eI, pubR).value
            == FourProducts(cs, cs.scalarOf(c.privateKey).value, cs.scalarOf(eI).value, cs.scalarOf(privateKey).value,
                            cs.scalarOf(eR).value)
  {
    ScalarMultBaseDefined(cs, c.privateKey);
    ScalarMultBaseDefined(cs, eI);
    ScalarMultBaseDefined(cs, privateKey);
    ScalarMultBaseDefined(cs, eR);
    AgentIkmForm(cs, c, eI, pubR);
    RelayIkmForm(cs, privateKey, eR, c.publicKey, pubI);
  }

  /** How an agent's session keys depend on its secrets. */
  predicate AgentHalf(cs: Suite, x: AgentKeys, ephemeral: Bytes, pqSecretKey: Bytes)
    requires cs.Valid()
  {
    var c, t := x.recovered.credentials, x.session;
    var ikm := AgentIkm(cs, c, ephemeral, t.responderEphemeral);
    && t.WellFormed()
    && IsKeyPair(cs, c.privateKey, c.publicKey) && t.initiatorKey == c.publicKey && t.responderKey == c.responderKey
    && ikm.Ok?
    && Decapsulate(cs, pqSecretKey, t.kemCiphertext) == Ok(x.sharedSecret)
    && DeriveKeys(cs, ikm.value, x.sharedSecret, t.Transcript()) == Ok(x.keys)
  }

  /** How a relay's session keys depend on its secrets. */
  predicate RelayHalf(cs: Suite, y: RelayKeys, privateKey: Bytes, encCoins: Bytes)
    requires cs.Valid()
  {
    var t := y.session;
    var ikm := RelayIkm(cs, privateKey, y.ephemeral, t.initiatorKey, t.initiatorEphemeral);
    && t.WellFormed() && t.responderEphemeral == y.ephemeralPublic
    && ikm.Ok?
    && Encapsulate(cs, t.pqPublicKey, encCoins) == Ok((t.kemCiphertext, y.sharedSecret))
    && DeriveKeys(cs, ikm.value, y.sharedSecret, t.Transcript()) == Ok(y.keys)
  }

  lemma AgentDeriveIsAgentHalf(cs: Suite, agentKey: Bytes, ke2: Ke2, a: AgentState)
    requires cs.Valid() && a.WellFormed() && ke2.WellFormed() && AgentDerive(cs, agentKey, ke2, a).Ok?
    ensures var x := AgentDerive(cs, agentKey, ke2, a).value;
            && AgentHalf(cs, x, a.ephemeralPrivateKey, a.pqSecretKey)
            && x.session == AgentSession(ke2, x.recovered.credentials, a)
  {
  }

  lemma RelayDeriveIsRelayHalf(
    cs: Suite, responder: Responder, ke1: Ke1, selected: Selected, accountId: Bytes, rnd: Ke2Random, eR: Bytes,
    pubR: Bytes)
    requires cs.Valid() && responder.WellFormed() && ke1.WellFormed() && rnd.WellFormed()
    requires |selected.publicKey| == 32 && |selected.envelope| == 136 && |pubR| == 32
    requires RelayDerive(cs, responder, ke1, selected, accountId, rnd, eR, pubR).Ok?
    ensures var y := RelayDerive(cs, responder, ke1, selected, accountId, rnd, eR, pubR).value;
            && RelayHalf(cs, y, responder.privateKey, rnd.kemCoins)
            && y.ephemeral == eR && y.ephemeralPublic == pubR
            && y.session.responderKey == responder.publicKey
  {
  }

  /** The two halves of one transcript yield the same keys. */
  lemma HalvesAgree(
    cs: Suite, x: AgentKeys, eI: Bytes, pqSecretKey: Bytes, keyCoins: Bytes, y: RelayKeys, privateKey: Bytes,
    encCoins: Bytes)
    requires cs.Valid() && AgentHalf(cs, x, eI, pqSecretKey) && RelayHalf(cs, y, privateKey, encCoins)
    requires x.session.Transcript() == y.session.Transcript()
    requires IsKeyPair(cs, eI, x.session.initiatorEphemeral)
    requires cs.kemKeygen(keyCoins) == (x.session.pqPublicKey, pqSecretKey)
    requires IsKeyPair(cs, privateKey, y.session.responderKey) && IsKeyPair(cs, y.ephemeral, y.ephemeralPublic)
    requires cs.KemRoundTrip(keyCoins, encCoins)
    ensures x.session == y.session && x.sharedSecret == y.sharedSecret && x.keys == y.keys
  {
    TranscriptInjective(x.session, y.session);
    MirroredIkm(cs, x.recovered.credentials, eI, x.session.initiatorEphemeral, privateKey, y.ephemeral,
                y.ephemeralPublic);
  }

  /** An agent state whose ephemeral keys are the ones its KE1 announced. */
  predicate EphemeralsConsistent(cs: Suite, s: AgentState, kemCoins: Bytes)
    requires cs.Valid()
  {
    && IsKeyPair(cs, s.ephemeralPrivateKey, s.ephemeralPublicKey)
    && cs.kemKeygen(kemCoins) == (s.pqPublicKey, s.pqSecretKey)
  }

  /**
   Any agent that opened its envelope and any relay that answered some KE1: if their transcripts are the
   same bytes, they agree on every component, on the shared secret, on the session key and on both MACs.
   */
  lemma MatchingTranscriptsMatchKeys(
    cs: Suite,
    agentKey: Bytes, ke2: Ke2, a: AgentState, keyCoins: Bytes,
    responder: Responder, ke1: Ke1, selected: Selected, accountId: Bytes, rnd: Ke2Random, eR: Bytes, pubR: Bytes)
    requires cs.Valid() && a.WellFormed() && ke2.WellFormed() && EphemeralsConsistent(cs, a, keyCoins)
    requires responder.WellFormed() && ke1.WellFormed() && rnd.WellFormed()
    requires |selected.publicKey| == 32 && |selected.envelope| == 136 && |pubR| == 32
    requires IsKeyPair(cs, responder.privateKey, responder.publicKey) && IsKeyPair(cs, eR, pubR)
    requires cs.KemRoundTrip(keyCoins, rnd.kemCoins)
    requires AgentDerive(cs, agentKey, ke2, a).Ok?
    requires RelayDerive(cs, responder, ke1, selected, accountId, rnd, eR, pubR).Ok?
    requires AgentDerive(cs, agentKey, ke2, a).value.session.Transcript()
             == RelayDerive(cs, responder, ke1, selected, accountId, rnd, eR, pubR).value.session.Transcript()
    ensures var x := AgentDerive(cs, agentKey, ke2, a).value;
            var y := RelayDerive(cs, responder, ke1, selected, accountId, rnd, eR, pubR).value;
            x.session == y.session && x.sharedSecret == y.sharedSecret && x.keys == y.keys
  {
    var x := AgentDerive(cs, agentKey, ke2, a).value;
    var y := RelayDerive(cs, responder, ke1, selected, accountId, rnd, eR, pubR).value;
    AgentDeriveIsAgentHalf(cs, agentKey, ke2, a);
    RelayDeriveIsRelayHalf(cs, responder, ke1, selected, accountId, rnd, eR, pubR);
    HalvesAgree(cs, x, a.ephemeralPrivateKey, a.pqSecretKey, keyCoins, y, responder.privateKey, rnd.kemCoins);
  }
}
