/**
 Every derivation written out in the suite's primitives, and what it binds: under the absence of a collision
 between the strings named, equal results come from equal inputs.
 */
module Derivations {
  import opened Types
  import opened PrimeField
  import opened Suites
  import opened Kdf
  import opened Crypto
  import opened Oprf
  import opened Envelopes
  import opened PqKem
  import opened Schedule

  /** These two HMAC computations do not collide. */
  predicate HmacApart(cs: Suite, k: Bytes, m: Bytes, k': Bytes, m': Bytes) {
    cs.hmac(k, m) == cs.hmac(k', m') ==> k == k' && m == m'
  }

  /** These two SHA-512 computations do not collide. */
  predicate ShaApart(cs: Suite, m: Bytes, m': Bytes) { cs.sha512(m) == cs.sha512(m') ==> m == m' }

  lemma SamePrefix(p: Bytes, a: Bytes, b: Bytes)
    requires p + a == p + b
    ensures a == b
  {
    assert a == (p + a)[|p|..] && b == (p + b)[|p|..];
  }

  lemma SameSuffix(a: Bytes, b: Bytes, q: Bytes)
    requires a + q == b + q
    ensures a == b
  {
    assert |a| == |b|;
    assert a == (a + q)[..|a|] && b == (b + q)[..|a|];
  }

  // ---- Draws and the OPRF key ----------------------------------------------------------------------

  /** The scalar a wide string reduces to, encoded. */
  function Reduced(cs: Suite, wide: Bytes): Bytes { cs.scalarBytes(cs.wideToScalar(wide)) }

  lemma {:induction false} FirstDrawFrom(cs: Suite, draws: Draws, i: nat, w: nat)
    requires i <= w < 256 && !AllZero(Reduced(cs, draws[w]))
    requires forall j :: i <= j < w ==> AllZero(Reduced(cs, draws[j]))
    ensures NonzeroScalarFrom(cs, draws, i) == Ok(Reduced(cs, draws[w]))
    decreases w - i
  {
    if i < w {
      assert AllZero(Reduced(cs, draws[i]));
      FirstDrawFrom(cs, draws, i + 1, w);
    }
  }

  lemma {:induction false} NoDrawFrom(cs: Suite, draws: Draws, i: nat)
    requires forall j :: i <= j < 256 ==> AllZero(Reduced(cs, draws[j]))
    ensures NonzeroScalarFrom(cs, draws, i) == Err(CryptoError)
    decreases 256 - i
  {
    if i < 256 {
      assert AllZero(Reduced(cs, draws[i]));
      NoDrawFrom(cs, draws, i + 1);
    }
  }

  /** A draw yields the first of the 256 strings, from the very first on, that does not reduce to zero. */
  lemma DrawIsFirstNonzero(cs: Suite, draws: Draws, w: nat)
    requires cs.Valid() && w < 256 && !AllZero(Reduced(cs, draws[w]))
    requires forall j :: 0 <= j < w ==> AllZero(Reduced(cs, draws[j]))
    ensures RandomNonzeroScalar(cs, draws) == Ok(Reduced(cs, draws[w]))
  {
    FirstDrawFrom(cs, draws, 0, w);
  }

  /** It fails exactly when all 256 reduce to zero. */
  lemma DrawFailsExactly(cs: Suite, draws: Draws)
    requires cs.Valid()
    ensures RandomNonzeroScalar(cs, draws).Err? <==> forall j :: 0 <= j < 256 ==> AllZero(Reduced(cs, draws[j]))
    ensures RandomNonzeroScalar(cs, draws).Err? ==> RandomNonzeroScalar(cs, draws).error == CryptoError
  {
    NonzeroScalarIsScalar(cs, draws, 0);
    if forall j :: 0 <= j < 256 ==> AllZero(Reduced(cs, draws[j])) {
      NoDrawFrom(cs, draws, 0);
    } else {
      var w := FirstNonzero(cs, draws, 0);
      DrawIsFirstNonzero(cs, draws, w);
    }
  }

  lemma {:induction false} FirstNonzero(cs: Suite, draws: Draws, i: nat) returns (w: nat)
    requires i <= 256 && forall j :: 0 <= j < i ==> AllZero(Reduced(cs, draws[j]))
    requires !forall j :: 0 <= j < 256 ==> AllZero(Reduced(cs, draws[j]))
    ensures w < 256 && !AllZero(Reduced(cs, draws[w]))
    ensures forall j :: 0 <= j < w ==> AllZero(Reduced(cs, draws[j]))
    decreases 256 - i
  {
    if i < 256 && AllZero(Reduced(cs, draws[i])) {
      w := FirstNonzero(cs, draws, i + 1);
    } else {
      w := i;
    }
  }

  /** The scalar of one counter, from the relay secret on. */
  function CounterScalar(cs: Suite, relaySecret: Bytes, accountId: Bytes, counter: nat): Bytes
    requires cs.Valid() && counter < 256
  {
    var seed := cs.hmac(relaySecret, OPRF_SEED_INFO)[..32];
    Reduced(cs, cs.hmac(seed, OPRF_KEY_INFO + accountId + [Octet(counter)]))
  }

  /** The OPRF key is the scalar of the least counter, counting from 0, whose reduction is not zero. */
  lemma OprfKeyIsLeastCounter(cs: Suite, relaySecret: Bytes, accountId: Bytes, w: nat)
    requires cs.Valid() && relaySecret != [] && accountId != []
    requires w < 256 && !AllZero(CounterScalar(cs, relaySecret, accountId, w))
    requires forall c: nat :: c < w ==> AllZero(CounterScalar(cs, relaySecret, accountId, c))
    ensures DeriveOprfKey(cs, relaySecret, accountId) == Ok(CounterScalar(cs, relaySecret, accountId, w))
  {
    var seed := cs.hmac(relaySecret, OPRF_SEED_INFO)[..OPRF_SEED_LENGTH];
    forall c: nat | c < w
      ensures AllZero(OprfCandidate(cs, seed, accountId, c))
    {
      assert AllZero(CounterScalar(cs, relaySecret, accountId, c));
    }
    SmallestCounterWins(cs, seed, accountId, 0, w);
  }

  /** Empty inputs are refused; otherwise the derivation fails exactly when all 256 counters reduce to zero. */
  lemma OprfKeyFailsExactly(cs: Suite, relaySecret: Bytes, accountId: Bytes)
    requires cs.Valid()
    ensures relaySecret == [] || accountId == [] ==> DeriveOprfKey(cs, relaySecret, accountId) == Err(InvalidInput)
    ensures relaySecret != [] && accountId != [] ==>
              (DeriveOprfKey(cs, relaySecret, accountId).Err?
               <==> forall c: nat :: c < 256 ==> AllZero(CounterScalar(cs, relaySecret, accountId, c)))
    ensures relaySecret != [] && accountId != [] && DeriveOprfKey(cs, relaySecret, accountId).Err? ==>
              DeriveOprfKey(cs, relaySecret, accountId).error == CryptoError
  {
    var seed := cs.hmac(relaySecret, OPRF_SEED_INFO)[..OPRF_SEED_LENGTH];
    OprfKeyFailsWithoutCandidates(cs, seed, accountId, 0);
    OprfErrorIsCrypto(cs, seed, accountId, 0);
    forall c: nat | c < 256
      ensures CounterScalar(cs, relaySecret, accountId, c) == OprfCandidate(cs, seed, accountId, c)
    {
    }
  }

  lemma {:induction false} OprfErrorIsCrypto(cs: Suite, oprfSeed: Bytes, accountId: Bytes, counter: nat)
    ensures var r := OprfKeyFrom(cs, oprfSeed, accountId, counter);
            r.Err? ==> r.error == CryptoError
    decreases 256 - counter
  {
    if counter < 256 {
      OprfErrorIsCrypto(cs, oprfSeed, accountId, counter + 1);
    }
  }

  // ---- Hashes of the account -----------------------------------------------------------------------

  /** Different account ids have different context hashes. */
  lemma AccountHashBinds(cs: Suite, id: Bytes, id': Bytes)
    requires ShaApart(cs, ACCOUNT_CONTEXT_BINDING + id, ACCOUNT_CONTEXT_BINDING + id')
    requires AccountHash(cs, id) == AccountHash(cs, id')
    ensures id == id'
  {
    SamePrefix(ACCOUNT_CONTEXT_BINDING, id, id');
  }

  /** Stand-in material belongs to one seed and one account id. */
  lemma FakeMaterialBinds(cs: Suite, seed: Bytes, id: Bytes, seed': Bytes, id': Bytes)
    requires |seed| == |seed'|
    requires ShaApart(cs, FAKE_CREDENTIALS_CONTEXT + seed + id, FAKE_CREDENTIALS_CONTEXT + seed' + id')
    requires FakeMaterial(cs, seed, id) == FakeMaterial(cs, seed', id')
    ensures seed == seed' && id == id'
  {
    var p := FAKE_CREDENTIALS_CONTEXT;
    assert p + seed + id == p + (seed + id) && p + seed' + id' == p + (seed' + id');
    SamePrefix(p, seed + id, seed' + id');
    assert seed == (seed + id)[..|seed|] && seed' == (seed' + id')[..|seed|];
    SamePrefix(seed, id, id');
  }

  // ---- Password and credential keys ----------------------------------------------------------------

  lemma RandomizedPasswordForm(cs: Suite, oprfOutput: Bytes, password: Bytes)
    requires cs.Valid()
    ensures DeriveRandomizedPassword(cs, oprfOutput, password)
            == if oprfOutput == [] || password == [] then Err(InvalidInput)
               else Ok(cs.argon2id(cs.sha512(KSF_CONTEXT + oprfOutput + password),
                                   cs.sha512(KSF_SALT_LABEL + oprfOutput)[..16]))
  {
  }

  lemma MaskingKeyForm(cs: Suite, randomizedPwd: Bytes)
    requires cs.Valid()
    ensures DeriveMaskingKey(cs, randomizedPwd)
            == if randomizedPwd == [] then Err(InvalidInput)
               else Ok(cs.hmac(cs.hmac(MASKING_KEY_INFO, randomizedPwd), MASKING_KEY_INFO + [1])[..32])
  {
    if randomizedPwd != [] {
      ExpandShort(cs, cs.hmac(MASKING_KEY_INFO, randomizedPwd), MASKING_KEY_INFO, 32);
    }
  }

  lemma ExportKeyForm(cs: Suite, randomizedPwd: Bytes, accountHash: Bytes)
    requires cs.Valid()
    ensures DeriveClientExportKey(cs, randomizedPwd, accountHash)
            == if randomizedPwd == [] || AllZero(accountHash) then Err(InvalidInput)
               else Ok(cs.hmac(cs.hmac(accountHash, randomizedPwd), CLIENT_EXPORT_KEY_INFO + [1])[..32])
  {
    if randomizedPwd != [] && !AllZero(accountHash) {
      ExpandShort(cs, cs.hmac(accountHash, randomizedPwd), CLIENT_EXPORT_KEY_INFO, 32);
    }
  }

  lemma EnvelopeKeyForm(cs: Suite, responderKey: Bytes, randomizedPwd: Bytes)
    requires cs.Valid() && randomizedPwd != []
    ensures EnvelopeKey(cs, responderKey, randomizedPwd)
            == Ok(cs.hmac(cs.hmac(ENVELOPE_CONTEXT + responderKey, randomizedPwd), ENVELOPE_CONTEXT + [1])[..32])
  {
    ExpandShort(cs, cs.hmac(ENVELOPE_CONTEXT + responderKey, randomizedPwd), ENVELOPE_CONTEXT, 32);
  }

  /** The pad depends on masking key, account hash, responder nonce and evaluated element, in these places. */
  lemma MaskingPadForm(cs: Suite, maskingKey: Bytes, nonce: Bytes, element: Bytes, accountHash: Bytes)
    requires cs.Valid()
    ensures MaskingPad(cs, maskingKey, nonce, element, accountHash)
            == if AllZero(maskingKey) || AllZero(accountHash) || |nonce| != 24 || |element| != 32
               then Err(InvalidInput)
               else Ok(ThreeBlocks(cs, cs.hmac(accountHash, maskingKey),
                                   CREDENTIAL_MASKING_INFO + nonce + element)[..136])
  {
    ExpandLong(cs, cs.hmac(accountHash, maskingKey), CREDENTIAL_MASKING_INFO + nonce + element);
  }

  lemma KeyPairForm(cs: Suite, seed: Bytes)
    requires cs.Valid() && seed != []
    ensures var scalar := cs.wideToScalar(cs.sha512(DERIVE_KEYPAIR_CONTEXT + seed));
            DeriveKeyPair(cs, seed)
            == if scalar == 0 then Err(InvalidInput) else Ok((cs.scalarBytes(scalar), cs.pointBytes(scalar)))
  {
    ZeroEncoding(cs, cs.wideToScalar(cs.sha512(DERIVE_KEYPAIR_CONTEXT + seed)));
  }

  /** The client's password key from an evaluated element, in group terms. */
  function PasswordKeyForm(cs: Suite, password: Bytes, blind: nat, element: nat): Bytes
    requires cs.Valid() && blind < cs.order && element < cs.order
  {
    var unblinded := cs.pointBytes(MulMod(Inverse(blind, cs.order), element, cs.order));
    var output := cs.sha512(OPRF_CONTEXT + [0x01] + password + unblinded);
    cs.argon2id(cs.sha512(KSF_CONTEXT + output + password), cs.sha512(KSF_SALT_LABEL + output)[..16])
  }

  lemma ClientPasswordKeyForm(cs: Suite, password: Bytes, blind: Bytes, evaluated: Bytes)
    requires cs.Valid()
    ensures ClientPasswordKey(cs, password, blind, evaluated).Ok?
            <==> password != [] && IsScalar(cs, blind) && IsPoint(cs, evaluated)
    ensures ClientPasswordKey(cs, password, blind, evaluated).Ok? ==>
              ClientPasswordKey(cs, password, blind, evaluated).value
              == PasswordKeyForm(cs, password, cs.scalarOf(blind).value, cs.pointOf(evaluated).value)
  {
    if password != [] && cs.scalarOf(blind).Some? {
      var b := cs.scalarOf(blind).value;
      if b != 0 {
        InverseCorrect(b, cs.order);
      }
      ScalarMultDefined(cs, cs.scalarBytes(Inverse(b, cs.order)), evaluated);
    }
  }

  // ---- The key schedule ----------------------------------------------------------------------------

  /** The combined secret of a session. */
  function Prk(cs: Suite, ikm: Bytes, sharedSecret: Bytes, transcript: Bytes): Bytes {
    cs.hmac(PQ_COMBINER_CONTEXT + cs.sha512(TRANSCRIPT_CONTEXT + transcript), ikm + sharedSecret)
  }

  lemma CombinerForm(cs: Suite, ikm: Bytes, sharedSecret: Bytes, transcriptHash: Bytes)
    requires cs.Valid()
    ensures CombineKeyMaterial(cs, ikm, sharedSecret, transcriptHash)
            == if |ikm| == 128 && |sharedSecret| == 32 && |transcriptHash| == 64
               then Ok(cs.hmac(PQ_COMBINER_CONTEXT + transcriptHash, ikm + sharedSecret)) else Err(InvalidInput)
  {
  }

  lemma WholeBlock(cs: Suite, prk: Bytes, info: Bytes)
    requires cs.Valid() && prk != []
    ensures Expand(cs, prk, info, 64) == Ok(cs.hmac(prk, info + [1]))
  {
    ExpandShort(cs, prk, info, 64);
    assert cs.hmac(prk, info + [1])[..64] == cs.hmac(prk, info + [1]);
  }

  /** Three labelled keys under one secret, and two MACs over the transcript itself. */
  lemma KeysForm(cs: Suite, ikm: Bytes, sharedSecret: Bytes, transcript: Bytes)
    requires cs.Valid() && transcript != [] && |ikm| == 128 && |sharedSecret| == 32
    ensures var prk := Prk(cs, ikm, sharedSecret, transcript);
            var responderMacKey := cs.hmac(prk, PQ_RESPONDER_MAC_INFO + [1]);
            var initiatorMacKey := cs.hmac(prk, PQ_INITIATOR_MAC_INFO + [1]);
            DeriveKeys(cs, ikm, sharedSecret, transcript)
            == Ok(Keys(cs.hmac(prk, PQ_SESSION_KEY_INFO + [1]), responderMacKey, cs.hmac(responderMacKey, transcript),
                       initiatorMacKey, cs.hmac(initiatorMacKey, transcript)))
  {
    var prk := Prk(cs, ikm, sharedSecret, transcript);
    CombinerForm(cs, ikm, sharedSecret, cs.sha512(TRANSCRIPT_CONTEXT + transcript));
    WholeBlock(cs, prk, PQ_SESSION_KEY_INFO);
    WholeBlock(cs, prk, PQ_RESPONDER_MAC_INFO);
    WholeBlock(cs, prk, PQ_INITIATOR_MAC_INFO);
  }

  /** The three labels differ, so the three keys come from three different messages. */
  lemma LabelsAreApart()
    ensures PQ_SESSION_KEY_INFO != PQ_RESPONDER_MAC_INFO && PQ_SESSION_KEY_INFO != PQ_INITIATOR_MAC_INFO
    ensures PQ_RESPONDER_MAC_INFO != PQ_INITIATOR_MAC_INFO && MASKING_KEY_INFO != CLIENT_EXPORT_KEY_INFO
  {
    assert |PQ_SESSION_KEY_INFO| == 28 && |PQ_RESPONDER_MAC_INFO| == 30 && |PQ_INITIATOR_MAC_INFO| == 30;
    assert PQ_RESPONDER_MAC_INFO[18] == Octet(82) && PQ_INITIATOR_MAC_INFO[18] == Octet(73);
    if Octet(82) == Octet(73) {
      OctetIsInjective(82, 73);
    }
    assert |MASKING_KEY_INFO| == 25 && |CLIENT_EXPORT_KEY_INFO| == 30;
  }

  /** One combined secret comes from one 4DH input, one KEM secret and one transcript hash. */
  lemma CombinerBinds(cs: Suite, c: Bytes, s: Bytes, t: Bytes, c': Bytes, s': Bytes, t': Bytes)
    requires cs.Valid() && CombineKeyMaterial(cs, c, s, t).Ok?
    requires CombineKeyMaterial(cs, c, s, t) == CombineKeyMaterial(cs, c', s', t')
    requires HmacApart(cs, PQ_COMBINER_CONTEXT + t, c + s, PQ_COMBINER_CONTEXT + t', c' + s')
    ensures c == c' && s == s' && t == t'
  {
    CombinerForm(cs, c, s, t);
    CombinerForm(cs, c', s', t');
    CombinerIsUnambiguous(c, s, t, c', s', t');
  }

  /** One session key comes from one 4DH input, one KEM secret and one transcript. */
  lemma SessionKeyBinds(cs: Suite, c: Bytes, s: Bytes, t: Bytes, c': Bytes, s': Bytes, t': Bytes)
    requires cs.Valid() && t != [] && t' != [] && |c| == |c'| == 128 && |s| == |s'| == 32
    requires DeriveKeys(cs, c, s, t).value.sessionKey == DeriveKeys(cs, c', s', t').value.sessionKey
    requires HmacApart(cs, Prk(cs, c, s, t), PQ_SESSION_KEY_INFO + [1], Prk(cs, c', s', t'), PQ_SESSION_KEY_INFO + [1])
    requires HmacApart(cs, PQ_COMBINER_CONTEXT + cs.sha512(TRANSCRIPT_CONTEXT + t), c + s,
                       PQ_COMBINER_CONTEXT + cs.sha512(TRANSCRIPT_CONTEXT + t'), c' + s')
    requires ShaApart(cs, TRANSCRIPT_CONTEXT + t, TRANSCRIPT_CONTEXT + t')
    ensures c == c' && s == s' && t == t'
  {
    KeysForm(cs, c, s, t);
    KeysForm(cs, c', s', t');
    CombinerIsUnambiguous(c, s, cs.sha512(TRANSCRIPT_CONTEXT + t), c', s', cs.sha512(TRANSCRIPT_CONTEXT + t'));
    SamePrefix(TRANSCRIPT_CONTEXT, t, t');
  }
}
