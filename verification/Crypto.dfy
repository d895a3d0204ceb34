/** Group operations on encoded scalars and points, and the derivations built on HMAC and HKDF. */
module Crypto {
  import opened Types
  import opened ByteOps
  import opened PrimeField
  import opened Suites
  import opened Kdf

  // ---- Scalars and points ----------------------------------------------------------------------

  function DecodeNonIdentityPoint(cs: Suite, point: Bytes, err: OpaqueError): Result<nat> {
    if AllZero(point) then Err(err)
    else if cs.pointOf(point).None? then Err(err)
    else if cs.pointOf(point).value == 0 then Err(err)
    else Ok(cs.pointOf(point).value)
  }

  function ScalarMult(cs: Suite, scalar: Bytes, point: Bytes): Result<Bytes>
    requires cs.Valid()
  {
    if cs.scalarOf(scalar).None? then Err(CryptoError) else
      var s := cs.scalarOf(scalar).value;
      if AllZero(cs.scalarBytes(s)) then Err(CryptoError) else
        var p :- DecodeNonIdentityPoint(cs, point, CryptoError);
        var product := MulMod(s, p, cs.order);
        if product == 0 then Err(CryptoError) else Ok(cs.pointBytes(product))
  }

  function ScalarMultBase(cs: Suite, scalar: Bytes): Result<Bytes>
    requires cs.Valid()
  {
    if cs.scalarOf(scalar).None? then Err(CryptoError) else
      var s := cs.scalarOf(scalar).value;
      if s == 0 then Err(CryptoError) else Ok(cs.pointBytes(s))
  }

  function ScalarInvert(cs: Suite, scalar: Bytes): Result<Bytes>
    requires cs.Valid()
  {
    if cs.scalarOf(scalar).None? then Err(CryptoError) else
      var inverse := Inverse(cs.scalarOf(scalar).value, cs.order);
      if inverse == 0 then Err(CryptoError) else Ok(cs.scalarBytes(inverse))
  }

  function ValidateRistrettoPoint(cs: Suite, point: Bytes): Check {
    if |point| != PUBLIC_KEY_LENGTH then Fail(InvalidInput) else
      match DecodeNonIdentityPoint(cs, point, InvalidInput)
      case Ok(_) => Pass
      case Err(e) => Fail(e)
  }

  function ValidatePublicKey(cs: Suite, key: Bytes): Check {
    if |key| != PUBLIC_KEY_LENGTH then Fail(InvalidPublicKey) else
      match DecodeNonIdentityPoint(cs, key, InvalidPublicKey)
      case Ok(_) => Pass
      case Err(e) => Fail(e)
  }

  /** The encodings of the non-zero scalars. */
  predicate IsScalar(cs: Suite, b: Bytes) { cs.scalarOf(b).Some? && cs.scalarOf(b).value != 0 }

  /** The encodings of the non-identity group elements. */
  predicate IsPoint(cs: Suite, b: Bytes) { cs.pointOf(b).Some? && cs.pointOf(b).value != 0 }

  /** `pk` is the base point multiplied by `sk`. */
  predicate IsKeyPair(cs: Suite, sk: Bytes, pk: Bytes)
    requires cs.Valid()
  {
    ScalarMultBase(cs, sk) == Ok(pk)
  }

  /** A zero encoding belongs to zero only. */
  lemma ZeroEncoding(cs: Suite, n: nat)
    requires cs.Valid() && n < cs.order
    ensures AllZero(cs.scalarBytes(n)) <==> n == 0
    ensures AllZero(cs.pointBytes(n)) <==> n == 0
  {
    if AllZero(cs.scalarBytes(n)) {
      AllZeroIsZeros(cs.scalarBytes(n));
      assert cs.scalarOf(cs.scalarBytes(0)) == Some(0);
    }
    if AllZero(cs.pointBytes(n)) {
      AllZeroIsZeros(cs.pointBytes(n));
      assert cs.pointOf(cs.pointBytes(0)) == Some(0);
    }
  }

  /** A public key is accepted exactly when it encodes a non-identity element. */
  lemma ValidationAccepts(cs: Suite, b: Bytes)
    requires cs.Valid()
    ensures ValidatePublicKey(cs, b).Pass? <==> IsPoint(cs, b)
    ensures ValidateRistrettoPoint(cs, b).Pass? <==> IsPoint(cs, b)
    ensures DecodeNonIdentityPoint(cs, b, CryptoError).Ok? <==> IsPoint(cs, b)
  {
    if cs.pointOf(b).Some? {
      ZeroEncoding(cs, cs.pointOf(b).value);
    }
  }

  /** Scalar multiplication succeeds exactly on a non-zero scalar and a non-identity point. */
  lemma ScalarMultDefined(cs: Suite, scalar: Bytes, point: Bytes)
    requires cs.Valid()
    ensures ScalarMult(cs, scalar, point).Ok? <==> IsScalar(cs, scalar) && IsPoint(cs, point)
    ensures ScalarMult(cs, scalar, point).Err? ==> ScalarMult(cs, scalar, point).error == CryptoError
    ensures ScalarMult(cs, scalar, point).Ok? ==>
              && IsPoint(cs, ScalarMult(cs, scalar, point).value)
              && |ScalarMult(cs, scalar, point).value| == PUBLIC_KEY_LENGTH
              && cs.pointOf(ScalarMult(cs, scalar, point).value).value
                 == MulMod(cs.scalarOf(scalar).value, cs.pointOf(point).value, cs.order)
  {
    ValidationAccepts(cs, point);
    if cs.scalarOf(scalar).Some? {
      var s := cs.scalarOf(scalar).value;
      ZeroEncoding(cs, s);
      if s != 0 && IsPoint(cs, point) {
        NoZeroDivisors(s, cs.pointOf(point).value, cs.order);
      }
    }
  }

  lemma ScalarMultBaseDefined(cs: Suite, scalar: Bytes)
    requires cs.Valid()
    ensures ScalarMultBase(cs, scalar).Ok? <==> IsScalar(cs, scalar)
    ensures ScalarMultBase(cs, scalar).Ok? ==>
              && IsPoint(cs, ScalarMultBase(cs, scalar).value)
              && |ScalarMultBase(cs, scalar).value| == PUBLIC_KEY_LENGTH
              && cs.pointOf(ScalarMultBase(cs, scalar).value) == cs.scalarOf(scalar)
  {
  }

  /** Mirrored Diffie-Hellman: each side multiplies its own scalar into the other's public key. */
  lemma DiffieHellmanMirrors(cs: Suite, a: Bytes, aPub: Bytes, b: Bytes, bPub: Bytes)
    requires cs.Valid() && IsKeyPair(cs, a, aPub) && IsKeyPair(cs, b, bPub)
    ensures ScalarMult(cs, a, bPub).Ok?
    ensures ScalarMult(cs, a, bPub) == ScalarMult(cs, b, aPub)
  {
    ScalarMultBaseDefined(cs, a);
    ScalarMultBaseDefined(cs, b);
    ScalarMultDefined(cs, a, bPub);
    ScalarMultDefined(cs, b, aPub);
    MulModCommutes(cs.scalarOf(a).value, cs.scalarOf(b).value, cs.order);
  }

  // ---- Scalars by rejection --------------------------------------------------------------------

  /** The wide random strings a scalar draw may consume. */
  type Draws = d: seq<Bytes> | |d| == 256 witness seq(256, _ => [])

  function DrawnScalar(cs: Suite, wide: Bytes): Bytes { cs.scalarBytes(cs.wideToScalar(wide)) }

  function NonzeroScalarFrom(cs: Suite, draws: Draws, i: nat): Result<Bytes>
    decreases 256 - i
  {
    if i >= 256 then Err(CryptoError)
    else if !AllZero(DrawnScalar(cs, draws[i])) then Ok(DrawnScalar(cs, draws[i]))
    else NonzeroScalarFrom(cs, draws, i + 1)
  }

  /** The first of at most 256 draws that does not reduce to zero. */
  function RandomNonzeroScalar(cs: Suite, draws: Draws): (r: Result<Bytes>)
    requires cs.Valid()
    ensures r.Ok? ==> IsScalar(cs, r.value) && |r.value| == PRIVATE_KEY_LENGTH
  {
    NonzeroScalarIsScalar(cs, draws, 0);
    NonzeroScalarFrom(cs, draws, 0)
  }

  lemma {:induction false} NonzeroScalarIsScalar(cs: Suite, draws: Draws, i: nat)
    requires cs.Valid()
    ensures var r := NonzeroScalarFrom(cs, draws, i);
            && (r.Ok? ==> IsScalar(cs, r.value) && |r.value| == PRIVATE_KEY_LENGTH)
            && (r.Err? ==> r.error == CryptoError)
    decreases 256 - i
  {
    if i < 256 {
      ZeroEncoding(cs, cs.wideToScalar(draws[i]));
      NonzeroScalarIsScalar(cs, draws, i + 1);
    }
  }

  /** The sampling loop. */
  method DrawNonzeroScalar(cs: Suite, draws: Draws) returns (r: Result<Bytes>)
    requires cs.Valid()
    ensures r == RandomNonzeroScalar(cs, draws)
  {
    for i := 0 to 256
      invariant RandomNonzeroScalar(cs, draws) == NonzeroScalarFrom(cs, draws, i)
    {
      var bytes := DrawnScalar(cs, draws[i]);
      var zero := IsAllZero(bytes);
      if !zero {
        return Ok(bytes);
      }
    }
    r := Err(CryptoError);
  }

  /** The scalar tried at one counter value of the OPRF key derivation. */
  function OprfCandidate(cs: Suite, oprfSeed: Bytes, accountId: Bytes, counter: nat): Bytes
    requires counter < 256
  {
    DrawnScalar(cs, cs.hmac(oprfSeed, OPRF_KEY_INFO + accountId + [Octet(counter)]))
  }

  function OprfKeyFrom(cs: Suite, oprfSeed: Bytes, accountId: Bytes, counter: nat): Result<Bytes>
    decreases 256 - counter
  {
    if counter >= 256 then Err(CryptoError)
    else if !AllZero(OprfCandidate(cs, oprfSeed, accountId, counter)) then
      Ok(OprfCandidate(cs, oprfSeed, accountId, counter))
    else OprfKeyFrom(cs, oprfSeed, accountId, counter + 1)
  }

  /** The per-account OPRF key: a function of the relay secret and the account id alone. */
  function DeriveOprfKey(cs: Suite, relaySecret: Bytes, accountId: Bytes): Result<Bytes>
    requires cs.Valid()
  {
    if relaySecret == [] || accountId == [] then Err(InvalidInput)
    else OprfKeyFrom(cs, cs.hmac(relaySecret, OPRF_SEED_INFO)[..OPRF_SEED_LENGTH], accountId, 0)
  }

  lemma {:induction false} OprfKeyIsScalar(cs: Suite, oprfSeed: Bytes, accountId: Bytes, counter: nat)
    requires cs.Valid()
    ensures var r := OprfKeyFrom(cs, oprfSeed, accountId, counter);
            r.Ok? ==> IsScalar(cs, r.value) && |r.value| == PRIVATE_KEY_LENGTH
    decreases 256 - counter
  {
    if counter < 256 {
      var wide := cs.hmac(oprfSeed, OPRF_KEY_INFO + accountId + [Octet(counter)]);
      ZeroEncoding(cs, cs.wideToScalar(wide));
      OprfKeyIsScalar(cs, oprfSeed, accountId, counter + 1);
    }
  }

  /** The smallest counter with a non-zero scalar wins. */
  lemma {:induction false} SmallestCounterWins(
    cs: Suite, oprfSeed: Bytes, accountId: Bytes, counter: nat, winner: nat)
    requires counter <= winner < 256 && !AllZero(OprfCandidate(cs, oprfSeed, accountId, winner))
    requires forall c: nat :: counter <= c < winner ==> AllZero(OprfCandidate(cs, oprfSeed, accountId, c))
    ensures OprfKeyFrom(cs, oprfSeed, accountId, counter) == Ok(OprfCandidate(cs, oprfSeed, accountId, winner))
    decreases 256 - counter
  {
    if counter < winner {
      SmallestCounterWins(cs, oprfSeed, accountId, counter + 1, winner);
    }
  }

  /** Derivation fails exactly when no counter gives a non-zero scalar. */
  lemma {:induction false} OprfKeyFailsWithoutCandidates(cs: Suite, oprfSeed: Bytes, accountId: Bytes, counter: nat)
    ensures OprfKeyFrom(cs, oprfSeed, accountId, counter).Err?
            <==> forall c: nat :: counter <= c < 256 ==> AllZero(OprfCandidate(cs, oprfSeed, accountId, c))
    decreases 256 - counter
  {
    if counter < 256 {
      OprfKeyFailsWithoutCandidates(cs, oprfSeed, accountId, counter + 1);
    }
  }

  /** The counter loop. */
  method ComputeOprfKey(cs: Suite, relaySecret: Bytes, accountId: Bytes) returns (r: Result<Bytes>)
    requires cs.Valid()
    ensures r == DeriveOprfKey(cs, relaySecret, accountId)
  {
    if relaySecret == [] || accountId == [] {
      return Err(InvalidInput);
    }
    var seed := cs.hmac(relaySecret, OPRF_SEED_INFO)[..OPRF_SEED_LENGTH];
    for counter: nat := 0 to 256
      invariant DeriveOprfKey(cs, relaySecret, accountId) == OprfKeyFrom(cs, seed, accountId, counter)
    {
      var key := OprfCandidate(cs, seed, accountId, counter);
      var zero := IsAllZero(key);
      if !zero {
        return Ok(key);
      }
    }
    r := Err(CryptoError);
  }

  /** A key pair derived from a seed; fails when the seed reduces to the zero scalar. */
  function DeriveKeyPair(cs: Suite, seed: Bytes): Result<(Bytes, Bytes)>
    requires cs.Valid()
  {
    if seed == [] then Err(InvalidInput) else
      var scalar := cs.wideToScalar(cs.sha512(DERIVE_KEYPAIR_CONTEXT + seed));
      if AllZero(cs.scalarBytes(scalar)) then Err(InvalidInput)
      else Ok((cs.scalarBytes(scalar), cs.pointBytes(scalar)))
  }

  // ---- Password and masking derivations --------------------------------------------------------

  function AccountHash(cs: Suite, accountId: Bytes): Bytes {
    cs.sha512(ACCOUNT_CONTEXT_BINDING + accountId)
  }

  function DeriveRandomizedPassword(cs: Suite, oprfOutput: Bytes, secureKey: Bytes): Result<Bytes>
    requires cs.Valid()
  {
    if oprfOutput == [] || secureKey == [] then Err(InvalidInput) else
      var input := cs.sha512(KSF_CONTEXT + oprfOutput + secureKey);
      var salt := cs.sha512(KSF_SALT_LABEL + oprfOutput)[..16];
      Ok(cs.argon2id(input, salt))
  }

  function DeriveClientExportKey(cs: Suite, randomizedPwd: Bytes, accountHash: Bytes): Result<Bytes>
    requires cs.Valid()
  {
    if randomizedPwd == [] || AllZero(accountHash) then Err(InvalidInput) else
      var prk :- Extract(cs, accountHash, randomizedPwd);
      Expand(cs, prk, CLIENT_EXPORT_KEY_INFO, EXPORT_KEY_LENGTH)
  }

  function DeriveMaskingKey(cs: Suite, randomizedPwd: Bytes): Result<Bytes>
    requires cs.Valid()
  {
    if randomizedPwd == [] then Err(InvalidInput) else
      var prk :- Extract(cs, MASKING_KEY_INFO, randomizedPwd);
      Expand(cs, prk, MASKING_KEY_INFO, MASKING_KEY_LENGTH)
  }

  lemma MaskingKeyDefined(cs: Suite, randomizedPwd: Bytes)
    requires cs.Valid() && randomizedPwd != []
    ensures DeriveMaskingKey(cs, randomizedPwd).Ok?
    ensures |DeriveMaskingKey(cs, randomizedPwd).value| == MASKING_KEY_LENGTH
  {
  }

  predicate MaskingAllowed(maskingKey: Bytes, nonce: Bytes, element: Bytes, accountHash: Bytes) {
    !AllZero(maskingKey) && |nonce| == NONCE_LENGTH && |element| == PUBLIC_KEY_LENGTH && !AllZero(accountHash)
  }

  function MaskingPad(cs: Suite, maskingKey: Bytes, nonce: Bytes, element: Bytes, accountHash: Bytes): Result<Bytes>
    requires cs.Valid()
  {
    if !MaskingAllowed(maskingKey, nonce, element, accountHash) then Err(InvalidInput) else
      var prk :- Extract(cs, accountHash, maskingKey);
      Expand(cs, prk, CREDENTIAL_MASKING_INFO + nonce + element, ENVELOPE_LENGTH)
  }

  function MaskEnvelope(
    cs: Suite, maskingKey: Bytes, nonce: Bytes, element: Bytes, accountHash: Bytes, input: Bytes): (r: Result<Bytes>)
    requires cs.Valid() && |input| == ENVELOPE_LENGTH
    ensures r.Ok? ==> |r.value| == ENVELOPE_LENGTH
  {
    var pad :- MaskingPad(cs, maskingKey, nonce, element, accountHash);
    Ok(Xor(input, pad))
  }

  /** Masking is defined by its guard alone, and applying it twice gives the input back. */
  lemma MaskingIsAnInvolution(
    cs: Suite, maskingKey: Bytes, nonce: Bytes, element: Bytes, accountHash: Bytes, input: Bytes)
    requires cs.Valid() && |input| == ENVELOPE_LENGTH
    ensures var once := MaskEnvelope(cs, maskingKey, nonce, element, accountHash, input);
            && (once.Ok? <==> MaskingAllowed(maskingKey, nonce, element, accountHash))
            && (once.Err? ==> once.error == InvalidInput)
            && (once.Ok? ==> MaskEnvelope(cs, maskingKey, nonce, element, accountHash, once.value) == Ok(input))
  {
    var pad := MaskingPad(cs, maskingKey, nonce, element, accountHash);
    if pad.Ok? {
      XorInvolution(input, pad.value);
    }
  }

  /** The XOR loop over the envelope, writing the caller's buffer only on success. */
  method MaskCredentialEnvelope(
    cs: Suite, maskingKey: Bytes, nonce: Bytes, element: Bytes, accountHash: Bytes, input: Bytes, output: array<byte>)
    returns (r: Check)
    requires cs.Valid() && |input| == output.Length == ENVELOPE_LENGTH
    modifies output
    ensures r.Pass? <==> MaskEnvelope(cs, maskingKey, nonce, element, accountHash, input).Ok?
    ensures r.Pass? ==> MaskEnvelope(cs, maskingKey, nonce, element, accountHash, input) == Ok(output[..])
    ensures r.Fail? ==> MaskEnvelope(cs, maskingKey, nonce, element, accountHash, input) == Err(r.error)
    ensures r.Fail? ==> output[..] == old(output[..])
  {
    var zeroKey := IsAllZero(maskingKey);
    var zeroHash := IsAllZero(accountHash);
    if zeroKey || |nonce| != NONCE_LENGTH || |element| != PUBLIC_KEY_LENGTH || zeroHash {
      return Fail(InvalidInput);
    }
    var prk := cs.hmac(accountHash, maskingKey);
    var pad := new byte[ENVELOPE_LENGTH];
    r := KeyDerivationExpand(cs, prk, CREDENTIAL_MASKING_INFO + nonce + element, pad);
    XorInto(output, input, pad);
  }
}
