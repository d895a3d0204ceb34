/** The oblivious PRF: blind, evaluate, finalize, and the relay's in-memory evaluator. */
module Oprf {
  import opened Types
  import opened PrimeField
  import opened Suites
  import opened Crypto

  const HASH_TO_GROUP_DOMAIN: byte := 0x00
  const FINALIZE_DOMAIN: byte := 0x01

  /** The group element a password hashes to. */
  function PasswordPoint(cs: Suite, input: Bytes): nat {
    cs.uniformToPoint(cs.sha512(OPRF_CONTEXT + [HASH_TO_GROUP_DOMAIN] + input))
  }

  function HashToGroup(cs: Suite, input: Bytes): Result<Bytes> {
    if input == [] then Err(InvalidInput) else Ok(cs.pointBytes(PasswordPoint(cs, input)))
  }

  /** Blinding with an already drawn scalar. */
  function BlindWith(cs: Suite, input: Bytes, blind: Bytes): Result<Bytes>
    requires cs.Valid()
  {
    var element :- HashToGroup(cs, input);
    ScalarMult(cs, blind, element)
  }

  function Evaluate(cs: Suite, blinded: Bytes, key: Bytes): Result<Bytes>
    requires cs.Valid()
  {
    ScalarMult(cs, key, blinded)
  }

  function Finalize(cs: Suite, input: Bytes, blind: Bytes, evaluated: Bytes): (r: Result<Bytes>)
    requires cs.Valid()
    ensures r.Ok? ==> |r.value| == HASH_LENGTH && input != []
  {
    if input == [] then Err(InvalidInput) else
      var inverse :- ScalarInvert(cs, blind);
      var unblinded :- ScalarMult(cs, inverse, evaluated);
      Ok(cs.sha512(OPRF_CONTEXT + [FINALIZE_DOMAIN] + input + unblinded))
  }

  function EvaluateOprf(cs: Suite, oprfSeed: Bytes, blinded: Bytes, accountId: Bytes): Result<Bytes>
    requires cs.Valid()
  {
    var key :- DeriveOprfKey(cs, oprfSeed, accountId);
    Evaluate(cs, blinded, key)
  }

  function FakeMaterial(cs: Suite, oprfSeed: Bytes, accountId: Bytes): Bytes {
    cs.sha512(FAKE_CREDENTIALS_CONTEXT + oprfSeed + accountId)
  }

  // ---- The unblinded reference -----------------------------------------------------------------

  /** The PRF value with no blinding at all: the hash of the input and key * H(input). */
  function PrfOutput(cs: Suite, input: Bytes, key: nat): Bytes
    requires cs.Valid()
  {
    cs.sha512(OPRF_CONTEXT + [FINALIZE_DOMAIN] + input
              + cs.pointBytes(MulMod(key, PasswordPoint(cs, input), cs.order)))
  }

  lemma BlindDefined(cs: Suite, input: Bytes, blind: Bytes)
    requires cs.Valid() && input != [] && PasswordPoint(cs, input) != 0 && IsScalar(cs, blind)
    ensures BlindWith(cs, input, blind).Ok?
    ensures var b := BlindWith(cs, input, blind).value;
            && IsPoint(cs, b) && |b| == PUBLIC_KEY_LENGTH
            && cs.pointOf(b).value == MulMod(cs.scalarOf(blind).value, PasswordPoint(cs, input), cs.order)
  {
    ScalarMultDefined(cs, blind, cs.pointBytes(PasswordPoint(cs, input)));
  }

  /** Blind, evaluate and finalize give the unblinded PRF value, whatever the blind was. */
  lemma BlindCancels(cs: Suite, input: Bytes, blind: Bytes, key: Bytes)
    requires cs.Valid() && input != [] && PasswordPoint(cs, input) != 0
    requires IsScalar(cs, blind) && IsScalar(cs, key)
    ensures BlindWith(cs, input, blind).Ok?
    ensures var b := BlindWith(cs, input, blind).value;
            && Evaluate(cs, b, key).Ok?
            && IsPoint(cs, Evaluate(cs, b, key).value) && |Evaluate(cs, b, key).value| == PUBLIC_KEY_LENGTH
            && Finalize(cs, input, blind, Evaluate(cs, b, key).value)
               == Ok(PrfOutput(cs, input, cs.scalarOf(key).value))
  {
    var q, r, k, h := cs.order, cs.scalarOf(blind).value, cs.scalarOf(key).value, PasswordPoint(cs, input);
    BlindDefined(cs, input, blind);
    var b := BlindWith(cs, input, blind).value;
    ScalarMultDefined(cs, key, b);
    var e := Evaluate(cs, b, key).value;
    InverseCorrect(r, q);
    var inverse := ScalarInvert(cs, blind).value;
    assert cs.scalarOf(inverse) == Some(Inverse(r, q));
    ScalarMultDefined(cs, inverse, e);
    Unblind(r, k, h, q);
  }

  /** What the client's randomized password is, as a function of password, relay seed and account id. */
  function PasswordKey(cs: Suite, secureKey: Bytes, oprfSeed: Bytes, accountId: Bytes): Result<Bytes>
    requires cs.Valid()
  {
    var key :- DeriveOprfKey(cs, oprfSeed, accountId);
    if cs.scalarOf(key).None? then Err(CryptoError)
    else DeriveRandomizedPassword(cs, PrfOutput(cs, secureKey, cs.scalarOf(key).value), secureKey)
  }

  /** The randomized password the agent computes from an evaluated element. */
  function ClientPasswordKey(cs: Suite, secureKey: Bytes, blind: Bytes, evaluated: Bytes): Result<Bytes>
    requires cs.Valid()
  {
    var output :- Finalize(cs, secureKey, blind, evaluated);
    DeriveRandomizedPassword(cs, output, secureKey)
  }

  lemma OprfKeyWellFormed(cs: Suite, oprfSeed: Bytes, accountId: Bytes)
    requires cs.Valid()
    ensures var r := DeriveOprfKey(cs, oprfSeed, accountId);
            r.Ok? ==> IsScalar(cs, r.value) && |r.value| == PRIVATE_KEY_LENGTH
  {
    if oprfSeed != [] && accountId != [] {
      OprfKeyIsScalar(cs, cs.hmac(oprfSeed, OPRF_SEED_INFO)[..OPRF_SEED_LENGTH], accountId, 0);
    }
  }

  /** Registration and every later login reach one and the same randomized password. */
  lemma PasswordKeyIndependentOfBlind(cs: Suite, secureKey: Bytes, blind: Bytes, oprfSeed: Bytes, accountId: Bytes)
    requires cs.Valid() && secureKey != [] && PasswordPoint(cs, secureKey) != 0 && IsScalar(cs, blind)
    requires DeriveOprfKey(cs, oprfSeed, accountId).Ok?
    ensures BlindWith(cs, secureKey, blind).Ok?
    ensures var e := EvaluateOprf(cs, oprfSeed, BlindWith(cs, secureKey, blind).value, accountId);
            && e.Ok? && IsPoint(cs, e.value) && |e.value| == PUBLIC_KEY_LENGTH
            && ClientPasswordKey(cs, secureKey, blind, e.value) == PasswordKey(cs, secureKey, oprfSeed, accountId)
    ensures PasswordKey(cs, secureKey, oprfSeed, accountId).Ok?
    ensures |PasswordKey(cs, secureKey, oprfSeed, accountId).value| == HASH_LENGTH
  {
    OprfKeyWellFormed(cs, oprfSeed, accountId);
    BlindCancels(cs, secureKey, blind, DeriveOprfKey(cs, oprfSeed, accountId).value);
  }

  /** The durable client export key is one function of password, relay seed and account id. */
  lemma ExportKeyIndependentOfBlind(
    cs: Suite, secureKey: Bytes, blind1: Bytes, blind2: Bytes, oprfSeed: Bytes, accountId: Bytes)
    requires cs.Valid() && secureKey != [] && PasswordPoint(cs, secureKey) != 0
    requires IsScalar(cs, blind1) && IsScalar(cs, blind2)
    requires DeriveOprfKey(cs, oprfSeed, accountId).Ok?
    ensures BlindWith(cs, secureKey, blind1).Ok? && BlindWith(cs, secureKey, blind2).Ok?
    ensures var e1 := EvaluateOprf(cs, oprfSeed, BlindWith(cs, secureKey, blind1).value, accountId);
            var e2 := EvaluateOprf(cs, oprfSeed, BlindWith(cs, secureKey, blind2).value, accountId);
            && e1.Ok? && e2.Ok?
            && var k1 := ClientPasswordKey(cs, secureKey, blind1, e1.value);
               var k2 := ClientPasswordKey(cs, secureKey, blind2, e2.value);
            && k1.Ok? && k2.Ok?
            && DeriveClientExportKey(cs, k1.value, AccountHash(cs, accountId))
               == DeriveClientExportKey(cs, k2.value, AccountHash(cs, accountId))
  {
    PasswordKeyIndependentOfBlind(cs, secureKey, blind1, oprfSeed, accountId);
    PasswordKeyIndependentOfBlind(cs, secureKey, blind2, oprfSeed, accountId);
  }
}
