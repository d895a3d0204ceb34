/** The hypotheses of the honest-run theorem can all be met at once. */
module Witness {
  import opened Types
  import opened Suites
  import opened Kdf
  import opened Crypto
  import opened Oprf
  import opened Agreement
  import opened Schedule
  import opened HonestSessions
  import C = Correspondence
  import A = Agent
  import R = Relay

  function SomeDraws(): Draws { seq(256, _ => []) }

  function SomeRun(): Honest {
    Honest(R.Responder(OneByte(1), OneByte(1), Ones(32)), [0], [0], SomeDraws(), SomeDraws(), Zeros(24),
           A.Ke1Random(SomeDraws(), [], Zeros(24), SomeDraws()), R.Ke2Random(SomeDraws(), Zeros(24), []),
           0, 0, 0, 0, 0, 0)
  }

  /** Every hash of the witness suite is a string of ones, and so is everything expanded from it. */
  lemma MaskingKeyIsNotZero(cs: Suite, randomizedPwd: Bytes)
    requires cs == WitnessSuite() && cs.Valid() && randomizedPwd != []
    ensures DeriveMaskingKey(cs, randomizedPwd).Ok? && !AllZero(DeriveMaskingKey(cs, randomizedPwd).value)
  {
    MaskingKeyDefined(cs, randomizedPwd);
    var prk := Ones(64);
    assert Blocks(cs, prk, MASKING_KEY_INFO, 1) == Blocks(cs, prk, MASKING_KEY_INFO, 0) + Ones(64);
    assert DeriveMaskingKey(cs, randomizedPwd).value[0] == 1;
  }

  /** The first draw is already a non-zero scalar. */
  lemma DrawsSucceed(cs: Suite)
    requires cs == WitnessSuite() && cs.Valid()
    ensures RandomNonzeroScalar(cs, SomeDraws()) == Ok(OneByte(1))
    ensures IsKeyPair(cs, OneByte(1), OneByte(1))
  {
    assert OneByte(1)[0] == 1;
    assert DrawnScalar(cs, SomeDraws()[0]) == OneByte(1);
    assert NonzeroScalarFrom(cs, SomeDraws(), 0) == Ok(OneByte(1));
    ZeroEncoding(cs, 1);
  }

  /** Nothing about the account is degenerate. */
  lemma AccountSucceeds(cs: Suite, seed: Bytes, accountId: Bytes)
    requires cs == WitnessSuite() && cs.Valid() && seed != [] && accountId != []
    ensures DeriveOprfKey(cs, seed, accountId) == Ok(OneByte(1))
    ensures R.FakeSelection(cs, seed, accountId).Ok? && !AllZero(AccountHash(cs, accountId))
  {
    assert OneByte(1)[0] == 1 && Ones(64)[0] == 1;
    MaskingKeyDefined(cs, FakeMaterial(cs, seed, accountId));
  }

  /** In any suite, the sample run is acceptable once its draws, its account and its password are. */
  lemma SampleIsAcceptable(cs: Suite)
    requires cs.Valid() && cs.KemRoundTrip([], []) && RandomNonzeroScalar(cs, SomeDraws()).Ok?
    requires IsKeyPair(cs, OneByte(1), OneByte(1)) && PasswordPoint(cs, [0]) != 0
    requires DeriveOprfKey(cs, Ones(32), [0]).Ok? && R.FakeSelection(cs, Ones(32), [0]).Ok?
    requires !AllZero(AccountHash(cs, [0])) && PasswordKey(cs, [0], Ones(32), [0]).Ok?
    requires var k := DeriveMaskingKey(cs, PasswordKey(cs, [0], Ones(32), [0]).value); k.Ok? && !AllZero(k.value)
    ensures Acceptable(cs, SomeRun())
  {
  }

  /** A relay restored from these keys is accepted, and an honest run with it is acceptable. */
  lemma HonestRunExists()
    ensures WitnessSuite().Valid() && Acceptable(WitnessSuite(), SomeRun())
    ensures var r := SomeRun().responder;
            R.FromKeys(WitnessSuite(), r.privateKey, r.publicKey, r.oprfSeed) == Ok(r)
  {
    WitnessSuiteIsValid();
    var cs := WitnessSuite();
    DrawsSucceed(cs);
    AccountSucceeds(cs, Ones(32), [0]);
    PasswordKeyIndependentOfBlind(cs, [0], OneByte(1), Ones(32), [0]);
    MaskingKeyIsNotZero(cs, PasswordKey(cs, [0], Ones(32), [0]).value);
    SampleIsAcceptable(cs);
    assert Ones(32)[0] == 1;
    R.FromKeysAccepts(cs, OneByte(1), OneByte(1), Ones(32));
  }

  /** Its session keys are not zero. */
  lemma SessionKeyIsNotZero(cs: Suite, ikm: Bytes, sharedSecret: Bytes, transcript: Bytes)
    requires cs == WitnessSuite() && cs.Valid() && transcript != []
    requires DeriveKeys(cs, ikm, sharedSecret, transcript).Ok?
    ensures !AllZero(DeriveKeys(cs, ikm, sharedSecret, transcript).value.sessionKey)
  {
    var prk := Ones(64);
    assert Blocks(cs, prk, PQ_SESSION_KEY_INFO, 1) == Blocks(cs, prk, PQ_SESSION_KEY_INFO, 0) + Ones(64);
    assert DeriveKeys(cs, ikm, sharedSecret, transcript).value.sessionKey[0] == 1;
  }

  /** So there is a run in which a relay session completes and every hypothesis of the correspondence theorem holds. */
  lemma CompletedRunExists() returns (steps: seq<C.Step>)
    ensures WitnessSuite().Valid() && C.ProperRun(WitnessSuite(), steps)
    ensures var cs := WitnessSuite();
            var w := C.Run(cs, steps);
            && C.KemWorks(cs, w) && C.NoMacCollision(cs, w) && C.FreshAgents(w) && C.FreshRelays(w)
            && C.CompletedOn(w, 0, 0)
  {
    HonestRunExists();
    var cs, h := WitnessSuite(), SomeRun();
    var y := RelayKeysOf(cs, h);
    RelayHalfOf(cs, h);
    var ikm := R.RelayIkm(cs, h.responder.privateKey, y.ephemeral, y.session.initiatorKey,
                          y.session.initiatorEphemeral).value;
    SessionKeyIsNotZero(cs, ikm, y.sharedSecret, y.session.Transcript());
    HonestLoginCorresponds(cs, h);
    steps := HonestSteps(cs, h, y);
  }
}
