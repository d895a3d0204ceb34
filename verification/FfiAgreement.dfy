/** The honest-run theorem for admitted calls: what the transactions of the two parties return. */
module FfiAgreement {
  import opened Types
  import opened Suites
  import opened Wire
  import opened Agreement
  import A = Agent
  import R = Relay
  import AR = AgentRuns
  import RR = RelayRuns
  import AF = AgentFfi
  import RF = RelayFfi

  // ---- The nine calls of a run ---------------------------------------------------------------------

  function RequestCall(h: Honest): AR.Call {
    AR.Call(AR.Request(h.password, h.keyDraws, h.blindDraws), 0, h.requestedAt)
  }

  function FinalizeCall(h: Honest, response: Bytes): AR.Call {
    AR.Call(AR.FinalizeReg(h.responder.publicKey, response, h.envelopeNonce), h.finalizedAt, h.finalizedAt)
  }

  function Ke1Call(h: Honest): AR.Call {
    AR.Call(AR.Ke1Op(h.password, h.accountId, h.ke1Random), 0, h.ke1At)
  }

  function Ke2Call(h: Honest, ke1: Bytes, c: R.ResponderCredentials): RR.Call {
    RR.Ke2Call(h.responder, ke1, h.accountId, c, h.ke2Random, 0, h.ke2At)
  }

  function Ke3Call(h: Honest, ke2: Bytes): AR.Call {
    AR.Call(AR.Ke3Op(h.responder.publicKey, ke2), h.ke3At, h.ke3At)
  }

  function FinishAgentCall(): AR.Call { AR.Call(AR.FinishOp, 0, 0) }

  // ---- Each call runs its library step ---------------------------------------------------------------

  lemma RequestRuns(cs: Suite, h: Honest)
    requires cs.Valid()
    ensures var (s, r) := A.CreateRegistrationRequest(
                            cs, h.password, A.Blank(A.Created, 0), h.keyDraws, h.blindDraws, 0, h.requestedAt);
            r.Ok? ==> AF.RunStateful(cs, AF.NewHandle(0), RequestCall(h), AF.NoFault)
                      == AF.Transaction(AF.AgentHandleState(s, false), 0, RegistrationRequestWire(r.value))
  {
    var (s, r) := A.CreateRegistrationRequest(
                    cs, h.password, A.Blank(A.Created, 0), h.keyDraws, h.blindDraws, 0, h.requestedAt);
    assert AF.Perform(cs, AF.NewHandle(0), RequestCall(h))
        == AF.Performed(AF.AgentHandleState(s, false),
                        if r.Ok? then Ok(RegistrationRequestWire(r.value)) else Err(r.error));
  }

  lemma FinalizeRuns(cs: Suite, h: Honest, s: A.AgentState, response: Bytes)
    requires cs.Valid() && s.WellFormed() && |h.envelopeNonce| == NONCE_LENGTH
    ensures var (t, r) := A.FinalizeRegistration(
                            cs, h.responder.publicKey, response, s, h.envelopeNonce, h.finalizedAt);
            r.Ok? ==> AF.RunStateful(cs, AF.AgentHandleState(s, false), FinalizeCall(h, response), AF.NoFault)
                      == AF.Transaction(AF.AgentHandleState(t, false), 0, RegistrationRecordWire(r.value))
  {
    var (t, r) := A.FinalizeRegistration(cs, h.responder.publicKey, response, s, h.envelopeNonce, h.finalizedAt);
    assert AF.Perform(cs, AF.AgentHandleState(s, false), FinalizeCall(h, response))
        == AF.Performed(AF.AgentHandleState(t, false),
                        if r.Ok? then Ok(RegistrationRecordWire(r.value)) else Err(r.error));
  }

  lemma Ke1Runs(cs: Suite, h: Honest)
    requires cs.Valid() && h.ke1Random.WellFormed()
    ensures var (s, r) := A.GenerateKe1(cs, h.password, h.accountId, A.Blank(A.Created, 0), h.ke1Random, 0, h.ke1At);
            r.Ok? ==> AF.RunStateful(cs, AF.NewHandle(0), Ke1Call(h), AF.NoFault)
                      == AF.Transaction(AF.AgentHandleState(s, false), 0, Ke1Wire(r.value))
  {
    var (s, r) := A.GenerateKe1(cs, h.password, h.accountId, A.Blank(A.Created, 0), h.ke1Random, 0, h.ke1At);
    assert AF.Perform(cs, AF.NewHandle(0), Ke1Call(h))
        == AF.Performed(AF.AgentHandleState(s, false), if r.Ok? then Ok(Ke1Wire(r.value)) else Err(r.error));
  }

  lemma Ke3Runs(cs: Suite, h: Honest, s: A.AgentState, ke2: Bytes)
    requires cs.Valid() && s.WellFormed()
    ensures var (t, r) := A.GenerateKe3(cs, h.responder.publicKey, ke2, s, h.ke3At, h.ke3At);
            r.Ok? ==> AF.RunStateful(cs, AF.AgentHandleState(s, false), Ke3Call(h, ke2), AF.NoFault)
                      == AF.Transaction(AF.AgentHandleState(t, true), 0, Ke3Wire(r.value))
  {
    var (t, r) := A.GenerateKe3(cs, h.responder.publicKey, ke2, s, h.ke3At, h.ke3At);
    assert AF.Perform(cs, AF.AgentHandleState(s, false), Ke3Call(h, ke2))
        == AF.Performed(AF.AgentHandleState(t, r.Ok?), if r.Ok? then Ok(Ke3Wire(r.value)) else Err(r.error));
  }

  /** What a transaction returns for the result of its library step. */
  predicate Returns(code: int, output: Bytes, r: Result<Bytes>) {
    if r.Ok? then code == 0 && output == r.value else code == r.error.ToCInt() && output == []
  }

  lemma RelayFinishRuns(cs: Suite, s: R.RelayState, ke3: Bytes, now: nat)
    requires cs.Valid() && s.WellFormed()
    ensures var t := RF.RunStateful(cs, s, RR.FinishCall(ke3, now), RF.NoFault);
            Returns(t.code, t.output, R.ResponderFinish(ke3, s, now).1)
  {
  }

  lemma AgentFinishRuns(cs: Suite, s: A.AgentState)
    requires cs.Valid() && s.WellFormed()
    ensures var t := AF.RunStateful(cs, AF.AgentHandleState(s, true), FinishAgentCall(), AF.NoFault);
            var r := A.InitiatorFinish(s).1;
            Returns(t.code, t.output, if r.Ok? then Ok(r.value.sessionKey + r.value.exportKey) else Err(r.error))
  {
    var (s', r) := A.InitiatorFinish(s);
    assert AF.Perform(cs, AF.AgentHandleState(s, true), FinishAgentCall())
        == AF.Performed(AF.AgentHandleState(s', r.Err?),
                        if r.Ok? then Ok(r.value.sessionKey + r.value.exportKey) else Err(r.error));
  }

  /** A record the relay accepts is stored byte for byte and read back as the same credentials. */
  lemma RecordIsStored(cs: Suite, h: Honest, record: Bytes)
    requires R.BuildCredentials(cs, record, R.NewCredentials()).Ok?
    ensures RF.BuildCredentialsOutput(cs, record) == Ok(record)
    ensures RF.CheckRecord(cs, h.responder, Some(record))
            == RF.Credentials(R.BuildCredentials(cs, record, R.NewCredentials()).value)
  {
    RF.BuildCredentialsIsIdentity(cs, h.responder, record);
  }

  // ---- What each call gives ------------------------------------------------------------------------

  datatype CallName =
    | MakeRequest | MakeResponse | MakeRecord | MakeCredentials | MakeKe1 | MakeKe2 | MakeKe3 | EndRelay | EndAgent

  /** The transactions of one run, in order, and the credentials the relay reads from the stored record. */
  datatype Script = Script(
    request: AF.Transaction, response: RegistrationResponse, record: AF.Transaction,
    credentials: R.ResponderCredentials, ke1: AF.Transaction, ke2: RF.Transaction, ke3: AF.Transaction,
    relayEnd: RF.Transaction, agentEnd: AF.Transaction)

  function FreshRelay(): R.RelayState { R.Blank(R.Created, 0) }

  /** The handle is sound and the call on it gives this. */
  ghost predicate AgentGives(cs: Suite, v: AF.AgentHandleState, call: AR.Call, t: AF.Transaction) {
    cs.Valid() && AF.HandleOk(v) && call.WellFormed() && AF.RunStateful(cs, v, call, AF.NoFault) == t
  }

  ghost predicate RelayGives(cs: Suite, s: R.RelayState, call: RR.Call, t: RF.Transaction) {
    cs.Valid() && RF.StateOk(s) && call.WellFormed() && RF.RunStateful(cs, s, call, RF.NoFault) == t
  }

  ghost predicate StepOk(cs: Suite, h: Honest, sc: Script, name: CallName) {
    match name
    case MakeRequest => AgentGives(cs, AF.NewHandle(0), RequestCall(h), sc.request) && sc.request.code == 0
    case MakeResponse =>
      cs.Valid() && R.CreateRegistrationResponse(cs, h.responder, sc.request.output, h.accountId) == Ok(sc.response)
    case MakeRecord =>
      && AgentGives(cs, sc.request.handle, FinalizeCall(h, RegistrationResponseWire(sc.response)), sc.record)
      && sc.record.code == 0
    case MakeCredentials =>
      && RF.BuildCredentialsOutput(cs, sc.record.output) == Ok(sc.record.output)
      && RF.CheckRecord(cs, h.responder, Some(sc.record.output)) == RF.Credentials(sc.credentials)
    case MakeKe1 => AgentGives(cs, AF.NewHandle(0), Ke1Call(h), sc.ke1) && sc.ke1.code == 0
    case MakeKe2 =>
      RelayGives(cs, FreshRelay(), Ke2Call(h, sc.ke1.output, sc.credentials), sc.ke2) && sc.ke2.code == 0
    case MakeKe3 => AgentGives(cs, sc.ke1.handle, Ke3Call(h, sc.ke2.output), sc.ke3) && sc.ke3.code == 0
    case EndRelay => RelayGives(cs, sc.ke2.state, RR.FinishCall(sc.ke3.output, h.finishedAt), sc.relayEnd)
    case EndAgent => AgentGives(cs, sc.ke3.handle, FinishAgentCall(), sc.agentEnd)
  }

  ghost predicate ScriptOk(cs: Suite, h: Honest, sc: Script) { forall name: CallName :: StepOk(cs, h, sc, name) }

  // ---- The script of an honest run -----------------------------------------------------------------

  function RequestTx(cs: Suite, h: Honest): AF.Transaction
    requires cs.Valid() && Acceptable(cs, h)
  {
    AF.Transaction(AF.AgentHandleState(RequestOf(cs, h).0, false), 0, RegistrationRequestWire(RequestOf(cs, h).1))
  }

  function RecordTx(cs: Suite, h: Honest): AF.Transaction
    requires cs.Valid() && Acceptable(cs, h)
  {
    var s := A.FinalizeRegistration(
               cs, h.responder.publicKey, RegistrationResponseWire(ResponseOf(cs, h)), RequestOf(cs, h).0,
               h.envelopeNonce, h.finalizedAt).0;
    AF.Transaction(AF.AgentHandleState(s, false), 0, RegistrationRecordWire(RecordOf(cs, h)))
  }

  function Ke1Tx(cs: Suite, h: Honest): AF.Transaction
    requires cs.Valid() && Acceptable(cs, h)
  {
    AF.Transaction(AF.AgentHandleState(Ke1Of(cs, h).0, false), 0, Ke1Wire(Ke1Of(cs, h).1))
  }

  function Ke2Tx(cs: Suite, h: Honest): RF.Transaction
    requires cs.Valid() && Acceptable(cs, h)
  {
    RF.Transaction(Ke2Of(cs, h).0, 0, Ke2Wire(RelayKeysOf(cs, h).Message()))
  }

  function Ke3Tx(cs: Suite, h: Honest): AF.Transaction
    requires cs.Valid() && Acceptable(cs, h)
  {
    AF.Transaction(AF.AgentHandleState(Ke3Of(cs, h), true), 0, Ke3Wire(RelayKeysOf(cs, h).keys.initiatorMac))
  }

  function RelayEndTx(cs: Suite, h: Honest): RF.Transaction
    requires cs.Valid() && Acceptable(cs, h)
  {
    RF.RunStateful(cs, Ke2Tx(cs, h).state, RR.FinishCall(Ke3Tx(cs, h).output, h.finishedAt), RF.NoFault)
  }

  function AgentEndTx(cs: Suite, h: Honest): AF.Transaction
    requires cs.Valid() && Acceptable(cs, h)
  {
    AF.RunStateful(cs, Ke3Tx(cs, h).handle, FinishAgentCall(), AF.NoFault)
  }

  function ScriptFor(cs: Suite, h: Honest): Script
    requires cs.Valid() && Acceptable(cs, h)
  {
    Script(RequestTx(cs, h), ResponseOf(cs, h), RecordTx(cs, h), StoredCredentials(cs, h), Ke1Tx(cs, h),
           Ke2Tx(cs, h), Ke3Tx(cs, h), RelayEndTx(cs, h), AgentEndTx(cs, h))
  }

  /** A sound handle stays sound, so the next call may be made on it. */
  lemma AgentStaysOk(cs: Suite, v: AF.AgentHandleState, call: AR.Call, t: AF.Transaction)
    requires AgentGives(cs, v, call, t)
    ensures AF.HandleOk(t.handle)
  {
    AF.AdmittedCallContract(cs, v, call, AF.NoFault);
  }

  lemma RelayStaysOk(cs: Suite, s: R.RelayState, call: RR.Call, t: RF.Transaction)
    requires RelayGives(cs, s, call, t)
    ensures RF.StateOk(t.state)
  {
    RF.AdmittedCallContract(cs, s, call, RF.NoFault);
  }

  lemma RequestGiven(cs: Suite, h: Honest)
    requires cs.Valid() && Acceptable(cs, h)
    ensures AgentGives(cs, AF.NewHandle(0), RequestCall(h), RequestTx(cs, h))
  {
    AF.NewHandleIsOk(0);
    RequestRuns(cs, h);
  }

  lemma RecordGiven(cs: Suite, h: Honest)
    requires cs.Valid() && Acceptable(cs, h)
    ensures AgentGives(cs, RequestTx(cs, h).handle,
                       FinalizeCall(h, RegistrationResponseWire(ResponseOf(cs, h))), RecordTx(cs, h))
  {
    RequestGiven(cs, h);
    AgentStaysOk(cs, AF.NewHandle(0), RequestCall(h), RequestTx(cs, h));
    FinalizeSucceeds(cs, h);
    FinalizeRuns(cs, h, RequestOf(cs, h).0, RegistrationResponseWire(ResponseOf(cs, h)));
  }

  lemma CredentialsGiven(cs: Suite, h: Honest)
    requires cs.Valid() && Acceptable(cs, h)
    ensures var record := RecordTx(cs, h).output;
            && RF.BuildCredentialsOutput(cs, record) == Ok(record)
            && RF.CheckRecord(cs, h.responder, Some(record)) == RF.Credentials(StoredCredentials(cs, h))
  {
    RecordIsAccepted(cs, h);
    RecordIsStored(cs, h, RegistrationRecordWire(RecordOf(cs, h)));
  }

  lemma Ke1Given(cs: Suite, h: Honest)
    requires cs.Valid() && Acceptable(cs, h)
    ensures AgentGives(cs, AF.NewHandle(0), Ke1Call(h), Ke1Tx(cs, h))
  {
    AF.NewHandleIsOk(0);
    Ke1Runs(cs, h);
  }

  lemma Ke2Given(cs: Suite, h: Honest)
    requires cs.Valid() && Acceptable(cs, h)
    ensures RelayGives(cs, FreshRelay(), Ke2Call(h, Ke1Tx(cs, h).output, StoredCredentials(cs, h)), Ke2Tx(cs, h))
  {
    RF.BlankIsOk(0);
    Ke2Succeeds(cs, h);
  }

  lemma Ke3Given(cs: Suite, h: Honest)
    requires cs.Valid() && Acceptable(cs, h)
    ensures AgentGives(cs, Ke1Tx(cs, h).handle, Ke3Call(h, Ke2Tx(cs, h).output), Ke3Tx(cs, h))
  {
    Ke1Given(cs, h);
    AgentStaysOk(cs, AF.NewHandle(0), Ke1Call(h), Ke1Tx(cs, h));
    Ke3Runs(cs, h, Ke1Of(cs, h).0, Ke2Tx(cs, h).output);
  }

  lemma RelayEndGiven(cs: Suite, h: Honest)
    requires cs.Valid() && Acceptable(cs, h)
    ensures RelayGives(cs, Ke2Tx(cs, h).state, RR.FinishCall(Ke3Tx(cs, h).output, h.finishedAt), RelayEndTx(cs, h))
  {
    Ke2Given(cs, h);
    RelayStaysOk(cs, FreshRelay(), Ke2Call(h, Ke1Tx(cs, h).output, StoredCredentials(cs, h)), Ke2Tx(cs, h));
  }

  lemma AgentEndGiven(cs: Suite, h: Honest)
    requires cs.Valid() && Acceptable(cs, h)
    ensures AgentGives(cs, Ke3Tx(cs, h).handle, FinishAgentCall(), AgentEndTx(cs, h))
  {
    Ke3Given(cs, h);
    AgentStaysOk(cs, Ke1Tx(cs, h).handle, Ke3Call(h, Ke2Tx(cs, h).output), Ke3Tx(cs, h));
  }

  /** Every honest run has its script: each of the nine calls, on what the ones before left, gives what it says. */
  lemma HonestScript(cs: Suite, h: Honest)
    requires cs.Valid() && Acceptable(cs, h)
    ensures ScriptOk(cs, h, ScriptFor(cs, h))
  {
    RequestGiven(cs, h);
    RecordGiven(cs, h);
    CredentialsGiven(cs, h);
    Ke1Given(cs, h);
    Ke2Given(cs, h);
    Ke3Given(cs, h);
    RelayEndGiven(cs, h);
    AgentEndGiven(cs, h);
  }

  /**
   Both finish calls return 0, the relay's output is the first 64 bytes of the agent's, and the rest of the
   agent's is the account's export key; unless the session key is the zero string, in which case both fail.
   */
  lemma OutputsAgree(cs: Suite, h: Honest)
    requires cs.Valid() && Acceptable(cs, h)
    ensures var key := RelayKeysOf(cs, h).keys.sessionKey;
            && |key| == 64
            && (AllZero(key) ==> RelayEndTx(cs, h).code == -5 && AgentEndTx(cs, h).code == -1)
            && (!AllZero(key) ==>
                  && RelayEndTx(cs, h).code == 0 && AgentEndTx(cs, h).code == 0
                  && RelayEndTx(cs, h).output == key && AgentEndTx(cs, h).output == key + ExportKeyOf(cs, h))
  {
    HonestFinish(cs, h);
    RelayFinishRuns(cs, Ke2Tx(cs, h).state, Ke3Tx(cs, h).output, h.finishedAt);
    AgentFinishRuns(cs, Ke3Of(cs, h));
  }
}
