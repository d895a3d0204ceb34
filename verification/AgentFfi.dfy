/** The agent's stateful entry points as transactions on a state handle. */
module AgentFfi {
  import opened Types
  import opened Suites
  import opened Wire
  import opened Agent
  import opened AgentRuns

  datatype AgentHandleState = AgentHandleState(state: AgentState, ke3Exported: bool) {
    predicate WellFormed() { state.WellFormed() }

    function Invalidated(): AgentHandleState { AgentHandleState(state.Invalidated(), false) }
  }

  /** A panic may strike anywhere before the output is committed and leave the handle in any condition. */
  datatype Fault = NoFault | Panic(left: AgentHandleState)

  datatype Performed = Performed(handle: AgentHandleState, outcome: Result<Bytes>)

  /** The operation run under the handle's guard: the library step, then exact-size serialization. */
  function Perform(cs: Suite, h: AgentHandleState, call: Call): (p: Performed)
    requires cs.Valid() && h.WellFormed() && call.WellFormed()
    ensures p.handle.WellFormed()
  {
    match call.op
    case Request(secureKey, keyDraws, blindDraws) =>
      var (t, r) := CreateRegistrationRequest(cs, secureKey, h.state, keyDraws, blindDraws, call.now, call.later);
      Performed(h.(state := t), if r.Ok? then Ok(RegistrationRequestWire(r.value)) else Err(r.error))
    case FinalizeReg(responderKey, response, envelopeNonce) =>
      var (t, r) := FinalizeRegistration(cs, responderKey, response, h.state, envelopeNonce, call.now);
      Performed(h.(state := t), if r.Ok? then Ok(RegistrationRecordWire(r.value)) else Err(r.error))
    case Ke1Op(password, accountId, rnd) =>
      var (t, r) := GenerateKe1(cs, password, accountId, h.state, rnd, call.now, call.later);
      Performed(h.(state := t), if r.Ok? then Ok(Ke1Wire(r.value)) else Err(r.error))
    case Ke3Op(relayKey, ke2) =>
      var (t, r) := GenerateKe3(cs, relayKey, ke2, h.state, call.now, call.later);
      Performed(AgentHandleState(t, r.Ok?), if r.Ok? then Ok(Ke3Wire(r.value)) else Err(r.error))
    case FinishOp =>
      if !h.ke3Exported then Performed(h, Err(ValidationError)) else
        var (t, r) := InitiatorFinish(h.state);
        Performed(AgentHandleState(t, h.ke3Exported && r.Err?),
                  if r.Ok? then Ok(r.value.sessionKey + r.value.exportKey) else Err(r.error))
  }

  datatype Transaction = Transaction(handle: AgentHandleState, code: int, output: Bytes)

  /** An admitted call: commit on success, otherwise a wiped and terminal handle and no output. */
  function RunStateful(cs: Suite, h: AgentHandleState, call: Call, fault: Fault): (t: Transaction)
    requires cs.Valid() && h.WellFormed() && call.WellFormed()
    ensures t.handle.WellFormed() && (t.code != 0 ==> t.output == [])
  {
    match fault
    case Panic(left) => Transaction(left.Invalidated(), FFI_PANIC, [])
    case NoFault =>
      var p := Perform(cs, h, call);
      match p.outcome
      case Ok(output) => Transaction(p.handle, 0, output)
      case Err(e) => Transaction(p.handle.Invalidated(), e.ToCInt(), [])
  }

  // ---- What a handle holds in each phase -----------------------------------------------------------

  predicate NoSecrets(s: AgentState) {
    && s.secureKeyLen == 0 && AllZero(s.secureKey) && AllZero(s.blind) && AllZero(s.privateKey)
    && AllZero(s.ephemeralPrivateKey) && AllZero(s.sessionKey) && AllZero(s.exportKey) && AllZero(s.pqSecretKey)
    && AllZero(s.pqSharedSecret)
  }

  /** The secrets a state may hold between calls, phase by phase. */
  predicate Inventory(s: AgentState) {
    match s.phase
    case Created => NoSecrets(s)
    case RegistrationFinalized => NoSecrets(s)
    case Finished => NoSecrets(s)
    case RegistrationRequested =>
      && AllZero(s.ephemeralPrivateKey) && AllZero(s.sessionKey) && AllZero(s.exportKey) && AllZero(s.pqSecretKey)
      && AllZero(s.pqSharedSecret)
    case Ke1Generated =>
      AllZero(s.sessionKey) && AllZero(s.exportKey) && AllZero(s.privateKey) && AllZero(s.pqSharedSecret)
    case Ke3Generated =>
      s.secureKeyLen == 0 && AllZero(s.secureKey) && AllZero(s.blind) && AllZero(s.pqSecretKey)
  }

  /** What holds of every handle between calls. */
  predicate HandleOk(h: AgentHandleState) {
    h.WellFormed() && Inventory(h.state) && (h.ke3Exported <==> h.state.phase == Ke3Generated)
  }

  function NewHandle(createdAt: nat): AgentHandleState { AgentHandleState(Blank(Created, createdAt), false) }

  lemma BlankHasNoSecrets(phase: Phase, createdAt: nat)
    ensures NoSecrets(Blank(phase, createdAt))
  {
    ZerosAreAllZero(4096);
    ZerosAreAllZero(64);
    ZerosAreAllZero(32);
    ZerosAreAllZero(2400);
  }

  lemma NewHandleIsOk(createdAt: nat)
    ensures HandleOk(NewHandle(createdAt))
  {
    BlankHasNoSecrets(Created, createdAt);
  }

  /** An invalidated handle is terminal and empty, whatever it held. */
  lemma InvalidatedIsOk(h: AgentHandleState)
    ensures HandleOk(h.Invalidated()) && h.Invalidated().state.phase == Finished
    ensures NoSecrets(h.Invalidated().state)
    ensures var t := h.Invalidated().state;
            && AllZero(t.publicKey) && AllZero(t.responderKey) && AllZero(t.ephemeralPublicKey) && AllZero(t.nonce)
            && AllZero(t.accountHash) && AllZero(t.pqPublicKey) && t.createdAt == h.state.createdAt
            && !h.Invalidated().ke3Exported
  {
    BlankHasNoSecrets(Finished, h.state.createdAt);
    ZerosAreAllZero(24);
    ZerosAreAllZero(64);
    ZerosAreAllZero(1184);
  }

  /** The five edges along which success moves the phase. */
  predicate Edge(op: Operation, from: Phase, to: Phase) {
    match op
    case Request(_, _, _) => from == Created && to == RegistrationRequested
    case FinalizeReg(_, _, _) => from == RegistrationRequested && to == RegistrationFinalized
    case Ke1Op(_, _, _) => from == Created && to == Ke1Generated
    case Ke3Op(_, _) => from == Ke1Generated && to == Ke3Generated
    case FinishOp => from == Ke3Generated && to == Finished
  }

  ghost predicate KeepsOk(cs: Suite, h: AgentHandleState, call: Call)
    requires cs.Valid() && h.WellFormed() && call.WellFormed()
  {
    var p := Perform(cs, h, call);
    p.outcome.Ok? ==> HandleOk(p.handle) && Edge(call.op, h.state.phase, p.handle.state.phase)
  }

  lemma RequestKeepsOk(cs: Suite, h: AgentHandleState, call: Call)
    requires cs.Valid() && HandleOk(h) && call.WellFormed() && call.op.Request?
    ensures KeepsOk(cs, h, call)
  {
  }

  lemma FinalizeKeepsOk(cs: Suite, h: AgentHandleState, call: Call)
    requires cs.Valid() && HandleOk(h) && call.WellFormed() && call.op.FinalizeReg?
    ensures KeepsOk(cs, h, call)
  {
  }

  lemma Ke1KeepsOk(cs: Suite, h: AgentHandleState, call: Call)
    requires cs.Valid() && HandleOk(h) && call.WellFormed() && call.op.Ke1Op?
    ensures KeepsOk(cs, h, call)
  {
  }

  lemma Ke3KeepsOk(cs: Suite, h: AgentHandleState, call: Call)
    requires cs.Valid() && HandleOk(h) && call.WellFormed() && call.op.Ke3Op?
    ensures KeepsOk(cs, h, call)
  {
  }

  lemma FinishKeepsOk(cs: Suite, h: AgentHandleState, call: Call)
    requires cs.Valid() && HandleOk(h) && call.WellFormed() && call.op.FinishOp?
    ensures KeepsOk(cs, h, call)
  {
  }

  /** Success moves along an edge and keeps the inventory. */
  lemma SuccessKeepsHandleOk(cs: Suite, h: AgentHandleState, call: Call)
    requires cs.Valid() && HandleOk(h) && call.WellFormed() && Perform(cs, h, call).outcome.Ok?
    ensures HandleOk(Perform(cs, h, call).handle)
    ensures Edge(call.op, h.state.phase, Perform(cs, h, call).handle.state.phase)
  {
    match call.op
    case Request(_, _, _) => RequestKeepsOk(cs, h, call);
    case FinalizeReg(_, _, _) => FinalizeKeepsOk(cs, h, call);
    case Ke1Op(_, _, _) => Ke1KeepsOk(cs, h, call);
    case Ke3Op(_, _) => Ke3KeepsOk(cs, h, call);
    case FinishOp => FinishKeepsOk(cs, h, call);
  }

  /** The sizes of the outputs a caller's buffers receive. */
  function OutputLength(op: Operation): nat {
    match op
    case Request(_, _, _) => REGISTRATION_REQUEST_WIRE_LENGTH
    case FinalizeReg(_, _, _) => REGISTRATION_RECORD_LENGTH
    case Ke1Op(_, _, _) => KE1_LENGTH
    case Ke3Op(_, _) => KE3_LENGTH
    case FinishOp => HASH_LENGTH + EXPORT_KEY_LENGTH
  }

  /** Serialization is exact: a successful operation yields the documented number of bytes. */
  lemma OutputHasItsLength(cs: Suite, h: AgentHandleState, call: Call)
    requires cs.Valid() && h.WellFormed() && call.WellFormed() && Perform(cs, h, call).outcome.Ok?
    ensures |Perform(cs, h, call).outcome.value| == OutputLength(call.op)
  {
  }

  function Rank(phase: Phase): nat {
    match phase
    case Created => 0
    case RegistrationRequested => 1
    case Ke1Generated => 1
    case RegistrationFinalized => 2
    case Ke3Generated => 2
    case Finished => 3
  }

  /**
   The transaction contract of an admitted call, with or without a panic: code 0 or nothing; an error leaves a
   terminal handle without secrets; a live handle always moves to a higher rank; a finished one stays finished
   and never yields output; the inventory is kept.
   */
  lemma AdmittedCallContract(cs: Suite, h: AgentHandleState, call: Call, fault: Fault)
    requires cs.Valid() && HandleOk(h) && call.WellFormed()
    ensures var r := RunStateful(cs, h, call, fault);
            && HandleOk(r.handle)
            && (r.code != 0 ==> r.output == [] && r.handle.state.phase == Finished && NoSecrets(r.handle.state))
            && (h.state.phase != Finished ==> Rank(h.state.phase) < Rank(r.handle.state.phase))
            && (h.state.phase == Finished ==> r.code != 0 && r.handle.state.phase == Finished)
            && (r.code == 0 && call.op.FinishOp? ==> h.state.phase == Ke3Generated && r.handle.state.phase == Finished)
  {
    match fault
    case Panic(left) => InvalidatedIsOk(left);
    case NoFault =>
      var p := Perform(cs, h, call);
      if p.outcome.Ok? {
        SuccessKeepsHandleOk(cs, h, call);
      } else {
        InvalidatedIsOk(p.handle);
      }
  }

  /** The code of a library result. */
  function CodeOf<T>(r: Result<T>): int { if r.Ok? then 0 else r.error.ToCInt() }

  /** A call returns the code of its library step, -99 for a panic, and -5 for a finish before KE3 was exported. */
  lemma ReturnCodes(cs: Suite, h: AgentHandleState, call: Call)
    requires cs.Valid() && h.WellFormed() && call.WellFormed()
    ensures forall left :: RunStateful(cs, h, call, Panic(left)).code == -99
    ensures RunStateful(cs, h, call, NoFault).code
            == match call.op
               case Request(pw, k, b) =>
                 CodeOf(CreateRegistrationRequest(cs, pw, h.state, k, b, call.now, call.later).1)
               case FinalizeReg(key, response, nonce) =>
                 CodeOf(FinalizeRegistration(cs, key, response, h.state, nonce, call.now).1)
               case Ke1Op(pw, id, rnd) => CodeOf(GenerateKe1(cs, pw, id, h.state, rnd, call.now, call.later).1)
               case Ke3Op(key, ke2) => CodeOf(GenerateKe3(cs, key, ke2, h.state, call.now, call.later).1)
               case FinishOp => if h.ke3Exported then CodeOf(InitiatorFinish(h.state).1) else -5
  {
  }
}
