/** The agent's C entry points: argument checks, admission, the transaction and the commit, on caller memory. */
module AgentEntry {
  import opened Types
  import opened Suites
  import opened Crypto
  import opened Wire
  import opened FfiMemory
  import opened AgentRuns
  import opened AgentFfi
  import A = Agent
  import AgentObject

  class AgentHandle {
    const relayKey: Bytes
    var inUse: bool

    constructor (relayKey: Bytes)
      ensures this.relayKey == relayKey && !inUse
    {
      this.relayKey := relayKey;
      inUse := false;
    }
  }

  class AgentStateHandle {
    const state: AgentObject.InitiatorState
    var ke3Exported: bool
    var inUse: bool

    ghost function View(): AgentHandleState
      reads this, state
    {
      AgentHandleState(state.s, ke3Exported)
    }

    /** Between calls every handle keeps its phase's secret inventory; in the middle of one it may not. */
    ghost predicate Valid()
      reads this, state
    {
      HandleOk(View())
    }

    constructor (now: nat)
      ensures Valid() && !inUse && View() == NewHandle(now) && fresh(state)
    {
      state := new AgentObject.InitiatorState(now);
      ke3Exported := false;
      inUse := false;
      NewHandleIsOk(now);
    }

    method Invalidate()
      modifies this`ke3Exported, state
      ensures View() == old(View()).Invalidated()
    {
      state.Invalidate();
      ke3Exported := false;
    }
  }

  // ---- Exact-size serialization into a buffer of the call's own ------------------------------------

  method SerializeRequest(payload: Bytes) returns (bytes: Bytes)
    requires |payload| == PUBLIC_KEY_LENGTH
    ensures bytes == RegistrationRequestWire(payload)
  {
    var wire := new byte[REGISTRATION_REQUEST_WIRE_LENGTH];
    var written := WriteRegistrationRequest(payload, wire);
    bytes := wire[..];
  }

  method SerializeRecord(m: RegistrationRecord) returns (bytes: Bytes)
    requires m.WellFormed()
    ensures bytes == RegistrationRecordWire(m)
  {
    var wire := new byte[REGISTRATION_RECORD_LENGTH];
    var written := WriteRegistrationRecord(m.maskingKey + m.envelope, m.initiatorPublicKey, wire);
    bytes := wire[..];
  }

  method SerializeKe1(m: Ke1) returns (bytes: Bytes)
    requires m.WellFormed()
    ensures bytes == Ke1Wire(m)
  {
    var wire := new byte[KE1_LENGTH];
    var written := WriteKe1(m, wire);
    bytes := wire[..];
  }

  method SerializeKe3(mac: Bytes) returns (bytes: Bytes)
    requires |mac| == MAC_LENGTH
    ensures bytes == Ke3Wire(mac)
  {
    var wire := new byte[KE3_LENGTH];
    var written := WriteKe3(mac, wire);
    bytes := wire[..];
  }

  // ---- The operations run under the guard ----------------------------------------------------------

  method PerformRequest(cs: Suite, h: AgentStateHandle, call: Call) returns (r: Result<Bytes>)
    requires cs.Valid() && h.state.Valid() && call.WellFormed() && call.op.Request?
    modifies h`ke3Exported, h.state
    ensures Performed(h.View(), r) == Perform(cs, old(h.View()), call)
  {
    var m := h.state.CreateRegistrationRequest(
      cs, call.op.secureKey, call.op.keyDraws, call.op.blindDraws, call.now, call.later);
    if m.Err? {
      return Err(m.error);
    }
    var wire := SerializeRequest(m.value);
    r := Ok(wire);
  }

  method PerformFinalize(cs: Suite, h: AgentStateHandle, call: Call) returns (r: Result<Bytes>)
    requires cs.Valid() && h.state.Valid() && call.WellFormed() && call.op.FinalizeReg?
    modifies h`ke3Exported, h.state
    ensures Performed(h.View(), r) == Perform(cs, old(h.View()), call)
  {
    var m := h.state.FinalizeRegistration(cs, call.op.responderKey, call.op.response, call.op.envelopeNonce, call.now);
    if m.Err? {
      return Err(m.error);
    }
    var wire := SerializeRecord(m.value);
    r := Ok(wire);
  }

  method PerformKe1(cs: Suite, h: AgentStateHandle, call: Call) returns (r: Result<Bytes>)
    requires cs.Valid() && h.state.Valid() && call.WellFormed() && call.op.Ke1Op?
    modifies h`ke3Exported, h.state
    ensures Performed(h.View(), r) == Perform(cs, old(h.View()), call)
  {
    var m := h.state.GenerateKe1(cs, call.op.password, call.op.accountId, call.op.ke1Random, call.now, call.later);
    if m.Err? {
      return Err(m.error);
    }
    var wire := SerializeKe1(m.value);
    r := Ok(wire);
  }

  method PerformKe3(cs: Suite, h: AgentStateHandle, call: Call) returns (r: Result<Bytes>)
    requires cs.Valid() && h.state.Valid() && call.WellFormed() && call.op.Ke3Op?
    modifies h`ke3Exported, h.state
    ensures Performed(h.View(), r) == Perform(cs, old(h.View()), call)
  {
    h.ke3Exported := false;
    var m := h.state.GenerateKe3(cs, call.op.relayKey, call.op.ke2, call.now, call.later);
    if m.Err? {
      return Err(m.error);
    }
    var wire := SerializeKe3(m.value);
    h.ke3Exported := true;
    r := Ok(wire);
  }

  method PerformFinish(cs: Suite, h: AgentStateHandle, call: Call) returns (r: Result<Bytes>)
    requires cs.Valid() && h.state.Valid() && call.WellFormed() && call.op.FinishOp?
    modifies h`ke3Exported, h.state
    ensures Performed(h.View(), r) == Perform(cs, old(h.View()), call)
  {
    if !h.ke3Exported {
      return Err(ValidationError);
    }
    var keys := h.state.InitiatorFinish();
    if keys.Err? {
      return Err(keys.error);
    }
    h.ke3Exported := false;
    r := Ok(keys.value.sessionKey + keys.value.exportKey);
  }

  method PerformOn(cs: Suite, h: AgentStateHandle, call: Call) returns (r: Result<Bytes>)
    requires cs.Valid() && h.state.Valid() && call.WellFormed()
    modifies h`ke3Exported, h.state
    ensures Performed(h.View(), r) == Perform(cs, old(h.View()), call)
  {
    match call.op
    case Request(_, _, _) => r := PerformRequest(cs, h, call);
    case FinalizeReg(_, _, _) => r := PerformFinalize(cs, h, call);
    case Ke1Op(_, _, _) => r := PerformKe1(cs, h, call);
    case Ke3Op(_, _) => r := PerformKe3(cs, h, call);
    case FinishOp => r := PerformFinish(cs, h, call);
  }

  /** The transaction: an error or a panic at any point before the commit ends in a wiped, terminal handle. */
  method RunAgentStateful(cs: Suite, h: AgentStateHandle, call: Call, fault: Fault) returns (code: int, output: Bytes)
    requires cs.Valid() && h.Valid() && call.WellFormed()
    modifies h`ke3Exported, h.state
    ensures h.Valid()
    ensures Transaction(h.View(), code, output) == RunStateful(cs, old(h.View()), call, fault)
    ensures code == 0 ==> |output| == OutputLength(call.op)
    ensures code != 0 ==> h.View().state.phase == A.Finished && NoSecrets(h.View().state)
  {
    AdmittedCallContract(cs, h.View(), call, fault);
    match fault
    case Panic(left) =>
      h.state.s := left.state;
      h.ke3Exported := left.ke3Exported;
      h.Invalidate();
      return FFI_PANIC, [];
    case NoFault =>
      if Perform(cs, h.View(), call).outcome.Ok? {
        OutputHasItsLength(cs, h.View(), call);
      }
      var r := PerformOn(cs, h, call);
      match r
      case Ok(wire) => return 0, wire;
      case Err(e) =>
        h.Invalidate();
        return e.ToCInt(), [];
  }

  // ---- Admission -----------------------------------------------------------------------------------

  /** The code a call returns before it is admitted; 0 when it is. */
  ghost function AdmissionCode(argumentsOk: bool, agent: AgentHandle?, handle: AgentStateHandle?): int
    reads agent, handle
  {
    if !argumentsOk || agent == null then FFI_INVALID_INPUT
    else if agent.inUse then FFI_BUSY
    else if handle == null then FFI_INVALID_INPUT
    else if handle.inUse then FFI_BUSY
    else 0
  }

  ghost function StateOf(handle: AgentStateHandle?): set<object> { if handle == null then {} else {handle.state} }

  /** Takes the agent handle, then the state handle; a failure gives back what was taken. */
  method Acquire(agent: AgentHandle?, handle: AgentStateHandle?) returns (code: int)
    modifies agent, handle
    ensures code == old(AdmissionCode(true, agent, handle))
    ensures code == 0 ==> agent != null && handle != null && agent.inUse && handle.inUse
    ensures code != 0 && agent != null ==> agent.inUse == old(agent.inUse)
    ensures code != 0 && handle != null ==> handle.inUse == old(handle.inUse)
    ensures handle != null ==> handle.ke3Exported == old(handle.ke3Exported)
  {
    if agent == null {
      return FFI_INVALID_INPUT;
    }
    if agent.inUse {
      return FFI_BUSY;
    }
    agent.inUse := true;
    if handle == null {
      agent.inUse := false;
      return FFI_INVALID_INPUT;
    }
    if handle.inUse {
      agent.inUse := false;
      return FFI_BUSY;
    }
    handle.inUse := true;
    code := 0;
  }

  /**
   What every stateful entry point promises. Flags are as they were; a call not admitted changes nothing; an
   admitted one leaves the handle as the transaction does, changes memory only on code 0, and then by exactly
   its output; a non-zero code after admission leaves a finished handle without secrets.
   */
  twostate predicate Transacted(
    cs: Suite, mem: array<byte>, agent: AgentHandle?, handle: AgentStateHandle?, argumentsOk: bool, call: Call,
    fault: Fault, dest: Destination, code: int)
    requires cs.Valid() && call.WellFormed() && (handle != null && !old(handle.inUse) ==> old(handle.Valid()))
    reads mem, agent, handle, StateOf(handle)
  {
    var admission := old(AdmissionCode(argumentsOk, agent, handle));
    && (agent != null ==> agent.inUse == old(agent.inUse))
    && (handle != null ==> handle.inUse == old(handle.inUse) && (!handle.inUse ==> handle.Valid()))
    && (code != 0 ==> mem[..] == old(mem[..]))
    && (admission != 0 ==> code == admission && (handle != null ==> handle.View() == old(handle.View())))
    && (admission == 0 ==>
          var t := RunStateful(cs, old(handle.View()), call, fault);
          && code == t.code && handle.View() == t.handle
          && (code == 0 ==>
                dest.Fits(mem.Length, |t.output|) && mem[..] == Committed(old(mem[..]), dest, t.output))
          && (code != 0 ==> handle.View().state.phase == A.Finished && NoSecrets(handle.View().state)))
  }

  /** Everything after the argument checks: admission, transaction, commit, release. */
  method RunAdmitted(
    cs: Suite, mem: array<byte>, agent: AgentHandle?, handle: AgentStateHandle?, call: Call, fault: Fault,
    dest: Destination) returns (code: int)
    requires cs.Valid() && call.WellFormed() && dest.Fits(mem.Length, OutputLength(call.op))
    requires handle != null && !handle.inUse ==> handle.Valid()
    modifies mem, agent, handle, StateOf(handle)
    ensures Transacted(cs, mem, agent, handle, true, call, fault, dest, code)
  {
    code := Acquire(agent, handle);
    if code != 0 {
      return;
    }
    var output;
    code, output := RunAgentStateful(cs, handle, call, fault);
    if code == 0 {
      CommitOutput(mem, dest, output);
    }
    handle.inUse := false;
    agent.inUse := false;
  }

  // ---- Entry points --------------------------------------------------------------------------------

  function KeyOf(agent: AgentHandle?): Bytes { if agent == null then [] else agent.relayKey }

  predicate PasswordLengthOk(len: nat) { 1 <= len <= MAX_SECURE_KEY_LENGTH }

  predicate RequestArgumentsOk(secureKey: nat, secureKeyLen: nat, out: nat, capacity: nat) {
    && PasswordLengthOk(secureKeyLen)
    && OutputOk(out, capacity, REGISTRATION_REQUEST_WIRE_LENGTH)
    && InputOk(secureKey, secureKeyLen, out, REGISTRATION_REQUEST_WIRE_LENGTH)
  }

  method CreateRegistrationRequest(
    cs: Suite, mem: array<byte>, agent: AgentHandle?, secureKey: nat, secureKeyLen: nat, handle: AgentStateHandle?,
    out: nat, capacity: nat, keyDraws: Draws, blindDraws: Draws, now: nat, later: nat, fault: Fault)
    returns (code: int)
    requires cs.Valid() && (handle != null && !handle.inUse ==> handle.Valid())
    requires Extent(mem.Length, secureKey, secureKeyLen) && Extent(mem.Length, out, capacity)
    modifies mem, agent, handle, StateOf(handle)
    ensures Transacted(cs, mem, agent, handle, RequestArgumentsOk(secureKey, secureKeyLen, out, capacity),
                       Call(Request(old(Load(mem[..], secureKey, secureKeyLen)), keyDraws, blindDraws), now, later),
                       fault, One(out), code)
  {
    if !RequestArgumentsOk(secureKey, secureKeyLen, out, capacity) {
      return FFI_INVALID_INPUT;
    }
    var call := Call(Request(Load(mem[..], secureKey, secureKeyLen), keyDraws, blindDraws), now, later);
    code := RunAdmitted(cs, mem, agent, handle, call, fault, One(out));
  }

  predicate FinalizeArgumentsOk(response: nat, responseLen: nat, out: nat, capacity: nat) {
    && responseLen == REGISTRATION_RESPONSE_WIRE_LENGTH
    && OutputOk(out, capacity, REGISTRATION_RECORD_LENGTH)
    && InputOk(response, responseLen, out, REGISTRATION_RECORD_LENGTH)
  }

  method FinalizeRegistration(
    cs: Suite, mem: array<byte>, agent: AgentHandle?, response: nat, responseLen: nat, handle: AgentStateHandle?,
    out: nat, capacity: nat, envelopeNonce: Bytes, now: nat, later: nat, fault: Fault) returns (code: int)
    requires cs.Valid() && (handle != null && !handle.inUse ==> handle.Valid()) && |envelopeNonce| == NONCE_LENGTH
    requires Extent(mem.Length, response, responseLen) && Extent(mem.Length, out, capacity)
    modifies mem, agent, handle, StateOf(handle)
    ensures Transacted(cs, mem, agent, handle, FinalizeArgumentsOk(response, responseLen, out, capacity),
                       Call(FinalizeReg(KeyOf(agent), old(Load(mem[..], response, responseLen)), envelopeNonce), now,
                       later), fault, One(out), code)
  {
    if !FinalizeArgumentsOk(response, responseLen, out, capacity) {
      return FFI_INVALID_INPUT;
    }
    var call := Call(FinalizeReg(KeyOf(agent), Load(mem[..], response, responseLen), envelopeNonce), now, later);
    code := RunAdmitted(cs, mem, agent, handle, call, fault, One(out));
  }

  predicate Ke1ArgumentsOk(
    secureKey: nat, secureKeyLen: nat, accountId: nat, accountIdLen: nat, out: nat, capacity: nat)
  {
    && PasswordLengthOk(secureKeyLen)
    && 0 < accountIdLen <= MAX_ACCOUNT_ID_LENGTH
    && OutputOk(out, capacity, KE1_LENGTH)
    && InputOk(secureKey, secureKeyLen, out, KE1_LENGTH)
    && InputOk(accountId, accountIdLen, out, KE1_LENGTH)
  }

  method GenerateKe1(
    cs: Suite, mem: array<byte>, agent: AgentHandle?, secureKey: nat, secureKeyLen: nat, accountId: nat,
    accountIdLen: nat, handle: AgentStateHandle?, out: nat, capacity: nat, rnd: A.Ke1Random, now: nat, later: nat,
    fault: Fault) returns (code: int)
    requires cs.Valid() && (handle != null && !handle.inUse ==> handle.Valid()) && rnd.WellFormed()
    requires Extent(mem.Length, secureKey, secureKeyLen) && Extent(mem.Length, accountId, accountIdLen)
    requires Extent(mem.Length, out, capacity)
    modifies mem, agent, handle, StateOf(handle)
    ensures Transacted(cs, mem, agent, handle,
                       Ke1ArgumentsOk(secureKey, secureKeyLen, accountId, accountIdLen, out, capacity),
                       Call(Ke1Op(old(Load(mem[..], secureKey, secureKeyLen)),
                       old(Load(mem[..], accountId, accountIdLen)), rnd), now, later), fault, One(out), code)
  {
    if !Ke1ArgumentsOk(secureKey, secureKeyLen, accountId, accountIdLen, out, capacity) {
      return FFI_INVALID_INPUT;
    }
    var op := Ke1Op(Load(mem[..], secureKey, secureKeyLen), Load(mem[..], accountId, accountIdLen), rnd);
    code := RunAdmitted(cs, mem, agent, handle, Call(op, now, later), fault, One(out));
  }

  predicate Ke3ArgumentsOk(ke2: nat, ke2Len: nat, out: nat, capacity: nat) {
    ke2Len == KE2_LENGTH && OutputOk(out, capacity, KE3_LENGTH) && InputOk(ke2, ke2Len, out, KE3_LENGTH)
  }

  method GenerateKe3(
    cs: Suite, mem: array<byte>, agent: AgentHandle?, ke2: nat, ke2Len: nat, handle: AgentStateHandle?, out: nat,
    capacity: nat, now: nat, later: nat, fault: Fault) returns (code: int)
    requires cs.Valid() && (handle != null && !handle.inUse ==> handle.Valid())
    requires Extent(mem.Length, ke2, ke2Len) && Extent(mem.Length, out, capacity)
    modifies mem, agent, handle, StateOf(handle)
    ensures Transacted(cs, mem, agent, handle, Ke3ArgumentsOk(ke2, ke2Len, out, capacity),
                       Call(Ke3Op(KeyOf(agent), old(Load(mem[..], ke2, ke2Len))), now, later), fault, One(out), code)
  {
    if !Ke3ArgumentsOk(ke2, ke2Len, out, capacity) {
      return FFI_INVALID_INPUT;
    }
    var call := Call(Ke3Op(KeyOf(agent), Load(mem[..], ke2, ke2Len)), now, later);
    code := RunAdmitted(cs, mem, agent, handle, call, fault, One(out));
  }

  predicate FinishArgumentsOk(sessionOut: nat, sessionCapacity: nat, exportOut: nat, exportCapacity: nat) {
    && OutputOk(sessionOut, sessionCapacity, HASH_LENGTH)
    && OutputOk(exportOut, exportCapacity, EXPORT_KEY_LENGTH)
    && !RangesOverlap(sessionOut, HASH_LENGTH, exportOut, EXPORT_KEY_LENGTH)
  }

  /** Both keys are written or neither is. */
  method Finish(
    cs: Suite, mem: array<byte>, agent: AgentHandle?, handle: AgentStateHandle?, sessionOut: nat,
    sessionCapacity: nat, exportOut: nat, exportCapacity: nat, fault: Fault) returns (code: int)
    requires cs.Valid() && (handle != null && !handle.inUse ==> handle.Valid())
    requires Extent(mem.Length, sessionOut, sessionCapacity) && Extent(mem.Length, exportOut, exportCapacity)
    modifies mem, agent, handle, StateOf(handle)
    ensures Transacted(cs, mem, agent, handle,
                       FinishArgumentsOk(sessionOut, sessionCapacity, exportOut, exportCapacity),
                       Call(FinishOp, 0, 0), fault, Two(sessionOut, exportOut), code)
  {
    if !FinishArgumentsOk(sessionOut, sessionCapacity, exportOut, exportCapacity) {
      return FFI_INVALID_INPUT;
    }
    code := RunAdmitted(cs, mem, agent, handle, Call(FinishOp, 0, 0), fault, Two(sessionOut, exportOut));
  }
}
