/** The relay's C entry points: argument checks, admission, the transaction and the commit, on caller memory. */
module RelayEntry {
  import opened Types
  import opened ByteOps
  import opened Suites
  import opened Crypto
  import opened Wire
  import opened FfiMemory
  import opened RelayRuns
  import opened RelayFfi
  import R = Relay
  import RelayObject

  class RelayHandle {
    const responder: R.Responder
    var inUse: bool

    constructor (responder: R.Responder)
      ensures this.responder == responder && !inUse
    {
      this.responder := responder;
      inUse := false;
    }
  }

  class RelayStateHandle {
    const state: RelayObject.ResponderState
    var inUse: bool

    /** Between calls a state outside the answered phase holds no secret; in the middle of one it may. */
    ghost predicate Valid()
      reads this, state
    {
      StateOk(state.s)
    }

    constructor (now: nat)
      ensures Valid() && !inUse && state.s == R.Blank(R.Created, now) && fresh(state)
    {
      state := new RelayObject.ResponderState(now);
      inUse := false;
      BlankIsOk(now);
    }
  }

  /** The credentials of a call have the widths of the source's fixed arrays. */
  predicate Sized(call: Call) {
    && call.WellFormed()
    && (call.Ke2Call? ==> |call.credentials.maskingKey| == 32 && |call.credentials.initiatorPublicKey| == 32)
  }

  // ---- The operations run under the guard ----------------------------------------------------------

  method SerializeKe2(m: Ke2) returns (bytes: Bytes)
    requires m.WellFormed()
    ensures bytes == Ke2Wire(m)
  {
    var wire := new byte[KE2_LENGTH];
    var written := WriteKe2(m, wire);
    bytes := wire[..];
  }

  method PerformKe2(cs: Suite, h: RelayObject.ResponderState, call: Call) returns (r: Result<Bytes>)
    requires cs.Valid() && h.Valid() && Sized(call) && call.Ke2Call?
    modifies h
    ensures var t := RunStateful(cs, old(h.s), call, NoFault);
            && (r.Ok? ==> t == Transaction(h.s, 0, r.value) && |r.value| == KE2_LENGTH)
            && (r.Err? ==> t == Transaction(h.s.Invalidated(), r.error.ToCInt(), []))
  {
    var m := h.GenerateKe2(
      cs, call.responder, call.ke1, call.accountId, call.credentials, call.rnd, call.now, call.later);
    if m.Err? {
      return Err(m.error);
    }
    var wire := SerializeKe2(m.value);
    r := Ok(wire);
  }

  method PerformFinish(cs: Suite, h: RelayObject.ResponderState, call: Call) returns (r: Result<Bytes>)
    requires cs.Valid() && h.Valid() && Sized(call) && call.FinishCall?
    modifies h
    ensures var t := RunStateful(cs, old(h.s), call, NoFault);
            && (r.Ok? ==> t == Transaction(h.s, 0, r.value) && |r.value| == HASH_LENGTH)
            && (r.Err? ==> t == Transaction(h.s.Invalidated(), r.error.ToCInt(), []))
  {
    r := h.ResponderFinish(call.ke3, call.now);
  }

  /** The transaction: an error or a panic at any point before the commit ends in a wiped, terminal state. */
  method RunRelayStateful(cs: Suite, h: RelayStateHandle, call: Call, fault: Fault) returns (code: int, output: Bytes)
    requires cs.Valid() && h.Valid() && Sized(call)
    modifies h.state
    ensures h.Valid()
    ensures Transaction(h.state.s, code, output) == RunStateful(cs, old(h.state.s), call, fault)
    ensures code == 0 ==> |output| == OutputLength(call)
    ensures code != 0 ==> h.state.s.phase == R.Finished && SecretsCleared(h.state.s)
  {
    AdmittedCallContract(cs, h.state.s, call, fault);
    if fault.Panic? {
      h.state.s := fault.left;
      h.state.Invalidate();
      return FFI_PANIC, [];
    }
    var r;
    if call.Ke2Call? {
      r := PerformKe2(cs, h.state, call);
    } else {
      r := PerformFinish(cs, h.state, call);
    }
    match r
    case Ok(wire) => return 0, wire;
    case Err(e) =>
      h.state.Invalidate();
      return e.ToCInt(), [];
  }

  // ---- Admission -----------------------------------------------------------------------------------

  /** The code a call returns before it is admitted; 0 when it is. */
  ghost function AdmissionCode(argumentsOk: bool, relay: RelayHandle?, recordOk: bool, handle: RelayStateHandle?): int
    reads relay, handle
  {
    if !argumentsOk || relay == null then FFI_INVALID_INPUT
    else if relay.inUse then FFI_BUSY
    else if !recordOk then FFI_CORRUPTED_RECORD
    else if handle == null then FFI_INVALID_INPUT
    else if handle.inUse then FFI_BUSY
    else 0
  }

  ghost function StateOf(handle: RelayStateHandle?): set<object> { if handle == null then {} else {handle.state} }

  method AcquireRelay(relay: RelayHandle?) returns (code: int)
    modifies relay
    ensures code == if relay == null then FFI_INVALID_INPUT else if old(relay.inUse) then FFI_BUSY else 0
    ensures relay != null ==> relay.inUse
  {
    if relay == null {
      return FFI_INVALID_INPUT;
    }
    if relay.inUse {
      return FFI_BUSY;
    }
    relay.inUse := true;
    code := 0;
  }

  function StateAdmission(handle: RelayStateHandle?): int
    reads handle
  {
    if handle == null then FFI_INVALID_INPUT else if handle.inUse then FFI_BUSY else 0
  }

  /**
   What a call does to the memory and the state handle. A call not admitted changes nothing; an admitted one
   leaves the state as the transaction does, changes memory only on code 0, and then by exactly its output; a
   non-zero code after admission leaves a finished state without secrets; the flag is as it was.
   */
  twostate predicate Transacted(
    cs: Suite, mem: array<byte>, handle: RelayStateHandle?, admission: int, call: Call, fault: Fault, out: nat,
    code: int)
    requires cs.Valid() && call.WellFormed() && (handle != null && !old(handle.inUse) ==> old(handle.Valid()))
    requires admission == 0 ==> handle != null && !old(handle.inUse)
    reads mem, handle, StateOf(handle)
  {
    && (handle != null ==> handle.inUse == old(handle.inUse) && (!handle.inUse ==> handle.Valid()))
    && (code != 0 ==> mem[..] == old(mem[..]))
    && (admission != 0 ==> code == admission && (handle != null ==> handle.state.s == old(handle.state.s)))
    && (admission == 0 ==>
          var t := RunStateful(cs, old(handle.state.s), call, fault);
          && code == t.code && handle.state.s == t.state
          && (code == 0 ==>
                One(out).Fits(mem.Length, |t.output|) && mem[..] == Committed(old(mem[..]), One(out), t.output))
          && (code != 0 ==> handle.state.s.phase == R.Finished && SecretsCleared(handle.state.s)))
  }

  /** Everything after the relay handle is held: state admission, transaction, commit, release of the state. */
  method RunAdmitted(
    cs: Suite, mem: array<byte>, handle: RelayStateHandle?, call: Call, fault: Fault, out: nat) returns (code: int)
    requires cs.Valid() && Sized(call) && One(out).Fits(mem.Length, OutputLength(call))
    requires handle != null && !handle.inUse ==> handle.Valid()
    modifies mem, handle, StateOf(handle)
    ensures Transacted(cs, mem, handle, old(StateAdmission(handle)), call, fault, out, code)
  {
    if handle == null {
      return FFI_INVALID_INPUT;
    }
    if handle.inUse {
      return FFI_BUSY;
    }
    handle.inUse := true;
    var output;
    code, output := RunRelayStateful(cs, handle, call, fault);
    if code == 0 {
      CommitOutput(mem, One(out), output);
    }
    handle.inUse := false;
  }

  // ---- Stateful entry points -----------------------------------------------------------------------

  predicate FinishArgumentsOk(ke3: nat, ke3Len: nat, out: nat, capacity: nat) {
    ke3Len == KE3_LENGTH && OutputOk(out, capacity, HASH_LENGTH) && InputOk(ke3, ke3Len, out, HASH_LENGTH)
  }

  method Finish(
    cs: Suite, mem: array<byte>, relay: RelayHandle?, ke3: nat, ke3Len: nat, handle: RelayStateHandle?, out: nat,
    capacity: nat, now: nat, fault: Fault) returns (code: int)
    requires cs.Valid() && (handle != null && !handle.inUse ==> handle.Valid())
    requires Extent(mem.Length, ke3, ke3Len) && Extent(mem.Length, out, capacity)
    modifies mem, relay, handle, StateOf(handle)
    ensures relay != null ==> relay.inUse == old(relay.inUse)
    ensures Transacted(cs, mem, handle,
                       old(AdmissionCode(FinishArgumentsOk(ke3, ke3Len, out, capacity), relay, true, handle)),
                       FinishCall(old(Load(mem[..], ke3, ke3Len)), now), fault, out, code)
  {
    if !FinishArgumentsOk(ke3, ke3Len, out, capacity) {
      return FFI_INVALID_INPUT;
    }
    code := AcquireRelay(relay);
    if code != 0 {
      return;
    }
    code := RunAdmitted(cs, mem, handle, FinishCall(Load(mem[..], ke3, ke3Len), now), fault, out);
    relay.inUse := false;
  }

  /** A caller's stored record: none for length 0, otherwise the bytes. */
  function RecordAt(mem: Bytes, record: nat, recordLen: nat): Option<Bytes> {
    if recordLen == 0 then None else Some(Load(mem, record, recordLen))
  }

  /** The record, or its stand-in, goes through one buffer, one parse and one key check. */
  method ReadRecord(cs: Suite, responder: R.Responder, record: Option<Bytes>) returns (r: RecordCheck)
    requires responder.WellFormed() && (record.Some? ==> |record.value| == REGISTRATION_RECORD_LENGTH)
    ensures r == CheckRecord(cs, responder, record)
    ensures r.Credentials? ==> |r.credentials.maskingKey| == 32 && |r.credentials.initiatorPublicKey| == 32
  {
    var wire := new byte[REGISTRATION_RECORD_LENGTH];
    match record {
      case Some(bytes) => CopyInto(wire, 0, bytes);
      case None =>
        var written := WriteRegistrationRecord(Zeros(REGISTRATION_CREDENTIAL_LENGTH), responder.publicKey, wire);
    }
    ghost var expected :=
      if record.Some? then record.value else RecordWire(Zeros(REGISTRATION_CREDENTIAL_LENGTH), responder.publicKey);
    assert wire[..] == expected;
    var view := ParseRegistrationRecord(wire[..]);
    if view.Err? {
      return Corrupted;
    }
    var valid := ValidatePublicKey(cs, view.value.initiatorPublicKey);
    if valid.Fail? {
      return Corrupted;
    }
    var c := R.NewCredentials();
    if record.Some? {
      c := c.(envelope := view.value.envelope);
      c := c.(maskingKey := view.value.maskingKey, initiatorPublicKey := view.value.initiatorPublicKey);
      c := c.(registered := true);
    }
    r := Credentials(c);
  }

  predicate Ke2ArgumentsOk(
    ke1: nat, ke1Len: nat, accountId: nat, accountIdLen: nat, record: nat, recordLen: nat, out: nat, capacity: nat)
  {
    && ke1Len == KE1_LENGTH && 0 < accountIdLen <= MAX_ACCOUNT_ID_LENGTH
    && OutputOk(out, capacity, KE2_LENGTH)
    && InputOk(ke1, ke1Len, out, KE2_LENGTH)
    && InputOk(accountId, accountIdLen, out, KE2_LENGTH)
    && (recordLen == 0 || (recordLen == REGISTRATION_RECORD_LENGTH && InputOk(record, recordLen, out, KE2_LENGTH)))
  }

  function ResponderOf(relay: RelayHandle?): R.Responder {
    if relay == null then R.Responder(Zeros(32), Zeros(32), Zeros(32)) else relay.responder
  }

  function CredentialsOf(check: RecordCheck): R.ResponderCredentials {
    if check.Credentials? then check.credentials else R.NewCredentials()
  }

  method GenerateKe2(
    cs: Suite, mem: array<byte>, relay: RelayHandle?, ke1: nat, ke1Len: nat, accountId: nat, accountIdLen: nat,
    record: nat, recordLen: nat, out: nat, capacity: nat, handle: RelayStateHandle?, rnd: R.Ke2Random, now: nat,
    later: nat, fault: Fault) returns (code: int)
    requires cs.Valid() && (handle != null && !handle.inUse ==> handle.Valid()) && rnd.WellFormed()
    requires ResponderOf(relay).WellFormed()
    requires Extent(mem.Length, ke1, ke1Len) && Extent(mem.Length, accountId, accountIdLen)
    requires Extent(mem.Length, record, recordLen) && Extent(mem.Length, out, capacity)
    modifies mem, relay, handle, StateOf(handle)
    ensures relay != null ==> relay.inUse == old(relay.inUse)
    ensures var check := CheckRecord(cs, ResponderOf(relay), old(RecordAt(mem[..], record, recordLen)));
            Transacted(cs, mem, handle,
                       old(AdmissionCode(Ke2ArgumentsOk(ke1, ke1Len, accountId, accountIdLen, record, recordLen, out,
                       capacity), relay, check.Credentials?, handle)),
                       Ke2Call(ResponderOf(relay), old(Load(mem[..], ke1, ke1Len)),
                       old(Load(mem[..], accountId, accountIdLen)), CredentialsOf(check), rnd, now, later),
                       fault, out, code)
  {
    if !Ke2ArgumentsOk(ke1, ke1Len, accountId, accountIdLen, record, recordLen, out, capacity) {
      return FFI_INVALID_INPUT;
    }
    code := AcquireRelay(relay);
    if code != 0 {
      return;
    }
    var check := ReadRecord(cs, relay.responder, RecordAt(mem[..], record, recordLen));
    if check.Corrupted? {
      relay.inUse := false;
      return FFI_CORRUPTED_RECORD;
    }
    var call := Ke2Call(relay.responder, Load(mem[..], ke1, ke1Len), Load(mem[..], accountId, accountIdLen),
                        check.credentials, rnd, now, later);
    code := RunAdmitted(cs, mem, handle, call, fault, out);
    relay.inUse := false;
  }

  // ---- Entry points without a state ----------------------------------------------------------------

  predicate ResponseArgumentsOk(
    request: nat, requestLen: nat, accountId: nat, accountIdLen: nat, out: nat, capacity: nat)
  {
    && requestLen == REGISTRATION_REQUEST_WIRE_LENGTH && 0 < accountIdLen <= MAX_ACCOUNT_ID_LENGTH
    && OutputOk(out, capacity, REGISTRATION_RESPONSE_WIRE_LENGTH)
    && InputOk(request, requestLen, out, REGISTRATION_RESPONSE_WIRE_LENGTH)
    && InputOk(accountId, accountIdLen, out, REGISTRATION_RESPONSE_WIRE_LENGTH)
  }

  /** Evaluates the request under the account's OPRF key; memory changes only on success. */
  method CreateRegistrationResponse(
    cs: Suite, mem: array<byte>, relay: RelayHandle?, request: nat, requestLen: nat, accountId: nat,
    accountIdLen: nat, out: nat, capacity: nat) returns (code: int)
    requires cs.Valid() && ResponderOf(relay).WellFormed()
    requires Extent(mem.Length, request, requestLen) && Extent(mem.Length, accountId, accountIdLen)
    requires Extent(mem.Length, out, capacity)
    modifies mem, relay
    ensures relay != null ==> relay.inUse == old(relay.inUse)
    ensures var admission := old(AdmissionCode(
                                   ResponseArgumentsOk(request, requestLen, accountId, accountIdLen, out, capacity),
                                   relay, true, null));
            var r := R.CreateRegistrationResponse(
                       cs, ResponderOf(relay), old(Load(mem[..], request, requestLen)),
                       old(Load(mem[..], accountId, accountIdLen)));
            var admitted := ResponseArgumentsOk(request, requestLen, accountId, accountIdLen, out, capacity)
                            && relay != null && !old(relay.inUse);
            && (!admitted ==> code == admission)
            && (admitted && r.Err? ==> code == r.error.ToCInt())
            && (admitted && r.Ok? ==>
                  code == 0 && out + 65 <= mem.Length && r.value.WellFormed()
                  && mem[..] == Patch(old(mem[..]), out, RegistrationResponseWire(r.value)))
            && (code != 0 ==> mem[..] == old(mem[..]))
  {
    if !ResponseArgumentsOk(request, requestLen, accountId, accountIdLen, out, capacity) {
      return FFI_INVALID_INPUT;
    }
    code := AcquireRelay(relay);
    if code != 0 {
      return;
    }
    var r := RelayObject.CreateRegistrationResponse(
      cs, relay.responder, Load(mem[..], request, requestLen), Load(mem[..], accountId, accountIdLen));
    if r.Err? {
      relay.inUse := false;
      return r.error.ToCInt();
    }
    var wire := SerializeResponse(r.value);
    CopyInto(mem, out, wire);
    relay.inUse := false;
    code := 0;
  }

  method SerializeResponse(m: RegistrationResponse) returns (bytes: Bytes)
    requires m.WellFormed()
    ensures bytes == RegistrationResponseWire(m)
  {
    var wire := new byte[REGISTRATION_RESPONSE_WIRE_LENGTH];
    var written := WriteRegistrationResponse(m, wire);
    bytes := wire[..];
  }

  predicate BuildArgumentsOk(record: nat, recordLen: nat, out: nat, capacity: nat) {
    && recordLen == REGISTRATION_RECORD_LENGTH
    && OutputOk(out, capacity, REGISTRATION_RECORD_LENGTH)
    && InputOk(record, recordLen, out, REGISTRATION_RECORD_LENGTH)
  }

  /** On success the stored credentials are the registration record itself, byte for byte. */
  method BuildCredentials(cs: Suite, mem: array<byte>, record: nat, recordLen: nat, out: nat, capacity: nat)
    returns (code: int)
    requires Extent(mem.Length, record, recordLen) && Extent(mem.Length, out, capacity)
    modifies mem
    ensures var built := R.BuildCredentials(cs, old(Load(mem[..], record, recordLen)), R.NewCredentials());
            code == if !BuildArgumentsOk(record, recordLen, out, capacity) then FFI_INVALID_INPUT
                    else if built.Err? then built.error.ToCInt() else 0
    ensures code == 0 ==>
              out + 201 <= mem.Length && |Load(old(mem[..]), record, recordLen)| == 201
              && mem[..] == Patch(old(mem[..]), out, Load(old(mem[..]), record, recordLen))
    ensures code != 0 ==> mem[..] == old(mem[..])
  {
    if !BuildArgumentsOk(record, recordLen, out, capacity) {
      return FFI_INVALID_INPUT;
    }
    var bytes := Load(mem[..], record, recordLen);
    BuildCredentialsIsIdentity(cs, ResponderOf(null), bytes);
    var built := BuildRecord(cs, bytes);
    if built.Err? {
      return built.error.ToCInt();
    }
    CopyInto(mem, out, built.value);
    code := 0;
  }

  /** Parses and validates into a credentials struct, then serializes that. */
  method BuildRecord(cs: Suite, record: Bytes) returns (r: Result<Bytes>)
    ensures r == BuildCredentialsOutput(cs, record)
  {
    var stored := new RelayObject.CredentialStore();
    var built := stored.Build(cs, record);
    if built.Fail? {
      return Err(built.error);
    }
    var wire := new byte[REGISTRATION_RECORD_LENGTH];
    var written := WriteRegistrationRecord(stored.c.maskingKey + stored.c.envelope, stored.c.initiatorPublicKey, wire);
    ghost var expected := RecordWire(stored.c.maskingKey + stored.c.envelope, stored.c.initiatorPublicKey);
    assert written.Pass? && wire[..] == expected;
    r := Ok(wire[..]);
  }
}
