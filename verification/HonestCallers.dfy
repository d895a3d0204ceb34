/**
 An honest registration and login made by C callers: every message goes from one entry point to the next through
 one flat memory, and at the end both session-key buffers hold the same bytes.
 */
module HonestCallers {
  import opened Types
  import opened ByteOps
  import opened Suites
  import opened Wire
  import opened Agreement
  import opened FfiMemory
  import opened FfiAgreement
  import R = Relay
  import RR = RelayRuns
  import AF = AgentFfi
  import RF = RelayFfi
  import AgentEntry
  import RelayEntry

  // ---- The callers' buffers ------------------------------------------------------------------------

  datatype Region =
    | Password | Account | Request | Response | Record | Stored
    | Ke1Buffer | Ke2Buffer | Ke3Buffer | RelayKey | SessionKey | ExportKey

  /** Where each buffer is and how long it is. */
  datatype Layout = Layout(at: Region -> nat, len: Region -> nat) {
    /** The lengths are those of this run's inputs and of the messages. */
    predicate For(h: Honest) {
      && len(Password) == |h.password| && len(Account) == |h.accountId|
      && len(Request) == REGISTRATION_REQUEST_WIRE_LENGTH && len(Response) == REGISTRATION_RESPONSE_WIRE_LENGTH
      && len(Record) == REGISTRATION_RECORD_LENGTH && len(Stored) == REGISTRATION_RECORD_LENGTH
      && len(Ke1Buffer) == KE1_LENGTH && len(Ke2Buffer) == KE2_LENGTH && len(Ke3Buffer) == KE3_LENGTH
      && len(RelayKey) == HASH_LENGTH && len(SessionKey) == HASH_LENGTH && len(ExportKey) == EXPORT_KEY_LENGTH
    }

    predicate Within(size: nat, r: Region) { at(r) != NULL && at(r) + len(r) <= size }

    predicate Apart(r: Region, s: Region) { at(r) + len(r) <= at(s) || at(s) + len(s) <= at(r) }

    /** Every buffer is inside the memory, none is at address zero, and no two share a byte. */
    ghost predicate Ok(size: nat) {
      && size < ADDRESS_LIMIT
      && (forall r: Region :: Within(size, r))
      && (forall r: Region, s: Region :: r != s ==> Apart(r, s))
    }
  }

  /** What a buffer holds. */
  function Held(mem: Bytes, b: Layout, r: Region): Bytes { Load(mem, b.at(r), b.len(r)) }

  /** One buffer received these bytes; every other holds what it held. */
  ghost predicate Wrote(before: Bytes, after: Bytes, b: Layout, r: Region, data: Bytes) {
    && Held(after, b, r) == data
    && (forall s: Region :: s != r ==> Held(after, b, s) == Held(before, b, s))
  }

  lemma PatchWrites(before: Bytes, b: Layout, r: Region, data: Bytes)
    requires b.Ok(|before|) && |data| == b.len(r)
    ensures b.Within(|before|, r) && Wrote(before, Patch(before, b.at(r), data), b, r, data)
  {
    assert b.Within(|before|, r);
    var after := Patch(before, b.at(r), data);
    forall s: Region | s != r
      ensures Held(after, b, s) == Held(before, b, s)
    {
      assert b.Apart(r, s) && b.Within(|before|, s);
      assert forall i :: b.at(s) <= i < b.at(s) + b.len(s) ==> after[i] == before[i];
    }
  }

  /** Two different buffers pass the overlap test of the entry points. */
  lemma Disjoint(b: Layout, size: nat, r: Region, s: Region)
    requires b.Ok(size) && r != s
    ensures InputOk(b.at(r), b.len(r), b.at(s), b.len(s))
    ensures Extent(size, b.at(r), b.len(r)) && Extent(size, b.at(s), b.len(s))
    ensures b.at(s) != NULL && b.at(s) + b.len(s) <= size
  {
    assert b.Within(size, r) && b.Within(size, s) && b.Apart(r, s);
  }

  /** The lengths both the library and the entry points accept. */
  predicate CallerSizesOk(h: Honest) { SizesOk(h) && |h.accountId| <= MAX_ACCOUNT_ID_LENGTH }

  // ---- One call each -------------------------------------------------------------------------------

  /** A free agent handle, and a free state handle in this condition. */
  ghost predicate AgentAt(
    agent: AgentEntry.AgentHandle, state: AgentEntry.AgentStateHandle, h: Honest, v: AF.AgentHandleState)
    reads agent, state, state.state
  {
    !agent.inUse && !state.inUse && state.View() == v && agent.relayKey == h.responder.publicKey
  }

  /** A free relay handle. */
  ghost predicate RelayFree(relay: RelayEntry.RelayHandle, h: Honest)
    reads relay
  {
    !relay.inUse && relay.responder == h.responder
  }

  ghost predicate SessionAt(state: RelayEntry.RelayStateHandle, s: R.RelayState)
    reads state, state.state
  {
    !state.inUse && state.state.s == s
  }

  /** What every call of the run relies on. */
  ghost predicate Setting(cs: Suite, h: Honest, b: Layout, size: nat, sc: Script) {
    cs.Valid() && b.Ok(size) && b.For(h) && CallerSizesOk(h) && ScriptOk(cs, h, sc)
  }

  method CallRequestAt(
    cs: Suite, h: Honest, mem: array<byte>, b: Layout, agent: AgentEntry.AgentHandle,
    state: AgentEntry.AgentStateHandle, ghost v: AF.AgentHandleState, ghost t: AF.Transaction) returns (code: int)
    requires cs.Valid() && b.Ok(mem.Length) && b.For(h) && CallerSizesOk(h) && AgentAt(agent, state, h, v)
    requires AgentGives(cs, v, RequestCall(h), t) && t.code == 0
    requires Held(mem[..], b, Password) == h.password
    modifies mem, agent, state, state.state
    ensures code == 0 && AgentAt(agent, state, h, t.handle)
    ensures Wrote(old(mem[..]), mem[..], b, Request, t.output)
  {
    AF.OutputHasItsLength(cs, v, RequestCall(h));
    Disjoint(b, mem.Length, Password, Request);
    code := AgentEntry.CreateRegistrationRequest(
      cs, mem, agent, b.at(Password), |h.password|, state, b.at(Request), REGISTRATION_REQUEST_WIRE_LENGTH,
      h.keyDraws, h.blindDraws, 0, h.requestedAt, AF.NoFault);
    PatchWrites(old(mem[..]), b, Request, t.output);
  }

  method CallRequest(
    cs: Suite, h: Honest, mem: array<byte>, b: Layout, agent: AgentEntry.AgentHandle,
    state: AgentEntry.AgentStateHandle, ghost sc: Script) returns (code: int)
    requires Setting(cs, h, b, mem.Length, sc) && AgentAt(agent, state, h, AF.NewHandle(0))
    requires Held(mem[..], b, Password) == h.password
    modifies mem, agent, state, state.state
    ensures code == 0 && AgentAt(agent, state, h, sc.request.handle)
    ensures Wrote(old(mem[..]), mem[..], b, Request, sc.request.output)
  {
    assert StepOk(cs, h, sc, MakeRequest);
    code := CallRequestAt(cs, h, mem, b, agent, state, AF.NewHandle(0), sc.request);
  }

  method CallResponse(
    cs: Suite, h: Honest, mem: array<byte>, b: Layout, relay: RelayEntry.RelayHandle, ghost sc: Script)
    returns (code: int)
    requires Setting(cs, h, b, mem.Length, sc) && RelayFree(relay, h)
    requires Held(mem[..], b, Account) == h.accountId && Held(mem[..], b, Request) == sc.request.output
    modifies mem, relay
    ensures code == 0 && RelayFree(relay, h)
    ensures Wrote(old(mem[..]), mem[..], b, Response, RegistrationResponseWire(sc.response))
  {
    assert StepOk(cs, h, sc, MakeResponse);
    Disjoint(b, mem.Length, Request, Response);
    Disjoint(b, mem.Length, Account, Response);
    code := RelayEntry.CreateRegistrationResponse(
      cs, mem, relay, b.at(Request), REGISTRATION_REQUEST_WIRE_LENGTH, b.at(Account), |h.accountId|, b.at(Response),
      REGISTRATION_RESPONSE_WIRE_LENGTH);
    PatchWrites(old(mem[..]), b, Response, RegistrationResponseWire(sc.response));
  }

  method CallRecordAt(
    cs: Suite, h: Honest, mem: array<byte>, b: Layout, agent: AgentEntry.AgentHandle,
    state: AgentEntry.AgentStateHandle, ghost v: AF.AgentHandleState, ghost response: Bytes,
    ghost t: AF.Transaction) returns (code: int)
    requires cs.Valid() && b.Ok(mem.Length) && b.For(h) && CallerSizesOk(h) && AgentAt(agent, state, h, v)
    requires AgentGives(cs, v, FinalizeCall(h, response), t) && t.code == 0
    requires Held(mem[..], b, Response) == response
    modifies mem, agent, state, state.state
    ensures code == 0 && AgentAt(agent, state, h, t.handle)
    ensures Wrote(old(mem[..]), mem[..], b, Record, t.output)
  {
    AF.OutputHasItsLength(cs, v, FinalizeCall(h, response));
    Disjoint(b, mem.Length, Response, Record);
    code := AgentEntry.FinalizeRegistration(
      cs, mem, agent, b.at(Response), REGISTRATION_RESPONSE_WIRE_LENGTH, state, b.at(Record),
      REGISTRATION_RECORD_LENGTH, h.envelopeNonce, h.finalizedAt, h.finalizedAt, AF.NoFault);
    PatchWrites(old(mem[..]), b, Record, t.output);
  }

  method CallRecord(
    cs: Suite, h: Honest, mem: array<byte>, b: Layout, agent: AgentEntry.AgentHandle,
    state: AgentEntry.AgentStateHandle, ghost sc: Script) returns (code: int)
    requires Setting(cs, h, b, mem.Length, sc) && AgentAt(agent, state, h, sc.request.handle)
    requires Held(mem[..], b, Response) == RegistrationResponseWire(sc.response)
    modifies mem, agent, state, state.state
    ensures code == 0 && AgentAt(agent, state, h, sc.record.handle)
    ensures Wrote(old(mem[..]), mem[..], b, Record, sc.record.output)
  {
    assert StepOk(cs, h, sc, MakeRecord);
    code := CallRecordAt(
      cs, h, mem, b, agent, state, sc.request.handle, RegistrationResponseWire(sc.response), sc.record);
  }

  method CallCredentials(cs: Suite, h: Honest, mem: array<byte>, b: Layout, ghost sc: Script) returns (code: int)
    requires Setting(cs, h, b, mem.Length, sc) && Held(mem[..], b, Record) == sc.record.output
    modifies mem
    ensures code == 0 && Wrote(old(mem[..]), mem[..], b, Stored, sc.record.output)
  {
    assert StepOk(cs, h, sc, MakeCredentials);
    Disjoint(b, mem.Length, Record, Stored);
    code := RelayEntry.BuildCredentials(
      cs, mem, b.at(Record), REGISTRATION_RECORD_LENGTH, b.at(Stored), REGISTRATION_RECORD_LENGTH);
    PatchWrites(old(mem[..]), b, Stored, sc.record.output);
  }

  method CallKe1At(
    cs: Suite, h: Honest, mem: array<byte>, b: Layout, agent: AgentEntry.AgentHandle,
    state: AgentEntry.AgentStateHandle, ghost v: AF.AgentHandleState, ghost t: AF.Transaction) returns (code: int)
    requires cs.Valid() && b.Ok(mem.Length) && b.For(h) && CallerSizesOk(h) && AgentAt(agent, state, h, v)
    requires AgentGives(cs, v, Ke1Call(h), t) && t.code == 0
    requires Held(mem[..], b, Password) == h.password && Held(mem[..], b, Account) == h.accountId
    modifies mem, agent, state, state.state
    ensures code == 0 && AgentAt(agent, state, h, t.handle)
    ensures Wrote(old(mem[..]), mem[..], b, Ke1Buffer, t.output)
  {
    AF.OutputHasItsLength(cs, v, Ke1Call(h));
    Disjoint(b, mem.Length, Password, Ke1Buffer);
    Disjoint(b, mem.Length, Account, Ke1Buffer);
    code := AgentEntry.GenerateKe1(
      cs, mem, agent, b.at(Password), |h.password|, b.at(Account), |h.accountId|, state, b.at(Ke1Buffer), KE1_LENGTH,
      h.ke1Random, 0, h.ke1At, AF.NoFault);
    PatchWrites(old(mem[..]), b, Ke1Buffer, t.output);
  }

  method CallKe1(
    cs: Suite, h: Honest, mem: array<byte>, b: Layout, agent: AgentEntry.AgentHandle,
    state: AgentEntry.AgentStateHandle, ghost sc: Script) returns (code: int)
    requires Setting(cs, h, b, mem.Length, sc) && AgentAt(agent, state, h, AF.NewHandle(0))
    requires Held(mem[..], b, Password) == h.password && Held(mem[..], b, Account) == h.accountId
    modifies mem, agent, state, state.state
    ensures code == 0 && AgentAt(agent, state, h, sc.ke1.handle)
    ensures Wrote(old(mem[..]), mem[..], b, Ke1Buffer, sc.ke1.output)
  {
    assert StepOk(cs, h, sc, MakeKe1);
    code := CallKe1At(cs, h, mem, b, agent, state, AF.NewHandle(0), sc.ke1);
  }

  /** The KE2 call on any acceptable arguments and a record that is read as `c`. */
  method CallKe2At(
    cs: Suite, mem: array<byte>, relay: RelayEntry.RelayHandle, state: RelayEntry.RelayStateHandle, ke1: nat,
    accountId: nat, accountIdLen: nat, record: nat, out: nat, rnd: R.Ke2Random, later: nat,
    ghost c: R.ResponderCredentials, ghost t: RF.Transaction) returns (code: int)
    requires cs.Valid() && rnd.WellFormed() && relay.responder.WellFormed()
    requires !relay.inUse && !state.inUse && state.Valid()
    requires RelayEntry.Ke2ArgumentsOk(ke1, KE1_LENGTH, accountId, accountIdLen, record, REGISTRATION_RECORD_LENGTH,
                                       out, KE2_LENGTH)
    requires Extent(mem.Length, ke1, KE1_LENGTH) && Extent(mem.Length, accountId, accountIdLen)
    requires Extent(mem.Length, record, REGISTRATION_RECORD_LENGTH) && Extent(mem.Length, out, KE2_LENGTH)
    requires RF.CheckRecord(cs, relay.responder, Some(Load(mem[..], record, REGISTRATION_RECORD_LENGTH)))
             == RF.Credentials(c)
    requires var call := RR.Ke2Call(relay.responder, Load(mem[..], ke1, KE1_LENGTH),
                                    Load(mem[..], accountId, accountIdLen), c, rnd, 0, later);
             RF.RunStateful(cs, state.state.s, call, RF.NoFault) == t && t.code == 0 && |t.output| == KE2_LENGTH
    modifies mem, relay, state, state.state
    ensures code == 0 && !relay.inUse && !state.inUse && state.Valid() && state.state.s == t.state
    ensures out + KE2_LENGTH <= mem.Length && mem[..] == Patch(old(mem[..]), out, t.output)
  {
    code := RelayEntry.GenerateKe2(
      cs, mem, relay, ke1, KE1_LENGTH, accountId, accountIdLen, record, REGISTRATION_RECORD_LENGTH, out, KE2_LENGTH,
      state, rnd, 0, later, RF.NoFault);
  }

  method CallKe2(
    cs: Suite, h: Honest, mem: array<byte>, b: Layout, relay: RelayEntry.RelayHandle,
    state: RelayEntry.RelayStateHandle, ghost sc: Script) returns (code: int)
    requires Setting(cs, h, b, mem.Length, sc) && RelayFree(relay, h) && SessionAt(state, FreshRelay())
    requires Held(mem[..], b, Ke1Buffer) == sc.ke1.output && Held(mem[..], b, Account) == h.accountId
    requires Held(mem[..], b, Stored) == sc.record.output
    modifies mem, relay, state, state.state
    ensures code == 0 && RelayFree(relay, h) && SessionAt(state, sc.ke2.state)
    ensures Wrote(old(mem[..]), mem[..], b, Ke2Buffer, sc.ke2.output)
  {
    assert StepOk(cs, h, sc, MakeCredentials) && StepOk(cs, h, sc, MakeKe2);
    Disjoint(b, mem.Length, Ke1Buffer, Ke2Buffer);
    Disjoint(b, mem.Length, Account, Ke2Buffer);
    Disjoint(b, mem.Length, Stored, Ke2Buffer);
    RF.OutputHasItsLength(cs, FreshRelay(), Ke2Call(h, sc.ke1.output, sc.credentials), RF.NoFault);
    code := CallKe2At(cs, mem, relay, state, b.at(Ke1Buffer), b.at(Account), |h.accountId|, b.at(Stored),
                      b.at(Ke2Buffer), h.ke2Random, h.ke2At, sc.credentials, sc.ke2);
    PatchWrites(old(mem[..]), b, Ke2Buffer, sc.ke2.output);
  }

  method CallKe3At(
    cs: Suite, h: Honest, mem: array<byte>, b: Layout, agent: AgentEntry.AgentHandle,
    state: AgentEntry.AgentStateHandle, ghost v: AF.AgentHandleState, ghost ke2: Bytes,
    ghost t: AF.Transaction) returns (code: int)
    requires cs.Valid() && b.Ok(mem.Length) && b.For(h) && CallerSizesOk(h) && AgentAt(agent, state, h, v)
    requires AgentGives(cs, v, Ke3Call(h, ke2), t) && t.code == 0
    requires Held(mem[..], b, Ke2Buffer) == ke2
    modifies mem, agent, state, state.state
    ensures code == 0 && AgentAt(agent, state, h, t.handle)
    ensures Wrote(old(mem[..]), mem[..], b, Ke3Buffer, t.output)
  {
    AF.OutputHasItsLength(cs, v, Ke3Call(h, ke2));
    Disjoint(b, mem.Length, Ke2Buffer, Ke3Buffer);
    code := AgentEntry.GenerateKe3(
      cs, mem, agent, b.at(Ke2Buffer), KE2_LENGTH, state, b.at(Ke3Buffer), KE3_LENGTH, h.ke3At, h.ke3At, AF.NoFault);
    PatchWrites(old(mem[..]), b, Ke3Buffer, t.output);
  }

  method CallKe3(
    cs: Suite, h: Honest, mem: array<byte>, b: Layout, agent: AgentEntry.AgentHandle,
    state: AgentEntry.AgentStateHandle, ghost sc: Script) returns (code: int)
    requires Setting(cs, h, b, mem.Length, sc) && AgentAt(agent, state, h, sc.ke1.handle)
    requires Held(mem[..], b, Ke2Buffer) == sc.ke2.output
    modifies mem, agent, state, state.state
    ensures code == 0 && AgentAt(agent, state, h, sc.ke3.handle)
    ensures Wrote(old(mem[..]), mem[..], b, Ke3Buffer, sc.ke3.output)
  {
    assert StepOk(cs, h, sc, MakeKe3);
    code := CallKe3At(cs, h, mem, b, agent, state, sc.ke1.handle, sc.ke2.output, sc.ke3);
  }

  method CallRelayFinish(
    cs: Suite, h: Honest, mem: array<byte>, b: Layout, relay: RelayEntry.RelayHandle,
    state: RelayEntry.RelayStateHandle, ghost sc: Script) returns (code: int)
    requires Setting(cs, h, b, mem.Length, sc) && RelayFree(relay, h) && SessionAt(state, sc.ke2.state)
    requires Held(mem[..], b, Ke3Buffer) == sc.ke3.output
    modifies mem, relay, state, state.state
    ensures code == sc.relayEnd.code && RelayFree(relay, h) && SessionAt(state, sc.relayEnd.state)
    ensures code == 0 ==> Wrote(old(mem[..]), mem[..], b, RelayKey, sc.relayEnd.output)
    ensures code != 0 ==> mem[..] == old(mem[..])
  {
    assert StepOk(cs, h, sc, EndRelay);
    Disjoint(b, mem.Length, Ke3Buffer, RelayKey);
    RF.OutputHasItsLength(cs, sc.ke2.state, RR.FinishCall(sc.ke3.output, h.finishedAt), RF.NoFault);
    code := RelayEntry.Finish(
      cs, mem, relay, b.at(Ke3Buffer), KE3_LENGTH, state, b.at(RelayKey), HASH_LENGTH, h.finishedAt, RF.NoFault);
    if code == 0 {
      PatchWrites(old(mem[..]), b, RelayKey, sc.relayEnd.output);
    }
  }

  /** Both keys are in their buffers, and no other buffer changed. */
  ghost predicate WroteKeys(before: Bytes, after: Bytes, b: Layout, output: Bytes) {
    && |output| == HASH_LENGTH + EXPORT_KEY_LENGTH
    && Held(after, b, SessionKey) == output[..HASH_LENGTH] && Held(after, b, ExportKey) == output[HASH_LENGTH..]
    && (forall s: Region :: s != SessionKey && s != ExportKey ==> Held(after, b, s) == Held(before, b, s))
  }

  lemma CommitWritesKeys(before: Bytes, b: Layout, h: Honest, output: Bytes)
    requires b.Ok(|before|) && b.For(h) && |output| == HASH_LENGTH + EXPORT_KEY_LENGTH
    ensures Two(b.at(SessionKey), b.at(ExportKey)).Fits(|before|, |output|)
    ensures WroteKeys(before, Committed(before, Two(b.at(SessionKey), b.at(ExportKey)), output), b, output)
  {
    Disjoint(b, |before|, SessionKey, ExportKey);
    assert b.Apart(SessionKey, ExportKey) && b.Within(|before|, SessionKey);
    PatchWrites(before, b, SessionKey, output[..HASH_LENGTH]);
    PatchWrites(Patch(before, b.at(SessionKey), output[..HASH_LENGTH]), b, ExportKey, output[HASH_LENGTH..]);
  }

  method CallAgentFinishAt(
    cs: Suite, h: Honest, mem: array<byte>, b: Layout, agent: AgentEntry.AgentHandle,
    state: AgentEntry.AgentStateHandle, ghost v: AF.AgentHandleState, ghost t: AF.Transaction) returns (code: int)
    requires cs.Valid() && b.Ok(mem.Length) && b.For(h) && AgentAt(agent, state, h, v)
    requires AgentGives(cs, v, FinishAgentCall(), t)
    modifies mem, agent, state, state.state
    ensures code == t.code && AgentAt(agent, state, h, t.handle)
    ensures code == 0 ==> WroteKeys(old(mem[..]), mem[..], b, t.output)
    ensures code != 0 ==> mem[..] == old(mem[..])
  {
    Disjoint(b, mem.Length, SessionKey, ExportKey);
    if AF.Perform(cs, v, FinishAgentCall()).outcome.Ok? {
      AF.OutputHasItsLength(cs, v, FinishAgentCall());
      CommitWritesKeys(mem[..], b, h, t.output);
    }
    code := AgentEntry.Finish(
      cs, mem, agent, state, b.at(SessionKey), HASH_LENGTH, b.at(ExportKey), EXPORT_KEY_LENGTH, AF.NoFault);
  }

  method CallAgentFinish(
    cs: Suite, h: Honest, mem: array<byte>, b: Layout, agent: AgentEntry.AgentHandle,
    state: AgentEntry.AgentStateHandle, ghost sc: Script) returns (code: int)
    requires Setting(cs, h, b, mem.Length, sc) && AgentAt(agent, state, h, sc.ke3.handle)
    modifies mem, agent, state, state.state
    ensures code == sc.agentEnd.code && AgentAt(agent, state, h, sc.agentEnd.handle)
    ensures code == 0 ==> WroteKeys(old(mem[..]), mem[..], b, sc.agentEnd.output)
    ensures code != 0 ==> mem[..] == old(mem[..])
  {
    assert StepOk(cs, h, sc, EndAgent);
    code := CallAgentFinishAt(cs, h, mem, b, agent, state, sc.ke3.handle, sc.agentEnd);
  }

  // ---- The whole run -------------------------------------------------------------------------------

  method Register(
    cs: Suite, h: Honest, mem: array<byte>, b: Layout, agent: AgentEntry.AgentHandle, relay: RelayEntry.RelayHandle,
    state: AgentEntry.AgentStateHandle, ghost sc: Script) returns (codes: seq<int>)
    requires Setting(cs, h, b, mem.Length, sc) && AgentAt(agent, state, h, AF.NewHandle(0)) && RelayFree(relay, h)
    requires Held(mem[..], b, Password) == h.password && Held(mem[..], b, Account) == h.accountId
    modifies mem, agent, relay, state, state.state
    ensures codes == [0, 0, 0, 0] && AgentAt(agent, state, h, sc.record.handle) && RelayFree(relay, h)
    ensures Held(mem[..], b, Password) == h.password && Held(mem[..], b, Account) == h.accountId
    ensures Held(mem[..], b, Stored) == sc.record.output
  {
    var c1 := CallRequest(cs, h, mem, b, agent, state, sc);
    var c2 := CallResponse(cs, h, mem, b, relay, sc);
    var c3 := CallRecord(cs, h, mem, b, agent, state, sc);
    var c4 := CallCredentials(cs, h, mem, b, sc);
    codes := [c1, c2, c3, c4];
  }

  method Exchange(
    cs: Suite, h: Honest, mem: array<byte>, b: Layout, agent: AgentEntry.AgentHandle, relay: RelayEntry.RelayHandle,
    state: AgentEntry.AgentStateHandle, session: RelayEntry.RelayStateHandle, ghost sc: Script)
    returns (codes: seq<int>)
    requires Setting(cs, h, b, mem.Length, sc) && AgentAt(agent, state, h, AF.NewHandle(0))
    requires RelayFree(relay, h) && SessionAt(session, FreshRelay())
    requires Held(mem[..], b, Password) == h.password && Held(mem[..], b, Account) == h.accountId
    requires Held(mem[..], b, Stored) == sc.record.output
    modifies mem, agent, relay, state, state.state, session, session.state
    ensures codes == [0, 0, 0] && AgentAt(agent, state, h, sc.ke3.handle)
    ensures RelayFree(relay, h) && SessionAt(session, sc.ke2.state)
    ensures Held(mem[..], b, Ke3Buffer) == sc.ke3.output
  {
    var c1 := CallKe1(cs, h, mem, b, agent, state, sc);
    var c2 := CallKe2(cs, h, mem, b, relay, session, sc);
    var c3 := CallKe3(cs, h, mem, b, agent, state, sc);
    codes := [c1, c2, c3];
  }

  method Finish(
    cs: Suite, h: Honest, mem: array<byte>, b: Layout, agent: AgentEntry.AgentHandle, relay: RelayEntry.RelayHandle,
    state: AgentEntry.AgentStateHandle, session: RelayEntry.RelayStateHandle, ghost sc: Script)
    returns (relayCode: int, agentCode: int)
    requires Setting(cs, h, b, mem.Length, sc) && AgentAt(agent, state, h, sc.ke3.handle)
    requires RelayFree(relay, h) && SessionAt(session, sc.ke2.state)
    requires Held(mem[..], b, Ke3Buffer) == sc.ke3.output
    modifies mem, agent, relay, state, state.state, session, session.state
    ensures relayCode == sc.relayEnd.code && agentCode == sc.agentEnd.code
    ensures relayCode == 0 ==> Held(mem[..], b, RelayKey) == sc.relayEnd.output
    ensures agentCode == 0 ==>
              |sc.agentEnd.output| == 96 && Held(mem[..], b, SessionKey) == sc.agentEnd.output[..64]
              && Held(mem[..], b, ExportKey) == sc.agentEnd.output[64..]
    ensures relayCode != 0 && agentCode != 0 ==> mem[..] == old(mem[..])
  {
    relayCode := CallRelayFinish(cs, h, mem, b, relay, session, sc);
    agentCode := CallAgentFinish(cs, h, mem, b, agent, state, sc);
  }

  method RunScript(
    cs: Suite, h: Honest, mem: array<byte>, b: Layout, agent: AgentEntry.AgentHandle, relay: RelayEntry.RelayHandle,
    registration: AgentEntry.AgentStateHandle, login: AgentEntry.AgentStateHandle,
    session: RelayEntry.RelayStateHandle, ghost sc: Script) returns (codes: seq<int>)
    requires Setting(cs, h, b, mem.Length, sc)
    requires AgentAt(agent, registration, h, AF.NewHandle(0)) && AgentAt(agent, login, h, AF.NewHandle(0))
    requires RelayFree(relay, h) && SessionAt(session, FreshRelay())
    requires registration != login && registration.state != login.state
    requires Held(mem[..], b, Password) == h.password && Held(mem[..], b, Account) == h.accountId
    modifies mem, agent, relay, registration, registration.state, login, login.state, session, session.state
    ensures codes == [0, 0, 0, 0] + [0, 0, 0] + [sc.relayEnd.code, sc.agentEnd.code]
    ensures sc.relayEnd.code == 0 ==> Held(mem[..], b, RelayKey) == sc.relayEnd.output
    ensures sc.agentEnd.code == 0 ==>
              |sc.agentEnd.output| == 96 && Held(mem[..], b, SessionKey) == sc.agentEnd.output[..64]
              && Held(mem[..], b, ExportKey) == sc.agentEnd.output[64..]
  {
    var first := Register(cs, h, mem, b, agent, relay, registration, sc);
    var second := Exchange(cs, h, mem, b, agent, relay, login, session, sc);
    var relayCode, agentCode := Finish(cs, h, mem, b, agent, relay, login, session, sc);
    codes := first + second + [relayCode, agentCode];
  }

  /**
   The whole run. On acceptable inputs, in memory of any size with any layout of disjoint buffers, the nine calls
   return 0, the relay's and the agent's session-key buffers end up with the same 64 bytes, and the export buffer
   with the account's export key. Only if the session key is the zero string do the two finish calls fail.
   */
  method HonestRun(
    cs: Suite, h: Honest, mem: array<byte>, b: Layout, agent: AgentEntry.AgentHandle, relay: RelayEntry.RelayHandle,
    registration: AgentEntry.AgentStateHandle, login: AgentEntry.AgentStateHandle,
    session: RelayEntry.RelayStateHandle) returns (codes: seq<int>)
    requires cs.Valid() && Acceptable(cs, h) && |h.accountId| <= MAX_ACCOUNT_ID_LENGTH
    requires b.Ok(mem.Length) && b.For(h)
    requires AgentAt(agent, registration, h, AF.NewHandle(0)) && AgentAt(agent, login, h, AF.NewHandle(0))
    requires RelayFree(relay, h) && SessionAt(session, FreshRelay())
    requires registration != login && registration.state != login.state
    requires Held(mem[..], b, Password) == h.password && Held(mem[..], b, Account) == h.accountId
    modifies mem, agent, relay, registration, registration.state, login, login.state, session, session.state
    ensures var key := RelayKeysOf(cs, h).keys.sessionKey;
            if AllZero(key) then codes == [0, 0, 0, 0] + [0, 0, 0] + [-5, -1]
            else
              && codes == [0, 0, 0, 0] + [0, 0, 0] + [0, 0]
              && Held(mem[..], b, RelayKey) == key && Held(mem[..], b, SessionKey) == key
              && Held(mem[..], b, ExportKey) == ExportKeyOf(cs, h)
  {
    ghost var sc := ScriptFor(cs, h);
    HonestScript(cs, h);
    OutputsAgree(cs, h);
    codes := RunScript(cs, h, mem, b, agent, relay, registration, login, session, sc);
  }
}
