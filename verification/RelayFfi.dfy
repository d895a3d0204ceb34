/** The relay's entry points as transactions, and its handling of stored records. */
module RelayFfi {
  import opened Types
  import opened Suites
  import opened Crypto
  import opened Wire
  import opened Relay
  import opened RelayRuns
  import AnswerShape

  /** A panic may strike anywhere before the output is committed and leave the state in any condition. */
  datatype Fault = NoFault | Panic(left: RelayState)

  datatype Transaction = Transaction(state: RelayState, code: int, output: Bytes)

  /** An admitted call: commit on success, otherwise a wiped and terminal state and no output. */
  function RunStateful(cs: Suite, s: RelayState, call: Call, fault: Fault): (t: Transaction)
    requires cs.Valid() && s.WellFormed() && call.WellFormed()
    ensures t.state.WellFormed() && (t.code != 0 ==> t.output == [])
  {
    if fault.Panic? then Transaction(fault.left.Invalidated(), FFI_PANIC, []) else
      match call
      case Ke2Call(responder, ke1, accountId, credentials, rnd, now, later) =>
        var (t, r) := GenerateKe2(cs, responder, ke1, accountId, credentials, s, rnd, now, later);
        (match r
         case Ok(k) => Transaction(t, 0, Ke2Wire(k.Message()))
         case Err(e) => Transaction(t.Invalidated(), e.ToCInt(), []))
      case FinishCall(ke3, now) =>
        var (t, r) := ResponderFinish(ke3, s, now);
        (match r
         case Ok(key) => Transaction(t, 0, key)
         case Err(e) => Transaction(t.Invalidated(), e.ToCInt(), []))
  }

  function OutputLength(call: Call): nat { if call.Ke2Call? then KE2_LENGTH else HASH_LENGTH }

  /** Serialization is exact: a successful call yields the documented number of bytes. */
  lemma OutputHasItsLength(cs: Suite, s: RelayState, call: Call, fault: Fault)
    requires cs.Valid() && s.WellFormed() && call.WellFormed()
    ensures var t := RunStateful(cs, s, call, fault);
            t.code == 0 ==> |t.output| == OutputLength(call)
  {
  }

  /** Between calls a fresh or finished state holds no secret. */
  predicate StateOk(s: RelayState) {
    s.WellFormed() && (s.phase != Ke2Generated ==> SecretsCleared(s))
  }

  function Rank(phase: Phase): nat {
    match phase
    case Created => 0
    case Ke2Generated => 1
    case Finished => 2
  }

  lemma InvalidatedIsOk(s: RelayState)
    ensures StateOk(s.Invalidated()) && s.Invalidated().phase == Finished && SecretsCleared(s.Invalidated())
  {
    ZerosAreAllZero(32);
    ZerosAreAllZero(64);
  }

  lemma BlankIsOk(createdAt: nat)
    ensures StateOk(Blank(Created, createdAt))
  {
    ZerosAreAllZero(32);
    ZerosAreAllZero(64);
  }

  /** The transaction contract of an admitted relay call, with or without a panic. */
  lemma AdmittedCallContract(cs: Suite, s: RelayState, call: Call, fault: Fault)
    requires cs.Valid() && StateOk(s) && call.WellFormed()
    ensures var r := RunStateful(cs, s, call, fault);
            && StateOk(r.state)
            && (r.code != 0 ==> r.output == [] && r.state.phase == Finished && SecretsCleared(r.state))
            && (s.phase != Finished ==> Rank(s.phase) < Rank(r.state.phase))
            && (s.phase == Finished ==> r.code != 0 && r.state.phase == Finished)
            && (r.code == 0 && call.FinishCall? ==> s.phase == Ke2Generated && r.state.phase == Finished)
  {
    StepEffect(cs, s, call);
    InvalidatedIsOk(s);
    if fault.Panic? {
      InvalidatedIsOk(fault.left);
    }
    InvalidatedIsOk(Apply(cs, s, call).0);
    ZerosAreAllZero(32);
    ZerosAreAllZero(64);
  }

  /** A call returns the code of its library step, or -99 for a panic. */
  lemma ReturnCodes(cs: Suite, s: RelayState, call: Call)
    requires cs.Valid() && s.WellFormed() && call.WellFormed()
    ensures forall left :: RunStateful(cs, s, call, Panic(left)).code == -99
    ensures RunStateful(cs, s, call, NoFault).code
            == match call
               case Ke2Call(responder, ke1, id, c, rnd, now, later) =>
                 var r := GenerateKe2(cs, responder, ke1, id, c, s, rnd, now, later).1;
                 if r.Ok? then 0 else r.error.ToCInt()
               case FinishCall(ke3, now) =>
                 var r := ResponderFinish(ke3, s, now).1;
                 if r.Ok? then 0 else r.error.ToCInt()
  {
  }

  // ---- Stored records ------------------------------------------------------------------------------

  /**
   The credentials a KE2 call works with, or the code it returns before admission. Without a record an
   unregistered stand-in carrying the relay's own public key goes through the same checks.
   */
  datatype RecordCheck = Credentials(credentials: ResponderCredentials) | Corrupted

  function CheckRecord(cs: Suite, responder: Responder, record: Option<Bytes>): RecordCheck {
    var standIn := RecordWire(Zeros(REGISTRATION_CREDENTIAL_LENGTH), responder.publicKey);
    var wire := if record.Some? then record.value else standIn;
    var view := ParseRegistrationRecord(wire);
    if view.Err? || ValidatePublicKey(cs, view.value.initiatorPublicKey).Fail? then Corrupted
    else if record.None? then Credentials(NewCredentials())
    else
      Credentials(
        ResponderCredentials(view.value.envelope, view.value.maskingKey, view.value.initiatorPublicKey, true))
  }

  /** A record passes exactly if it is whole, of version 2 and holds a genuine key; it is read field by field. */
  lemma CheckRecordIsExact(cs: Suite, responder: Responder, record: Bytes)
    requires cs.Valid()
    ensures var check := CheckRecord(cs, responder, Some(record));
            && (check.Credentials? <==> |record| == 201 && record[0] == 2 && IsPoint(cs, record[169..201]))
            && (check.Credentials? ==>
                  check.credentials == ResponderCredentials(record[33..169], record[1..33], record[169..201], true))
  {
    Offsets(record);
    if |record| == 201 {
      ValidationAccepts(cs, record[169..201]);
    }
  }

  /** The credentials entry point: parse, validate and write the record again. */
  function BuildCredentialsOutput(cs: Suite, record: Bytes): Result<Bytes> {
    var c :- BuildCredentials(cs, record, NewCredentials());
    Ok(RecordWire(c.maskingKey + c.envelope, c.initiatorPublicKey))
  }

  /** When it succeeds, it returns its input unchanged; it succeeds exactly on records KE2 accepts. */
  lemma BuildCredentialsIsIdentity(cs: Suite, responder: Responder, record: Bytes)
    ensures BuildCredentialsOutput(cs, record).Ok? ==> BuildCredentialsOutput(cs, record).value == record
    ensures BuildCredentialsOutput(cs, record).Ok? <==> CheckRecord(cs, responder, Some(record)).Credentials?
  {
    RegistrationRecordRoundTrip(RegistrationRecord([], [], []), record);
  }

  /** A stored record yields exactly what `build_credentials` stored; no record always passes for a valid relay key. */
  lemma RecordsAreRead(cs: Suite, responder: Responder, record: Bytes)
    requires cs.Valid() && responder.WellFormed() && IsPoint(cs, responder.publicKey)
    ensures CheckRecord(cs, responder, None) == Credentials(NewCredentials())
    ensures BuildCredentials(cs, record, NewCredentials()).Ok? ==>
              CheckRecord(cs, responder, Some(record))
              == Credentials(BuildCredentials(cs, record, NewCredentials()).value)
  {
    var zeros := Zeros(REGISTRATION_CREDENTIAL_LENGTH);
    var m := RegistrationRecord(zeros[..32], zeros[32..], responder.publicKey);
    assert m.maskingKey + m.envelope == zeros;
    RegistrationRecordRoundTrip(m, record);
    ValidationAccepts(cs, responder.publicKey);
  }

  /**
   From the caller's side: presenting a stored record and presenting none give the same return code and phase
   for the same KE1, account id and randomness.
   */
  lemma UnknownAccountLooksKnown(
    cs: Suite, responder: Responder, ke1: Bytes, accountId: Bytes, record: Bytes, s: RelayState, rnd: Ke2Random,
    now: nat, later: nat)
    requires cs.Valid() && responder.WellFormed() && IsPoint(cs, responder.publicKey) && rnd.WellFormed()
    requires s.WellFormed()
    requires CheckRecord(cs, responder, Some(record)).Credentials?
    requires !AllZero(CheckRecord(cs, responder, Some(record)).credentials.maskingKey)
    requires FakeSelection(cs, responder.oprfSeed, accountId).Ok? ==>
               !AllZero(FakeSelection(cs, responder.oprfSeed, accountId).value.maskingKey)
    ensures CheckRecord(cs, responder, None).Credentials?
    ensures var known := CheckRecord(cs, responder, Some(record)).credentials;
            var unknown := CheckRecord(cs, responder, None).credentials;
            var r := RunStateful(cs, s, Ke2Call(responder, ke1, accountId, known, rnd, now, later), NoFault);
            var f := RunStateful(cs, s, Ke2Call(responder, ke1, accountId, unknown, rnd, now, later), NoFault);
            r.code == f.code && r.state.phase == f.state.phase && |r.output| == |f.output|
  {
    RecordsAreRead(cs, responder, record);
    var known := CheckRecord(cs, responder, Some(record)).credentials;
    ValidationAccepts(cs, known.initiatorPublicKey);
    AnswerShape.SameAnswerShape(cs, responder, ke1, accountId, known, NewCredentials(), s, rnd, now, later);
  }
}
