/** The six versioned, fixed-layout messages: parsing by offsets and writing into a caller's buffer. */
module Wire {
  import opened Types
  import opened ByteOps

  datatype RegistrationResponse = RegistrationResponse(evaluatedElement: Bytes, responderPublicKey: Bytes) {
    predicate WellFormed() { |evaluatedElement| == 32 && |responderPublicKey| == 32 }
  }

  datatype RegistrationRecord = RegistrationRecord(maskingKey: Bytes, envelope: Bytes, initiatorPublicKey: Bytes) {
    predicate WellFormed() { |maskingKey| == 32 && |envelope| == 136 && |initiatorPublicKey| == 32 }
  }

  datatype Ke1 = Ke1(credentialRequest: Bytes, initiatorPublicKey: Bytes, initiatorNonce: Bytes, pqPublicKey: Bytes) {
    predicate WellFormed() {
      |credentialRequest| == 32 && |initiatorPublicKey| == 32 && |initiatorNonce| == 24 && |pqPublicKey| == 1184
    }
  }

  datatype Ke2 = Ke2(
    responderNonce: Bytes, responderPublicKey: Bytes, credentialResponse: Bytes, responderMac: Bytes,
    kemCiphertext: Bytes)
  {
    predicate WellFormed() {
      && |responderNonce| == 24 && |responderPublicKey| == 32 && |credentialResponse| == 168
      && |responderMac| == 64 && |kemCiphertext| == 1088
    }
  }

  // ---- Parsing ---------------------------------------------------------------------------------

  function CheckVersion(data: Bytes): Check {
    if data == [] then Fail(InvalidProtocolMessage)
    else if data[0] == PROTOCOL_VERSION then Pass
    else Fail(UnsupportedVersion)
  }

  function ParseRegistrationRequest(data: Bytes): (r: Result<Bytes>)
    ensures r.Ok? <==> |data| == 33 && data[0] == 2
  {
    if |data| != REGISTRATION_REQUEST_WIRE_LENGTH then Err(InvalidProtocolMessage) else
      :- CheckVersion(data);
      Ok(data[1..])
  }

  function ParseRegistrationResponse(data: Bytes): (r: Result<RegistrationResponse>)
    ensures r.Ok? <==> |data| == 65 && data[0] == 2
    ensures r.Ok? ==> r.value.WellFormed()
  {
    if |data| != REGISTRATION_RESPONSE_WIRE_LENGTH then Err(InvalidProtocolMessage) else
      :- CheckVersion(data);
      Ok(RegistrationResponse(data[1..33], data[33..]))
  }

  function ParseRegistrationRecord(data: Bytes): (r: Result<RegistrationRecord>)
    ensures r.Ok? <==> |data| == 201 && data[0] == 2
    ensures r.Ok? ==> r.value.WellFormed()
  {
    if |data| != REGISTRATION_RECORD_LENGTH then Err(InvalidProtocolMessage) else
      :- CheckVersion(data);
      Ok(RegistrationRecord(data[1..33], data[33..169], data[169..]))
  }

  function ParseKe1(data: Bytes): (r: Result<Ke1>)
    ensures r.Ok? <==> |data| == 1273 && data[0] == 2
    ensures r.Ok? ==> r.value.WellFormed()
  {
    if |data| != KE1_LENGTH then Err(InvalidProtocolMessage) else
      :- CheckVersion(data);
      Ok(Ke1(data[1..33], data[33..65], data[65..89], data[89..]))
  }

  function ParseKe2(data: Bytes): (r: Result<Ke2>)
    ensures r.Ok? <==> |data| == 1377 && data[0] == 2
    ensures r.Ok? ==> r.value.WellFormed()
  {
    if |data| != KE2_LENGTH then Err(InvalidProtocolMessage) else
      :- CheckVersion(data);
      Ok(Ke2(data[1..25], data[25..57], data[57..225], data[225..289], data[289..]))
  }

  function ParseKe3(data: Bytes): (r: Result<Bytes>)
    ensures r.Ok? <==> |data| == 65 && data[0] == 2
    ensures r.Ok? ==> |r.value| == 64
  {
    if |data| != KE3_LENGTH then Err(InvalidProtocolMessage) else
      :- CheckVersion(data);
      Ok(data[1..])
  }

  // ---- The bytes of a message ------------------------------------------------------------------

  function RegistrationRequestWire(payload: Bytes): Bytes { [PROTOCOL_VERSION] + payload }

  function RegistrationResponseWire(m: RegistrationResponse): Bytes {
    [PROTOCOL_VERSION] + m.evaluatedElement + m.responderPublicKey
  }

  function RegistrationRecordWire(m: RegistrationRecord): Bytes {
    RecordWire(m.maskingKey + m.envelope, m.initiatorPublicKey)
  }

  /** A record whose masking key and envelope arrive as one stored string. */
  function RecordWire(credentialStorage: Bytes, initiatorPublicKey: Bytes): Bytes {
    [PROTOCOL_VERSION] + credentialStorage + initiatorPublicKey
  }

  function Ke1Wire(m: Ke1): Bytes {
    [PROTOCOL_VERSION] + m.credentialRequest + m.initiatorPublicKey + m.initiatorNonce + m.pqPublicKey
  }

  function Ke2Wire(m: Ke2): Bytes {
    [PROTOCOL_VERSION] + m.responderNonce + m.responderPublicKey + m.credentialResponse + m.responderMac
    + m.kemCiphertext
  }

  function Ke3Wire(mac: Bytes): Bytes { [PROTOCOL_VERSION] + mac }

  // ---- Offsets ---------------------------------------------------------------------------------

  /** What a parser returns, byte by byte, and how it refuses: the length first, then the version. */
  lemma Offsets(data: Bytes)
    ensures |data| == 33 && data[0] == 2 ==> ParseRegistrationRequest(data) == Ok(data[1..33])
    ensures |data| == 65 && data[0] == 2 ==>
              ParseRegistrationResponse(data) == Ok(RegistrationResponse(data[1..33], data[33..65]))
    ensures |data| == 201 && data[0] == 2 ==>
              ParseRegistrationRecord(data) == Ok(RegistrationRecord(data[1..33], data[33..169], data[169..201]))
    ensures |data| == 1273 && data[0] == 2 ==>
              ParseKe1(data) == Ok(Ke1(data[1..33], data[33..65], data[65..89], data[89..1273]))
    ensures |data| == 1377 && data[0] == 2 ==>
              ParseKe2(data)
              == Ok(Ke2(data[1..25], data[25..57], data[57..225], data[225..289], data[289..1377]))
    ensures |data| == 65 && data[0] == 2 ==> ParseKe3(data) == Ok(data[1..65])
  {
    assert |data| == 33 ==> data[1..] == data[1..33];
    assert |data| == 65 ==> data[1..] == data[1..65] && data[33..] == data[33..65];
    assert |data| == 201 ==> data[169..] == data[169..201];
    assert |data| == 1273 ==> data[89..] == data[89..1273];
    assert |data| == 1377 ==> data[289..] == data[289..1377];
  }

  lemma Refusals(data: Bytes)
    ensures ParseRegistrationRequest(data).Err? ==> ParseRegistrationRequest(data).error == Refusal(data, 33)
    ensures ParseRegistrationResponse(data).Err? ==> ParseRegistrationResponse(data).error == Refusal(data, 65)
    ensures ParseRegistrationRecord(data).Err? ==> ParseRegistrationRecord(data).error == Refusal(data, 201)
    ensures ParseKe1(data).Err? ==> ParseKe1(data).error == Refusal(data, 1273)
    ensures ParseKe2(data).Err? ==> ParseKe2(data).error == Refusal(data, 1377)
    ensures ParseKe3(data).Err? ==> ParseKe3(data).error == Refusal(data, 65)
  {
  }

  function Refusal(data: Bytes, length: nat): OpaqueError {
    if |data| != length then InvalidProtocolMessage else UnsupportedVersion
  }

  // ---- Writing and parsing are inverse ---------------------------------------------------------

  lemma RegistrationRequestRoundTrip(payload: Bytes, data: Bytes)
    ensures |payload| == 32 ==> ParseRegistrationRequest(RegistrationRequestWire(payload)) == Ok(payload)
    ensures ParseRegistrationRequest(data).Ok? ==> RegistrationRequestWire(ParseRegistrationRequest(data).value) == data
  {
    assert RegistrationRequestWire(payload)[1..] == payload;
  }

  lemma RegistrationResponseRoundTrip(m: RegistrationResponse, data: Bytes)
    ensures m.WellFormed() ==> ParseRegistrationResponse(RegistrationResponseWire(m)) == Ok(m)
    ensures ParseRegistrationResponse(data).Ok? ==>
              RegistrationResponseWire(ParseRegistrationResponse(data).value) == data
  {
    if m.WellFormed() {
      var w := RegistrationResponseWire(m);
      assert w[1..33] == m.evaluatedElement && w[33..] == m.responderPublicKey;
    }
  }

  lemma RegistrationRecordRoundTrip(m: RegistrationRecord, data: Bytes)
    ensures m.WellFormed() ==> ParseRegistrationRecord(RegistrationRecordWire(m)) == Ok(m)
    ensures ParseRegistrationRecord(data).Ok? ==> RegistrationRecordWire(ParseRegistrationRecord(data).value) == data
  {
    if m.WellFormed() {
      var w := RegistrationRecordWire(m);
      assert w[1..33] == m.maskingKey && w[33..169] == m.envelope && w[169..] == m.initiatorPublicKey;
    }
  }

  lemma Ke1RoundTrip(m: Ke1, data: Bytes)
    ensures m.WellFormed() ==> ParseKe1(Ke1Wire(m)) == Ok(m)
    ensures ParseKe1(data).Ok? ==> Ke1Wire(ParseKe1(data).value) == data
  {
    if m.WellFormed() {
      var w := Ke1Wire(m);
      assert w[1..33] == m.credentialRequest && w[33..65] == m.initiatorPublicKey;
      assert w[65..89] == m.initiatorNonce && w[89..] == m.pqPublicKey;
    }
  }

  lemma Ke2RoundTrip(m: Ke2, data: Bytes)
    ensures m.WellFormed() ==> ParseKe2(Ke2Wire(m)) == Ok(m)
    ensures ParseKe2(data).Ok? ==> Ke2Wire(ParseKe2(data).value) == data
  {
    if m.WellFormed() {
      var w := Ke2Wire(m);
      assert w[1..25] == m.responderNonce && w[25..57] == m.responderPublicKey;
      assert w[57..225] == m.credentialResponse && w[225..289] == m.responderMac && w[289..] == m.kemCiphertext;
    }
  }

  lemma Ke3RoundTrip(mac: Bytes, data: Bytes)
    ensures |mac| == 64 ==> ParseKe3(Ke3Wire(mac)) == Ok(mac)
    ensures ParseKe3(data).Ok? ==> Ke3Wire(ParseKe3(data).value) == data
  {
    assert Ke3Wire(mac)[1..] == mac;
  }

  // ---- Writing into a caller's buffer ----------------------------------------------------------

  /** Extends the part of `out` already written (`written`, from offset 0) by `data`. */
  method AppendAt(out: array<byte>, off: nat, data: Bytes, ghost before: Bytes, ghost written: Bytes)
    requires |before| == out.Length && off == |written| && off + |data| <= out.Length
    requires out[..] == Patch(before, 0, written)
    modifies out
    ensures out[..] == Patch(before, 0, written + data)
  {
    CopyInto(out, off, data);
    PatchTwice(before, written, data);
  }

  lemma PatchTwice(buf: Bytes, a: Bytes, b: Bytes)
    requires |a| + |b| <= |buf|
    ensures Patch(Patch(buf, 0, a), |a|, b) == Patch(buf, 0, a + b)
  {
  }

  lemma PatchNothing(buf: Bytes)
    ensures Patch(buf, 0, []) == buf
  {
  }

  method WriteRegistrationRequest(payload: Bytes, out: array<byte>) returns (r: Check)
    modifies out
    ensures r.Pass? <==> |payload| == 32 && 33 <= out.Length
    ensures r.Pass? ==> out[..] == Patch(old(out[..]), 0, RegistrationRequestWire(payload))
    ensures r.Fail? ==> r.error == InvalidProtocolMessage && out[..] == old(out[..])
  {
    if |payload| != PUBLIC_KEY_LENGTH || out.Length < REGISTRATION_REQUEST_WIRE_LENGTH {
      return Fail(InvalidProtocolMessage);
    }
    ghost var before := out[..];
    PatchNothing(before);
    AppendAt(out, 0, [PROTOCOL_VERSION], before, []);
    AppendAt(out, 1, payload, before, [PROTOCOL_VERSION]);
    r := Pass;
  }

  method WriteRegistrationResponse(m: RegistrationResponse, out: array<byte>) returns (r: Check)
    modifies out
    ensures r.Pass? <==> m.WellFormed() && 65 <= out.Length
    ensures r.Pass? ==> out[..] == Patch(old(out[..]), 0, RegistrationResponseWire(m))
    ensures r.Fail? ==> r.error == InvalidProtocolMessage && out[..] == old(out[..])
  {
    if !m.WellFormed() || out.Length < REGISTRATION_RESPONSE_WIRE_LENGTH {
      return Fail(InvalidProtocolMessage);
    }
    ghost var before := out[..];
    PatchNothing(before);
    AppendAt(out, 0, [PROTOCOL_VERSION], before, []);
    AppendAt(out, 1, m.evaluatedElement, before, [PROTOCOL_VERSION]);
    AppendAt(out, 33, m.responderPublicKey, before, [PROTOCOL_VERSION] + m.evaluatedElement);
    r := Pass;
  }

  method WriteRegistrationRecord(credentialStorage: Bytes, initiatorPublicKey: Bytes, out: array<byte>)
    returns (r: Check)
    modifies out
    ensures r.Pass? <==> |credentialStorage| == 168 && |initiatorPublicKey| == 32 && 201 <= out.Length
    ensures r.Pass? ==> out[..] == Patch(old(out[..]), 0, RecordWire(credentialStorage, initiatorPublicKey))
    ensures r.Fail? ==> r.error == InvalidProtocolMessage && out[..] == old(out[..])
  {
    if |credentialStorage| != REGISTRATION_CREDENTIAL_LENGTH || |initiatorPublicKey| != PUBLIC_KEY_LENGTH
       || out.Length < REGISTRATION_RECORD_LENGTH
    {
      return Fail(InvalidProtocolMessage);
    }
    ghost var before := out[..];
    PatchNothing(before);
    AppendAt(out, 0, [PROTOCOL_VERSION], before, []);
    AppendAt(out, 1, credentialStorage, before, [PROTOCOL_VERSION]);
    AppendAt(out, 169, initiatorPublicKey, before, [PROTOCOL_VERSION] + credentialStorage);
    r := Pass;
  }

  method WriteKe1(m: Ke1, out: array<byte>) returns (r: Check)
    modifies out
    ensures r.Pass? <==> m.WellFormed() && 1273 <= out.Length
    ensures r.Pass? ==> out[..] == Patch(old(out[..]), 0, Ke1Wire(m))
    ensures r.Fail? ==> r.error == InvalidProtocolMessage && out[..] == old(out[..])
  {
    if !m.WellFormed() || out.Length < KE1_LENGTH {
      return Fail(InvalidProtocolMessage);
    }
    ghost var before := out[..];
    ghost var w1 := [PROTOCOL_VERSION] + m.credentialRequest;
    ghost var w2 := w1 + m.initiatorPublicKey;
    PatchNothing(before);
    AppendAt(out, 0, [PROTOCOL_VERSION], before, []);
    AppendAt(out, 1, m.credentialRequest, before, [PROTOCOL_VERSION]);
    AppendAt(out, 33, m.initiatorPublicKey, before, w1);
    AppendAt(out, 65, m.initiatorNonce, before, w2);
    AppendAt(out, 89, m.pqPublicKey, before, w2 + m.initiatorNonce);
    r := Pass;
  }

  method WriteKe2(m: Ke2, out: array<byte>) returns (r: Check)
    modifies out
    ensures r.Pass? <==> m.WellFormed() && 1377 <= out.Length
    ensures r.Pass? ==> out[..] == Patch(old(out[..]), 0, Ke2Wire(m))
    ensures r.Fail? ==> r.error == InvalidProtocolMessage && out[..] == old(out[..])
  {
    if !m.WellFormed() || out.Length < KE2_LENGTH {
      return Fail(InvalidProtocolMessage);
    }
    ghost var before := out[..];
    ghost var w1 := [PROTOCOL_VERSION] + m.responderNonce;
    ghost var w2 := w1 + m.responderPublicKey;
    ghost var w3 := w2 + m.credentialResponse;
    PatchNothing(before);
    AppendAt(out, 0, [PROTOCOL_VERSION], before, []);
    AppendAt(out, 1, m.responderNonce, before, [PROTOCOL_VERSION]);
    AppendAt(out, 25, m.responderPublicKey, before, w1);
    AppendAt(out, 57, m.credentialResponse, before, w2);
    AppendAt(out, 225, m.responderMac, before, w3);
    AppendAt(out, 289, m.kemCiphertext, before, w3 + m.responderMac);
    r := Pass;
  }

  method WriteKe3(mac: Bytes, out: array<byte>) returns (r: Check)
    modifies out
    ensures r.Pass? <==> |mac| == 64 && 65 <= out.Length
    ensures r.Pass? ==> out[..] == Patch(old(out[..]), 0, Ke3Wire(mac))
    ensures r.Fail? ==> r.error == InvalidProtocolMessage && out[..] == old(out[..])
  {
    if |mac| != MAC_LENGTH || out.Length < KE3_LENGTH {
      return Fail(InvalidProtocolMessage);
    }
    ghost var before := out[..];
    PatchNothing(before);
    AppendAt(out, 0, [PROTOCOL_VERSION], before, []);
    AppendAt(out, 1, mac, before, [PROTOCOL_VERSION]);
    r := Pass;
  }
}
