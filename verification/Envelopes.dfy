/** Sealing and opening the credential envelope. */
module Envelopes {
  import opened Types
  import opened ByteOps
  import opened Suites
  import opened Kdf
  import opened Crypto

  const PLAINTEXT_LENGTH: nat := PUBLIC_KEY_LENGTH + PRIVATE_KEY_LENGTH + PUBLIC_KEY_LENGTH

  datatype Envelope = Envelope(nonce: Bytes, ciphertext: Bytes, authTag: Bytes) {
    predicate WellFormed() {
      |nonce| == NONCE_LENGTH && |ciphertext| == PLAINTEXT_LENGTH && |authTag| == SECRETBOX_MAC_LENGTH
    }

    /** Layout inside a registration record. */
    function Serialized(): Bytes { nonce + ciphertext + authTag }
  }

  /** The three slices of a serialized envelope. */
  function Split(data: Bytes): Envelope
    requires |data| == ENVELOPE_LENGTH
  {
    Envelope(data[..NONCE_LENGTH],
             data[NONCE_LENGTH..NONCE_LENGTH + PLAINTEXT_LENGTH],
             data[NONCE_LENGTH + PLAINTEXT_LENGTH..])
  }

  lemma SplitSerialized(e: Envelope)
    requires e.WellFormed()
    ensures |e.Serialized()| == ENVELOPE_LENGTH
    ensures Split(e.Serialized()) == e
  {
  }

  /** The static keys an envelope protects. */
  datatype Credentials = Credentials(responderKey: Bytes, privateKey: Bytes, publicKey: Bytes)

  function EnvelopeKey(cs: Suite, responderKey: Bytes, randomizedPwd: Bytes): (r: Result<Bytes>)
    requires cs.Valid()
    ensures randomizedPwd != [] ==> r.Ok? && |r.value| == SECRETBOX_KEY_LENGTH
  {
    var prk :- Extract(cs, ENVELOPE_CONTEXT + responderKey, randomizedPwd);
    Expand(cs, prk, ENVELOPE_CONTEXT, SECRETBOX_KEY_LENGTH)
  }

  function Seal(cs: Suite, randomizedPwd: Bytes, c: Credentials, nonce: Bytes): (r: Result<Envelope>)
    requires cs.Valid() && |nonce| == NONCE_LENGTH
    requires |c.responderKey| == PUBLIC_KEY_LENGTH && |c.privateKey| == PRIVATE_KEY_LENGTH
    requires |c.publicKey| == PUBLIC_KEY_LENGTH
    ensures r.Ok? <==> randomizedPwd != []
    ensures r.Ok? ==> r.value.WellFormed()
  {
    if randomizedPwd == [] then Err(InvalidInput) else
      var key := EnvelopeKey(cs, c.responderKey, randomizedPwd).value;
      var sealed := cs.boxSeal(key, nonce, c.responderKey + c.privateKey + c.publicKey);
      Ok(Envelope(nonce, sealed[SECRETBOX_MAC_LENGTH..], sealed[..SECRETBOX_MAC_LENGTH]))
  }

  function OpenRaw(cs: Suite, e: Envelope, randomizedPwd: Bytes, knownResponderKey: Bytes): (r: Result<Credentials>)
    requires cs.Valid()
    ensures r.Ok? ==>
              && |r.value.responderKey| == PUBLIC_KEY_LENGTH && |r.value.privateKey| == PRIVATE_KEY_LENGTH
              && |r.value.publicKey| == PUBLIC_KEY_LENGTH
              && IsKeyPair(cs, r.value.privateKey, r.value.publicKey)
  {
    if randomizedPwd == [] then Err(InvalidInput)
    else if !e.WellFormed() then Err(InvalidEnvelope)
    else
      var key := EnvelopeKey(cs, knownResponderKey, randomizedPwd).value;
      var box := cs.boxOpen(key, e.nonce, e.authTag + e.ciphertext);
      if box.None? then Err(AuthenticationError) else
        var plain := box.value;
        var c := Credentials(
                   plain[..PUBLIC_KEY_LENGTH],
                   plain[PUBLIC_KEY_LENGTH..PUBLIC_KEY_LENGTH + PRIVATE_KEY_LENGTH],
                   plain[PUBLIC_KEY_LENGTH + PRIVATE_KEY_LENGTH..]);
        var derived :- ScalarMultBase(cs, c.privateKey);
        if c.publicKey != derived then Err(AuthenticationError) else Ok(c)
  }

  /** Opening what was sealed under the same password key returns the same credentials. */
  lemma OpenUndoesSeal(cs: Suite, randomizedPwd: Bytes, c: Credentials, nonce: Bytes)
    requires cs.Valid() && |nonce| == NONCE_LENGTH && randomizedPwd != []
    requires |c.responderKey| == PUBLIC_KEY_LENGTH && |c.privateKey| == PRIVATE_KEY_LENGTH
    requires |c.publicKey| == PUBLIC_KEY_LENGTH && IsKeyPair(cs, c.privateKey, c.publicKey)
    ensures OpenRaw(cs, Seal(cs, randomizedPwd, c, nonce).value, randomizedPwd, c.responderKey) == Ok(c)
  {
    var key := EnvelopeKey(cs, c.responderKey, randomizedPwd).value;
    var plain := c.responderKey + c.privateKey + c.publicKey;
    var sealed := cs.boxSeal(key, nonce, plain);
    assert sealed[..SECRETBOX_MAC_LENGTH] + sealed[SECRETBOX_MAC_LENGTH..] == sealed;
    assert plain[..32] == c.responderKey;
    assert plain[32..64] == c.privateKey;
    assert plain[64..] == c.publicKey;
  }

  /** Fills the plaintext buffer field by field and encrypts it. */
  method SealEnvelope(cs: Suite, randomizedPwd: Bytes, c: Credentials, nonce: Bytes) returns (r: Result<Envelope>)
    requires cs.Valid() && |nonce| == NONCE_LENGTH
    requires |c.responderKey| == PUBLIC_KEY_LENGTH && |c.privateKey| == PRIVATE_KEY_LENGTH
    requires |c.publicKey| == PUBLIC_KEY_LENGTH
    ensures r == Seal(cs, randomizedPwd, c, nonce)
  {
    if randomizedPwd == [] {
      return Err(InvalidInput);
    }
    var plaintext := new byte[PLAINTEXT_LENGTH];
    CopyInto(plaintext, 0, c.responderKey);
    CopyInto(plaintext, PUBLIC_KEY_LENGTH, c.privateKey);
    CopyInto(plaintext, PUBLIC_KEY_LENGTH + PRIVATE_KEY_LENGTH, c.publicKey);
    assert plaintext[..] == c.responderKey + c.privateKey + c.publicKey;
    match EnvelopeKey(cs, c.responderKey, randomizedPwd)
    case Err(e) => return Err(e);
    case Ok(key) =>
      var sealed := cs.boxSeal(key, nonce, plaintext[..]);
      r := Ok(Envelope(nonce, sealed[SECRETBOX_MAC_LENGTH..], sealed[..SECRETBOX_MAC_LENGTH]));
  }

  /** Where an opened envelope goes. */
  class KeyBuffers {
    const responderKey: array<byte>
    const privateKey: array<byte>
    const publicKey: array<byte>

    ghost predicate Valid() {
      && responderKey.Length == 32 && privateKey.Length == 32 && publicKey.Length == 32
      && responderKey != privateKey && responderKey != publicKey && privateKey != publicKey
    }

    ghost function Contents(): Credentials
      reads responderKey, privateKey, publicKey
    {
      Credentials(responderKey[..], privateKey[..], publicKey[..])
    }

    constructor ()
      ensures Valid() && Contents() == NoCredentials()
      ensures fresh(responderKey) && fresh(privateKey) && fresh(publicKey)
    {
      responderKey := new byte[32](_ => 0);
      privateKey := new byte[32](_ => 0);
      publicKey := new byte[32](_ => 0);
      new;
      assert responderKey[..] == Zeros(32) && privateKey[..] == Zeros(32) && publicKey[..] == Zeros(32);
    }

    method Store(c: Credentials)
      requires Valid() && |c.responderKey| == 32 && |c.privateKey| == 32 && |c.publicKey| == 32
      modifies responderKey, privateKey, publicKey
      ensures Contents() == c
    {
      CopyInto(responderKey, 0, c.responderKey);
      CopyInto(privateKey, 0, c.privateKey);
      CopyInto(publicKey, 0, c.publicKey);
    }

    /** Opens into the buffers; a failure leaves them as they were or all zero, never with part of a plaintext. */
    method Open(cs: Suite, e: Envelope, randomizedPwd: Bytes, knownResponderKey: Bytes) returns (r: Check)
      requires cs.Valid() && Valid()
      modifies responderKey, privateKey, publicKey
      ensures r.Pass? <==> OpenRaw(cs, e, randomizedPwd, knownResponderKey).Ok?
      ensures r.Pass? ==> OpenRaw(cs, e, randomizedPwd, knownResponderKey) == Ok(Contents())
      ensures r.Fail? ==> OpenRaw(cs, e, randomizedPwd, knownResponderKey) == Err(r.error)
      ensures r.Fail? ==> Contents() == old(Contents()) || Contents() == NoCredentials()
    {
      if randomizedPwd == [] {
        return Fail(InvalidInput);
      }
      if !e.WellFormed() {
        return Fail(InvalidEnvelope);
      }
      var key := EnvelopeKey(cs, knownResponderKey, randomizedPwd).value;
      var box := cs.boxOpen(key, e.nonce, e.authTag + e.ciphertext);
      if box.None? {
        return Fail(AuthenticationError);
      }
      var plain := box.value;
      Store(Credentials(plain[..32], plain[32..64], plain[64..]));
      var derived := ScalarMultBase(cs, privateKey[..]);
      if derived.Err? {
        Store(NoCredentials());
        return Fail(derived.error);
      }
      if publicKey[..] != derived.value {
        Store(NoCredentials());
        return Fail(AuthenticationError);
      }
      r := Pass;
    }
  }

  function NoCredentials(): Credentials { Credentials(Zeros(32), Zeros(32), Zeros(32)) }
}
