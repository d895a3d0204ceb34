/** Wire sizes, labels and error codes shared by the agent, the relay and the FFI layer. */
module Types {
  type byte = bv8
  type Bytes = seq<byte>

  const PROTOCOL_VERSION: byte := 2

  const OPRF_SEED_LENGTH: nat := 32
  const PRIVATE_KEY_LENGTH: nat := 32
  const PUBLIC_KEY_LENGTH: nat := 32
  const EXPORT_KEY_LENGTH: nat := 32
  const MASKING_KEY_LENGTH: nat := 32
  const NONCE_LENGTH: nat := 24
  const MAC_LENGTH: nat := 64
  const HASH_LENGTH: nat := 64
  const ENVELOPE_LENGTH: nat := 136
  const CREDENTIAL_RESPONSE_LENGTH: nat := 168
  const MAX_SECURE_KEY_LENGTH: nat := 4096
  const STATE_MAX_LIFETIME_SECS: nat := 900

  const KEM_PUBLIC_KEY_LENGTH: nat := 1184
  const KEM_SECRET_KEY_LENGTH: nat := 2400
  const KEM_CIPHERTEXT_LENGTH: nat := 1088
  const KEM_SHARED_SECRET_LENGTH: nat := 32

  const SECRETBOX_KEY_LENGTH: nat := 32
  const SECRETBOX_MAC_LENGTH: nat := 16

  const REGISTRATION_CREDENTIAL_LENGTH: nat := MASKING_KEY_LENGTH + ENVELOPE_LENGTH
  const REGISTRATION_REQUEST_WIRE_LENGTH: nat := 1 + PUBLIC_KEY_LENGTH
  const REGISTRATION_RESPONSE_WIRE_LENGTH: nat := 1 + 2 * PUBLIC_KEY_LENGTH
  const REGISTRATION_RECORD_LENGTH: nat := 1 + REGISTRATION_CREDENTIAL_LENGTH + PUBLIC_KEY_LENGTH
  const KE1_LENGTH: nat := 1 + 2 * PUBLIC_KEY_LENGTH + NONCE_LENGTH + KEM_PUBLIC_KEY_LENGTH
  const KE2_LENGTH: nat :=
    1 + NONCE_LENGTH + PUBLIC_KEY_LENGTH + CREDENTIAL_RESPONSE_LENGTH + MAC_LENGTH + KEM_CIPHERTEXT_LENGTH
  const KE3_LENGTH: nat := 1 + MAC_LENGTH

  const CLASSICAL_IKM_LENGTH: nat := 4 * PUBLIC_KEY_LENGTH

  /** Codes of the C boundary that are not protocol errors, and the one for bad arguments. */
  const FFI_INVALID_INPUT: int := -1
  const FFI_PANIC: int := -99
  const FFI_BUSY: int := -100
  const FFI_CORRUPTED_RECORD: int := -101

  /** Clock readings are in nanoseconds; whole seconds decide expiry, and a clock gone backwards has expired. */
  predicate LifetimeOver(armedAt: nat, now: nat) {
    now < armedAt || (now - armedAt) / 1_000_000_000 >= STATE_MAX_LIFETIME_SECS
  }

  /** The octet of a number that fits one. */
  function Octet(n: nat): byte
    requires n < 256
  {
    if n == 0 then 0 else Octet(n - 1) + 1
  }

  lemma IncrementIsExact(b: byte)
    ensures b != 0xFF ==> (b + 1) as int == b as int + 1
  {
  }

  /** The octet has the value of the number, so counting up to 255 never wraps. */
  lemma {:induction false} OctetIsExact(n: nat)
    requires n < 256
    ensures Octet(n) as int == n
  {
    if n > 0 {
      OctetIsExact(n - 1);
      IncrementIsExact(Octet(n - 1));
    }
  }

  /** Different counters have different octets. */
  lemma OctetIsInjective(m: nat, n: nat)
    requires m < 256 && n < 256 && Octet(m) == Octet(n)
    ensures m == n
  {
    OctetIsExact(m);
    OctetIsExact(n);
  }

  predicate IsAscii(s: string) { forall i :: 0 <= i < |s| ==> (s[i] as int) < 128 }

  /** A byte-string literal. */
  function Ascii(s: string): (b: Bytes)
    requires IsAscii(s)
    ensures |b| == |s|
  {
    seq(|s|, i requires 0 <= i < |s| => Octet(s[i] as int))
  }

  const OPRF_CONTEXT := Ascii("AURA-OPAQUE-v1/OPRF")
  const OPRF_KEY_INFO := Ascii("AURA-OPAQUE-v1/OPRF-Key")
  const OPRF_SEED_INFO := Ascii("AURA-OPAQUE-v1/OPRF-Seed")
  const ENVELOPE_CONTEXT := Ascii("AURA-OPAQUE-v1/EnvelopeKey")
  const TRANSCRIPT_CONTEXT := Ascii("AURA-OPAQUE-v1/Transcript")
  const ACCOUNT_CONTEXT_BINDING := Ascii("AURA-OPAQUE-v2/AccountContext")
  const KSF_CONTEXT := Ascii("AURA-OPAQUE-v1/KSF")
  const KSF_SALT_LABEL := Ascii("AURA-OPAQUE-v1/KSF-Salt")
  const CLIENT_EXPORT_KEY_INFO := Ascii("AURA-OPAQUE-v2/ClientExportKey")
  const MASKING_KEY_INFO := Ascii("AURA-OPAQUE-v2/MaskingKey")
  const CREDENTIAL_MASKING_INFO := Ascii("AURA-OPAQUE-v2/CredentialMask")
  const DERIVE_KEYPAIR_CONTEXT := Ascii("AURA-OPAQUE-v1/DeriveKeyPair")
  const FAKE_CREDENTIALS_CONTEXT := Ascii("AURA-OPAQUE-v1/FakeCredentials")
  const PQ_COMBINER_CONTEXT := Ascii("AURA-OPAQUE-PQ-v1/Combiner")
  const PQ_SESSION_KEY_INFO := Ascii("AURA-OPAQUE-PQ-v1/SessionKey")
  const PQ_RESPONDER_MAC_INFO := Ascii("AURA-OPAQUE-PQ-v1/ResponderMAC")
  const PQ_INITIATOR_MAC_INFO := Ascii("AURA-OPAQUE-PQ-v1/InitiatorMAC")

  datatype OpaqueError =
    | InvalidInput
    | CryptoError
    | InvalidProtocolMessage
    | ValidationError
    | AuthenticationError
    | InvalidPublicKey
    | AlreadyRegistered
    | InvalidKemInput
    | InvalidEnvelope
    | UnsupportedVersion
  {
    /** Return code seen by a C caller; protocol-stage failures share one code. */
    function ToCInt(): (code: int)
      ensures code < 0
      ensures code != -99 && code != -100 && code != -101
      ensures code == -5 <==>
                InvalidProtocolMessage? || ValidationError? || AuthenticationError? || InvalidKemInput?
                || InvalidEnvelope?
      ensures InvalidInput? <==> code == -1
      ensures CryptoError? <==> code == -2
      ensures InvalidPublicKey? <==> code == -6
      ensures AlreadyRegistered? <==> code == -7
      ensures UnsupportedVersion? <==> code == -10
    {
      match this
      case InvalidInput => -1
      case CryptoError => -2
      case InvalidProtocolMessage => -5
      case ValidationError => -5
      case AuthenticationError => -5
      case InvalidPublicKey => -6
      case AlreadyRegistered => -7
      case InvalidKemInput => -5
      case InvalidEnvelope => -5
      case UnsupportedVersion => -10
    }
  }

  datatype Option<+T> = None | Some(value: T)

  datatype Result<+T> = Ok(value: T) | Err(error: OpaqueError) {
    predicate IsFailure() { Err? }

    function PropagateFailure<U>(): Result<U>
      requires Err?
    {
      Err(error)
    }

    function Extract(): T
      requires Ok?
    {
      value
    }
  }

  /** Outcome of a step that yields no value. */
  datatype Check = Pass | Fail(error: OpaqueError) {
    predicate IsFailure() { Fail? }

    function PropagateFailure<U>(): Result<U>
      requires Fail?
    {
      Err(error)
    }
  }

  function Zeros(n: nat): (b: Bytes)
    ensures |b| == n
  {
    seq(n, _ => 0)
  }

  predicate AllZero(b: Bytes) { forall i :: 0 <= i < |b| ==> b[i] == 0 }

  lemma ZerosAreAllZero(n: nat)
    ensures AllZero(Zeros(n))
  {
  }

  lemma AllZeroIsZeros(b: Bytes)
    requires AllZero(b)
    ensures b == Zeros(|b|)
  {
  }
}
