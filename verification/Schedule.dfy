/** The fixed-width transcript, the 4DH input and the key schedule both parties derive from them. */
module Schedule {
  import opened Types
  import opened ByteOps
  import opened Suites
  import opened Kdf
  import opened PqKem

  const TRANSCRIPT_LENGTH: nat :=
    2 * NONCE_LENGTH + 4 * PUBLIC_KEY_LENGTH + CREDENTIAL_RESPONSE_LENGTH + KEM_CIPHERTEXT_LENGTH
    + KEM_PUBLIC_KEY_LENGTH + HASH_LENGTH

  /** What the two parties say to each other and about each other, in transcript order. */
  datatype Session = Session(
    initiatorEphemeral: Bytes, responderEphemeral: Bytes, initiatorNonce: Bytes, responderNonce: Bytes,
    initiatorKey: Bytes, responderKey: Bytes, credentialResponse: Bytes, pqPublicKey: Bytes, kemCiphertext: Bytes,
    accountHash: Bytes)
  {
    predicate WellFormed() {
      && |initiatorEphemeral| == 32 && |responderEphemeral| == 32 && |initiatorNonce| == 24
      && |responderNonce| == 24 && |initiatorKey| == 32 && |responderKey| == 32 && |credentialResponse| == 168
      && |pqPublicKey| == 1184 && |kemCiphertext| == 1088 && |accountHash| == 64
    }

    function Transcript(): Bytes {
      initiatorEphemeral + responderEphemeral + initiatorNonce + responderNonce + initiatorKey + responderKey
      + credentialResponse + pqPublicKey + kemCiphertext + accountHash
    }
  }

  lemma CutConcat(a: Bytes, b: Bytes, c: Bytes, d: Bytes)
    requires |b| == |d| && a + b == c + d
    ensures a == c && b == d
  {
    assert |a| == |c|;
    assert a == (a + b)[..|a|] && c == (c + d)[..|a|];
    assert b == (a + b)[|a|..] && d == (c + d)[|a|..];
  }

  /** Fixed widths make the transcript injective. */
  lemma TranscriptInjective(s: Session, t: Session)
    requires s.WellFormed() && t.WellFormed() && s.Transcript() == t.Transcript()
    ensures s == t
  {
    var s2 := s.initiatorEphemeral + s.responderEphemeral;
    var t2 := t.initiatorEphemeral + t.responderEphemeral;
    var s4, t4 := s2 + s.initiatorNonce + s.responderNonce, t2 + t.initiatorNonce + t.responderNonce;
    var s6, t6 := s4 + s.initiatorKey + s.responderKey, t4 + t.initiatorKey + t.responderKey;
    var s8, t8 := s6 + s.credentialResponse + s.pqPublicKey, t6 + t.credentialResponse + t.pqPublicKey;
    CutConcat(s8 + s.kemCiphertext, s.accountHash, t8 + t.kemCiphertext, t.accountHash);
    CutConcat(s8, s.kemCiphertext, t8, t.kemCiphertext);
    CutConcat(s6 + s.credentialResponse, s.pqPublicKey, t6 + t.credentialResponse, t.pqPublicKey);
    CutConcat(s6, s.credentialResponse, t6, t.credentialResponse);
    CutConcat(s4 + s.initiatorKey, s.responderKey, t4 + t.initiatorKey, t.responderKey);
    CutConcat(s4, s.initiatorKey, t4, t.initiatorKey);
    CutConcat(s2 + s.initiatorNonce, s.responderNonce, t2 + t.initiatorNonce, t.responderNonce);
    CutConcat(s2, s.initiatorNonce, t2, t.initiatorNonce);
    CutConcat(s.initiatorEphemeral, s.responderEphemeral, t.initiatorEphemeral, t.responderEphemeral);
  }

  /** The keys of one session; the two MACs cover the transcript itself. */
  datatype Keys = Keys(
    sessionKey: Bytes, responderMacKey: Bytes, responderMac: Bytes, initiatorMacKey: Bytes, initiatorMac: Bytes)
  {
    predicate WellFormed() {
      && |sessionKey| == 64 && |responderMacKey| == 64 && |responderMac| == 64 && |initiatorMacKey| == 64
      && |initiatorMac| == 64
    }
  }

  function DeriveKeys(cs: Suite, classicalIkm: Bytes, sharedSecret: Bytes, transcript: Bytes): (r: Result<Keys>)
    requires cs.Valid() && transcript != []
    ensures |classicalIkm| == CLASSICAL_IKM_LENGTH && |sharedSecret| == KEM_SHARED_SECRET_LENGTH ==> r.Ok?
    ensures r.Ok? ==> r.value.WellFormed() && r.value.initiatorMac == cs.hmac(r.value.initiatorMacKey, transcript)
                      && r.value.responderMac == cs.hmac(r.value.responderMacKey, transcript)
  {
    var prk :- CombineKeyMaterial(cs, classicalIkm, sharedSecret, cs.sha512(TRANSCRIPT_CONTEXT + transcript));
    // Past the combiner no step can fail.
    var sessionKey := Expand(cs, prk, PQ_SESSION_KEY_INFO, HASH_LENGTH).value;
    var responderMacKey := Expand(cs, prk, PQ_RESPONDER_MAC_INFO, MAC_LENGTH).value;
    var responderMac := HmacSha512(cs, responderMacKey, transcript).value;
    var initiatorMacKey := Expand(cs, prk, PQ_INITIATOR_MAC_INFO, MAC_LENGTH).value;
    var initiatorMac := HmacSha512(cs, initiatorMacKey, transcript).value;
    Ok(Keys(sessionKey, responderMacKey, responderMac, initiatorMacKey, initiatorMac))
  }

  /** One labelled key, expanded into a buffer. */
  method ExpandKey(cs: Suite, prk: Bytes, info: Bytes) returns (key: Bytes)
    requires cs.Valid() && prk != []
    ensures Expand(cs, prk, info, 64) == Ok(key)
  {
    var okm := new byte[64];
    var done := KeyDerivationExpand(cs, prk, info, okm);
    key := okm[..];
  }

  /** The schedule as the parties run it, key by key. */
  method ComputeKeys(cs: Suite, classicalIkm: Bytes, sharedSecret: Bytes, transcript: Bytes) returns (r: Result<Keys>)
    requires cs.Valid() && transcript != []
    ensures r == DeriveKeys(cs, classicalIkm, sharedSecret, transcript)
  {
    var combined := Combine(cs, classicalIkm, sharedSecret, cs.sha512(TRANSCRIPT_CONTEXT + transcript));
    if combined.Err? {
      return Err(combined.error);
    }
    var prk := combined.value;
    var sessionKey := ExpandKey(cs, prk, PQ_SESSION_KEY_INFO);
    var responderMacKey := ExpandKey(cs, prk, PQ_RESPONDER_MAC_INFO);
    var responderMac := HmacSha512(cs, responderMacKey, transcript).value;
    var initiatorMacKey := ExpandKey(cs, prk, PQ_INITIATOR_MAC_INFO);
    var initiatorMac := HmacSha512(cs, initiatorMacKey, transcript).value;
    r := Ok(Keys(sessionKey, responderMacKey, responderMac, initiatorMacKey, initiatorMac));
  }

  /** The stack buffer a transcript is appended into, with a moving offset. */
  class TranscriptBuffer {
    const buf: array<byte>
    var off: nat

    ghost predicate Valid()
      reads this, buf
    {
      buf.Length == TRANSCRIPT_LENGTH && off <= buf.Length
    }

    ghost function Contents(): Bytes
      requires Valid()
      reads this, buf
    {
      buf[..off]
    }

    constructor ()
      ensures Valid() && fresh(buf) && Contents() == []
    {
      buf := new byte[TRANSCRIPT_LENGTH](_ => 0);
      off := 0;
    }

    method Append(data: Bytes)
      requires Valid() && |Contents()| + |data| <= TRANSCRIPT_LENGTH
      modifies this, buf
      ensures Valid() && Contents() == old(Contents()) + data
    {
      CopyInto(buf, off, data);
      off := off + |data|;
      assert buf[..off] == old(buf[..off]) + data;
    }

    /** Five fields in a row: half a transcript. */
    method AppendFive(a: Bytes, b: Bytes, c: Bytes, d: Bytes, e: Bytes)
      requires Valid() && |Contents()| + |a| + |b| + |c| + |d| + |e| <= TRANSCRIPT_LENGTH
      modifies this, buf
      ensures Valid() && Contents() == old(Contents()) + a + b + c + d + e
    {
      Append(a);
      Append(b);
      Append(c);
      Append(d);
      Append(e);
    }

    method Written() returns (bytes: Bytes)
      requires Valid()
      ensures bytes == Contents()
    {
      bytes := buf[..off];
    }
  }
}
