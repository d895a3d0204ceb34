/** The ML-KEM interface and the combiner of classical and post-quantum key material. */
module PqKem {
  import opened Types
  import opened ByteOps
  import opened Suites
  import opened Kdf

  function Encapsulate(cs: Suite, publicKey: Bytes, coins: Bytes): (r: Result<(Bytes, Bytes)>)
    requires cs.Valid()
    ensures r.Ok? ==> |r.value.0| == KEM_CIPHERTEXT_LENGTH && |r.value.1| == KEM_SHARED_SECRET_LENGTH
  {
    if |publicKey| != KEM_PUBLIC_KEY_LENGTH then Err(InvalidKemInput)
    else match cs.kemEncaps(publicKey, coins)
      case None => Err(InvalidKemInput)
      case Some(e) => Ok(e)
  }

  function Decapsulate(cs: Suite, secretKey: Bytes, ciphertext: Bytes): (r: Result<Bytes>)
    requires cs.Valid()
    ensures r.Ok? ==> |r.value| == KEM_SHARED_SECRET_LENGTH
  {
    if |secretKey| != KEM_SECRET_KEY_LENGTH || |ciphertext| != KEM_CIPHERTEXT_LENGTH then Err(InvalidKemInput)
    else match cs.kemDecaps(secretKey, ciphertext)
      case None => Err(InvalidKemInput)
      case Some(s) => Ok(s)
  }

  function CombineKeyMaterial(
    cs: Suite, classicalIkm: Bytes, sharedSecret: Bytes, transcriptHash: Bytes): (r: Result<Bytes>)
    requires cs.Valid()
    ensures r.Ok? <==> |classicalIkm| == CLASSICAL_IKM_LENGTH && |sharedSecret| == KEM_SHARED_SECRET_LENGTH
                       && |transcriptHash| == HASH_LENGTH
    ensures r.Ok? ==> |r.value| == HASH_LENGTH
  {
    if |classicalIkm| != CLASSICAL_IKM_LENGTH || |sharedSecret| != KEM_SHARED_SECRET_LENGTH
       || |transcriptHash| != HASH_LENGTH
    then Err(InvalidInput)
    else Extract(cs, PQ_COMBINER_CONTEXT + transcriptHash, classicalIkm + sharedSecret)
  }

  /** The combiner with its two labelled buffers. */
  method Combine(cs: Suite, classicalIkm: Bytes, sharedSecret: Bytes, transcriptHash: Bytes) returns (r: Result<Bytes>)
    requires cs.Valid()
    ensures r == CombineKeyMaterial(cs, classicalIkm, sharedSecret, transcriptHash)
    ensures r.Ok? ==> r.value == cs.hmac(PQ_COMBINER_CONTEXT + transcriptHash, classicalIkm + sharedSecret)
  {
    if |classicalIkm| != CLASSICAL_IKM_LENGTH || |sharedSecret| != KEM_SHARED_SECRET_LENGTH
       || |transcriptHash| != HASH_LENGTH
    {
      return Err(InvalidInput);
    }
    var combinedIkm := new byte[CLASSICAL_IKM_LENGTH + KEM_SHARED_SECRET_LENGTH];
    CopyInto(combinedIkm, 0, classicalIkm);
    CopyInto(combinedIkm, CLASSICAL_IKM_LENGTH, sharedSecret);
    assert combinedIkm[..] == classicalIkm + sharedSecret;
    var labeled := new byte[|PQ_COMBINER_CONTEXT| + HASH_LENGTH];
    CopyInto(labeled, 0, PQ_COMBINER_CONTEXT);
    CopyInto(labeled, |PQ_COMBINER_CONTEXT|, transcriptHash);
    assert labeled[..] == PQ_COMBINER_CONTEXT + transcriptHash;
    r := Extract(cs, labeled[..], combinedIkm[..]);
  }

  /** Different material never reaches the extractor as the same salt and input. */
  lemma CombinerIsUnambiguous(c: Bytes, s: Bytes, t: Bytes, c': Bytes, s': Bytes, t': Bytes)
    requires |c| == |c'| == CLASSICAL_IKM_LENGTH && |s| == |s'| == KEM_SHARED_SECRET_LENGTH
    requires |t| == |t'| == HASH_LENGTH
    requires c + s == c' + s' && PQ_COMBINER_CONTEXT + t == PQ_COMBINER_CONTEXT + t'
    ensures c == c' && s == s' && t == t'
  {
    assert c == (c + s)[..CLASSICAL_IKM_LENGTH] && s == (c + s)[CLASSICAL_IKM_LENGTH..];
    assert c' == (c' + s')[..CLASSICAL_IKM_LENGTH] && s' == (c' + s')[CLASSICAL_IKM_LENGTH..];
    assert t == (PQ_COMBINER_CONTEXT + t)[|PQ_COMBINER_CONTEXT|..];
    assert t' == (PQ_COMBINER_CONTEXT + t')[|PQ_COMBINER_CONTEXT|..];
  }
}
