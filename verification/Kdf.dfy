/** HMAC with its argument checks, HKDF-Extract and HKDF-Expand (section 2.3 of RFC 5869) over SHA-512. */
module Kdf {
  import opened Types
  import opened ByteOps
  import opened Suites

  const MAX_BLOCKS: nat := 255

  function HmacSha512(cs: Suite, key: Bytes, message: Bytes): Result<Bytes> {
    if key == [] || message == [] then Err(InvalidInput) else Ok(cs.hmac(key, message))
  }

  function Extract(cs: Suite, salt: Bytes, ikm: Bytes): Result<Bytes> {
    HmacSha512(cs, salt, ikm)
  }

  /** T(i), with T(0) the empty string. */
  function Block(cs: Suite, prk: Bytes, info: Bytes, i: nat): Bytes
    requires i <= MAX_BLOCKS
  {
    if i == 0 then [] else cs.hmac(prk, Block(cs, prk, info, i - 1) + info + [Octet(i)])
  }

  /** T(1) | T(2) | ... | T(n). */
  function Blocks(cs: Suite, prk: Bytes, info: Bytes, n: nat): Bytes
    requires n <= MAX_BLOCKS
  {
    if n == 0 then [] else Blocks(cs, prk, info, n - 1) + Block(cs, prk, info, n)
  }

  lemma {:induction false} BlocksLength(cs: Suite, prk: Bytes, info: Bytes, n: nat)
    requires cs.Valid() && n <= MAX_BLOCKS
    ensures |Blocks(cs, prk, info, n)| == n * HASH_LENGTH
  {
    if n > 0 {
      BlocksLength(cs, prk, info, n - 1);
    }
  }

  function BlockCount(length: nat): nat { (length + HASH_LENGTH - 1) / HASH_LENGTH }

  predicate Expandable(prk: Bytes, length: nat) {
    prk != [] && 0 < length && BlockCount(length) <= MAX_BLOCKS
  }

  /** The first `length` bytes of T(1) | T(2) | ..., or an error when RFC 5869 gives no output. */
  function Expand(cs: Suite, prk: Bytes, info: Bytes, length: nat): (r: Result<Bytes>)
    requires cs.Valid()
    ensures r.Ok? <==> Expandable(prk, length)
    ensures r.Ok? ==> |r.value| == length
  {
    if !Expandable(prk, length) then Err(InvalidInput) else
      BlocksLength(cs, prk, info, BlockCount(length));
      Ok(Blocks(cs, prk, info, BlockCount(length))[..length])
  }

  lemma {:induction false} BlocksArePrefixes(cs: Suite, prk: Bytes, info: Bytes, m: nat, n: nat)
    requires m <= n <= MAX_BLOCKS
    ensures Blocks(cs, prk, info, m) <= Blocks(cs, prk, info, n)
  {
    if m < n {
      BlocksArePrefixes(cs, prk, info, m, n - 1);
    }
  }

  /** A shorter output is a prefix of every longer one. */
  lemma ExpandIsPrefix(cs: Suite, prk: Bytes, info: Bytes, short: nat, long: nat)
    requires cs.Valid()
    requires 0 < short <= long && Expand(cs, prk, info, long).Ok?
    ensures Expand(cs, prk, info, short).Ok?
    ensures Expand(cs, prk, info, short).value <= Expand(cs, prk, info, long).value
  {
    var m, n := BlockCount(short), BlockCount(long);
    BlocksArePrefixes(cs, prk, info, m, n);
    BlocksLength(cs, prk, info, m);
    BlocksLength(cs, prk, info, n);
  }

  /** Copies as much of `data` as fits at `off`. */
  method CopyBlock(buf: array<byte>, off: nat, data: Bytes)
    requires off <= buf.Length
    modifies buf
    ensures forall k :: 0 <= k < buf.Length ==>
              buf[k] == if off <= k < off + |data| then data[k - off] else old(buf[k])
  {
    var copyLen := if |data| < buf.Length - off then |data| else buf.Length - off;
    CopyInto(buf, off, data[..copyLen]);
    forall k | 0 <= k < buf.Length
      ensures buf[k] == if off <= k < off + |data| then data[k - off] else old(buf[k])
    {
      assert buf[..][k] == Patch(old(buf[..]), off, data[..copyLen])[k];
    }
  }

  /** One round's HMAC, from the previous block's buffer into the current one. */
  method ComputeBlock(
    cs: Suite, prk: Bytes, info: Bytes, i: nat, tPrev: array<byte>, tCurrent: array<byte>)
    requires cs.Valid() && 1 <= i <= MAX_BLOCKS && tCurrent != tPrev
    requires tCurrent.Length == HASH_LENGTH && (i > 1 ==> tPrev[..] == Block(cs, prk, info, i - 1))
    modifies tCurrent
    ensures tCurrent[..] == Block(cs, prk, info, i)
  {
    var message := (if i > 1 then tPrev[..] else []) + info + [Octet(i)];
    CopyInto(tCurrent, 0, cs.hmac(prk, message));
  }

  /** The first bytes of the output are in place. */
  ghost predicate Filled(cs: Suite, prk: Bytes, info: Bytes, n: nat, okm: array<byte>, done: nat)
    requires cs.Valid() && n <= MAX_BLOCKS && okm.Length <= n * HASH_LENGTH
    reads okm
  {
    BlocksLength(cs, prk, info, n);
    forall k :: 0 <= k < done && k < okm.Length ==> okm[k] == Blocks(cs, prk, info, n)[k]
  }

  /** Copies one block to its place, truncated at the end of the caller's buffer. */
  method StoreBlock(cs: Suite, prk: Bytes, info: Bytes, i: nat, n: nat, okm: array<byte>, block: Bytes)
    requires cs.Valid() && 1 <= i <= n <= MAX_BLOCKS && (n - 1) * HASH_LENGTH < okm.Length <= n * HASH_LENGTH
    requires block == Block(cs, prk, info, i) && Filled(cs, prk, info, n, okm, (i - 1) * HASH_LENGTH)
    modifies okm
    ensures Filled(cs, prk, info, n, okm, i * HASH_LENGTH)
  {
    BlockPosition(cs, prk, info, i, n);
    CopyBlock(okm, (i - 1) * HASH_LENGTH, block);
  }

  /**
   The expand loop: two block buffers swapped after every round, each block copied (truncated at the
   end) into the caller's buffer. The counter always fits its octet.
   */
  method KeyDerivationExpand(cs: Suite, prk: Bytes, info: Bytes, okm: array<byte>) returns (r: Check)
    requires cs.Valid()
    modifies okm
    ensures r.Pass? <==> Expandable(prk, okm.Length)
    ensures r.Pass? ==> Expand(cs, prk, info, okm.Length) == Ok(okm[..])
    ensures r.Fail? ==> r.error == InvalidInput && okm[..] == old(okm[..])
  {
    if prk == [] || okm.Length == 0 {
      return Fail(InvalidInput);
    }
    var n := (okm.Length + HASH_LENGTH - 1) / HASH_LENGTH;
    if n > MAX_BLOCKS {
      return Fail(InvalidInput);
    }
    var tPrev, tCurrent := new byte[HASH_LENGTH](_ => 0), new byte[HASH_LENGTH](_ => 0);
    for i := 1 to n + 1
      invariant fresh(tPrev) && fresh(tCurrent) && tPrev != tCurrent
      invariant tPrev.Length == tCurrent.Length == HASH_LENGTH
      invariant i > 1 ==> tPrev[..] == Block(cs, prk, info, i - 1)
      invariant Filled(cs, prk, info, n, okm, (i - 1) * HASH_LENGTH)
    {
      ComputeBlock(cs, prk, info, i, tPrev, tCurrent);
      StoreBlock(cs, prk, info, i, n, okm, tCurrent[..]);
      tPrev, tCurrent := tCurrent, tPrev;
    }
    BlocksLength(cs, prk, info, n);
    assert okm[..] == Blocks(cs, prk, info, n)[..okm.Length];
    r := Pass;
  }

  /** T(i) sits at offset (i - 1) * 64 of the whole output. */
  lemma BlockPosition(cs: Suite, prk: Bytes, info: Bytes, i: nat, n: nat)
    requires cs.Valid() && 1 <= i <= n <= MAX_BLOCKS
    ensures i * HASH_LENGTH <= |Blocks(cs, prk, info, n)|
    ensures |Block(cs, prk, info, i)| == HASH_LENGTH
    ensures forall k :: (i - 1) * HASH_LENGTH <= k < i * HASH_LENGTH ==>
              Blocks(cs, prk, info, n)[k] == Block(cs, prk, info, i)[k - (i - 1) * HASH_LENGTH]
  {
    BlocksLength(cs, prk, info, i - 1);
    BlocksLength(cs, prk, info, i);
    BlocksArePrefixes(cs, prk, info, i, n);
  }

  /** The i-th block of an output, cut off at its end. */
  function BlockOf(okm: Bytes, i: nat): Bytes
    requires 1 <= i <= BlockCount(|okm|)
  {
    var start := (i - 1) * HASH_LENGTH;
    okm[start..if start + HASH_LENGTH <= |okm| then start + HASH_LENGTH else |okm|]
  }

  lemma OutputBlock(cs: Suite, prk: Bytes, info: Bytes, length: nat, i: nat)
    requires cs.Valid() && Expand(cs, prk, info, length).Ok? && 1 <= i <= BlockCount(length)
    ensures BlockOf(Expand(cs, prk, info, length).value, i) <= Block(cs, prk, info, i)
    ensures i < BlockCount(length) ==>
              BlockOf(Expand(cs, prk, info, length).value, i) == Block(cs, prk, info, i)
  {
    BlocksLength(cs, prk, info, BlockCount(length));
    BlockPosition(cs, prk, info, i, BlockCount(length));
    var block, start := BlockOf(Expand(cs, prk, info, length).value, i), (i - 1) * HASH_LENGTH;
    forall k | 0 <= k < |block|
      ensures block[k] == Block(cs, prk, info, i)[k]
    {
      assert block[k] == Blocks(cs, prk, info, BlockCount(length))[start + k];
    }
  }

  /**
   The recurrence on the output itself: its i-th block is the HMAC of the block before it (nothing before the
   first), the info string and the octet i, cut off at the end of the output.
   */
  lemma ExpandChains(cs: Suite, prk: Bytes, info: Bytes, length: nat, i: nat)
    requires cs.Valid() && Expand(cs, prk, info, length).Ok? && 1 <= i <= BlockCount(length)
    ensures var okm := Expand(cs, prk, info, length).value;
            var before := if i == 1 then [] else BlockOf(okm, i - 1);
            BlockOf(okm, i) <= cs.hmac(prk, before + info + [Octet(i)])
  {
    OutputBlock(cs, prk, info, length, i);
    if i > 1 {
      OutputBlock(cs, prk, info, length, i - 1);
    }
  }

  /** Up to one block: the HMAC of the info string and the octet 1. */
  lemma ExpandShort(cs: Suite, prk: Bytes, info: Bytes, length: nat)
    requires cs.Valid() && prk != [] && 1 <= length <= HASH_LENGTH
    ensures Expand(cs, prk, info, length) == Ok(cs.hmac(prk, info + [1])[..length])
  {
    OctetsAreLiteral();
    assert Block(cs, prk, info, 1) == cs.hmac(prk, info + [1]) by {
      assert [] + info + [Octet(1)] == info + [1];
    }
    assert Blocks(cs, prk, info, 1) == Block(cs, prk, info, 1);
  }

  /** What a 136-byte output is made of: two blocks and the first eight bytes of a third. */
  function ThreeBlocks(cs: Suite, prk: Bytes, info: Bytes): Bytes {
    var t1 := cs.hmac(prk, info + [1]);
    var t2 := cs.hmac(prk, t1 + info + [2]);
    t1 + t2 + cs.hmac(prk, t2 + info + [3])
  }

  lemma ExpandLong(cs: Suite, prk: Bytes, info: Bytes)
    requires cs.Valid() && prk != []
    ensures |ThreeBlocks(cs, prk, info)| == 3 * HASH_LENGTH
    ensures Expand(cs, prk, info, ENVELOPE_LENGTH) == Ok(ThreeBlocks(cs, prk, info)[..ENVELOPE_LENGTH])
  {
    OctetsAreLiteral();
    assert Block(cs, prk, info, 1) == cs.hmac(prk, info + [1]) by {
      assert [] + info + [Octet(1)] == info + [1];
    }
    assert Block(cs, prk, info, 2) == cs.hmac(prk, Block(cs, prk, info, 1) + info + [2]);
    assert Block(cs, prk, info, 3) == cs.hmac(prk, Block(cs, prk, info, 2) + info + [3]);
    assert Blocks(cs, prk, info, 1) == Block(cs, prk, info, 1);
    assert Blocks(cs, prk, info, 2) == Blocks(cs, prk, info, 1) + Block(cs, prk, info, 2);
    assert Blocks(cs, prk, info, 3) == Blocks(cs, prk, info, 2) + Block(cs, prk, info, 3);
  }

  lemma OctetsAreLiteral()
    ensures Octet(1) == 1 && Octet(2) == 2 && Octet(3) == 3
  {
    assert Octet(2) == Octet(1) + 1;
    assert Octet(3) == Octet(2) + 1;
  }
}
