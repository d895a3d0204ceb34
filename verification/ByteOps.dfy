/** Byte loops: zero test, branch-free selection, XOR, and copying into a caller's buffer. */
module ByteOps {
  import opened Types

  /** OR of all bytes compared with zero. */
  method IsAllZero(data: Bytes) returns (zero: bool)
    ensures zero <==> AllZero(data)
  {
    var acc: byte := 0;
    for i := 0 to |data|
      invariant acc == 0 <==> AllZero(data[..i])
    {
      var before := acc;
      acc := acc | data[i];
      OrZero(before, data[i]);
      assert data[..i + 1] == data[..i] + [data[i]];
    }
    assert data[..|data|] == data;
    zero := acc == 0;
  }

  lemma OrZero(a: byte, b: byte)
    ensures a | b == 0 <==> a == 0 && b == 0
  {
  }

  /** Selects `a` when the mask is all ones and `b` when it is zero, without branching. */
  function ConditionalSelect(b: byte, a: byte, choice: bool): (r: byte)
    ensures r == if choice then a else b
  {
    var mask: byte := if choice then 0xFF else 0;
    b ^ (mask & (b ^ a))
  }

  method CtSelectBytes(out: array<byte>, a: Bytes, b: Bytes, choice: bool)
    requires out.Length == |a| == |b|
    modifies out
    ensures out[..] == if choice then a else b
  {
    for i := 0 to out.Length
      invariant forall k :: 0 <= k < i ==> out[k] == if choice then a[k] else b[k]
    {
      out[i] := ConditionalSelect(b[i], a[i], choice);
    }
  }

  function Xor(a: Bytes, b: Bytes): (r: Bytes)
    requires |a| == |b|
    ensures |r| == |a|
  {
    seq(|a|, i requires 0 <= i < |a| => a[i] ^ b[i])
  }

  lemma XorTwice(a: byte, b: byte)
    ensures (a ^ b) ^ b == a
  {
  }

  lemma XorInvolution(a: Bytes, pad: Bytes)
    requires |a| == |pad|
    ensures Xor(Xor(a, pad), pad) == a
  {
    forall i | 0 <= i < |a|
      ensures Xor(Xor(a, pad), pad)[i] == a[i]
    {
      XorTwice(a[i], pad[i]);
    }
  }

  /** The XOR loop. */
  method XorInto(output: array<byte>, input: Bytes, pad: array<byte>)
    requires |input| == pad.Length == output.Length && pad != output
    modifies output
    ensures output[..] == Xor(input, pad[..])
  {
    for i := 0 to output.Length
      invariant forall k :: 0 <= k < i ==> output[k] == input[k] ^ pad[k]
    {
      output[i] := input[i] ^ pad[i];
    }
  }

  /** What a buffer holds once `data` has been copied in at `off`. */
  function Patch(buf: Bytes, off: nat, data: Bytes): (r: Bytes)
    requires off + |data| <= |buf|
    ensures |r| == |buf|
    ensures r[off..off + |data|] == data
    ensures forall i :: 0 <= i < off || off + |data| <= i < |buf| ==> r[i] == buf[i]
  {
    buf[..off] + data + buf[off + |data|..]
  }

  /** Copies `data` into `buf[off..off + |data|]`. */
  method CopyInto(buf: array<byte>, off: nat, data: Bytes)
    requires off + |data| <= buf.Length
    modifies buf
    ensures buf[..] == Patch(old(buf[..]), off, data)
  {
    for i := 0 to |data|
      invariant forall k :: 0 <= k < i ==> buf[off + k] == data[k]
      invariant forall k :: 0 <= k < off || off + i <= k < buf.Length ==> buf[k] == old(buf[k])
    {
      buf[off + i] := data[i];
    }
    forall k | 0 <= k < buf.Length
      ensures buf[k] == Patch(old(buf[..]), off, data)[k]
    {
      if off <= k < off + |data| {
        assert buf[off + (k - off)] == data[k - off];
      }
    }
  }
}
