/** The flat memory a C caller shares with the library: address ranges, overlap and committed outputs. */
module FfiMemory {
  import opened Types
  import opened ByteOps

  /** One past the largest address of a 64-bit process. */
  const ADDRESS_LIMIT: nat := 0x1_0000_0000_0000_0000

  const NULL: nat := 0

  const MAX_ACCOUNT_ID_LENGTH: nat := 1024

  /** True when two non-empty ranges meet, or when an end address does not fit into a machine word. */
  predicate RangesOverlap(left: nat, leftLen: nat, right: nat, rightLen: nat) {
    if leftLen == 0 || rightLen == 0 then false
    else if left + leftLen >= ADDRESS_LIMIT then true
    else if right + rightLen >= ADDRESS_LIMIT then true
    else left < right + rightLen && right < left + leftLen
  }

  predicate InRange(address: nat, start: nat, len: nat) { start <= address < start + len }

  /** The test is exact: ranges that fit are accepted if and only if they share no address. */
  lemma OverlapIsExact(left: nat, leftLen: nat, right: nat, rightLen: nat)
    requires left + leftLen < ADDRESS_LIMIT && right + rightLen < ADDRESS_LIMIT
    ensures !RangesOverlap(left, leftLen, right, rightLen)
            <==> forall a :: !(InRange(a, left, leftLen) && InRange(a, right, rightLen))
  {
    if RangesOverlap(left, leftLen, right, rightLen) {
      var a := if left < right then right else left;
      assert InRange(a, left, leftLen) && InRange(a, right, rightLen);
    }
  }

  /** The C contract for a pointer and its extent: null, empty, or inside the caller's memory. */
  predicate Extent(size: nat, pointer: nat, len: nat) { pointer == NULL || len == 0 || pointer + len <= size }

  /** An input a call may read, given where its output goes. */
  predicate InputOk(input: nat, inputLen: nat, output: nat, outputLen: nat) {
    input != NULL && !RangesOverlap(input, inputLen, output, outputLen)
  }

  /** An output buffer that can take the fixed-length result. */
  predicate OutputOk(output: nat, capacity: nat, needed: nat) { output != NULL && needed <= capacity }

  /** The bytes of an input; empty when the pointer is unusable, which every call rejects before reading. */
  function Load(mem: Bytes, pointer: nat, len: nat): Bytes {
    if pointer + len <= |mem| then mem[pointer..pointer + len] else []
  }

  /** Where a result goes: one prefix, or the session and export keys in two. */
  datatype Destination = One(at: nat) | Two(sessionAt: nat, exportAt: nat) {
    /** Room for a result of this length, the two parts of a pair apart from each other. */
    predicate Fits(size: nat, len: nat) {
      match this
      case One(at) => at + len <= size
      case Two(s, e) =>
        && len == HASH_LENGTH + EXPORT_KEY_LENGTH
        && s + HASH_LENGTH <= size && e + EXPORT_KEY_LENGTH <= size
        && (s + HASH_LENGTH <= e || e + EXPORT_KEY_LENGTH <= s)
    }

    /** The address belongs to the output. */
    predicate Covers(address: nat, len: nat) {
      match this
      case One(at) => InRange(address, at, len)
      case Two(s, e) => InRange(address, s, HASH_LENGTH) || InRange(address, e, EXPORT_KEY_LENGTH)
    }
  }

  /** The caller's memory once a result has been copied out. */
  function Committed(before: Bytes, dest: Destination, output: Bytes): Bytes
    requires dest.Fits(|before|, |output|)
  {
    match dest
    case One(at) => Patch(before, at, output)
    case Two(s, e) => Patch(Patch(before, s, output[..HASH_LENGTH]), e, output[HASH_LENGTH..])
  }

  /** A commit writes the whole result and nothing but the output prefix. */
  lemma CommitIsExact(before: Bytes, dest: Destination, output: Bytes)
    requires dest.Fits(|before|, |output|)
    ensures var after := Committed(before, dest, output);
            && |after| == |before|
            && (forall a :: 0 <= a < |before| && !dest.Covers(a, |output|) ==> after[a] == before[a])
            && match dest
               case One(at) => Load(after, at, |output|) == output
               case Two(s, e) => Load(after, s, HASH_LENGTH) + Load(after, e, EXPORT_KEY_LENGTH) == output
  {
    match dest
    case One(_) =>
    case Two(s, e) =>
      var mid := Patch(before, s, output[..HASH_LENGTH]);
      var after := Committed(before, dest, output);
      assert Load(mid, s, HASH_LENGTH) == output[..HASH_LENGTH];
      assert Load(after, e, EXPORT_KEY_LENGTH) == output[HASH_LENGTH..];
      forall i | 0 <= i < HASH_LENGTH
        ensures Load(after, s, HASH_LENGTH)[i] == output[i]
      {
        assert after[s + i] == mid[s + i] == Load(mid, s, HASH_LENGTH)[i];
      }
  }

  method CommitOutput(mem: array<byte>, dest: Destination, output: Bytes)
    requires dest.Fits(mem.Length, |output|)
    modifies mem
    ensures mem[..] == Committed(old(mem[..]), dest, output)
  {
    match dest
    case One(at) => CopyInto(mem, at, output);
    case Two(s, e) =>
      CopyInto(mem, s, output[..HASH_LENGTH]);
      CopyInto(mem, e, output[HASH_LENGTH..]);
  }
}
