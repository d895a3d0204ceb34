/**
 The foreign primitives, as an arbitrary record of functions.

 The group of prime order is represented by its residues: element `x` stands for `x * G`, the identity
 is 0, and multiplying by a scalar is multiplication modulo the order. Nothing is assumed of the hash
 functions beyond their output lengths.
 */
module Suites {
  import opened Types
  import opened PrimeField

  datatype Suite = Suite(
    order: nat,
    sha512: Bytes -> Bytes,
    hmac: (Bytes, Bytes) -> Bytes,
    argon2id: (Bytes, Bytes) -> Bytes,
    boxSeal: (Bytes, Bytes, Bytes) -> Bytes,
    boxOpen: (Bytes, Bytes, Bytes) -> Option<Bytes>,
    kemKeygen: Bytes -> (Bytes, Bytes),
    kemEncaps: (Bytes, Bytes) -> Option<(Bytes, Bytes)>,
    kemDecaps: (Bytes, Bytes) -> Option<Bytes>,
    wideToScalar: Bytes -> nat,
    uniformToPoint: Bytes -> nat,
    scalarBytes: nat -> Bytes,
    scalarOf: Bytes -> Option<nat>,
    pointBytes: nat -> Bytes,
    pointOf: Bytes -> Option<nat>)
  {
    ghost predicate Valid() {
      GroupLaws() && HashLengths() && BoxLaws() && KemLengths()
    }

    /** Canonical encodings of scalars and points; zero and the identity encode to zero bytes. */
    ghost predicate GroupLaws() {
      && IsPrime(order)
      && (forall b :: wideToScalar(b) < order)
      && (forall b :: uniformToPoint(b) < order)
      && (forall n: nat :: n < order ==> |scalarBytes(n)| == 32 && scalarOf(scalarBytes(n)) == Some(n))
      && (forall b :: scalarOf(b).Some? ==> scalarOf(b).value < order && scalarBytes(scalarOf(b).value) == b)
      && scalarBytes(0) == Zeros(32)
      && (forall n: nat :: n < order ==> |pointBytes(n)| == 32 && pointOf(pointBytes(n)) == Some(n))
      && (forall b :: pointOf(b).Some? ==> pointOf(b).value < order && pointBytes(pointOf(b).value) == b)
      && pointBytes(0) == Zeros(32)
    }

    ghost predicate HashLengths() {
      && (forall m :: |sha512(m)| == 64)
      && (forall k, m :: |hmac(k, m)| == 64)
      && (forall p, s :: |argon2id(p, s)| == 64)
    }

    ghost predicate BoxLaws() {
      && (forall k, n, p :: |boxSeal(k, n, p)| == 16 + |p| && boxOpen(k, n, boxSeal(k, n, p)) == Some(p))
      && (forall k, n, c :: boxOpen(k, n, c).Some? ==> |c| == 16 + |boxOpen(k, n, c).value|)
    }

    ghost predicate KemLengths() {
      && (forall c :: |kemKeygen(c).0| == 1184 && |kemKeygen(c).1| == 2400)
      && (forall pk, e :: kemEncaps(pk, e).Some? ==>
            |kemEncaps(pk, e).value.0| == 1088 && |kemEncaps(pk, e).value.1| == 32)
      && (forall sk, ct :: kemDecaps(sk, ct).Some? ==> |kemDecaps(sk, ct).value| == 32)
    }

    /** Decapsulation undoes encapsulation for these two sets of coins. */
    predicate KemRoundTrip(keyCoins: Bytes, encCoins: Bytes) {
      var (pk, sk) := kemKeygen(keyCoins);
      var e := kemEncaps(pk, encCoins);
      e.Some? && kemDecaps(sk, e.value.0) == Some(e.value.1)
    }
  }

  function OneByte(n: nat): (b: Bytes)
    ensures |b| == 32
  {
    [if n == 0 then 0 else 1] + Zeros(31)
  }

  function Ones(n: nat): (b: Bytes)
    ensures |b| == n
  {
    seq(n, _ => 1)
  }

  /** A suite over the group of order two, witnessing that the laws are consistent. */
  function WitnessSuite(): Suite {
    var decode := (b: Bytes) =>
                    if b == OneByte(0) then Some(0) else if b == OneByte(1) then Some(1) else None;
    Suite(
      2,
      _ => Ones(64), (_, _) => Ones(64), (_, _) => Ones(64),
      (_, _, p) => Zeros(16) + p,
      (_, _, c) => if |c| >= 16 then Some(c[16..]) else None,
      _ => (Zeros(1184), Zeros(2400)),
      (_, _) => Some((Zeros(1088), Zeros(32))),
      (_, _) => Some(Zeros(32)),
      _ => 1, _ => 1,
      (n: nat) => OneByte(n), decode, (n: nat) => OneByte(n), decode)
  }

  lemma TwoIsPrime()
    ensures IsPrime(2)
  {
    forall d: nat, k: nat | Factors(d, k, 2)
      ensures d == 1 || d == 2
    {
      MultipleBounds(k, d - 2);
    }
  }

  /** The two encodings are the zero string and one other. */
  lemma WitnessEncodings()
    ensures OneByte(0) == Zeros(32) && OneByte(0) != OneByte(1)
  {
    assert OneByte(0)[0] != OneByte(1)[0];
  }

  lemma WitnessGroupLaws()
    ensures WitnessSuite().GroupLaws()
  {
    TwoIsPrime();
    WitnessEncodings();
    var cs := WitnessSuite();
    forall n: nat | n < cs.order
      ensures cs.scalarOf(cs.scalarBytes(n)) == Some(n) && cs.pointOf(cs.pointBytes(n)) == Some(n)
    {
      assert n == 0 || n == 1;
    }
  }

  lemma WitnessBoxLaws()
    ensures WitnessSuite().BoxLaws()
  {
    forall p: Bytes
      ensures (Zeros(16) + p)[16..] == p
    {
    }
  }

  lemma WitnessSuiteIsValid()
    ensures WitnessSuite().Valid()
    ensures forall c, e :: WitnessSuite().KemRoundTrip(c, e)
  {
    WitnessGroupLaws();
    WitnessBoxLaws();
  }
}
