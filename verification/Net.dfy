/** Addresses and prefixes (the program's `IpNet`), with the bit-level meaning of truncation. */
module Net {
  import opened Base

  datatype Prefix = Prefix(v6: bool, addr: Bytes, bits: nat)

  function Width(v6: bool): nat {
    if v6 then 16 else 4
  }

  predicate WellFormed(p: Prefix) {
    |p.addr| == Width(p.v6) && p.bits <= 8 * Width(p.v6)
  }

  /** The weight of the lowest bit kept when an octet keeps `keep` leading bits. */
  function Unit(keep: int): (u: nat)
    ensures 1 <= u <= 256
    ensures keep >= 8 ==> u == 1
    ensures keep <= 0 ==> u == 256
  {
    if keep <= 0 then 256
    else if keep == 1 then 128
    else if keep == 2 then 64
    else if keep == 3 then 32
    else if keep == 4 then 16
    else if keep == 5 then 8
    else if keep == 6 then 4
    else if keep == 7 then 2
    else 1
  }

  /** Keep the `keep` most significant bits of an octet. */
  function MaskOctet(o: octet, keep: int): (r: octet)
    ensures keep >= 8 ==> r == o
    ensures keep <= 0 ==> r == 0
  {
    var u := Unit(keep);
    assert 0 <= o / u * u <= o;
    o / u * u
  }

  lemma MultipleDivides(q: int, u: int)
    requires u >= 1
    ensures q * u / u == q
  {
    var d, r := q * u / u, q * u % u;
    assert (q - d) * u == r;
    assert q - d >= 1 ==> (q - d) * u >= u;
    assert q - d <= -1 ==> (q - d) * u <= -u;
  }

  lemma MaskIdempotent(o: octet, keep: int)
    ensures MaskOctet(MaskOctet(o, keep), keep) == MaskOctet(o, keep)
  {
    MultipleDivides(o / Unit(keep), Unit(keep));
  }

  /** The address with every bit after the first `bits` cleared. */
  function Network(addr: Bytes, bits: nat): (r: Bytes)
    ensures |r| == |addr|
  {
    seq(|addr|, i requires 0 <= i < |addr| => MaskOctet(addr[i], bits - 8 * i))
  }

  function Trunc(p: Prefix): Prefix {
    p.(addr := Network(p.addr, p.bits))
  }

  predicate Truncated(p: Prefix) {
    WellFormed(p) && Trunc(p) == p
  }

  ghost predicate AllTruncated(s: set<Prefix>) {
    forall p <- s :: Truncated(p)
  }

  /** The fewest octets that carry the first `bits` bits. */
  function Octets(bits: nat): nat {
    (bits + 7) / 8
  }

  lemma OctetsExactly(bits: nat)
    ensures bits <= 8 * Octets(bits)
    ensures forall fewer: nat :: fewer < Octets(bits) ==> 8 * fewer < bits
  {
  }

  function Zeros(n: nat): (z: Bytes)
    ensures |z| == n
  {
    seq(n, _ => 0)
  }

  lemma NetworkIdempotent(addr: Bytes, bits: nat)
    ensures Network(Network(addr, bits), bits) == Network(addr, bits)
  {
    forall i | 0 <= i < |addr|
      ensures Network(Network(addr, bits), bits)[i] == Network(addr, bits)[i]
    {
      MaskIdempotent(addr[i], bits - 8 * i);
    }
  }

  lemma TruncIsTruncated(p: Prefix)
    requires WellFormed(p)
    ensures Truncated(Trunc(p))
  {
    NetworkIdempotent(p.addr, p.bits);
  }

  /** The octets left out of an encoding are the zeros the decoder puts back. */
  lemma PaddedNetwork(addr: Bytes, bits: nat)
    requires bits <= 8 * |addr|
    ensures Octets(bits) <= |addr|
    ensures Network(addr, bits)[..Octets(bits)] + Zeros(|addr| - Octets(bits)) == Network(addr, bits)
  {
    var k := Octets(bits);
    forall i | k <= i < |addr|
      ensures Network(addr, bits)[i] == 0
    {
      assert bits - 8 * i <= 0;
    }
  }

  /** Containment of prefixes: same family, no longer than `p`, and equal on its own bits. */
  predicate Contains(outer: Prefix, p: Prefix) {
    outer.v6 == p.v6 && outer.bits <= p.bits && Network(p.addr, outer.bits) == Network(outer.addr, outer.bits)
  }
}
