/** Addresses bit by bit: what truncation keeps and clears, and what containment of prefixes compares. */
module Bits {
  import opened Base
  import opened Net
  import Attributes
  import Config

  /** The weight of bit `i` of an octet, the most significant first. */
  function Weight(i: nat): (w: nat)
    requires i < 8
    ensures w > 0
    decreases 8 - i
  {
    if i == 7 then 1 else 2 * Weight(i + 1)
  }

  function Bit(o: octet, i: nat): (b: nat)
    requires i < 8
  {
    o / Weight(i) % 2
  }

  /** The quotient is the only number whose multiple leaves a small rest. */
  lemma QuotientIs(x: int, d: int, q: int, r: int)
    requires x == d * q + r && 0 <= r < d
    ensures x / d == q
  {
    var p, s := x / d, x % d;
    assert d * (p - q) == r - s;
    assert p - q >= 1 ==> d * (p - q) >= d;
    assert p - q <= -1 ==> d * (p - q) <= -d;
  }

  /** Dividing in two steps, the rest of the first being lost anyway. */
  lemma DividedTwice(q: nat, u: nat, r: nat, m: nat)
    requires r < u && m > 0
    ensures u * m > 0 && (u * q + r) / (u * m) == q / m
  {
    var a, b := q / m, q % m;
    assert u * q == u * m * a + u * b by {
      assert q == m * a + b;
    }
    assert u * b <= u * (m - 1);
    QuotientIs(u * q + r, u * m, a, u * b + r);
  }

  lemma Halved(o: nat, w: nat)
    requires w > 0
    ensures o / (2 * w) == o / w / 2
  {
    var q, r := o / w, o % w;
    DividedTwice(q, w, r, 2);
    assert w * q + r == o && w * 2 == 2 * w;
  }

  /** Octets with the same leading bits have the same leading part. */
  lemma {:induction false} LeadingPart(a: octet, b: octet, i: nat)
    requires i < 8 && forall j :: 0 <= j <= i ==> Bit(a, j) == Bit(b, j)
    ensures a / Weight(i) == b / Weight(i)
  {
    assert Bit(a, i) == Bit(b, i);
    if i > 0 {
      LeadingPart(a, b, i - 1);
      Halved(a, Weight(i));
      Halved(b, Weight(i));
    } else {
      assert Weight(0) == 128;
    }
  }

  lemma BitsDecide(a: octet, b: octet)
    requires forall i :: 0 <= i < 8 ==> Bit(a, i) == Bit(b, i)
    ensures a == b
  {
    LeadingPart(a, b, 7);
  }

  /** The lowest weight a mask keeps is that of its last bit. */
  lemma {:induction false} UnitIsWeight(keep: nat)
    requires 1 <= keep <= 8
    ensures Unit(keep) == Weight(keep - 1)
  {
    assert Weight(7) == 1 && Weight(6) == 2 && Weight(5) == 4 && Weight(4) == 8;
    assert Weight(3) == 16 && Weight(2) == 32 && Weight(1) == 64 && Weight(0) == 128;
  }

  lemma {:induction false} WeightsDivide(i: nat, j: nat) returns (m: nat)
    requires i <= j < 8
    ensures m > 0 && Weight(i) == Weight(j) * m && (i < j ==> m % 2 == 0)
    decreases j - i
  {
    if i == j {
      m := 1;
    } else {
      var k := WeightsDivide(i + 1, j);
      m := 2 * k;
    }
  }

  /** Masking keeps the leading bits and clears the others. */
  lemma MaskBits(o: octet, keep: int, i: nat)
    requires i < 8
    ensures Bit(MaskOctet(o, keep), i) == if i < keep then Bit(o, i) else 0
  {
    if 1 <= keep <= 8 {
      UnitIsWeight(keep);
      var u, w := Unit(keep), Weight(i);
      Multiple(o, u);
      if i < keep {
        var m := WeightsDivide(i, keep - 1);
        KeptBit(o, u, m);
      } else {
        var m := WeightsDivide(keep - 1, i);
        ClearedBit(o / u, w, m);
      }
    }
  }

  lemma Multiple(o: nat, u: nat)
    requires u > 0
    ensures o / u * u == u * (o / u) && o == u * (o / u) + o % u
  {
  }

  lemma KeptBit(o: nat, u: nat, m: nat)
    requires u > 0 && m > 0
    ensures u * m > 0 && u * (o / u) / (u * m) == o / (u * m)
  {
    Multiple(o, u);
    DividedTwice(o / u, u, o % u, m);
    DividedTwice(o / u, u, 0, m);
  }

  lemma ClearedBit(q: nat, w: nat, m: nat)
    requires w > 0 && m % 2 == 0
    ensures (w * m) * q / w % 2 == 0
  {
    assert (w * m) * q == w * (m * q) + 0;
    QuotientIs((w * m) * q, w, m * q, 0);
    assert m * q == 2 * (m / 2 * q) by {
      assert m == 2 * (m / 2);
    }
  }

  // ---- Flag octets ---------------------------------------------------------------------------------

  /** Flags of an attribute, from the top: optional, transitive, partial, extended length. */
  lemma FlagBits(flags: octet)
    ensures OptionalBit(flags) <==> Bit(flags, 0) == 1
    ensures ClassBits(flags) == 2 * Bit(flags, 0) + Bit(flags, 1)
    ensures PartialBit(flags) <==> Bit(flags, 2) == 1
    ensures ExtendedLength(flags) <==> Bit(flags, 3) == 1
  {
    assert Weight(3) == 16 && Weight(2) == 32 && Weight(1) == 64 && Weight(0) == 128;
    TopBits(flags);
  }

  lemma TopBits(flags: octet)
    ensures flags as int / 128 == (if flags >= 128 then 1 else 0)
    ensures flags as int / 64 == ClassBits(flags)
    ensures flags as int / 32 == 2 * ClassBits(flags) + (if PartialBit(flags) then 1 else 0)
    ensures flags as int / 16 == 2 * (flags as int / 32) + (if Bit10(flags) then 1 else 0)
  {
  }

  /** How an attribute stands on the wire: flags, type, a length of one octet or, with the extended-length
      flag, two, and that many octets of data. */
  lemma AttributeLayout(b: Bytes)
    requires Attributes.HasAttribute(b)
    ensures var a := Attributes.FirstAttribute(b);
            && a.flags == b[0] && a.kind == b[1]
            && if ExtendedLength(b[0]) then |b| >= 4 && a.data == b[4..4 + |a.data|] && |a.data| == U16(b[2..])
               else a.data == b[3..3 + |a.data|] && |a.data| == b[2]
  {
  }

  // ---- Addresses ---------------------------------------------------------------------------------

  /** Bit `j` of an address. */
  function AddressBit(a: Bytes, j: nat): nat
    requires j < 8 * |a|
  {
    Bit(a[j / 8], j % 8)
  }

  /** The network address of a prefix has its first bits, and zeros after them. */
  lemma NetworkBits(a: Bytes, bits: nat, j: nat)
    requires j < 8 * |a|
    ensures AddressBit(Network(a, bits), j) == if j < bits then AddressBit(a, j) else 0
  {
    MaskBits(a[j / 8], bits - 8 * (j / 8), j % 8);
  }

  lemma AddressBitsDecide(a: Bytes, b: Bytes)
    requires |a| == |b| && forall j :: 0 <= j < 8 * |a| ==> AddressBit(a, j) == AddressBit(b, j)
    ensures a == b
  {
    forall k | 0 <= k < |a|
      ensures a[k] == b[k]
    {
      forall i | 0 <= i < 8
        ensures Bit(a[k], i) == Bit(b[k], i)
      {
        assert (8 * k + i) / 8 == k && (8 * k + i) % 8 == i;
        assert AddressBit(a, 8 * k + i) == AddressBit(b, 8 * k + i);
      }
      BitsDecide(a[k], b[k]);
    }
  }

  ghost predicate SameLeading(a: Bytes, b: Bytes, bits: nat) {
    |a| == |b| && bits <= 8 * |a| && forall j :: 0 <= j < bits ==> AddressBit(a, j) == AddressBit(b, j)
  }

  lemma SameNetwork(a: Bytes, b: Bytes, bits: nat)
    requires |a| == |b| && bits <= 8 * |a|
    ensures Network(a, bits) == Network(b, bits) <==> SameLeading(a, b, bits)
  {
    var x, y := Network(a, bits), Network(b, bits);
    if x == y {
      forall j | 0 <= j < bits
        ensures AddressBit(a, j) == AddressBit(b, j)
      {
        NetworkBits(a, bits, j);
        NetworkBits(b, bits, j);
      }
    }
    if SameLeading(a, b, bits) {
      forall j | 0 <= j < 8 * |x|
        ensures AddressBit(x, j) == AddressBit(y, j)
      {
        NetworkBits(a, bits, j);
        NetworkBits(b, bits, j);
      }
      AddressBitsDecide(x, y);
    }
  }

  /** One prefix contains another exactly when it is no longer and agrees with it on all its own bits. */
  lemma ContainsExactly(outer: Prefix, p: Prefix)
    requires WellFormed(outer) && WellFormed(p)
    ensures Contains(outer, p)
            <==> outer.v6 == p.v6 && outer.bits <= p.bits && SameLeading(outer.addr, p.addr, outer.bits)
  {
    if outer.v6 == p.v6 && outer.bits <= p.bits {
      SameNetwork(p.addr, outer.addr, outer.bits);
    }
  }

  // ---- Rules and special addresses -----------------------------------------------------------------

  /** A rule without bounds matches exactly its own prefix; bounds given replace that length. */
  lemma MatchesExactly(r: Config.Rule, p: Prefix)
    requires Truncated(r.prefix) && Truncated(p)
    ensures r.minLength == None && r.maxLength == None ==> (Config.Matches(r, p) <==> p == r.prefix)
    ensures r.minLength.Some? && r.maxLength == None ==>
              (Config.Matches(r, p) <==> p == r.prefix && r.minLength.value <= p.bits)
    ensures r.minLength == None && r.maxLength.Some? ==>
              (Config.Matches(r, p) <==> Contains(r.prefix, p) && p.bits <= r.maxLength.value)
    ensures r.minLength.Some? && r.maxLength.Some? ==>
              (Config.Matches(r, p) <==> Contains(r.prefix, p) && r.minLength.value <= p.bits <= r.maxLength.value)
  {
  }

  function Whole(a: Bytes): Prefix {
    Prefix(|a| == 16, a, 8 * |a|)
  }

  const MULTICAST4: Prefix := Prefix(false, [224, 0, 0, 0], 4)
  const MULTICAST6: Prefix := Prefix(true, [255] + Zeros(15), 8)
  const LINK_LOCAL: Prefix := Prefix(true, [254, 128] + Zeros(14), 10)

  /** Usable IPv4 addresses: neither 0.0.0.0 nor 255.255.255.255 nor in 224.0.0.0/4. */
  lemma ValidV4Exactly(a: Bytes)
    requires |a| == 4
    ensures Config.ValidV4(a) <==> a != [0, 0, 0, 0] && a != [255, 255, 255, 255] && !Contains(MULTICAST4, Whole(a))
  {
    var x, y := Network(a, 4), Network([224, 0, 0, 0], 4);
    assert x[0] == a[0] / 16 * 16 && y[0] == 224;
    assert forall i :: 0 < i < 4 ==> x[i] == 0 && y[i] == 0;
    assert x == y <==> x[0] == y[0];
  }

  /** Usable IPv6 addresses: neither :: nor in ff00::/8. */
  lemma ValidV6Exactly(a: Bytes)
    requires |a| == 16
    ensures Config.ValidV6(a) <==> a != Zeros(16) && !Contains(MULTICAST6, Whole(a))
  {
    var x, y := Network(a, 8), Network(MULTICAST6.addr, 8);
    assert x[0] == a[0] && y[0] == 255;
    assert forall i :: 0 < i < 16 ==> x[i] == 0 && y[i] == 0;
    assert x == y <==> x[0] == y[0];
  }

  /** Link-local addresses: those in fe80::/10. */
  lemma LinkLocalExactly(a: Bytes)
    requires |a| == 16
    ensures Config.LinkLocal(a) <==> Contains(LINK_LOCAL, Whole(a))
  {
    var x, y := Network(a, 10), Network(LINK_LOCAL.addr, 10);
    assert x[0] == a[0] && y[0] == 254;
    assert x[1] == a[1] / 64 * 64 && y[1] == 128;
    assert forall i :: 1 < i < 16 ==> x[i] == 0 && y[i] == 0;
    assert x == y <==> x[0] == y[0] && x[1] == y[1];
  }
}
