/** Packed prefixes: the NLRI encoding of section 4.3 of RFC 4271 and its two readers. */
module Nlri {
  import opened Base
  import opened Net

  /** Prefix length, then the fewest octets that hold the network address. */
  function EncodePrefix(p: Prefix): (b: Bytes)
    requires WellFormed(p)
    ensures |b| == 1 + Octets(p.bits) <= 17
  {
    [p.bits] + Network(p.addr, p.bits)[..Octets(p.bits)]
  }

  function Encode(ps: seq<Prefix>): (b: Bytes)
    requires forall p <- ps :: WellFormed(p)
    ensures |b| <= 17 * |ps|
    ensures ps != [] ==> b != []
  {
    if ps == [] then [] else EncodePrefix(ps[0]) + Encode(ps[1..])
  }

  /** Every prefix length fits the address width and every announced octet is present. */
  predicate Fits(b: Bytes, width: nat)
  {
    b == [] || (b[0] as int <= width && Octets(b[0]) < |b| && Fits(b[Octets(b[0]) + 1..], width))
  }

  function DecodeOne(b: Bytes, v6: bool): (p: Prefix)
    requires b != [] && b[0] as int <= 8 * Width(v6) && Octets(b[0]) < |b|
    ensures Truncated(p) && p.v6 == v6 && p.bits == b[0]
  {
    var k := Octets(b[0]);
    var p := Prefix(v6, b[1..k + 1] + Zeros(Width(v6) - k), b[0]);
    TruncIsTruncated(p);
    Trunc(p)
  }

  /** The prefixes up to the first malformed entry, each truncated. */
  function Decode(b: Bytes, v6: bool): seq<Prefix> {
    if b == [] || b[0] as int > 8 * Width(v6) || Octets(b[0]) >= |b| then []
    else [DecodeOne(b, v6)] + Decode(b[Octets(b[0]) + 1..], v6)
  }

  /** Octets a list of prefixes occupies on the wire. */
  function WireSize(ps: seq<Prefix>): nat {
    if ps == [] then 0 else 1 + Octets(ps[0].bits) + WireSize(ps[1..])
  }

  function TruncAll(ps: seq<Prefix>): (r: seq<Prefix>)
    ensures |r| == |ps|
  {
    seq(|ps|, i requires 0 <= i < |ps| => Trunc(ps[i]))
  }

  lemma DecodeOneOfEncode(p: Prefix, rest: Bytes)
    requires WellFormed(p)
    ensures var b := EncodePrefix(p) + rest; b[0] == p.bits && DecodeOne(b, p.v6) == Trunc(p)
  {
    var b := EncodePrefix(p) + rest;
    var k := Octets(p.bits);
    assert b[1..k + 1] == Network(p.addr, p.bits)[..k];
    PaddedNetwork(p.addr, p.bits);
    NetworkIdempotent(p.addr, p.bits);
  }

  /** Round trip: what is packed is accepted and decodes to the truncated prefixes, in order. */
  lemma {:induction false} RoundTrip(ps: seq<Prefix>, v6: bool)
    requires forall p <- ps :: WellFormed(p) && p.v6 == v6
    ensures Fits(Encode(ps), 8 * Width(v6))
    ensures Decode(Encode(ps), v6) == TruncAll(ps)
  {
    if ps != [] {
      RoundTrip(ps[1..], v6);
      FirstOfEncode(ps[0], Encode(ps[1..]));
      TruncAllStep(ps);
    }
  }

  lemma TruncAllStep(ps: seq<Prefix>)
    requires ps != []
    ensures TruncAll(ps) == [Trunc(ps[0])] + TruncAll(ps[1..])
  {
  }

  lemma FirstOfEncode(p: Prefix, rest: Bytes)
    requires WellFormed(p)
    ensures var b := EncodePrefix(p) + rest;
            && (Fits(b, 8 * Width(p.v6)) <==> Fits(rest, 8 * Width(p.v6)))
            && Decode(b, p.v6) == [Trunc(p)] + Decode(rest, p.v6)
  {
    var b := EncodePrefix(p) + rest;
    DecodeOneOfEncode(p, rest);
    assert b[Octets(b[0]) + 1..] == rest;
  }

  lemma TruncAllOfTruncated(ps: seq<Prefix>)
    requires forall p <- ps :: Truncated(p)
    ensures TruncAll(ps) == ps
  {
    forall i | 0 <= i < |ps|
      ensures TruncAll(ps)[i] == ps[i]
    {
      assert ps[i] in ps;
    }
  }

  /** An accepted field is decoded to its last octet; a refused one never is. */
  lemma {:induction false} FitsMeansFullyDecoded(b: Bytes, v6: bool)
    ensures Fits(b, 8 * Width(v6)) <==> WireSize(Decode(b, v6)) == |b|
    ensures WireSize(Decode(b, v6)) <= |b|
  {
    if !(b == [] || b[0] as int > 8 * Width(v6) || Octets(b[0]) >= |b|) {
      var rest := b[Octets(b[0]) + 1..];
      FitsMeansFullyDecoded(rest, v6);
      assert Decode(b, v6)[1..] == Decode(rest, v6);
    }
  }

  /** An accepted field is empty exactly when it decodes to no prefix. */
  lemma FitsEmpty(b: Bytes, v6: bool)
    requires Fits(b, 8 * Width(v6))
    ensures b == [] <==> Decode(b, v6) == []
  {
    FitsMeansFullyDecoded(b, v6);
  }

  // ---- The program's loops --------------------------------------------------

  method ValidateNlri(field: Bytes, width: nat) returns (ok: bool)
    ensures ok <==> Fits(field, width)
  {
    var b := field;
    while b != []
      invariant Fits(field, width) <==> Fits(b, width)
      decreases |b|
    {
      var n := Octets(b[0]);
      if !(b[0] as int <= width && n < |b|) {
        return false;
      }
      b := b[n + 1..];
    }
    return true;
  }

  /** Append every decodable prefix of `field` to `before`. */
  method Append(field: Bytes, v6: bool, before: seq<Prefix>) returns (out: seq<Prefix>)
    ensures out == before + Decode(field, v6)
  {
    var b := field;
    out := before;
    while b != []
      invariant out + Decode(b, v6) == before + Decode(field, v6)
      decreases |b|
    {
      ghost var sofar, rest := out, Decode(b, v6);
      var bits := b[0];
      var size := Octets(bits);
      if bits as int > (if v6 then 128 else 32) || size + 1 > |b| {
        break;
      }
      out := out + [DecodeOne(b, v6)];
      b := b[1 + size..];
      assert out + Decode(b, v6) == sofar + rest;
    }
  }

  /** The encoder's loop over a batch. */
  method Pack(ps: seq<Prefix>) returns (out: Bytes)
    requires forall p <- ps :: WellFormed(p)
    ensures out == Encode(ps)
  {
    out := [];
    for i := 0 to |ps|
      invariant out + Encode(ps[i..]) == Encode(ps)
    {
      assert ps[i..][1..] == ps[i + 1..];
      Associative(out, EncodePrefix(ps[i]), Encode(ps[i + 1..]));
      out := out + EncodePrefix(ps[i]);
    }
    EmptyUnit(out);
  }
}
