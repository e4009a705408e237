/** UPDATE encoding: what an UPDATE consists of, that it fits its limits, and the program's encoder. */
module Encoder {
  import opened Base
  import opened Net
  import opened Protocol
  import opened Attributes
  import Config
  import Nlri

  // ---- What is encoded -----------------------------------------------------------

  /** Flags as passed by the encoder; the extended-length bit is added when needed. */
  function Attr(flags: octet, kind: octet, data: Bytes): (a: Attribute)
    requires flags in {0x40, 0x80, 0xc0} && |data| < TWO16
    ensures Encodable(a)
  {
    Attribute(if |data| > 255 then flags + 16 else flags, kind, data)
  }

  predicate SameFamily(ps: seq<Prefix>, v6: bool) {
    forall p <- ps :: WellFormed(p) && p.v6 == v6
  }

  /** A batch `update` may be called with: it asserts all of this. */
  predicate Batch(ps: seq<Prefix>) {
    0 < |ps| <= MAX_UPDATE_PREFIXES && SameFamily(ps, ps[0].v6)
  }

  /** A next hop of the batch's family is configured: `update` expects one. */
  predicate HasNextHop(p: Config.Peer, v6: bool) {
    if v6 then Config.NextHop6(p).Some? else Config.NextHop4(p).Some?
  }

  predicate CanEncode(cfg: Config.Config, p: Config.Peer, ps: seq<Prefix>, withdraw: bool) {
    && cfg.asn < TWO32 && Config.TypedPeer(p) && Batch(ps)
    && (withdraw || HasNextHop(p, ps[0].v6))
  }

  function MpHeader(p: Config.Peer, withdraw: bool): (b: Bytes)
    requires Config.TypedPeer(p) && (withdraw || HasNextHop(p, true))
    ensures |b| <= 37
  {
    if withdraw then [0, 2, 1]
    else
      [0, 2, 1, if p.linkLocal.Some? then 32 else 16] + Config.NextHop6(p).value
      + (if p.linkLocal.Some? then p.linkLocal.value else []) + [0]
  }

  function MpAttribute(p: Config.Peer, ps: seq<Prefix>, withdraw: bool): Attribute
    requires Config.TypedPeer(p) && (withdraw || HasNextHop(p, true)) && SameFamily(ps, true)
    requires |ps| <= MAX_UPDATE_PREFIXES
  {
    Attr(0x80, if withdraw then 15 else 14, MpHeader(p, withdraw) + Nlri.Encode(ps))
  }

  function TwoOctetAsn(asn: nat): (r: nat)
    ensures r < TWO16
  {
    if asn < TWO16 then asn else 23456
  }

  function AsPath(cfg: Config.Config, p: Config.Peer, n: Negotiated): (b: Bytes)
    requires cfg.asn < TWO32
    ensures |b| <= 6
  {
    if cfg.asn == p.remoteAsn then []
    else if n.asn4 then [2, 1] + Be32(cfg.asn)
    else [2, 1] + Be16(TwoOctetAsn(cfg.asn))
  }

  /** The attributes every announcement carries besides the routes themselves. */
  function CommonAttributes(cfg: Config.Config, p: Config.Peer, n: Negotiated): seq<Attribute>
    requires cfg.asn < TWO32
  {
    [Attr(0x40, 1, [2]), Attr(0x40, 2, AsPath(cfg, p, n))]
    + (if !n.asn4 && cfg.asn > 65535 && cfg.asn != p.remoteAsn
       then [Attr(0xc0, 17, [2, 1] + Be32(cfg.asn))] else [])
    + (if cfg.asn == p.remoteAsn then [Attr(0x40, 5, Be32(100))] else [])
  }

  /** All attributes of one UPDATE, multiprotocol routes first. */
  function UpdateAttributes(cfg: Config.Config, p: Config.Peer, n: Negotiated, ps: seq<Prefix>, withdraw: bool)
    : seq<Attribute>
    requires CanEncode(cfg, p, ps, withdraw)
  {
    var v6 := ps[0].v6;
    if withdraw then (if v6 then [MpAttribute(p, ps, true)] else [])
    else if v6 then [MpAttribute(p, ps, false)] + CommonAttributes(cfg, p, n)
    else CommonAttributes(cfg, p, n) + [Attr(0x40, 3, Config.NextHop4(p).value)]
  }

  lemma {:induction false} SmallAttributes(attrs: seq<Attribute>)
    requires forall a <- attrs :: Encodable(a) && |a.data| <= 6
    ensures |Encode(attrs)| <= 10 * |attrs|
  {
    if attrs != [] {
      SmallAttributes(attrs[1..]);
    }
  }

  lemma AttributesFit(cfg: Config.Config, p: Config.Peer, n: Negotiated, ps: seq<Prefix>, withdraw: bool)
    requires CanEncode(cfg, p, ps, withdraw)
    ensures forall a <- UpdateAttributes(cfg, p, n, ps, withdraw) :: Encodable(a)
    ensures |Encode(UpdateAttributes(cfg, p, n, ps, withdraw))| <= 40 + (if ps[0].v6 then 41 + 17 * |ps| else 0)
  {
    var attrs := UpdateAttributes(cfg, p, n, ps, withdraw);
    if ps[0].v6 {
      var rest := if withdraw then [] else CommonAttributes(cfg, p, n);
      assert attrs[1..] == rest;
      SmallAttributes(rest);
    } else {
      SmallAttributes(attrs);
    }
  }

  function UpdateFields(cfg: Config.Config, p: Config.Peer, n: Negotiated, ps: seq<Prefix>, withdraw: bool)
    : (f: Fields)
    requires CanEncode(cfg, p, ps, withdraw)
    ensures |f.withdrawn| < TWO16 && |f.attributes| < TWO16
    ensures |f.withdrawn| + |f.attributes| + |f.tail| + 23 <= MAX_MESSAGE
  {
    AttributesFit(cfg, p, n, ps, withdraw);
    var routes := Nlri.Encode(ps);
    var v6 := ps[0].v6;
    Fields(if withdraw && !v6 then routes else [],
           Encode(UpdateAttributes(cfg, p, n, ps, withdraw)),
           if !withdraw && !v6 then routes else [])
  }

  function UpdateBody(cfg: Config.Config, p: Config.Peer, n: Negotiated, ps: seq<Prefix>, withdraw: bool)
    : (b: Bytes)
    requires CanEncode(cfg, p, ps, withdraw)
    ensures 4 <= |b| <= MAX_MESSAGE - 19
  {
    Join(UpdateFields(cfg, p, n, ps, withdraw))
  }

  function EndOfRibBody(v6: bool): (b: Bytes)
    ensures 4 <= |b| <= 10
  {
    if v6 then [0, 0, 0, 6, 0x80, 15, 3, 0, 2, 1] else [0, 0, 0, 0]
  }

  // ---- The program's encoder -------------------------------------------------------

  method AppendAttribute(out: Bytes, flags: octet, kind: octet, data: Bytes) returns (r: Bytes)
    requires flags in {0x40, 0x80, 0xc0} && |data| < TWO16
    ensures r == out + EncodeOne(Attr(flags, kind, data))
  {
    r := out + [if |data| > 255 then flags + 16 else flags];
    r := r + [kind];
    if |data| > 255 {
      r := r + Be16(|data|);
    } else {
      r := r + [|data|];
    }
    r := r + data;
  }

  /** Appending one attribute to octets that end in the encoding of `done`. */
  method Extend(out: Bytes, flags: octet, kind: octet, data: Bytes, ghost base: Bytes, ghost done: seq<Attribute>)
    returns (r: Bytes)
    requires flags in {0x40, 0x80, 0xc0} && |data| < TWO16
    requires (forall a <- done :: Encodable(a)) && out == base + Encode(done)
    ensures forall a <- done + [Attr(flags, kind, data)] :: Encodable(a)
    ensures r == base + Encode(done + [Attr(flags, kind, data)])
  {
    r := AppendAttribute(out, flags, kind, data);
    ghost var a := Attr(flags, kind, data);
    EncodeAppend(done, [a]);
    assert Encode([a]) == EncodeOne(a);
    Associative(base, Encode(done), EncodeOne(a));
  }

  method AppendCommon(out: Bytes, cfg: Config.Config, p: Config.Peer, n: Negotiated) returns (r: Bytes)
    requires cfg.asn < TWO32
    ensures r == out + Encode(CommonAttributes(cfg, p, n))
  {
    ghost var done: seq<Attribute> := [];
    r := Extend(out, 0x40, 1, [2], out, done);
    done := done + [Attr(0x40, 1, [2])];
    var path: Bytes := [];
    if cfg.asn != p.remoteAsn {
      if n.asn4 {
        path := [2, 1] + Be32(cfg.asn);
      } else {
        path := [2, 1] + Be16(TwoOctetAsn(cfg.asn));
      }
    }
    r := Extend(r, 0x40, 2, path, out, done);
    done := done + [Attr(0x40, 2, path)];
    if !n.asn4 && cfg.asn > 65535 && cfg.asn != p.remoteAsn {
      r := Extend(r, 0xc0, 17, [2, 1] + Be32(cfg.asn), out, done);
      done := done + [Attr(0xc0, 17, [2, 1] + Be32(cfg.asn))];
    }
    if cfg.asn == p.remoteAsn {
      r := Extend(r, 0x40, 5, Be32(100), out, done);
      done := done + [Attr(0x40, 5, Be32(100))];
    }
    assert path == AsPath(cfg, p, n);
    assert done == CommonAttributes(cfg, p, n);
  }

  method AppendAttributes(cfg: Config.Config, p: Config.Peer, n: Negotiated, ps: seq<Prefix>, withdraw: bool,
                          encoded: Bytes)
    returns (attrs: Bytes)
    requires CanEncode(cfg, p, ps, withdraw) && encoded == Nlri.Encode(ps)
    ensures attrs == Encode(UpdateAttributes(cfg, p, n, ps, withdraw))
  {
    AttributesFit(cfg, p, n, ps, withdraw);
    var v6 := ps[0].v6;
    attrs := [];
    ghost var done: seq<Attribute> := [];
    if v6 {
      attrs := AppendAttribute(attrs, 0x80, if withdraw then 15 else 14, MpHeader(p, withdraw) + encoded);
      done := [MpAttribute(p, ps, withdraw)];
    }
    assert attrs == Encode(done);
    if !withdraw {
      attrs := AppendCommon(attrs, cfg, p, n);
      EncodeAppend(done, CommonAttributes(cfg, p, n));
      done := done + CommonAttributes(cfg, p, n);
      if !v6 {
        ghost var nh := [Attr(0x40, 3, Config.NextHop4(p).value)];
        assert Encode(nh) == EncodeOne(nh[0]);
        attrs := AppendAttribute(attrs, 0x40, 3, Config.NextHop4(p).value);
        EncodeAppend(done, nh);
        done := done + nh;
      }
    }
    assert done == UpdateAttributes(cfg, p, n, ps, withdraw);
  }

  method Update(cfg: Config.Config, p: Config.Peer, n: Negotiated, ps: seq<Prefix>, withdraw: bool)
    returns (out: Bytes)
    requires CanEncode(cfg, p, ps, withdraw)
    ensures out == Frame(UPDATE, UpdateBody(cfg, p, n, ps, withdraw))
  {
    var v6 := ps[0].v6;
    var encoded := Nlri.Pack(ps);
    var attrs := AppendAttributes(cfg, p, n, ps, withdraw, encoded);
    ghost var f := UpdateFields(cfg, p, n, ps, withdraw);
    var body: Bytes;
    if withdraw && !v6 {
      body := Be16(|encoded|) + encoded;
    } else {
      body := [0, 0];
    }
    assert body == Be16(|f.withdrawn|) + f.withdrawn;
    body := body + Be16(|attrs|) + attrs;
    if !withdraw && !v6 {
      body := body + encoded;
    }
    assert body == Join(f);
    out := Frame(UPDATE, body);
  }
}
