/** Encoder, validator and decoder agree on every UPDATE the exporter can send. */
module Agreement {
  import opened Base
  import opened Net
  import opened Protocol
  import opened Attributes
  import opened Recovery
  import opened Encoder
  import Config
  import Nlri

  /** Parameters of an established session: a validated peer and what its OPEN was accepted with. */
  ghost predicate Session(cfg: Config.Config, p: Config.Peer, n: Negotiated) {
    && cfg.asn < TWO32
    && Config.ValidPeer(cfg, p)
    && n.internal == (cfg.asn == p.remoteAsn)
    && (n.ipv4 ==> p.ipv4)
    && (n.ipv6 ==> p.ipv6)
  }

  /** An attribute a receiver takes without complaint. */
  ghost predicate Fine(a: Attribute, n: Negotiated) {
    Fatal(a, n).None? && Severity(a, n) == Valid
  }

  ghost function FineFor(n: Negotiated): Attribute -> bool {
    (a: Attribute) => Fine(a, n)
  }

  /** The flags an encoder passes are the ones the receiver expects, extended length or not. */
  lemma AttrFlags(flags: octet, kind: octet, data: Bytes)
    requires flags in {0x40, 0x80, 0xc0} && |data| < TWO16
    requires ExpectedClass(kind) == Some(if flags == 0x40 then 1 else if flags == 0x80 then 2 else 3)
    ensures FlagsOk(Attr(flags, kind, data))
  {
  }

  lemma FineListIsValid(tail: Bytes, attrs: seq<Attribute>, n: Negotiated)
    requires DistinctKinds(attrs) && forall a <- attrs :: Fine(a, n)
    requires !MissingMandatory(tail, attrs, n)
    ensures Judge(tail, attrs, Clean, n) == Accept(Valid)
  {
    forall i | 0 <= i < |attrs|
      ensures FatalAt(attrs, i, n).None? && SeverityAt(attrs, i, n) == Valid
    {
      NotRepeated(attrs, i);
      assert attrs[i] in attrs;
    }
  }

  lemma OneSegment(b: Bytes, width: nat)
    requires |b| == 2 + width && width > 0 && b[0] == 2 && b[1] == 1
    ensures PathOk(b, width)
  {
    assert b[2 + width * b[1] as int..] == [];
  }

  /** A known attribute with the right flags and value is fine. */
  lemma ValueFine(flags: octet, kind: octet, data: Bytes, n: Negotiated)
    requires flags in {0x40, 0x80, 0xc0} && |data| < TWO16
    requires ExpectedClass(kind) == Some(if flags == 0x40 then 1 else if flags == 0x80 then 2 else 3)
    requires !DiscardedUnread(kind, n) && !Multiprotocol(kind) && ValueOk(Attr(flags, kind, data), n)
    ensures Fine(Attr(flags, kind, data), n)
  {
    AttrFlags(flags, kind, data);
  }

  lemma AsPathFine(cfg: Config.Config, p: Config.Peer, n: Negotiated)
    requires cfg.asn < TWO32
    ensures Fine(Attr(0x40, 2, AsPath(cfg, p, n)), n)
    ensures !n.asn4 ==> Fine(Attr(0xc0, 17, [2, 1] + Be32(cfg.asn)), n)
  {
    OneSegment([2, 1] + Be32(cfg.asn), 4);
    OneSegment([2, 1] + Be16(TwoOctetAsn(cfg.asn)), 2);
    ValueFine(0x40, 2, AsPath(cfg, p, n), n);
    if !n.asn4 {
      assert 6 % 2 == 0;
      ValueFine(0xc0, 17, [2, 1] + Be32(cfg.asn), n);
    }
  }

  lemma CommonFine(cfg: Config.Config, p: Config.Peer, n: Negotiated)
    requires Session(cfg, p, n)
    ensures Mandatory(CommonAttributes(cfg, p, n), n, FineFor(n))
  {
    var origin, path := Attr(0x40, 1, [2]), Attr(0x40, 2, AsPath(cfg, p, n));
    ValueFine(0x40, 1, [2], n);
    AsPathFine(cfg, p, n);
    if cfg.asn == p.remoteAsn {
      ValueFine(0x40, 5, Be32(100), n);
    }
    CommonShape(origin, path, Attr(0xc0, 17, [2, 1] + Be32(cfg.asn)),
                !n.asn4 && cfg.asn > 65535 && cfg.asn != p.remoteAsn,
                Attr(0x40, 5, Be32(100)), cfg.asn == p.remoteAsn, n, FineFor(n));
  }

  /** The list of common attributes, whichever optional ones it has. */
  lemma CommonShape(origin: Attribute, path: Attribute, as4: Attribute, withAs4: bool, pref: Attribute, withPref: bool,
                    n: Negotiated, fine: Attribute -> bool)
    requires origin.kind == 1 && path.kind == 2 && as4.kind == 17 && pref.kind == 5
    requires fine(origin) && fine(path) && (withAs4 ==> fine(as4)) && (withPref ==> fine(pref))
    requires n.internal ==> withPref
    ensures Mandatory([origin, path] + (if withAs4 then [as4] else []) + (if withPref then [pref] else []), n, fine)
  {
    var attrs := [origin, path] + (if withAs4 then [as4] else []) + (if withPref then [pref] else []);
    assert attrs[0] in attrs && attrs[1] in attrs;
    if withPref {
      assert attrs[|attrs| - 1] == pref && pref in attrs;
    }
  }

  /** A header that announces its next hop and is followed by packed IPv6 prefixes. */
  ghost predicate ReachHeader(h: Bytes) {
    |h| >= 5 && h[..3] == [0, 2, 1] && (h[3] == 16 || h[3] == 32) && |h| == 5 + h[3] as int
  }

  lemma ReachHeaderOf(p: Config.Peer)
    requires Config.TypedPeer(p) && HasNextHop(p, true)
    ensures ReachHeader(MpHeader(p, false))
  {
    var h := MpHeader(p, false);
    assert h[..3] == [0, 2, 1];
  }

  lemma ReachLayout(h: Bytes, routes: Bytes)
    requires ReachHeader(h)
    ensures var data := h + routes;
            && NextHopFramed(data) && U16(data) == 2 && Supported(data) && NextHopSizeOk(data)
            && data[5 + data[3] as int..] == routes
  {
    var data := h + routes;
    assert data[0] == h[..3][0] && data[1] == h[..3][1] && data[2] == h[..3][2] && data[3] == h[3];
  }

  /** A multiprotocol attribute without a fatal error is fine. */
  lemma MpErrorFree(a: Attribute, n: Negotiated)
    requires Multiprotocol(a.kind) && MpError(a).None?
    ensures Fine(a, n)
  {
  }

  /** Packed prefixes inside an MP_REACH_NLRI or MP_UNREACH_NLRI attribute are found again. */
  lemma ReachFine(h: Bytes, routes: Bytes, ps: seq<Prefix>, n: Negotiated)
    requires ReachHeader(h) && |h| + |routes| < TWO16
    requires Nlri.Fits(routes, 128) && Nlri.Decode(routes, true) == ps
    ensures var a := Attr(0x80, 14, h + routes);
            Fine(a, n) && ReachPrefixes(a) == ps && UnreachPrefixes(a) == []
  {
    var a := Attr(0x80, 14, h + routes);
    assert MpError(a).None? && ReachPrefixes(a) == ps by {
      AttrFlags(0x80, 14, h + routes);
      ReachLayout(h, routes);
    }
    MpErrorFree(a, n);
  }

  lemma UnreachFine(routes: Bytes, ps: seq<Prefix>, n: Negotiated)
    requires 3 + |routes| < TWO16
    requires Nlri.Fits(routes, 128) && Nlri.Decode(routes, true) == ps
    ensures var a := Attr(0x80, 15, [0, 2, 1] + routes);
            Fine(a, n) && ReachPrefixes(a) == [] && UnreachPrefixes(a) == ps
  {
    var a := Attr(0x80, 15, [0, 2, 1] + routes);
    assert MpError(a).None? && UnreachPrefixes(a) == ps by {
      AttrFlags(0x80, 15, [0, 2, 1] + routes);
      UnreachLayout(routes);
    }
    MpErrorFree(a, n);
  }

  lemma UnreachLayout(routes: Bytes)
    ensures var data := [0, 2, 1] + routes; U16(data) == 2 && Supported(data) && data[3..] == routes
  {
  }

  /** The multiprotocol attribute is well formed and carries exactly the batch. */
  lemma MpFine(p: Config.Peer, ps: seq<Prefix>, withdraw: bool, n: Negotiated)
    requires Config.TypedPeer(p) && (withdraw || HasNextHop(p, true))
    requires |ps| <= MAX_UPDATE_PREFIXES && SameFamily(ps, true)
    ensures var a := MpAttribute(p, ps, withdraw);
            && Fine(a, n) && a.kind == (if withdraw then 15 else 14)
            && ReachPrefixes(a) == (if withdraw then [] else Nlri.TruncAll(ps))
            && UnreachPrefixes(a) == (if withdraw then Nlri.TruncAll(ps) else [])
  {
    Nlri.RoundTrip(ps, true);
    if withdraw {
      UnreachFine(Nlri.Encode(ps), Nlri.TruncAll(ps), n);
    } else {
      ReachHeaderOf(p);
      ReachFine(MpHeader(p, false), Nlri.Encode(ps), Nlri.TruncAll(ps), n);
    }
  }

  lemma {:induction false} NoReach(attrs: seq<Attribute>)
    requires forall a <- attrs :: a.kind != 14 && a.kind != 15
    ensures ReachOf(attrs) == [] && UnreachOf(attrs) == [] && !AnyReach(attrs)
  {
    if attrs != [] {
      NoReach(attrs[1..]);
      assert attrs[0] in attrs;
    }
  }

  /** A complete, harmless attribute list that carries the given routes. */
  ghost predicate Carries(attrs: seq<Attribute>, tail: Bytes, n: Negotiated, fine: Attribute -> bool,
                          reach: seq<Prefix>, unreach: seq<Prefix>) {
    && DistinctKinds(attrs)
    && (forall a <- attrs :: fine(a))
    && !MissingMandatory(tail, attrs, n)
    && ReachOf(attrs) == reach
    && UnreachOf(attrs) == unreach
  }

  /** The types an announcement must carry besides its next hop. */
  function MandatoryKinds(n: Negotiated): set<octet> {
    if n.internal then {1, 2, 5} else {1, 2}
  }

  /** Attributes an announcement must have, none of them multiprotocol. */
  ghost predicate Mandatory(attrs: seq<Attribute>, n: Negotiated, fine: Attribute -> bool) {
    && DistinctKinds(attrs)
    && (forall a <- attrs :: fine(a) && a.kind in {1, 2, 5, 17})
    && MandatoryKinds(n) <= Kinds(attrs)
  }

  lemma KindsConcat(a: seq<Attribute>, b: seq<Attribute>)
    ensures Kinds(a + b) == Kinds(a) + Kinds(b)
  {
    assert forall x :: x in a + b <==> x in a || x in b;
  }

  lemma DistinctConcat(a: seq<Attribute>, b: seq<Attribute>)
    requires DistinctKinds(a) && DistinctKinds(b) && Kinds(a) !! Kinds(b)
    ensures DistinctKinds(a + b)
  {
    var c := a + b;
    forall i, j | 0 <= i < j < |c|
      ensures c[i].kind != c[j].kind
    {
      if i < |a| && j >= |a| {
        assert a[i] in a && b[j - |a|] in b;
        assert a[i].kind in Kinds(a) && b[j - |a|].kind in Kinds(b);
      }
    }
  }

  lemma NotMissing(tail: Bytes, attrs: seq<Attribute>, n: Negotiated)
    requires MandatoryKinds(n) <= Kinds(attrs) || !Reachable(tail, attrs)
    requires tail != [] ==> 3 in Kinds(attrs)
    ensures !MissingMandatory(tail, attrs, n)
  {
    assert MandatoryKinds(n) == {1, 2} + (if n.internal then {5} else {});
  }

  lemma RoutesOfCons(mp: Attribute, rest: seq<Attribute>)
    requires forall a <- rest :: a.kind != 14 && a.kind != 15
    ensures ReachOf([mp] + rest) == ReachPrefixes(mp) && UnreachOf([mp] + rest) == UnreachPrefixes(mp)
    ensures mp.kind == 15 && rest == [] ==> !AnyReach([mp] + rest)
  {
    NoReach(rest);
    assert ([mp] + rest)[1..] == rest;
    EmptyUnit(ReachPrefixes(mp));
    EmptyUnit(UnreachPrefixes(mp));
  }

  lemma MandatoryPlain(attrs: seq<Attribute>, n: Negotiated, fine: Attribute -> bool)
    requires Mandatory(attrs, n, fine)
    ensures forall a <- attrs :: a.kind != 14 && a.kind != 15
    ensures Kinds(attrs) <= {1, 2, 5, 17}
  {
  }

  lemma KindsOne(a: Attribute)
    ensures Kinds([a]) == {a.kind}
  {
    assert a in [a];
  }

  lemma WithMultiprotocol(mp: Attribute, rest: seq<Attribute>, n: Negotiated, fine: Attribute -> bool)
    requires fine(mp) && Multiprotocol(mp.kind)
    requires if mp.kind == 14 then Mandatory(rest, n, fine) else rest == []
    ensures Carries([mp] + rest, [], n, fine, ReachPrefixes(mp), UnreachPrefixes(mp))
  {
    if mp.kind == 14 {
      MandatoryPlain(rest, n, fine);
    }
    KindsOne(mp);
    KindsConcat([mp], rest);
    DistinctConcat([mp], rest);
    RoutesOfCons(mp, rest);
    NotMissing([], [mp] + rest, n);
    assert forall a <- [mp] + rest :: a == mp || a in rest;
  }

  lemma WithNextHop(nh: Attribute, common: seq<Attribute>, tail: Bytes, n: Negotiated, fine: Attribute -> bool)
    requires fine(nh) && nh.kind == 3 && Mandatory(common, n, fine)
    ensures Carries(common + [nh], tail, n, fine, [], [])
  {
    MandatoryPlain(common, n, fine);
    KindsOne(nh);
    KindsConcat(common, [nh]);
    DistinctConcat(common, [nh]);
    NotMissing(tail, common + [nh], n);
    assert forall a <- common + [nh] :: a == nh || a in common;
    NoReach(common + [nh]);
  }

  /** The attribute list of any UPDATE of a session. */
  lemma AttributesMean(cfg: Config.Config, p: Config.Peer, n: Negotiated, ps: seq<Prefix>, withdraw: bool)
    requires Session(cfg, p, n) && Batch(ps)
    requires withdraw || Enabled(n, ps[0].v6)
    ensures CanEncode(cfg, p, ps, withdraw)
    ensures Carries(UpdateAttributes(cfg, p, n, ps, withdraw), UpdateFields(cfg, p, n, ps, withdraw).tail, n,
                    FineFor(n),
                    if ps[0].v6 && !withdraw then Nlri.TruncAll(ps) else [],
                    if ps[0].v6 && withdraw then Nlri.TruncAll(ps) else [])
  {
    if ps[0].v6 {
      MultiprotocolMeans(cfg, p, n, ps, withdraw);
    } else if !withdraw {
      CommonFine(cfg, p, n);
      ValueFine(0x40, 3, Config.NextHop4(p).value, n);
      WithNextHop(Attr(0x40, 3, Config.NextHop4(p).value), CommonAttributes(cfg, p, n),
                  Nlri.Encode(ps), n, FineFor(n));
    } else {
      NoReach([]);
    }
  }

  lemma MultiprotocolMeans(cfg: Config.Config, p: Config.Peer, n: Negotiated, ps: seq<Prefix>, withdraw: bool)
    requires Session(cfg, p, n) && Batch(ps) && ps[0].v6
    requires withdraw || Enabled(n, true)
    ensures CanEncode(cfg, p, ps, withdraw)
    ensures Carries(UpdateAttributes(cfg, p, n, ps, withdraw), [], n, FineFor(n),
                    if withdraw then [] else Nlri.TruncAll(ps), if withdraw then Nlri.TruncAll(ps) else [])
  {
    CommonFine(cfg, p, n);
    MpFine(p, ps, withdraw, n);
    var mp := MpAttribute(p, ps, withdraw);
    var rest := if withdraw then [] else CommonAttributes(cfg, p, n);
    WithMultiprotocol(mp, rest, n, FineFor(n));
    assert UpdateAttributes(cfg, p, n, ps, withdraw) == [mp] + rest;
  }

  /** A body assembled from fields that fit is valid and decodes to what its fields carry. */
  lemma BodyMeans(f: Fields, attrs: seq<Attribute>, n: Negotiated, reach: seq<Prefix>, unreach: seq<Prefix>)
    requires (forall a <- attrs :: Encodable(a)) && f.attributes == Encode(attrs)
    requires |f.withdrawn| < TWO16 && |f.attributes| < TWO16
    requires Nlri.Fits(f.withdrawn, 32) && Nlri.Fits(f.tail, 32)
    requires Carries(attrs, f.tail, n, FineFor(n), reach, unreach)
    ensures UpdateVerdict(Join(f), n) == Accept(Valid)
    ensures UpdatePrefixes(Join(f)) == Nlri.Decode(f.tail, false) + reach
    ensures WithdrawnPrefixes(Join(f)) == Nlri.Decode(f.withdrawn, false) + unreach
  {
    FineListIsValid(f.tail, attrs, n);
    VerdictOfJoin(f.withdrawn, attrs, f.tail, n);
    SplitOfJoin(f);
    ParseOfEncode(attrs);
  }

  /** The two fields of RFC 4271 hold the batch exactly when it is an IPv4 one. */
  lemma FieldsMean(cfg: Config.Config, p: Config.Peer, n: Negotiated, ps: seq<Prefix>, withdraw: bool)
    requires CanEncode(cfg, p, ps, withdraw)
    ensures var f := UpdateFields(cfg, p, n, ps, withdraw);
            && Nlri.Fits(f.withdrawn, 32) && Nlri.Fits(f.tail, 32)
            && Nlri.Decode(f.tail, false) == (if !withdraw && !ps[0].v6 then Nlri.TruncAll(ps) else [])
            && Nlri.Decode(f.withdrawn, false) == (if withdraw && !ps[0].v6 then Nlri.TruncAll(ps) else [])
  {
    if !ps[0].v6 {
      Nlri.RoundTrip(ps, false);
    }
  }

  /** Every UPDATE of a session is valid to its receiver and means exactly its batch. */
  lemma EncodedUpdateMeans(cfg: Config.Config, p: Config.Peer, n: Negotiated, ps: seq<Prefix>, withdraw: bool)
    requires Session(cfg, p, n) && Batch(ps)
    requires withdraw || Enabled(n, ps[0].v6)
    ensures CanEncode(cfg, p, ps, withdraw)
    ensures var body := UpdateBody(cfg, p, n, ps, withdraw);
            && UpdateVerdict(body, n) == Accept(Valid)
            && UpdatePrefixes(body) == (if withdraw then [] else Nlri.TruncAll(ps))
            && WithdrawnPrefixes(body) == (if withdraw then Nlri.TruncAll(ps) else [])
  {
    AttributesMean(cfg, p, n, ps, withdraw);
    AttributesFit(cfg, p, n, ps, withdraw);
    FieldsMean(cfg, p, n, ps, withdraw);
    var v6, all := ps[0].v6, Nlri.TruncAll(ps);
    BodyMeans(UpdateFields(cfg, p, n, ps, withdraw), UpdateAttributes(cfg, p, n, ps, withdraw), n,
              if v6 && !withdraw then all else [], if v6 && withdraw then all else []);
    EmptyUnit(all);
  }

  /** End-of-RIB markers are valid and carry no route at all. */
  lemma EndOfRibMeans(v6: bool, n: Negotiated)
    ensures var body := EndOfRibBody(v6);
            && UpdateVerdict(body, n) == Accept(Valid)
            && UpdatePrefixes(body) == []
            && WithdrawnPrefixes(body) == []
  {
    var a := Attr(0x80, 15, [0, 2, 1] + []);
    if v6 {
      MarkerLayout();
      UnreachFine([], [], n);
      WithMultiprotocol(a, [], n, FineFor(n));
      BodyMeans(Fields([], Encode([a] + []), []), [a] + [], n, [], []);
    } else {
      NoReach([]);
      assert Join(Fields([], Encode([]), [])) == EndOfRibBody(false);
      BodyMeans(Fields([], Encode([]), []), [], n, [], []);
    }
  }

  lemma MarkerLayout()
    ensures var attrs := [Attr(0x80, 15, [0, 2, 1] + [])] + [];
            Encode(attrs) == [0x80, 15, 3, 0, 2, 1] && Join(Fields([], Encode(attrs), [])) == EndOfRibBody(true)
  {
    var a := Attr(0x80, 15, [0, 2, 1] + []);
    assert ([a] + [])[1..] == [];
    assert EncodeOne(a) == [0x80, 15, 3, 0, 2, 1];
  }
}
