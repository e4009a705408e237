/** Laws of OPEN: what capabilities mean, that their packaging does not matter, and that both ends agree. */
module Negotiation {
  import opened Base
  import opened Protocol
  import opened Open
  import Agreement
  import Config
  import Encoder

  // ---- What a capability list means ---------------------------------------------------

  predicate WellFormedCapability(c: Capability) {
    && (c.code == 1 || c.code == 65 ==> |c.data| == 4)
    && (c.code == 2 ==> c.data == [])
  }

  /** A capability that offers unicast routes of one family. */
  predicate Offers(c: Capability, v6: bool) {
    c.code == 1 && |c.data| == 4 && c.data[3] == 1 && U16(c.data) == (if v6 then 2 else 1)
  }

  function AsSet<T>(o: Option<T>): set<T> {
    if o.Some? then {o.value} else {}
  }

  /** The four-octet ASNs a list announces. */
  function Asns(caps: seq<Capability>): set<nat> {
    set c | c in caps && c.code == 65 && |c.data| == 4 :: U32(c.data)
  }

  ghost predicate AtMostOne<T(!new)>(s: set<T>) {
    forall x, y :: x in s && y in s ==> x == y
  }

  lemma AsnsStep(caps: seq<Capability>)
    requires caps != []
    ensures Asns(caps)
            == Asns(caps[1..]) + (if caps[0].code == 65 && |caps[0].data| == 4 then {U32(caps[0].data)} else {})
  {
    assert caps == [caps[0]] + caps[1..];
  }

  /** A list is accepted exactly when each capability is well formed and at most one ASN is announced. */
  lemma {:induction false} CollectAccepts(o: Offer, caps: seq<Capability>)
    ensures Collect(o, caps).Offered?
            <==> (forall c <- caps :: WellFormedCapability(c)) && AtMostOne(AsSet(o.as4) + Asns(caps))
    decreases |caps|
  {
    if caps != [] {
      var c, rest := caps[0], caps[1..];
      assert forall d :: d in caps <==> d == c || d in rest;
      AsnsStep(caps);
      var r := Take(o, c);
      if r.Offered? {
        CollectAccepts(r.offer, rest);
        assert AsSet(o.as4) + Asns(caps) == AsSet(r.offer.as4) + Asns(rest);
      } else if WellFormedCapability(c) {
        assert o.as4.value in AsSet(o.as4) + Asns(caps) && U32(c.data) in AsSet(o.as4) + Asns(caps);
      }
    }
  }

  predicate AnyMultiprotocol(caps: seq<Capability>) {
    exists c <- caps :: c.code == 1
  }

  predicate AnyOffer(caps: seq<Capability>, v6: bool) {
    exists c <- caps :: Offers(c, v6)
  }

  lemma AnyStep(caps: seq<Capability>, v6: bool)
    requires caps != []
    ensures AnyMultiprotocol(caps) <==> caps[0].code == 1 || AnyMultiprotocol(caps[1..])
    ensures AnyOffer(caps, v6) <==> Offers(caps[0], v6) || AnyOffer(caps[1..], v6)
  {
    assert forall d :: d in caps <==> d == caps[0] || d in caps[1..];
  }

  /** Its outcome does not depend on the order of the list. */
  lemma {:induction false} CollectOutcome(o: Offer, caps: seq<Capability>)
    requires Collect(o, caps).Offered?
    ensures var r := Collect(o, caps).offer;
            && AsSet(r.as4) == AsSet(o.as4) + Asns(caps)
            && (r.mp <==> o.mp || AnyMultiprotocol(caps))
            && (r.v4 <==> o.v4 || AnyOffer(caps, false))
            && (r.v6 <==> o.v6 || AnyOffer(caps, true))
    decreases |caps|
  {
    if caps != [] {
      AsnsStep(caps);
      AnyStep(caps, false);
      AnyStep(caps, true);
      CollectOutcome(Take(o, caps[0]).offer, caps[1..]);
    }
  }

  // ---- Packaging does not matter ---------------------------------------------------------

  predicate Packable(c: Capability) {
    |c.data| < 256
  }

  function EncodeCapabilities(caps: seq<Capability>): Bytes
    requires forall c <- caps :: Packable(c)
  {
    if caps == [] then []
    else
      assert Packable(caps[0]);
      [caps[0].code, |caps[0].data|] + caps[0].data + EncodeCapabilities(caps[1..])
  }

  function Flatten(groups: seq<seq<Capability>>): seq<Capability> {
    if groups == [] then [] else groups[0] + Flatten(groups[1..])
  }

  /** A group fits the length field of one optional parameter. */
  predicate FitsParameter(group: seq<Capability>, extended: bool) {
    (forall c <- group :: Packable(c)) && |EncodeCapabilities(group)| < if extended then TWO16 else 256
  }

  function EncodeParameters(groups: seq<seq<Capability>>, extended: bool): Bytes
    requires forall g <- groups :: FitsParameter(g, extended)
  {
    if groups == [] then []
    else
      assert FitsParameter(groups[0], extended);
      var caps := EncodeCapabilities(groups[0]);
      [2] + (if extended then Be16(|caps|) else [|caps|]) + caps + EncodeParameters(groups[1..], extended)
  }

  lemma {:induction false} ReadEncodedCapabilities(o: Offer, caps: seq<Capability>)
    requires forall c <- caps :: Packable(c)
    ensures ReadCapabilities(o, EncodeCapabilities(caps)) == Collect(o, caps)
    decreases |caps|
  {
    if caps != [] {
      var b := EncodeCapabilities(caps);
      var c := caps[0];
      assert b[2..2 + |c.data|] == c.data;
      assert b[2 + |c.data|..] == EncodeCapabilities(caps[1..]);
      assert FirstCapability(b) == c;
      if Take(o, c).Offered? {
        ReadEncodedCapabilities(Take(o, c).offer, caps[1..]);
      }
    }
  }

  lemma {:induction false} CollectAppend(o: Offer, a: seq<Capability>, b: seq<Capability>)
    ensures Collect(o, a + b) == if Collect(o, a).Refused? then Collect(o, a) else Collect(Collect(o, a).offer, b)
    decreases |a|
  {
    if a == [] {
      assert a + b == b;
    } else {
      assert (a + b)[1..] == a[1..] + b;
      if Take(o, a[0]).Offered? {
        CollectAppend(Take(o, a[0]).offer, a[1..], b);
      }
    }
  }

  lemma ParameterLayout(caps: Bytes, rest: Bytes, extended: bool)
    requires |caps| < if extended then TWO16 else 256
    ensures var b := [2] + (if extended then Be16(|caps|) else [|caps|]) + caps + rest;
            var h := ParameterHeader(extended);
            && b[0] == 2 && HasParameter(b, extended) && ParameterLength(b, extended) == |caps|
            && b[h..h + |caps|] == caps && b[h + |caps|..] == rest
  {
    var b := [2] + (if extended then Be16(|caps|) else [|caps|]) + caps + rest;
    if extended {
      assert b[1..3] == Be16(|caps|);
    }
  }

  lemma {:induction false} ReadEncodedParameters(o: Offer, groups: seq<seq<Capability>>, extended: bool)
    requires forall g <- groups :: FitsParameter(g, extended)
    ensures ReadParameters(o, EncodeParameters(groups, extended), extended) == Collect(o, Flatten(groups))
    decreases |groups|
  {
    if groups != [] {
      var g, rest := groups[0], groups[1..];
      assert FitsParameter(g, extended);
      ParameterLayout(EncodeCapabilities(g), EncodeParameters(rest, extended), extended);
      ReadEncodedCapabilities(o, g);
      CollectAppend(o, g, Flatten(rest));
      if Collect(o, g).Offered? {
        ReadEncodedParameters(Collect(o, g).offer, rest, extended);
      }
    }
  }

  /** The two forms of the optional parameters; the extended one tolerates any nonzero legacy length. */
  datatype Form = Legacy | ExtendedForm(legacyLength: octet)

  predicate FitsForm(groups: seq<seq<Capability>>, form: Form) {
    && (forall g <- groups :: FitsParameter(g, form.ExtendedForm?))
    && |EncodeParameters(groups, form.ExtendedForm?)| < (if form.ExtendedForm? then TWO16 else 256)
    && (form.ExtendedForm? ==> form.legacyLength != 0)
  }

  function OpenHeader(oldAsn: nat, hold: nat, routerId: nat): (b: Bytes)
    requires oldAsn < TWO16 && hold < TWO16 && routerId < TWO32
    ensures |b| == 9
  {
    [4] + Be16(oldAsn) + Be16(hold) + Be32(routerId)
  }

  function EncodeOpen(oldAsn: nat, hold: nat, routerId: nat, groups: seq<seq<Capability>>, form: Form): Bytes
    requires oldAsn < TWO16 && hold < TWO16 && routerId < TWO32 && FitsForm(groups, form)
  {
    var params := EncodeParameters(groups, form.ExtendedForm?);
    match form
    case Legacy => OpenHeader(oldAsn, hold, routerId) + [|params|] + params
    case ExtendedForm(l) => OpenHeader(oldAsn, hold, routerId) + [l, 255] + Be16(|params|) + params
  }

  /** The outcome of an OPEN as a function of its header and its flat capability list alone. */
  function OpenMeaning(oldAsn: nat, hold: nat, routerId: nat, caps: seq<Capability>,
                       cfg: Config.Config, p: Config.Peer): OpenResult {
    if !(hold == 0 || hold >= 3) then Failed(ProtocolError(2, 6, []))
    else if !Config.ValidRouterId(routerId) || (cfg.asn == p.remoteAsn && routerId == cfg.routerId)
      then Failed(ProtocolError(2, 3, []))
    else
      var r := Collect(NO_OFFER, caps);
      if r.Refused? then Failed(r.error) else Negotiate(oldAsn, hold, routerId, r.offer, cfg, p)
  }

  lemma HeaderLayout(oldAsn: nat, hold: nat, routerId: nat, rest: Bytes)
    requires oldAsn < TWO16 && hold < TWO16 && routerId < TWO32
    ensures var b := OpenHeader(oldAsn, hold, routerId) + rest;
            b[0] == 4 && U16(b[1..3]) == oldAsn && U16(b[3..5]) == hold && U32(b[5..9]) == routerId && b[9..] == rest
  {
    var b := OpenHeader(oldAsn, hold, routerId) + rest;
    assert b[1..3] == Be16(oldAsn);
    assert b[3..5] == Be16(hold);
    assert b[5..9] == Be32(routerId);
    U32OfBe32(routerId);
  }

  lemma ParametersLayout(oldAsn: nat, hold: nat, routerId: nat, groups: seq<seq<Capability>>, form: Form)
    requires oldAsn < TWO16 && hold < TWO16 && routerId < TWO32 && FitsForm(groups, form)
    ensures var b := EncodeOpen(oldAsn, hold, routerId, groups, form);
            |b| >= 10 && Parameters(b) == Some((EncodeParameters(groups, form.ExtendedForm?), form.ExtendedForm?))
  {
    var h := OpenHeader(oldAsn, hold, routerId);
    var b := EncodeOpen(oldAsn, hold, routerId, groups, form);
    var params := EncodeParameters(groups, form.ExtendedForm?);
    match form
    case Legacy =>
      assert b[9] == |params| && b[10..] == params;
      assert params != [] ==> params[0] == 2;
      assert params != [] ==> b[10] == params[0];
    case ExtendedForm(l) =>
      assert b[9] == l && b[10] == 255 && b[11..13] == Be16(|params|) && b[13..] == params;
  }

  lemma OpenMeans(oldAsn: nat, hold: nat, routerId: nat, groups: seq<seq<Capability>>, form: Form,
                  cfg: Config.Config, p: Config.Peer)
    requires oldAsn < TWO16 && hold < TWO16 && routerId < TWO32 && FitsForm(groups, form)
    ensures ParseOpen(EncodeOpen(oldAsn, hold, routerId, groups, form), cfg, p)
            == OpenMeaning(oldAsn, hold, routerId, Flatten(groups), cfg, p)
  {
    var b := EncodeOpen(oldAsn, hold, routerId, groups, form);
    var h := OpenHeader(oldAsn, hold, routerId);
    assert b == h + b[9..];
    HeaderLayout(oldAsn, hold, routerId, b[9..]);
    ParametersLayout(oldAsn, hold, routerId, groups, form);
    ReadEncodedParameters(NO_OFFER, groups, form.ExtendedForm?);
  }

  /** The same capabilities give the same outcome, however they are grouped and in either form. */
  lemma GroupingIrrelevant(oldAsn: nat, hold: nat, routerId: nat,
                           g1: seq<seq<Capability>>, f1: Form, g2: seq<seq<Capability>>, f2: Form,
                           cfg: Config.Config, p: Config.Peer)
    requires oldAsn < TWO16 && hold < TWO16 && routerId < TWO32
    requires FitsForm(g1, f1) && FitsForm(g2, f2) && Flatten(g1) == Flatten(g2)
    ensures ParseOpen(EncodeOpen(oldAsn, hold, routerId, g1, f1), cfg, p)
            == ParseOpen(EncodeOpen(oldAsn, hold, routerId, g2, f2), cfg, p)
  {
    OpenMeans(oldAsn, hold, routerId, g1, f1, cfg, p);
    OpenMeans(oldAsn, hold, routerId, g2, f2, cfg, p);
  }

  // ---- Both ends agree -----------------------------------------------------------------

  lemma OwnOffer(cfg: Config.Config, p: Config.Peer)
    requires cfg.asn < TWO32
    ensures Collect(NO_OFFER, OwnCapabilities(cfg, p))
            == Offered(Offer(Some(cfg.asn), p.ipv4 || p.ipv6, p.ipv4, p.ipv6))
  {
    var base := [Capability(65, Be32(cfg.asn)), Capability(2, [])];
    var f4 := if p.ipv4 then [FamilyCapability(false)] else [];
    var f6 := if p.ipv6 then [FamilyCapability(true)] else [];
    U32OfBe32(cfg.asn);
    assert Collect(NO_OFFER, base) == Collect(NO_OFFER.(as4 := Some(cfg.asn)), base[1..]);
    var o := Offer(Some(cfg.asn), false, false, false);
    assert base[1..] == [Capability(2, [])] && base[1..][1..] == [];
    assert Collect(o, base[1..]) == Collect(o, base[1..][1..]) == Offered(o);
    CollectAppend(NO_OFFER, base, f4);
    CollectAppend(NO_OFFER, base + f4, f6);
  }

  lemma OwnOpenLayout(cfg: Config.Config, p: Config.Peer)
    requires cfg.asn < TWO32 && cfg.routerId < TWO32 && p.hold < TWO16
    ensures FitsForm([OwnCapabilities(cfg, p)], Legacy)
    ensures OpenBody(cfg, p)
            == EncodeOpen(Encoder.TwoOctetAsn(cfg.asn), p.hold, cfg.routerId, [OwnCapabilities(cfg, p)], Legacy)
  {
    var caps := OwnCapabilities(cfg, p);
    var octets := [65, 4] + Be32(cfg.asn) + [2, 0] + FamilyList(p);
    OwnCapabilityOctets(cfg, p);
    assert FitsParameter(caps, false);
    assert [caps][1..] == [];
    assert EncodeParameters([caps], false) == [2, |octets|] + octets;
    assert OpenBody(cfg, p) == OpenHeader(Encoder.TwoOctetAsn(cfg.asn), p.hold, cfg.routerId)
                               + [|octets| + 2] + ([2, |octets|] + octets);
  }

  lemma {:induction false} EncodeCapabilitiesAppend(a: seq<Capability>, b: seq<Capability>)
    requires (forall c <- a :: Packable(c)) && (forall c <- b :: Packable(c))
    ensures EncodeCapabilities(a + b) == EncodeCapabilities(a) + EncodeCapabilities(b)
  {
    if a == [] {
      assert a + b == b;
    } else {
      assert (a + b)[1..] == a[1..] + b;
      EncodeCapabilitiesAppend(a[1..], b);
    }
  }

  lemma EncodeCapability(c: Capability)
    requires Packable(c)
    ensures EncodeCapabilities([c]) == [c.code, |c.data|] + c.data
  {
    assert [c][1..] == [];
  }

  lemma OwnCapabilityOctets(cfg: Config.Config, p: Config.Peer)
    requires cfg.asn < TWO32
    ensures forall c <- OwnCapabilities(cfg, p) :: Packable(c)
    ensures EncodeCapabilities(OwnCapabilities(cfg, p)) == [65, 4] + Be32(cfg.asn) + [2, 0] + FamilyList(p)
  {
    var a, r := Capability(65, Be32(cfg.asn)), Capability(2, []);
    var f4, f6 := Families(p.ipv4, false), Families(p.ipv6, true);
    EncodeCapability(a);
    EncodeCapability(r);
    assert [a, r] == [a] + [r];
    EncodeCapabilitiesAppend([a], [r]);
    FamilyOctets(p.ipv4, false);
    FamilyOctets(p.ipv6, true);
    EncodeCapabilitiesAppend([a, r], f4);
    EncodeCapabilitiesAppend([a, r] + f4, f6);
    assert OwnCapabilities(cfg, p) == [a, r] + f4 + f6;
    var ar := [65, 4] + Be32(cfg.asn) + [2, 0];
    assert EncodeCapabilities([a, r]) == ar;
    Associative(ar, EncodeCapabilities(f4), EncodeCapabilities(f6));
  }

  function Families(enabled: bool, v6: bool): seq<Capability> {
    if enabled then [FamilyCapability(v6)] else []
  }

  lemma FamilyOctets(enabled: bool, v6: bool)
    ensures forall c <- Families(enabled, v6) :: Packable(c)
    ensures EncodeCapabilities(Families(enabled, v6)) == if enabled then [1, 4, 0, if v6 then 2 else 1, 0, 1] else []
  {
    EncodeCapability(FamilyCapability(v6));
  }

  /** Two validated configurations that name each other as peers. */
  ghost predicate Mutual(a: Config.Config, pa: Config.Peer, b: Config.Config, pb: Config.Peer) {
    && Config.ValidConfig(a) && Config.ValidConfig(b)
    && Config.ValidPeer(a, pa) && Config.ValidPeer(b, pb)
    && pa.remoteAsn == b.asn && pb.remoteAsn == a.asn
  }

  /** When two such speakers can have a session at all. */
  predicate Compatible(a: Config.Config, pa: Config.Peer, b: Config.Config, pb: Config.Peer) {
    && (a.asn != b.asn || a.routerId != b.routerId)
    && ((pa.ipv4 && pb.ipv4) || (pa.ipv6 && pb.ipv6))
  }

  /** What one side makes of the other's OPEN, in closed form. */
  lemma ReceivedOpen(a: Config.Config, pa: Config.Peer, b: Config.Config, pb: Config.Peer)
    requires Mutual(a, pa, b, pb)
    ensures var r := ParseOpen(OpenBody(b, pb), a, pa);
            && (r.Agreed? <==> Compatible(a, pa, b, pb))
            && (r.Agreed? ==> r.n == Negotiated(b.routerId, if pb.hold < pa.hold then pb.hold else pa.hold, true,
                                                a.asn == b.asn, pa.ipv4 && pb.ipv4, pa.ipv6 && pb.ipv6))
  {
    OwnOpenLayout(b, pb);
    OpenMeans(Encoder.TwoOctetAsn(b.asn), pb.hold, b.routerId, [OwnCapabilities(b, pb)], Legacy, a, pa);
    assert Flatten([OwnCapabilities(b, pb)]) == OwnCapabilities(b, pb) by {
      assert [OwnCapabilities(b, pb)][1..] == [];
    }
    OwnOffer(b, pb);
  }

  /** Both ends accept with the same parameters, or both refuse; which of the two is decided by the configurations. */
  lemma SymmetricNegotiation(a: Config.Config, pa: Config.Peer, b: Config.Config, pb: Config.Peer)
    requires Mutual(a, pa, b, pb)
    ensures var ra, rb := ParseOpen(OpenBody(b, pb), a, pa), ParseOpen(OpenBody(a, pa), b, pb);
            && (ra.Agreed? <==> Compatible(a, pa, b, pb))
            && (rb.Agreed? <==> Compatible(a, pa, b, pb))
            && (ra.Agreed? ==> ra.n.(routerId := 0) == rb.n.(routerId := 0)
                               && (ra.n.hold == 0 || ra.n.hold >= 3))
  {
    ReceivedOpen(a, pa, b, pb);
    ReceivedOpen(b, pb, a, pa);
  }

  /** The peer as the session uses it: an omitted link-local next hop is taken from the interface. */
  function SessionPeer(p: Config.Peer, interfaceLinkLocal: Option<Bytes>): Config.Peer {
    if p.ipv6 && p.linkLocal.None? then p.(linkLocal := interfaceLinkLocal) else p
  }

  /** Any accepted OPEN, from any speaker, yields a session every encoding guarantee applies to. */
  lemma AcceptedOpenMakesSession(b: Bytes, cfg: Config.Config, p: Config.Peer, linkLocal: Option<Bytes>)
    requires Config.ValidConfig(cfg) && Config.ValidPeer(cfg, p)
    requires linkLocal.Some? ==> |linkLocal.value| == 16 && Config.LinkLocal(linkLocal.value)
    requires ParseOpen(b, cfg, p).Agreed?
    ensures var n := ParseOpen(b, cfg, p).n;
            && Agreement.Session(cfg, SessionPeer(p, linkLocal), n)
            && (n.hold == 0 || n.hold >= 3)
            && (n.ipv4 || n.ipv6)
            && (cfg.routerId, cfg.asn) != (n.routerId, p.remoteAsn)
  {
    var r := ReadParameters(NO_OFFER, Parameters(b).value.0, Parameters(b).value.1);
    assert ParseOpen(b, cfg, p) == Negotiate(U16(b[1..3]), U16(b[3..5]), U32(b[5..9]), r.offer, cfg, p);
  }
}
