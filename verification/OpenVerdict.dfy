/** The outcome of an OPEN, told by what it announces: when it is agreed, to what, and why it is refused. */
module OpenVerdict {
  import opened Base
  import opened Protocol
  import opened Open
  import opened Negotiation
  import Config
  import Encoder

  /** What an OPEN announces, free of how it is laid out. */
  datatype Announced = Announced(oldAsn: nat, hold: nat, routerId: nat, caps: seq<Capability>)

  predicate InRange(o: Announced) {
    o.oldAsn < TWO16 && o.hold < TWO16 && o.routerId < TWO32
  }

  /** The hold time is off or at least three seconds (section 4.2 of RFC 4271). */
  predicate HoldAcceptable(o: Announced) {
    o.hold == 0 || o.hold >= 3
  }

  /** The identifier is not zero, and inside one AS not our own (section 2.1 of RFC 6286). */
  predicate IdAcceptable(o: Announced, cfg: Config.Config, p: Config.Peer) {
    o.routerId != 0 && !(cfg.asn == p.remoteAsn && o.routerId == cfg.routerId)
  }

  ghost predicate CapabilitiesAcceptable(o: Announced) {
    (forall c <- o.caps :: WellFormedCapability(c)) && AtMostOne(Asns(o.caps))
  }

  /** The speaker's AS: the four-octet one where it is announced, else My AS; and My AS must be that number,
      or AS_TRANS where two octets cannot hold it (section 4.2.3 of RFC 6793). */
  ghost predicate IsThePeer(o: Announced, p: Config.Peer) {
    && (if Asns(o.caps) == {} then o.oldAsn == p.remoteAsn else forall x <- Asns(o.caps) :: x == p.remoteAsn)
    && o.oldAsn == (if p.remoteAsn > 65535 then 23456 else p.remoteAsn)
  }

  /** A family both ends want; a peer that announces no family at all means IPv4. */
  predicate Common(o: Announced, p: Config.Peer, v6: bool) {
    if v6 then p.ipv6 && AnyOffer(o.caps, true)
    else p.ipv4 && (AnyOffer(o.caps, false) || !AnyMultiprotocol(o.caps))
  }

  ghost predicate Agreeable(o: Announced, cfg: Config.Config, p: Config.Peer) {
    && HoldAcceptable(o) && IdAcceptable(o, cfg, p) && CapabilitiesAcceptable(o) && IsThePeer(o, p)
    && (Common(o, p, false) || Common(o, p, true))
  }

  function Smaller(x: nat, y: nat): nat {
    if x < y then x else y
  }

  lemma Accepted(o: Announced)
    ensures Collect(NO_OFFER, o.caps).Offered? <==> CapabilitiesAcceptable(o)
    ensures Collect(NO_OFFER, o.caps).Offered? ==>
              var r := Collect(NO_OFFER, o.caps).offer;
              && AsSet(r.as4) == Asns(o.caps) && (r.mp <==> AnyMultiprotocol(o.caps))
              && (r.v4 <==> AnyOffer(o.caps, false)) && (r.v6 <==> AnyOffer(o.caps, true))
  {
    CollectAccepts(NO_OFFER, o.caps);
    assert AsSet(NO_OFFER.as4) + Asns(o.caps) == Asns(o.caps);
    if Collect(NO_OFFER, o.caps).Offered? {
      CollectOutcome(NO_OFFER, o.caps);
    }
  }

  lemma PeerExactly(o: Announced, p: Config.Peer)
    requires Collect(NO_OFFER, o.caps).Offered?
    ensures var as4 := Collect(NO_OFFER, o.caps).offer.as4;
            && (as4.None? <==> Asns(o.caps) == {})
            && (IsThePeer(o, p)
                <==> (if as4.Some? then as4.value else o.oldAsn) == p.remoteAsn
                     && o.oldAsn == (if p.remoteAsn > 65535 then 23456 else p.remoteAsn))
  {
    Accepted(o);
    var as4 := Collect(NO_OFFER, o.caps).offer.as4;
    if as4.Some? {
      assert Asns(o.caps) == {as4.value} && as4.value in Asns(o.caps);
    }
  }

  /** The outcome as the parser computes it, for any layout. */
  ghost function Outcome(o: Announced, cfg: Config.Config, p: Config.Peer): OpenResult {
    OpenMeaning(o.oldAsn, o.hold, o.routerId, o.caps, cfg, p)
  }

  lemma AgreedExactly(o: Announced, cfg: Config.Config, p: Config.Peer)
    ensures Outcome(o, cfg, p).Agreed? <==> Agreeable(o, cfg, p)
  {
    Accepted(o);
    if Collect(NO_OFFER, o.caps).Offered? {
      PeerExactly(o, p);
    }
  }

  lemma AgreedTo(o: Announced, cfg: Config.Config, p: Config.Peer)
    requires Outcome(o, cfg, p).Agreed?
    ensures var n := Outcome(o, cfg, p).n;
            && n.routerId == o.routerId && n.hold == Smaller(o.hold, p.hold)
            && (n.asn4 <==> Asns(o.caps) != {}) && (n.internal <==> cfg.asn == p.remoteAsn)
            && (n.ipv4 <==> Common(o, p, false)) && (n.ipv6 <==> Common(o, p, true))
  {
    Accepted(o);
    PeerExactly(o, p);
  }

  // ---- Refusals ----------------------------------------------------------------------------------------

  predicate Fails(r: OpenResult, subcode: octet) {
    r.Failed? && r.error.code == 2 && r.error.subcode == subcode
  }

  /** The first capability that makes a list unacceptable is malformed, or announces a second AS. */
  ghost predicate SpoiledBy(caps: seq<Capability>, k: nat, malformed: bool)
    requires k < |caps|
  {
    && (forall c <- caps[..k] :: WellFormedCapability(c)) && AtMostOne(Asns(caps[..k]))
    && (malformed <==> !WellFormedCapability(caps[k]))
    && (!malformed ==> !AtMostOne(Asns(caps[..k + 1])))
  }

  lemma {:induction false} FirstSpoiler(o: Offer, caps: seq<Capability>) returns (k: nat)
    requires Collect(o, caps).Refused?
    ensures k < |caps| && Collect(o, caps[..k]).Offered? && Collect(o, caps[..k + 1]).Refused?
    ensures Collect(o, caps).error == Collect(o, caps[..k + 1]).error
    ensures Take(Collect(o, caps[..k]).offer, caps[k]) == Collect(o, caps)
    decreases |caps|
  {
    var r := Take(o, caps[0]);
    if r.Refused? {
      k := 0;
      assert caps[..0] == [] && caps[..1] == [caps[0]];
    } else {
      var m := FirstSpoiler(r.offer, caps[1..]);
      k := m + 1;
      assert caps[..k] == [caps[0]] + caps[1..][..m] && caps[..k + 1] == [caps[0]] + caps[1..][..m + 1];
      assert caps[..k][1..] == caps[1..][..m] && caps[..k + 1][1..] == caps[1..][..m + 1];
    }
  }

  lemma SpoilerExactly(caps: seq<Capability>) returns (k: nat)
    requires Collect(NO_OFFER, caps).Refused?
    ensures k < |caps|
    ensures Collect(NO_OFFER, caps).error == ProtocolError(2, 0, []) <==> SpoiledBy(caps, k, true)
    ensures Collect(NO_OFFER, caps).error == ProtocolError(2, 2, []) <==> SpoiledBy(caps, k, false)
  {
    k := FirstSpoiler(NO_OFFER, caps);
    Accepted(Announced(0, 0, 0, caps[..k]));
    Accepted(Announced(0, 0, 0, caps[..k + 1]));
    assert caps[..k + 1] == caps[..k] + [caps[k]];
    assert caps[k] in caps[..k + 1];
    assert forall c :: c in caps[..k + 1] <==> c in caps[..k] || c == caps[k];
  }

  /** Why an OPEN is refused, in the order the reasons are looked for. */
  lemma RefusedExactly(o: Announced, cfg: Config.Config, p: Config.Peer)
    ensures var r := Outcome(o, cfg, p);
            && (!HoldAcceptable(o) ==> Fails(r, 6))
            && (HoldAcceptable(o) && !IdAcceptable(o, cfg, p) ==> Fails(r, 3))
            && (HoldAcceptable(o) && IdAcceptable(o, cfg, p) ==>
                  && (!CapabilitiesAcceptable(o) ==>
                        exists k, malformed ::
                          0 <= k < |o.caps| && SpoiledBy(o.caps, k, malformed) && Fails(r, if malformed then 0 else 2))
                  && (CapabilitiesAcceptable(o) && !IsThePeer(o, p) ==> Fails(r, 2))
                  && (CapabilitiesAcceptable(o) && IsThePeer(o, p) && !Common(o, p, false) && !Common(o, p, true) ==>
                        Fails(r, 7) && r.error.data == WantedFamilies(p)))
  {
    Accepted(o);
    if Collect(NO_OFFER, o.caps).Offered? {
      PeerExactly(o, p);
      if HoldAcceptable(o) && IdAcceptable(o, cfg, p) && IsThePeer(o, p) {
        WantedOctets(p);
      }
    } else {
      var k := SpoilerExactly(o.caps);
      RefusedCode(NO_OFFER, o.caps);
    }
  }

  lemma {:induction false} RefusedCode(o: Offer, caps: seq<Capability>)
    requires Collect(o, caps).Refused?
    ensures Collect(o, caps).error == ProtocolError(2, 0, []) || Collect(o, caps).error == ProtocolError(2, 2, [])
    decreases |caps|
  {
    var r := Take(o, caps[0]);
    if r.Offered? {
      RefusedCode(r.offer, caps[1..]);
    }
  }

  /** The families we want, as capabilities (section 5 of RFC 5492). */
  function WantedFamilies(p: Config.Peer): Bytes {
    EncodeCapabilities(Families(p.ipv4, false) + Families(p.ipv6, true))
  }

  lemma WantedOctets(p: Config.Peer)
    ensures WantedFamilies(p) == FamilyList(p)
  {
    EncodeCapabilitiesAppend(Families(p.ipv4, false), Families(p.ipv6, true));
    FamilyOctets(p.ipv4, false);
    FamilyOctets(p.ipv6, true);
  }

  // ---- On the wire ------------------------------------------------------------------------------------

  /** The body lays out what is announced, in some grouping and either form. */
  ghost predicate LaysOut(b: Bytes, o: Announced) {
    InRange(o) && exists groups, form ::
      FitsForm(groups, form) && Flatten(groups) == o.caps && EncodeOpen(o.oldAsn, o.hold, o.routerId, groups, form) == b
  }

  lemma LaidOutMeans(b: Bytes, o: Announced, cfg: Config.Config, p: Config.Peer)
    requires LaysOut(b, o)
    ensures ParseOpen(b, cfg, p) == Outcome(o, cfg, p)
  {
    var groups, form :| FitsForm(groups, form) && Flatten(groups) == o.caps
                        && EncodeOpen(o.oldAsn, o.hold, o.routerId, groups, form) == b;
    OpenMeans(o.oldAsn, o.hold, o.routerId, groups, form, cfg, p);
  }

  /** Every well-laid-out OPEN is agreed if and only if hold time, identifier and capabilities are acceptable,
      the speaker is the configured peer, and a family is common; then every parameter is as announced. */
  lemma OpenExactly(b: Bytes, o: Announced, cfg: Config.Config, p: Config.Peer)
    requires LaysOut(b, o)
    ensures ParseOpen(b, cfg, p).Agreed? <==> Agreeable(o, cfg, p)
    ensures ParseOpen(b, cfg, p).Agreed? ==>
              var n := ParseOpen(b, cfg, p).n;
              && n.routerId == o.routerId && n.hold == Smaller(o.hold, p.hold)
              && (n.asn4 <==> Asns(o.caps) != {}) && (n.internal <==> cfg.asn == p.remoteAsn)
              && (n.ipv4 <==> Common(o, p, false)) && (n.ipv6 <==> Common(o, p, true))
  {
    LaidOutMeans(b, o, cfg, p);
    AgreedExactly(o, cfg, p);
    if Outcome(o, cfg, p).Agreed? {
      AgreedTo(o, cfg, p);
    }
  }

  /** What is refused before anything is read. */
  lemma FrontRefused(b: Bytes, cfg: Config.Config, p: Config.Peer)
    ensures |b| < 10 ==> ParseOpen(b, cfg, p) == Failed(ProtocolError(2, 0, []))
    ensures |b| >= 10 && b[0] != 4 ==> ParseOpen(b, cfg, p) == Failed(ProtocolError(2, 1, [0, 4]))
  {
  }

  /** A parameter that holds no capabilities, after acceptable ones, is refused and returned. */
  lemma {:induction false} ForeignParameterRefused(o: Offer, groups: seq<seq<Capability>>, extended: bool,
                                                   kind: octet, data: Bytes, rest: Bytes)
    requires (forall g <- groups :: FitsParameter(g, extended)) && Collect(o, Flatten(groups)).Offered?
    requires kind != 2 && |data| < if extended then TWO16 else 256
    ensures var foreign := [kind] + (if extended then Be16(|data|) else [|data|]) + data;
            ReadParameters(o, EncodeParameters(groups, extended) + (foreign + rest), extended)
            == Refused(ProtocolError(2, 4, foreign))
    decreases |groups|
  {
    var foreign := [kind] + (if extended then Be16(|data|) else [|data|]) + data;
    if groups == [] {
      ForeignFirst(o, extended, kind, data, rest);
      EmptyUnit(foreign + rest);
    } else {
      var g, more := groups[0], EncodeParameters(groups[1..], extended);
      assert FitsParameter(g, extended);
      CollectAppend(o, g, Flatten(groups[1..]));
      ForeignParameterRefused(Collect(o, g).offer, groups[1..], extended, kind, data, rest);
      var caps := EncodeCapabilities(g);
      ParameterLayout(caps, more + (foreign + rest), extended);
      ReadEncodedCapabilities(o, g);
      Associative([2] + (if extended then Be16(|caps|) else [|caps|]) + caps, more, foreign + rest);
    }
  }

  lemma ForeignFirst(o: Offer, extended: bool, kind: octet, data: Bytes, rest: Bytes)
    requires kind != 2 && |data| < if extended then TWO16 else 256
    ensures var foreign := [kind] + (if extended then Be16(|data|) else [|data|]) + data;
            ReadParameters(o, foreign + rest, extended) == Refused(ProtocolError(2, 4, foreign))
  {
    var foreign := [kind] + (if extended then Be16(|data|) else [|data|]) + data;
    var b := foreign + rest;
    if extended {
      assert b[1..3] == Be16(|data|);
    }
    assert b[..|foreign|] == foreign;
  }

  // ---- Every agreed body is laid out well ----------------------------------------------------------------

  lemma {:induction false} CapabilitiesRead(o: Offer, b: Bytes) returns (caps: seq<Capability>)
    requires ReadCapabilities(o, b).Offered?
    ensures (forall c <- caps :: Packable(c)) && EncodeCapabilities(caps) == b
    decreases |b|
  {
    if b == [] {
      caps := [];
    } else {
      var c, end := FirstCapability(b), 2 + b[1] as int;
      var rest := CapabilitiesRead(Take(o, c).offer, b[end..]);
      caps := [c] + rest;
      assert caps[1..] == rest;
      assert b == [b[0], b[1]] + b[2..end] + b[end..];
    }
  }

  lemma ParameterOctets(b: Bytes, extended: bool)
    requires b != [] && HasParameter(b, extended) && b[0] == 2
    ensures var h, l := ParameterHeader(extended), ParameterLength(b, extended);
            && l < (if extended then TWO16 else 256)
            && b == [2] + (if extended then Be16(l) else [l]) + b[h..h + l] + b[h + l..]
  {
    if extended {
      assert Be16(U16(b[1..3])) == b[1..3];
    }
  }

  lemma {:induction false} ParametersRead(o: Offer, b: Bytes, extended: bool) returns (groups: seq<seq<Capability>>)
    requires ReadParameters(o, b, extended).Offered?
    ensures (forall g <- groups :: FitsParameter(g, extended)) && EncodeParameters(groups, extended) == b
    decreases |b|
  {
    if b == [] {
      groups := [];
    } else {
      var h := ParameterHeader(extended);
      var end := h + ParameterLength(b, extended);
      var g := CapabilitiesRead(o, b[h..end]);
      var rest := ParametersRead(ReadCapabilities(o, b[h..end]).offer, b[end..], extended);
      groups := [g] + rest;
      assert groups[1..] == rest;
      ParameterOctets(b, extended);
    }
  }

  lemma FormRead(b: Bytes) returns (params: Bytes, form: Form)
    requires |b| >= 10 && b[0] == 4 && Parameters(b).Some?
    ensures Parameters(b).value == (params, form.ExtendedForm?)
    ensures form.ExtendedForm? ==> form.legacyLength != 0
    ensures |params| < if form.ExtendedForm? then TWO16 else 256
    ensures var header := OpenHeader(U16(b[1..3]), U16(b[3..5]), U32(b[5..9]));
            b == header + (if form.Legacy? then [|params|] else [form.legacyLength, 255] + Be16(|params|)) + params
  {
    params := Parameters(b).value.0;
    form := if Extended(b) then ExtendedForm(b[9]) else Legacy;
    assert Be16(U16(b[1..3])) == b[1..3] && Be16(U16(b[3..5])) == b[3..5];
    HeaderId(b[5..9]);
    assert OpenHeader(U16(b[1..3]), U16(b[3..5]), U32(b[5..9])) == b[..9];
    if Extended(b) {
      assert Be16(U16(b[11..13])) == b[11..13];
      assert b == b[..9] + ([b[9], b[10]] + b[11..13]) + b[13..];
    } else {
      assert b == b[..9] + [b[9]] + b[10..];
    }
  }

  lemma HeaderId(b: Bytes)
    requires |b| == 4
    ensures Be32(U32(b)) == b
  {
    var h, l := U16(b[..2]), U16(b[2..4]);
    assert U32(b) / TWO16 == h && U32(b) % TWO16 == l;
    assert Be16(h) == b[..2] && Be16(l) == b[2..4];
  }

  /** Whatever octets are agreed to are the well-laid-out OPEN of some capability list; so nothing is agreed
      to but what the conditions above allow. */
  lemma AgreedIsLaidOut(b: Bytes, cfg: Config.Config, p: Config.Peer) returns (o: Announced)
    requires ParseOpen(b, cfg, p).Agreed?
    ensures LaysOut(b, o) && Agreeable(o, cfg, p)
  {
    var params, form := FormRead(b);
    var groups := ParametersRead(NO_OFFER, params, form.ExtendedForm?);
    o := Announced(U16(b[1..3]), U16(b[3..5]), U32(b[5..9]), Flatten(groups));
    assert FitsForm(groups, form);
    assert EncodeOpen(o.oldAsn, o.hold, o.routerId, groups, form) == b;
    assert LaysOut(b, o);
    OpenExactly(b, o, cfg, p);
  }

  // ---- Our own OPEN -----------------------------------------------------------------------------------------

  /** Our OPEN announces our AS in four octets, route refresh, and exactly the families configured. */
  lemma OwnOpenAnnounces(cfg: Config.Config, p: Config.Peer) returns (o: Announced)
    requires cfg.asn < TWO32 && cfg.routerId < TWO32 && p.hold < TWO16
    ensures LaysOut(OpenBody(cfg, p), o) && CapabilitiesAcceptable(o)
    ensures o.oldAsn == (if cfg.asn > 65535 then 23456 else cfg.asn) && o.hold == p.hold && o.routerId == cfg.routerId
    ensures Asns(o.caps) == {cfg.asn} && Capability(2, []) in o.caps
    ensures (AnyOffer(o.caps, false) <==> p.ipv4) && (AnyOffer(o.caps, true) <==> p.ipv6)
  {
    var caps := OwnCapabilities(cfg, p);
    o := Announced(Encoder.TwoOctetAsn(cfg.asn), p.hold, cfg.routerId, caps);
    OwnOpenLayout(cfg, p);
    var groups := [caps];
    assert groups[1..] == [] && Flatten(groups[1..]) == [];
    assert Flatten(groups) == caps;
    OwnOffer(cfg, p);
    Accepted(o);
    assert caps[1] in caps;
  }
}
