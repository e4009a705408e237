/** What an UPDATE of a session says, attribute by attribute, as its receiver reads it. */
module Announcement {
  import opened Base
  import opened Net
  import opened Protocol
  import opened Attributes
  import opened Values
  import opened Categories
  import opened Agreement
  import Config
  import Encoder
  import Nlri

  /** The list holds attributes of the type if and only if a value is given, and all of them are that value. */
  ghost predicate Says(attrs: seq<Attribute>, kind: octet, data: Option<Bytes>) {
    match data
    case None => forall a <- attrs :: a.kind != kind
    case Some(d) => (exists a <- attrs :: a.kind == kind) && (forall a <- attrs :: a.kind == kind ==> a.data == d)
  }

  ghost predicate SaysValue(attrs: seq<Attribute>, kind: octet, n: Negotiated, v: Option<Value>) {
    (v.Some? ==> Typed(v.value, kind, n)) && Says(attrs, kind, if v.Some? then Some(OctetsOf(v.value)) else None)
  }

  lemma SaysConcat(x: seq<Attribute>, y: seq<Attribute>, kind: octet, d: Option<Bytes>, e: Option<Bytes>)
    requires Says(x, kind, d) && Says(y, kind, e) && (d.None? || e.None?)
    ensures Says(x + y, kind, if d.Some? then d else e)
  {
    assert forall a :: a in x + y <==> a in x || a in y;
  }

  lemma SaysOne(a: Attribute, kind: octet)
    ensures Says([a], kind, if a.kind == kind then Some(a.data) else None)
  {
    assert a in [a];
  }

  lemma SaysNothing(kind: octet)
    ensures Says([], kind, None)
  {
  }

  // ---- The AS path -------------------------------------------------------------------------------

  const INCOMPLETE: octet := 2
  const AS_SEQUENCE: octet := 2
  const AS_TRANS: nat := 23456
  const PREFERENCE: nat := 100

  /** The one segment of a path, with its one AS number in octets. */
  function OnlyAsn(asn: Bytes): seq<Segment> {
    [Segment(AS_SEQUENCE, [asn])]
  }

  /** The octets are a number. */
  predicate Denotes16(b: Bytes, x: nat) {
    |b| == 2 && U16(b) == x
  }

  predicate Denotes32(b: Bytes, x: nat) {
    |b| == 4 && U32(b) == x
  }

  predicate Internal(cfg: Config.Config, p: Config.Peer) {
    cfg.asn == p.remoteAsn
  }

  /** Whether the own AS number must travel in AS4_PATH. */
  predicate NeedsAs4(cfg: Config.Config, p: Config.Peer, n: Negotiated) {
    !Internal(cfg, p) && !n.asn4 && cfg.asn > 65535
  }

  /** The path a peer should see: none inside the own AS, otherwise the own AS alone, in as many octets as
      were negotiated, or AS_TRANS where it does not fit. */
  predicate RightPath(v: Value, cfg: Config.Config, p: Config.Peer, n: Negotiated) {
    v.Path?
    && if Internal(cfg, p) then v.segments == []
       else
         && |v.segments| == 1 && v.segments[0].kind == AS_SEQUENCE && |v.segments[0].asns| == 1
         && var asn := v.segments[0].asns[0];
            if n.asn4 then Denotes32(asn, cfg.asn)
            else Denotes16(asn, if cfg.asn > 65535 then AS_TRANS else cfg.asn)
  }

  predicate RightAs4Path(v: Value, cfg: Config.Config) {
    && v.Path? && |v.segments| == 1 && v.segments[0].kind == AS_SEQUENCE && |v.segments[0].asns| == 1
    && Denotes32(v.segments[0].asns[0], cfg.asn)
  }

  /** The next hop a peer should see: the configured one, or else the session's own address. */
  predicate RightNextHop(octets: Bytes, configured: Option<Bytes>, local: Bytes) {
    octets == if configured.Some? then configured.value else local
  }

  lemma PathOctets(asn: Bytes)
    ensures EncodePath(OnlyAsn(asn)) == [2, 1] + asn
  {
    var s := OnlyAsn(asn);
    assert s[1..] == [] && s[0].asns[1..] == [] && Joined(s[0].asns) == asn;
    EmptyUnit([2, 1] + asn);
  }

  lemma PathSaid(cfg: Config.Config, p: Config.Peer, n: Negotiated) returns (v: Value)
    requires cfg.asn < TWO32
    ensures RightPath(v, cfg, p, n) && Typed(v, AS_PATH, n) && OctetsOf(v) == Encoder.AsPath(cfg, p, n)
  {
    if Internal(cfg, p) {
      v := Path([]);
    } else if n.asn4 {
      U32OfBe32(cfg.asn);
      PathOctets(Be32(cfg.asn));
      v := Path(OnlyAsn(Be32(cfg.asn)));
    } else {
      var asn := Be16(Encoder.TwoOctetAsn(cfg.asn));
      PathOctets(asn);
      v := Path(OnlyAsn(asn));
    }
  }

  lemma As4Said(cfg: Config.Config, n: Negotiated) returns (v: Value)
    requires cfg.asn < TWO32
    ensures RightAs4Path(v, cfg) && Typed(v, AS4_PATH, n) && OctetsOf(v) == [2, 1] + Be32(cfg.asn)
  {
    U32OfBe32(cfg.asn);
    PathOctets(Be32(cfg.asn));
    v := Path(OnlyAsn(Be32(cfg.asn)));
  }

  // ---- The common attributes ------------------------------------------------------------------------

  /** The data of an attribute every announcement carries, or of none, by type. */
  function CommonData(cfg: Config.Config, p: Config.Peer, n: Negotiated, kind: octet): Option<Bytes>
    requires cfg.asn < TWO32
  {
    if kind == ORIGIN then Some([2])
    else if kind == AS_PATH then Some(Encoder.AsPath(cfg, p, n))
    else if kind == AS4_PATH && NeedsAs4(cfg, p, n) then Some([2, 1] + Be32(cfg.asn))
    else if kind == LOCAL_PREF && Internal(cfg, p) then Some(Be32(100))
    else None
  }

  lemma CommonSays(cfg: Config.Config, p: Config.Peer, n: Negotiated, kind: octet)
    requires cfg.asn < TWO32
    ensures Says(Encoder.CommonAttributes(cfg, p, n), kind, CommonData(cfg, p, n, kind))
  {
    var origin, path := Encoder.Attr(0x40, 1, [2]), Encoder.Attr(0x40, 2, Encoder.AsPath(cfg, p, n));
    var as4, pref := Encoder.Attr(0xc0, 17, [2, 1] + Be32(cfg.asn)), Encoder.Attr(0x40, 5, Be32(100));
    var x := if NeedsAs4(cfg, p, n) then [as4] else [];
    var y := if Internal(cfg, p) then [pref] else [];
    SaysOne(origin, kind);
    SaysOne(path, kind);
    SaysOne(as4, kind);
    SaysOne(pref, kind);
    SaysNothing(kind);
    var first := if kind == 1 then Some([2]) else if kind == 2 then Some(path.data) else None;
    assert [origin, path] == [origin] + [path];
    SaysConcat([origin], [path], kind, if kind == 1 then Some([2]) else None,
               if kind == 2 then Some(path.data) else None);
    SaysConcat([origin, path], x, kind, first, if kind == 17 && x != [] then Some(as4.data) else None);
    SaysConcat([origin, path] + x, y, kind,
               if first.Some? then first else if kind == 17 && x != [] then Some(as4.data) else None,
               if kind == 5 && y != [] then Some(pref.data) else None);
    assert Encoder.CommonAttributes(cfg, p, n) == [origin, path] + x + y;
  }

  /** The attributes the receiver reads from an UPDATE. */
  function Read(cfg: Config.Config, p: Config.Peer, n: Negotiated, ps: seq<Prefix>, withdraw: bool): seq<Attribute>
    requires Encoder.CanEncode(cfg, p, ps, withdraw)
  {
    var body := Encoder.UpdateBody(cfg, p, n, ps, withdraw);
    SplitOfJoin(Encoder.UpdateFields(cfg, p, n, ps, withdraw));
    Parse(Split(body).attributes).0
  }

  lemma ReadIs(cfg: Config.Config, p: Config.Peer, n: Negotiated, ps: seq<Prefix>, withdraw: bool)
    requires Encoder.CanEncode(cfg, p, ps, withdraw)
    ensures Read(cfg, p, n, ps, withdraw) == Encoder.UpdateAttributes(cfg, p, n, ps, withdraw)
  {
    Encoder.AttributesFit(cfg, p, n, ps, withdraw);
    SplitOfJoin(Encoder.UpdateFields(cfg, p, n, ps, withdraw));
    ParseOfEncode(Encoder.UpdateAttributes(cfg, p, n, ps, withdraw));
  }

  /** The data of each attribute of an announcement that is not common to all. */
  function OwnData(cfg: Config.Config, p: Config.Peer, ps: seq<Prefix>, kind: octet): Option<Bytes>
    requires Encoder.CanEncode(cfg, p, ps, false)
  {
    if kind == MP_REACH_NLRI && ps[0].v6 then Some(Encoder.MpAttribute(p, ps, false).data)
    else if kind == NEXT_HOP && !ps[0].v6 then Some(Config.NextHop4(p).value)
    else None
  }

  function AllData(cfg: Config.Config, p: Config.Peer, n: Negotiated, ps: seq<Prefix>, kind: octet): Option<Bytes>
    requires Encoder.CanEncode(cfg, p, ps, false)
  {
    var own := OwnData(cfg, p, ps, kind);
    if own.Some? then own else CommonData(cfg, p, n, kind)
  }

  lemma AnnouncedData(cfg: Config.Config, p: Config.Peer, n: Negotiated, ps: seq<Prefix>, kind: octet)
    requires Encoder.CanEncode(cfg, p, ps, false)
    ensures Says(Read(cfg, p, n, ps, false), kind, AllData(cfg, p, n, ps, kind))
  {
    ReadIs(cfg, p, n, ps, false);
    CommonSays(cfg, p, n, kind);
    var common := Encoder.CommonAttributes(cfg, p, n);
    if ps[0].v6 {
      SaysOne(Encoder.MpAttribute(p, ps, false), kind);
      SaysConcat([Encoder.MpAttribute(p, ps, false)], common, kind,
                 OwnData(cfg, p, ps, kind), CommonData(cfg, p, n, kind));
    } else {
      var nh := Encoder.Attr(0x40, 3, Config.NextHop4(p).value);
      SaysOne(nh, kind);
      SaysConcat(common, [nh], kind, CommonData(cfg, p, n, kind), OwnData(cfg, p, ps, kind));
    }
  }

  // ---- What is announced -----------------------------------------------------------------------------

  /** ORIGIN is INCOMPLETE. */
  lemma OriginSaid(cfg: Config.Config, p: Config.Peer, n: Negotiated, ps: seq<Prefix>)
    requires Encoder.CanEncode(cfg, p, ps, false)
    ensures SaysValue(Read(cfg, p, n, ps, false), ORIGIN, n, Some(Origin(INCOMPLETE)))
  {
    AnnouncedData(cfg, p, n, ps, ORIGIN);
  }

  /** The path is empty inside the own AS, and otherwise names the own AS alone. */
  lemma PathIsRight(cfg: Config.Config, p: Config.Peer, n: Negotiated, ps: seq<Prefix>) returns (path: Value)
    requires Encoder.CanEncode(cfg, p, ps, false)
    ensures RightPath(path, cfg, p, n) && SaysValue(Read(cfg, p, n, ps, false), AS_PATH, n, Some(path))
  {
    AnnouncedData(cfg, p, n, ps, AS_PATH);
    path := PathSaid(cfg, p, n);
  }

  /** AS4_PATH is there exactly when AS_TRANS stands in for the own AS, and holds the own AS. */
  lemma As4PathIsRight(cfg: Config.Config, p: Config.Peer, n: Negotiated, ps: seq<Prefix>) returns (path: Value)
    requires Encoder.CanEncode(cfg, p, ps, false)
    ensures RightAs4Path(path, cfg)
    ensures SaysValue(Read(cfg, p, n, ps, false), AS4_PATH, n, if NeedsAs4(cfg, p, n) then Some(path) else None)
  {
    AnnouncedData(cfg, p, n, ps, AS4_PATH);
    path := As4Said(cfg, n);
  }

  /** LOCAL_PREF is 100 inside the own AS, and absent outside. */
  lemma PreferenceSaid(cfg: Config.Config, p: Config.Peer, n: Negotiated, ps: seq<Prefix>)
    requires Encoder.CanEncode(cfg, p, ps, false)
    ensures var preference := Number([0, 0, 0, PREFERENCE]);
            SaysValue(Read(cfg, p, n, ps, false), LOCAL_PREF, n, if Internal(cfg, p) then Some(preference) else None)
  {
    PreferenceData(cfg, p, n, ps);
    PreferenceOctets();
  }

  lemma PreferenceData(cfg: Config.Config, p: Config.Peer, n: Negotiated, ps: seq<Prefix>)
    requires Encoder.CanEncode(cfg, p, ps, false)
    ensures Says(Read(cfg, p, n, ps, false), LOCAL_PREF, if Internal(cfg, p) then Some(Be32(100)) else None)
  {
    assert AllData(cfg, p, n, ps, LOCAL_PREF) == if Internal(cfg, p) then Some(Be32(100)) else None;
    AnnouncedData(cfg, p, n, ps, LOCAL_PREF);
  }

  lemma PreferenceOctets()
    ensures Be32(100) == [0, 0, 0, PREFERENCE]
  {
  }

  /** There is nothing of any other type. */
  lemma NothingElse(cfg: Config.Config, p: Config.Peer, n: Negotiated, ps: seq<Prefix>, kind: octet)
    requires Encoder.CanEncode(cfg, p, ps, false)
    requires kind !in {ORIGIN, AS_PATH, NEXT_HOP, LOCAL_PREF, MP_REACH_NLRI, AS4_PATH}
    ensures Says(Read(cfg, p, n, ps, false), kind, None)
  {
    AnnouncedData(cfg, p, n, ps, kind);
  }

  /** The IPv4 next hop: the configured one or the session's own IPv4 address; IPv6 announcements carry none. */
  lemma NextHopSaid(cfg: Config.Config, p: Config.Peer, n: Negotiated, ps: seq<Prefix>) returns (nh: Bytes)
    requires Encoder.CanEncode(cfg, p, ps, false)
    ensures Says(Read(cfg, p, n, ps, false), NEXT_HOP, if ps[0].v6 then None else Some(nh))
    ensures !ps[0].v6 ==> |nh| == 4 && RightNextHop(nh, p.nextHop4, p.localAddress)
  {
    AnnouncedData(cfg, p, n, ps, NEXT_HOP);
    nh := if ps[0].v6 then [] else Config.NextHop4(p).value;
  }

  /** The IPv6 routes: unicast, with the configured global next hop or the session's own IPv6 address, then
      the link-local one if there is one, and the packed prefixes; IPv4 announcements carry none. */
  lemma RoutesSaid(cfg: Config.Config, p: Config.Peer, n: Negotiated, ps: seq<Prefix>)
    returns (r: Routes, nh: Bytes)
    requires Encoder.CanEncode(cfg, p, ps, false)
    ensures TypedRoutes(r, MP_REACH_NLRI)
    ensures Says(Read(cfg, p, n, ps, false), MP_REACH_NLRI, if ps[0].v6 then Some(RouteOctets(r)) else None)
    ensures ps[0].v6 ==>
              && RightNextHop(nh, p.nextHop6, p.localAddress)
              && r == Reach(2, 1, nh + (if p.linkLocal.Some? then p.linkLocal.value else []), 0, Nlri.Encode(ps))
  {
    RoutesData(cfg, p, n, ps);
    if ps[0].v6 {
      nh := Config.NextHop6(p).value;
      r := ReachLayout(p, nh, ps);
    } else {
      nh, r := [], Reach(0, 0, [], 0, []);
    }
  }

  lemma RoutesData(cfg: Config.Config, p: Config.Peer, n: Negotiated, ps: seq<Prefix>)
    requires Encoder.CanEncode(cfg, p, ps, false)
    ensures Says(Read(cfg, p, n, ps, false), MP_REACH_NLRI,
                 if ps[0].v6 then Some(Encoder.MpAttribute(p, ps, false).data) else None)
  {
    assert AllData(cfg, p, n, ps, MP_REACH_NLRI)
           == if ps[0].v6 then Some(Encoder.MpAttribute(p, ps, false).data) else None;
    AnnouncedData(cfg, p, n, ps, MP_REACH_NLRI);
  }

  lemma ReachLayout(p: Config.Peer, nh: Bytes, ps: seq<Prefix>) returns (r: Routes)
    requires Config.TypedPeer(p) && Encoder.HasNextHop(p, true) && Encoder.SameFamily(ps, true) && |ps| <= 200
    requires nh == Config.NextHop6(p).value
    ensures r == Reach(2, 1, nh + (if p.linkLocal.Some? then p.linkLocal.value else []), 0, Nlri.Encode(ps))
    ensures TypedRoutes(r, MP_REACH_NLRI) && Encoder.MpAttribute(p, ps, false).data == RouteOctets(r)
  {
    var hops := nh + (if p.linkLocal.Some? then p.linkLocal.value else []);
    r := Reach(2, 1, hops, 0, Nlri.Encode(ps));
    assert Be16(2) == [0, 2];
    assert Encoder.MpHeader(p, false) == Be16(2) + [1, |hops|] + hops + [0];
  }

  lemma UnreachLayout(p: Config.Peer, ps: seq<Prefix>)
    requires Config.TypedPeer(p) && Encoder.SameFamily(ps, true) && |ps| <= 200
    ensures Encoder.MpAttribute(p, ps, true).data == RouteOctets(Unreach(2, 1, Nlri.Encode(ps)))
    ensures Encoder.MpAttribute(p, ps, true).kind == MP_UNREACH_NLRI
  {
    UnreachOctets(Nlri.Encode(ps));
  }

  lemma UnreachOctets(field: Bytes)
    ensures RouteOctets(Unreach(2, 1, field)) == [0, 2, 1] + field
  {
    assert Be16(2) + [1] == [0, 2, 1];
  }

  /** A withdrawal says nothing but which IPv6 routes are gone. */
  lemma WithdrawalSays(cfg: Config.Config, p: Config.Peer, n: Negotiated, ps: seq<Prefix>, kind: octet)
    requires Encoder.CanEncode(cfg, p, ps, true)
    ensures Says(Read(cfg, p, n, ps, true), kind,
                 if kind == MP_UNREACH_NLRI && ps[0].v6
                 then Some(RouteOctets(Unreach(2, 1, Nlri.Encode(ps)))) else None)
  {
    ReadIs(cfg, p, n, ps, true);
    if ps[0].v6 {
      SaysOne(Encoder.MpAttribute(p, ps, true), kind);
      UnreachLayout(p, ps);
    } else {
      SaysNothing(kind);
    }
  }
}
