/** Received attributes by category: which flags each type may carry, what follows from its value and its
    absence, and the whole verdict on an UPDATE in those terms. */
module Categories {
  import opened Base
  import opened Net
  import opened Protocol
  import opened Attributes
  import opened Values
  import Nlri

  const ORIGIN: octet := 1
  const AS_PATH: octet := 2
  const NEXT_HOP: octet := 3
  const MULTI_EXIT_DISC: octet := 4
  const LOCAL_PREF: octet := 5
  const ATOMIC_AGGREGATE: octet := 6
  const AGGREGATOR: octet := 7
  const COMMUNITIES: octet := 8
  const ORIGINATOR_ID: octet := 9
  const CLUSTER_LIST: octet := 10
  const MP_REACH_NLRI: octet := 14
  const MP_UNREACH_NLRI: octet := 15
  const EXTENDED_COMMUNITIES: octet := 16
  const AS4_PATH: octet := 17
  const AS4_AGGREGATOR: octet := 18
  const LARGE_COMMUNITIES: octet := 32

  /** The categories of section 5 of RFC 4271. */
  datatype Category = WellKnown | OptionalNonTransitive | OptionalTransitive | Unrecognised

  function CategoryOf(kind: octet): Category {
    if kind == ORIGIN || kind == AS_PATH || kind == NEXT_HOP || kind == LOCAL_PREF || kind == ATOMIC_AGGREGATE
    then WellKnown
    else if kind == MULTI_EXIT_DISC || kind == ORIGINATOR_ID || kind == CLUSTER_LIST
            || kind == MP_REACH_NLRI || kind == MP_UNREACH_NLRI
    then OptionalNonTransitive
    else if kind == AGGREGATOR || kind == COMMUNITIES || kind == EXTENDED_COMMUNITIES || kind == AS4_PATH
            || kind == AS4_AGGREGATOR || kind == LARGE_COMMUNITIES
    then OptionalTransitive
    else Unrecognised
  }

  /** The flag octets of a category: optional and transitive as it says, and partial only when both. The
      extended-length and unused bits are free. */
  predicate Allowed(c: Category, flags: octet) {
    match c
    case WellKnown => 0x40 <= flags < 0x60
    case OptionalNonTransitive => 0x80 <= flags < 0xa0
    case OptionalTransitive => 0xc0 <= flags
    case Unrecognised => true
  }

  lemma FlagsExactly(a: Attribute)
    ensures FlagsOk(a) <==> Allowed(CategoryOf(a.kind), a.flags)
  {
  }

  /** Attributes that mean nothing in this session: AS4 ones between four-octet speakers (section 6 of
      RFC 6793), iBGP ones from outside. */
  predicate Meaningless(kind: octet, n: Negotiated) {
    || (n.asn4 && (kind == AS4_PATH || kind == AS4_AGGREGATOR))
    || (!n.internal && (kind == LOCAL_PREF || kind == ORIGINATOR_ID || kind == CLUSTER_LIST))
  }

  // ---- Multiprotocol attributes ----------------------------------------------------------------

  /** What attributes 14 and 15 stand for; `field` holds the packed prefixes. */
  datatype Routes =
    | Reach(afi: nat, safi: octet, nextHop: Bytes, reserved: octet, field: Bytes)
    | Unreach(afi: nat, safi: octet, field: Bytes)

  predicate Unicast(r: Routes) {
    r.safi == 1 && (r.afi == 1 || r.afi == 2)
  }

  /** The structure of such an attribute; unicast families have next hops of their own sizes. */
  predicate TypedRoutes(r: Routes, kind: octet) {
    && r.afi < TWO16
    && (kind == MP_REACH_NLRI <==> r.Reach?)
    && (r.Reach? ==> |r.nextHop| < 256
                     && (Unicast(r) ==> |r.nextHop| == (if r.afi == 1 then 4 else 16)
                                        || (r.afi == 2 && |r.nextHop| == 32)))
  }

  function RouteOctets(r: Routes): Bytes
    requires r.afi < TWO16 && (r.Reach? ==> |r.nextHop| < 256)
  {
    match r
    case Reach(afi, safi, nextHop, reserved, field) =>
      Be16(afi) + [safi, |nextHop|] + nextHop + [reserved] + field
    case Unreach(afi, safi, field) => Be16(afi) + [safi] + field
  }

  /** The decoder gets through the packed prefixes, when it knows the family. */
  predicate Decodable(r: Routes) {
    Unicast(r) ==> Nlri.WireSize(Nlri.Decode(r.field, r.afi == 2)) == |r.field|
  }

  ghost predicate StandsFor(a: Attribute, r: Routes) {
    TypedRoutes(r, a.kind) && RouteOctets(r) == a.data
  }

  function RoutesOf(a: Attribute): Routes
    requires |a.data| >= 3 && (a.kind == 14 ==> NextHopFramed(a.data))
  {
    if a.kind == 14 then
      var l := a.data[3] as int;
      Reach(U16(a.data), a.data[2], a.data[4..4 + l], a.data[4 + l], a.data[5 + l..])
    else Unreach(U16(a.data), a.data[2], a.data[3..])
  }

  lemma RoutesOfIs(a: Attribute, r: Routes)
    requires Multiprotocol(a.kind) && r.afi < TWO16 && (a.kind == MP_REACH_NLRI <==> r.Reach?)
    requires (r.Reach? ==> |r.nextHop| < 256) && RouteOctets(r) == a.data
    ensures |a.data| >= 3 && (a.kind == 14 ==> NextHopFramed(a.data)) && RoutesOf(a) == r
  {
    var d := a.data;
    assert d[..2] == Be16(r.afi) && d[0] == Be16(r.afi)[0] && d[1] == Be16(r.afi)[1];
    if r.Reach? {
      var l := |r.nextHop|;
      assert d[3] == l && d[4..4 + l] == r.nextHop && d[4 + l] == r.reserved && d[5 + l..] == r.field;
    } else {
      assert d[3..] == r.field;
    }
  }

  lemma OctetsOfRoutes(a: Attribute)
    requires Multiprotocol(a.kind) && |a.data| >= 3 && (a.kind == 14 ==> NextHopFramed(a.data))
    ensures var r := RoutesOf(a); (r.Reach? ==> |r.nextHop| < 256) && RouteOctets(r) == a.data
  {
    var d := a.data;
    assert Be16(U16(d)) == d[..2];
    if a.kind == 14 {
      var l := d[3] as int;
      assert d == d[..2] + [d[2], d[3]] + d[4..4 + l] + [d[4 + l]] + d[5 + l..];
    } else {
      assert d == d[..2] + [d[2]] + d[3..];
    }
  }

  /** A multiprotocol attribute ends the session exactly when its flags or structure are wrong (subcode 9),
      or its prefixes cannot all be decoded (subcode 10). */
  lemma MultiprotocolExactly(a: Attribute)
    requires Multiprotocol(a.kind)
    ensures MpError(a) == Some(ProtocolError(3, 9, []))
            <==> !Allowed(OptionalNonTransitive, a.flags) || !exists r :: StandsFor(a, r)
    ensures MpError(a) == Some(ProtocolError(3, 10, []))
            <==> Allowed(OptionalNonTransitive, a.flags) && exists r :: StandsFor(a, r) && !Decodable(r)
    ensures MpError(a).None?
            <==> Allowed(OptionalNonTransitive, a.flags) && exists r :: StandsFor(a, r) && Decodable(r)
  {
    FlagsExactly(a);
    forall r | StandsFor(a, r)
      ensures |a.data| >= 3 && (a.kind == 14 ==> NextHopFramed(a.data)) && RoutesOf(a) == r
    {
      RoutesOfIs(a, r);
    }
    if |a.data| >= 3 && (a.kind == 14 ==> NextHopFramed(a.data)) {
      StructureExactly(a);
    }
  }

  lemma StructureExactly(a: Attribute)
    requires Multiprotocol(a.kind) && |a.data| >= 3 && (a.kind == 14 ==> NextHopFramed(a.data))
    ensures StandsFor(a, RoutesOf(a)) <==> (a.kind == 14 ==> NextHopSizeOk(a.data))
    ensures Unicast(RoutesOf(a)) <==> Supported(a.data)
    ensures Decodable(RoutesOf(a)) <==> (Supported(a.data) ==> Nlri.Fits(MpNlri(a), AddressBits(a.data)))
  {
    OctetsOfRoutes(a);
    Nlri.FitsMeansFullyDecoded(MpNlri(a), U16(a.data) == 2);
  }

  // ---- One attribute -------------------------------------------------------------------------------

  /** An attribute whose flags suit its category and whose octets stand for a value of its type. */
  ghost predicate Sound(a: Attribute, n: Negotiated) {
    Allowed(CategoryOf(a.kind), a.flags)
    && if Multiprotocol(a.kind) then exists r :: StandsFor(a, r) && Decodable(r) else Denotes(a, n)
  }

  /** Malformed attributes that are dropped, the rest of the UPDATE being kept (section 7 of RFC 7606). */
  predicate Droppable(kind: octet) {
    kind == ATOMIC_AGGREGATE || kind == AGGREGATOR || kind == AS4_PATH || kind == AS4_AGGREGATOR
  }

  /** Type by type: what ends the session. */
  lemma FatalExactly(a: Attribute, n: Negotiated)
    ensures Fatal(a, n).Some?
            <==> !Meaningless(a.kind, n)
                 && if Multiprotocol(a.kind) then !Sound(a, n)
                    else CategoryOf(a.kind) == Unrecognised && a.flags < 0x80
    ensures Fatal(a, n).Some? && !Multiprotocol(a.kind) ==>
              Fatal(a, n).value.code == 3 && Fatal(a, n).value.subcode == 2
              && (Encodable(a) ==> Fatal(a, n).value.data == EncodeOne(a))
  {
    if Multiprotocol(a.kind) {
      MultiprotocolExactly(a);
    }
  }

  /** Type by type: the action for an attribute that does not. It is Valid if and only if it is sound and
      means something in the session. */
  lemma SeverityExactly(a: Attribute, n: Negotiated)
    requires Fatal(a, n).None?
    ensures Severity(a, n) == Valid <==> !Meaningless(a.kind, n) && Sound(a, n)
    ensures Severity(a, n) == AttributeDiscard
            <==> Meaningless(a.kind, n) || (!Sound(a, n) && Droppable(a.kind))
    ensures Severity(a, n) == TreatAsWithdraw
            <==> !Meaningless(a.kind, n) && !Sound(a, n) && !Droppable(a.kind)
  {
    FlagsExactly(a);
    ValueExactly(a, n);
    FatalExactly(a, n);
  }
}
