/** OPEN: capabilities, their two encodings (RFC 5492 and RFC 9072) and the parser. */
module Open {
  import opened Base
  import opened Protocol
  import Config
  import Encoder

  datatype Capability = Capability(code: octet, data: Bytes)

  /** What the capabilities read so far say about the peer. */
  datatype Offer = Offer(as4: Option<nat>, mp: bool, v4: bool, v6: bool)

  datatype OfferResult = Offered(offer: Offer) | Refused(error: ProtocolError)

  const NO_OFFER: Offer := Offer(None, false, false, false)

  const MALFORMED: OfferResult := Refused(ProtocolError(2, 0, []))

  function Take(o: Offer, c: Capability): OfferResult {
    match c.code
    case 1 =>
      if |c.data| != 4 then MALFORMED
      else
        var unicast := c.data[3] == 1;
        Offered(o.(mp := true, v4 := o.v4 || (unicast && U16(c.data) == 1),
                   v6 := o.v6 || (unicast && U16(c.data) == 2)))
    case 2 => if c.data != [] then MALFORMED else Offered(o)
    case 65 =>
      if |c.data| != 4 then MALFORMED
      else if o.as4.Some? && o.as4.value != U32(c.data) then Refused(ProtocolError(2, 2, []))
      else Offered(o.(as4 := Some(U32(c.data))))
    case _ => Offered(o)
  }

  /** The meaning of a capability list: every capability in turn, the first bad one deciding. */
  function Collect(o: Offer, caps: seq<Capability>): OfferResult
    decreases |caps|
  {
    if caps == [] then Offered(o)
    else
      var r := Take(o, caps[0]);
      if r.Refused? then r else Collect(r.offer, caps[1..])
  }

  // ---- Reading octets ---------------------------------------------------------------

  predicate HasCapability(b: Bytes) {
    |b| >= 2 && b[1] as int + 2 <= |b|
  }

  function FirstCapability(b: Bytes): Capability
    requires HasCapability(b)
  {
    Capability(b[0], b[2..2 + b[1] as int])
  }

  function ReadCapabilities(o: Offer, b: Bytes): OfferResult
    decreases |b|
  {
    if b == [] then Offered(o)
    else if !HasCapability(b) then MALFORMED
    else
      var r := Take(o, FirstCapability(b));
      if r.Refused? then r else ReadCapabilities(r.offer, b[2 + b[1] as int..])
  }

  /** Octets before the value of an optional parameter: two, or three in extended form. */
  function ParameterHeader(extended: bool): nat {
    if extended then 3 else 2
  }

  function ParameterLength(b: Bytes, extended: bool): nat
    requires |b| >= ParameterHeader(extended)
  {
    if extended then U16(b[1..3]) else b[1]
  }

  predicate HasParameter(b: Bytes, extended: bool) {
    |b| >= ParameterHeader(extended) && ParameterHeader(extended) + ParameterLength(b, extended) <= |b|
  }

  function ReadParameters(o: Offer, b: Bytes, extended: bool): OfferResult
    decreases |b|
  {
    if b == [] then Offered(o)
    else if !HasParameter(b, extended) then MALFORMED
    else
      var h := ParameterHeader(extended);
      var end := h + ParameterLength(b, extended);
      if b[0] != 2 then Refused(ProtocolError(2, 4, b[..end]))
      else
        var r := ReadCapabilities(o, b[h..end]);
        if r.Refused? then r else ReadParameters(r.offer, b[end..], extended)
  }

  // ---- The whole message ---------------------------------------------------------------

  datatype OpenResult = Agreed(n: Negotiated) | Failed(error: ProtocolError)

  function FamilyCapability(v6: bool): Capability {
    Capability(1, [0, if v6 then 2 else 1, 0, 1])
  }

  function FamilyList(p: Config.Peer): Bytes {
    (if p.ipv4 then [1, 4, 0, 1, 0, 1] else []) + (if p.ipv6 then [1, 4, 0, 2, 0, 1] else [])
  }

  /** The checks and the negotiation that follow the parameters. */
  function Negotiate(oldAsn: nat, hold: nat, routerId: nat, offer: Offer, cfg: Config.Config, p: Config.Peer)
    : (r: OpenResult)
    ensures r.Agreed? ==> (r.n.ipv4 ==> p.ipv4) && (r.n.ipv6 ==> p.ipv6) && (r.n.ipv4 || r.n.ipv6)
  {
    if (if offer.as4.Some? then offer.as4.value else oldAsn) != p.remoteAsn then Failed(ProtocolError(2, 2, []))
    else if oldAsn != Encoder.TwoOctetAsn(p.remoteAsn) then Failed(ProtocolError(2, 2, []))
    else
      var n := Negotiated(routerId, if hold < p.hold then hold else p.hold, offer.as4.Some?,
                          cfg.asn == p.remoteAsn, p.ipv4 && (offer.v4 || !offer.mp), p.ipv6 && offer.v6);
      if !n.ipv4 && !n.ipv6 then Failed(ProtocolError(2, 7, FamilyList(p))) else Agreed(n)
  }

  predicate Extended(b: Bytes)
    requires |b| >= 10
  {
    b[9] != 0 && |b| > 10 && b[10] == 255
  }

  /** Parameters and how to read them, when the outer lengths agree with the message. */
  function Parameters(b: Bytes): Option<(Bytes, bool)>
    requires |b| >= 10
  {
    if Extended(b) then
      if |b| >= 13 && U16(b[11..13]) + 13 == |b| then Some((b[13..], true)) else None
    else if b[9] as int + 10 == |b| then Some((b[10..], false))
    else None
  }

  function ParseOpen(b: Bytes, cfg: Config.Config, p: Config.Peer): OpenResult {
    if |b| < 10 then Failed(ProtocolError(2, 0, []))
    else if b[0] != 4 then Failed(ProtocolError(2, 1, [0, 4]))
    else
      var hold, routerId := U16(b[3..5]), U32(b[5..9]);
      if !(hold == 0 || hold >= 3) then Failed(ProtocolError(2, 6, []))
      else if !Config.ValidRouterId(routerId) || (cfg.asn == p.remoteAsn && routerId == cfg.routerId)
        then Failed(ProtocolError(2, 3, []))
      else
        var params := Parameters(b);
        if params.None? then Failed(ProtocolError(2, 0, []))
        else
          var r := ReadParameters(NO_OFFER, params.value.0, params.value.1);
          if r.Refused? then Failed(r.error) else Negotiate(U16(b[1..3]), hold, routerId, r.offer, cfg, p)
  }

  // ---- The program's loops ----------------------------------------------------------------

  method WalkCapabilities(start: Offer, field: Bytes) returns (r: OfferResult)
    ensures r == ReadCapabilities(start, field)
  {
    var caps := field;
    var as4, mp, v4, v6 := start.as4, start.mp, start.v4, start.v6;
    while caps != []
      invariant ReadCapabilities(start, field) == ReadCapabilities(Offer(as4, mp, v4, v6), caps)
      decreases |caps|
    {
      if !(|caps| >= 2 && caps[1] as int + 2 <= |caps|) {
        return MALFORMED;
      }
      var data := caps[2..2 + caps[1] as int];
      if caps[0] == 1 {
        if |data| != 4 {
          return MALFORMED;
        }
        mp := true;
        if data[3] == 1 {
          v4 := v4 || U16(data) == 1;
          v6 := v6 || U16(data) == 2;
        }
      } else if caps[0] == 2 {
        if data != [] {
          return MALFORMED;
        }
      } else if caps[0] == 65 {
        if |data| != 4 {
          return MALFORMED;
        }
        var value := U32(data);
        if as4.Some? && as4.value != value {
          return Refused(ProtocolError(2, 2, []));
        }
        as4 := Some(value);
      }
      caps := caps[2 + caps[1] as int..];
    }
    return Offered(Offer(as4, mp, v4, v6));
  }

  method WalkParameters(field: Bytes, extended: bool) returns (r: OfferResult)
    ensures r == ReadParameters(NO_OFFER, field, extended)
  {
    var params := field;
    var h := if extended then 3 else 2;
    var offer := NO_OFFER;
    while params != []
      invariant ReadParameters(NO_OFFER, field, extended) == ReadParameters(offer, params, extended)
      decreases |params|
    {
      if |params| < h {
        return MALFORMED;
      }
      var length := if extended then U16(params[1..3]) else params[1] as int;
      var end := h + length;
      if end > |params| {
        return MALFORMED;
      }
      if params[0] != 2 {
        return Refused(ProtocolError(2, 4, params[..end]));
      }
      var inner := WalkCapabilities(offer, params[h..end]);
      if inner.Refused? {
        return inner;
      }
      offer := inner.offer;
      params := params[end..];
    }
    return Offered(offer);
  }

  method ReceiveOpen(b: Bytes, cfg: Config.Config, p: Config.Peer) returns (r: OpenResult)
    ensures r == ParseOpen(b, cfg, p)
  {
    if |b| < 10 {
      return Failed(ProtocolError(2, 0, []));
    }
    if b[0] != 4 {
      return Failed(ProtocolError(2, 1, [0, 4]));
    }
    var oldAsn := U16(b[1..3]);
    var hold := U16(b[3..5]);
    if !(hold == 0 || hold >= 3) {
      return Failed(ProtocolError(2, 6, []));
    }
    var routerId := U32(b[5..9]);
    if !(Config.ValidRouterId(routerId) && (cfg.asn != p.remoteAsn || routerId != cfg.routerId)) {
      return Failed(ProtocolError(2, 3, []));
    }
    var params := Parameters(b);
    if params.None? {
      return Failed(ProtocolError(2, 0, []));
    }
    var offer := WalkParameters(params.value.0, params.value.1);
    if offer.Refused? {
      return Failed(offer.error);
    }
    return Negotiate(oldAsn, hold, routerId, offer.offer, cfg, p);
  }

  // ---- The program's own OPEN -----------------------------------------------------------

  function OwnCapabilities(cfg: Config.Config, p: Config.Peer): seq<Capability>
    requires cfg.asn < TWO32
  {
    [Capability(65, Be32(cfg.asn)), Capability(2, [])]
    + (if p.ipv4 then [FamilyCapability(false)] else [])
    + (if p.ipv6 then [FamilyCapability(true)] else [])
  }

  function OpenBody(cfg: Config.Config, p: Config.Peer): (b: Bytes)
    requires cfg.asn < TWO32 && cfg.routerId < TWO32 && p.hold < TWO16
    ensures 29 <= |b| + 19 <= MAX_MESSAGE
  {
    var caps := [65, 4] + Be32(cfg.asn) + [2, 0] + FamilyList(p);
    [4] + Be16(Encoder.TwoOctetAsn(cfg.asn)) + Be16(p.hold) + Be32(cfg.routerId)
    + [|caps| + 2, 2, |caps|] + caps
  }
}
