/** Netlink octets: datagrams, route records, change notifications and dump replies. */
module Netlink {
  import opened Base
  import opened Net

  // ---- Datagrams and messages -----------------------------------------------------------

  const HEADER: nat := 16

  /** `flags` is the low octet of the flag word, the only one the program looks at. */
  datatype Message = Message(kind: nat, flags: octet, seqno: nat, payload: Bytes)

  function Align(n: nat): (a: nat)
    ensures n <= a <= n + 3 && a % 4 == 0
    ensures n % 4 == 0 ==> a == n
  {
    (n + 3) / 4 * 4
  }

  predicate HasMessage(b: Bytes) {
    |b| >= HEADER && HEADER <= Le32(b) <= |b|
  }

  function FirstMessage(b: Bytes): Message
    requires HasMessage(b)
  {
    Message(Le16(b[4..]), b[6], Le32(b[8..]), b[HEADER..Le32(b)])
  }

  /** The messages before the first framing error, and whether there was none. */
  function ParseMessages(b: Bytes): (seq<Message>, bool) {
    if b == [] then ([], true)
    else if !HasMessage(b) then ([], false)
    else
      var len := Le32(b);
      if len == |b| then ([FirstMessage(b)], true)
      else if Align(len) > |b| then ([FirstMessage(b)], false)
      else
        var rest := ParseMessages(b[Align(len)..]);
        ([FirstMessage(b)] + rest.0, rest.1)
  }

  /** The program's walk over a datagram. */
  method WalkMessages(datagram: Bytes) returns (msgs: seq<Message>, ok: bool)
    ensures (msgs, ok) == ParseMessages(datagram)
  {
    var bytes := datagram;
    msgs := [];
    EmptyUnit(ParseMessages(datagram).0);
    while bytes != []
      invariant ParseMessages(datagram) == (msgs + ParseMessages(bytes).0, ParseMessages(bytes).1)
      decreases |bytes|
    {
      if !HasMessage(bytes) {
        EmptyUnit(msgs);
        return msgs, false;
      }
      var len := Le32(bytes);
      ghost var before, tail := msgs, ParseMessages(bytes).0;
      msgs := msgs + [FirstMessage(bytes)];
      if len == |bytes| {
        return msgs, true;
      }
      if Align(len) > |bytes| {
        return msgs, false;
      }
      bytes := bytes[Align(len)..];
      assert tail == [msgs[|msgs| - 1]] + ParseMessages(bytes).0;
      Associative(before, [msgs[|msgs| - 1]], ParseMessages(bytes).0);
    }
    EmptyUnit(msgs);
    return msgs, true;
  }

  predicate Encodable(m: Message) {
    m.kind < TWO16 && m.seqno < TWO32 && HEADER + |m.payload| < TWO32
  }

  function EncodeMessage(m: Message): (b: Bytes)
    requires Encodable(m)
    ensures |b| == HEADER + |m.payload|
  {
    ToLe32(HEADER + |m.payload|) + ToLe16(m.kind) + [m.flags, 0] + ToLe32(m.seqno) + [0, 0, 0, 0] + m.payload
  }

  function Padding(n: nat): Bytes {
    Zeros(Align(n) - n)
  }

  /** Messages packed on four-octet boundaries; the last one may be left unpadded. */
  function Pack(msgs: seq<Message>, padLast: bool): (d: Bytes)
    requires forall m <- msgs :: Encodable(m)
    ensures msgs == [] <==> d == []
  {
    if msgs == [] then []
    else
      var b := EncodeMessage(msgs[0]);
      b + (if |msgs| == 1 && !padLast then [] else Padding(|b|)) + Pack(msgs[1..], padLast)
  }

  lemma Le32Front(b: Bytes, front: Bytes)
    requires |front| == 4 <= |b| && b[..4] == front
    ensures Le32(b) == Le32(front)
  {
    assert b[2..4] == front[2..4] && b[..2] == front[..2];
  }

  lemma FirstOfEncoded(m: Message, rest: Bytes)
    requires Encodable(m)
    ensures var b := EncodeMessage(m) + rest;
            HasMessage(b) && Le32(b) == HEADER + |m.payload| && FirstMessage(b) == m
  {
    var b := EncodeMessage(m) + rest;
    Le32OfToLe32(HEADER + |m.payload|);
    Le32OfToLe32(m.seqno);
    Le32Front(b, ToLe32(HEADER + |m.payload|));
    Le32Front(b[8..], ToLe32(m.seqno));
    assert b[4..][..2] == ToLe16(m.kind);
    assert b[6] == m.flags;
    assert b[HEADER..HEADER + |m.payload|] == m.payload;
  }

  /** Whatever the padding of the last message, a packed datagram yields its messages. */
  lemma {:induction false} ParseOfPack(msgs: seq<Message>, padLast: bool)
    requires forall m <- msgs :: Encodable(m)
    ensures ParseMessages(Pack(msgs, padLast)) == (msgs, true)
  {
    if msgs != [] {
      ParseOfPack(msgs[1..], padLast);
      assert [msgs[0]] + msgs[1..] == msgs;
      FirstOfPack(msgs[0], msgs[1..] == [] && !padLast, Pack(msgs[1..], padLast));
    }
  }

  lemma FirstOfPack(m: Message, bare: bool, rest: Bytes)
    requires Encodable(m) && (bare ==> rest == [])
    ensures var b := EncodeMessage(m);
            ParseMessages(b + (if bare then [] else Padding(|b|)) + rest)
            == ([m] + ParseMessages(rest).0, ParseMessages(rest).1)
  {
    var b := EncodeMessage(m);
    var pad := if bare then [] else Padding(|b|);
    FirstOfEncoded(m, pad + rest);
    Associative(b, pad, rest);
    var whole := b + pad + rest;
    if |whole| == |b| {
      EmptyUnit([m]);
    } else {
      assert whole[Align(|b|)..] == rest;
    }
  }

  // ---- Route records --------------------------------------------------------------------------

  datatype RouteResult = Export(prefix: Prefix) | Excluded | Malformed

  /** Destination and table, as the attributes read so far give them. */
  datatype Found = Found(table: nat, dst: Option<Bytes>)

  datatype RouteAttribute = RouteAttribute(kind: nat, data: Bytes)

  /** One attribute: a later destination or table replaces an earlier one. */
  function TakeAttribute(f: Found, a: RouteAttribute, width: nat): Option<Found> {
    if a.kind == 1 then (if |a.data| == width then Some(f.(dst := Some(a.data))) else None)
    else if a.kind == 15 then (if |a.data| == 4 then Some(f.(table := Le32(a.data))) else None)
    else Some(f)
  }

  predicate HasRouteAttribute(b: Bytes) {
    |b| >= 4 && 4 <= Le16(b) <= |b|
  }

  function FirstRouteAttribute(b: Bytes): RouteAttribute
    requires HasRouteAttribute(b)
  {
    RouteAttribute(Le16(b[2..]) % 16384, b[4..Le16(b)])
  }

  function ReadAttributes(f: Found, b: Bytes, width: nat): Option<Found>
    decreases |b|
  {
    if b == [] then Some(f)
    else if !HasRouteAttribute(b) then None
    else
      var n := Le16(b);
      var r := TakeAttribute(f, FirstRouteAttribute(b), width);
      if r.None? || n == |b| then r
      else if Align(n) > |b| then None
      else ReadAttributes(r.value, b[Align(n)..], width)
  }

  /** Ordinary unicast, not source-specific, not a cached clone. */
  predicate Ordinary(payload: Bytes)
    requires |payload| >= 12
  {
    payload[7] == 1 && payload[2] == 0 && payload[9] / 2 % 2 == 0
  }

  /** The prefix a route record exports, from a selected table. */
  function Route(payload: Bytes, tables: seq<nat>): (r: RouteResult)
    ensures r.Export? ==> Truncated(r.prefix)
  {
    if |payload| < 12 then Malformed
    else if payload[0] != 2 && payload[0] != 10 then Excluded
    else if !Ordinary(payload) then Excluded
    else
      var v6 := payload[0] == 10;
      if payload[1] as int > 8 * Width(v6) then Malformed
      else
        var f := ReadAttributes(Found(payload[4], None), payload[12..], Width(v6));
        if f.None? || (payload[1] != 0 && f.value.dst.None?) then Malformed
        else if f.value.table !in tables then Excluded
        else if f.value.dst.Some? && |f.value.dst.value| != Width(v6) then Malformed
        else
          var addr := if f.value.dst.Some? then f.value.dst.value else Zeros(Width(v6));
          var p := Prefix(v6, addr, payload[1]);
          TruncIsTruncated(p);
          Export(Trunc(p))
  }

  lemma {:induction false} DestinationWidth(f: Found, b: Bytes, width: nat)
    requires f.dst.Some? ==> |f.dst.value| == width
    ensures var r := ReadAttributes(f, b, width);
            r.Some? && r.value.dst.Some? ==> |r.value.dst.value| == width
    decreases |b|
  {
    if b != [] && HasRouteAttribute(b) {
      var r := TakeAttribute(f, FirstRouteAttribute(b), width);
      if r.Some? && Le16(b) != |b| && Align(Le16(b)) <= |b| {
        DestinationWidth(r.value, b[Align(Le16(b))..], width);
      }
    }
  }

  method WalkRouteAttributes(start: Found, field: Bytes, width: nat) returns (r: Option<Found>)
    ensures r == ReadAttributes(start, field, width)
  {
    var attrs := field;
    var table, dst := start.table, start.dst;
    while attrs != []
      invariant ReadAttributes(start, field, width) == ReadAttributes(Found(table, dst), attrs, width)
      decreases |attrs|
    {
      if |attrs| < 4 {
        return None;
      }
      var n := Le16(attrs);
      if !(n >= 4 && n <= |attrs|) {
        return None;
      }
      var kind := Le16(attrs[2..]) % 16384;
      if kind == 1 {
        if n != width + 4 {
          return None;
        }
        dst := Some(attrs[4..n]);
      } else if kind == 15 {
        if n != 8 {
          return None;
        }
        table := Le32(attrs[4..n]);
      }
      if n == |attrs| {
        return Some(Found(table, dst));
      }
      if Align(n) > |attrs| {
        return None;
      }
      attrs := attrs[Align(n)..];
    }
    return Some(Found(table, dst));
  }

  method DecodeRoute(payload: Bytes, tables: seq<nat>) returns (r: RouteResult)
    ensures r == Route(payload, tables)
  {
    if |payload| < 12 {
      return Malformed;
    }
    var family := payload[0];
    if family != 2 && family != 10 {
      return Excluded;
    }
    if payload[7] != 1 || payload[2] != 0 || payload[9] / 2 % 2 != 0 {
      return Excluded;
    }
    var width := if family == 2 then 4 else 16;
    if payload[1] as int > width * 8 {
      return Malformed;
    }
    var f := WalkRouteAttributes(Found(payload[4], None), payload[12..], width);
    DestinationWidth(Found(payload[4], None), payload[12..], width);
    if f.None? || (payload[1] != 0 && f.value.dst.None?) {
      return Malformed;
    }
    if f.value.table !in tables {
      return Excluded;
    }
    var addr := if f.value.dst.Some? then f.value.dst.value else Zeros(width);
    return Export(Trunc(Prefix(family == 10, addr, payload[1])));
  }

  // ---- Route records, encoded -----------------------------------------------------------------

  predicate Storable(a: RouteAttribute) {
    a.kind < 16384 && |a.data| + 4 < TWO16
  }

  function EncodeAttributes(attrs: seq<RouteAttribute>): Bytes
    requires forall a <- attrs :: Storable(a)
  {
    if attrs == [] then []
    else
      assert Storable(attrs[0]);
      var n := |attrs[0].data| + 4;
      ToLe16(n) + ToLe16(attrs[0].kind) + attrs[0].data + Padding(n) + EncodeAttributes(attrs[1..])
  }

  /** All attributes in turn. */
  function TakeAll(f: Found, attrs: seq<RouteAttribute>, width: nat): Option<Found>
    decreases |attrs|
  {
    if attrs == [] then Some(f)
    else
      var r := TakeAttribute(f, attrs[0], width);
      if r.None? then None else TakeAll(r.value, attrs[1..], width)
  }

  lemma {:induction false} ReadEncodedAttributes(f: Found, attrs: seq<RouteAttribute>, width: nat)
    requires forall a <- attrs :: Storable(a)
    ensures ReadAttributes(f, EncodeAttributes(attrs), width) == TakeAll(f, attrs, width)
    decreases |attrs|
  {
    if attrs != [] {
      FirstAttributeRead(attrs[0], EncodeAttributes(attrs[1..]));
      var r := TakeAttribute(f, attrs[0], width);
      if r.Some? {
        ReadEncodedAttributes(r.value, attrs[1..], width);
      }
    }
  }

  lemma FirstAttributeRead(a: RouteAttribute, rest: Bytes)
    requires Storable(a)
    ensures var n := |a.data| + 4;
            var b := ToLe16(n) + ToLe16(a.kind) + a.data + Padding(n) + rest;
            && HasRouteAttribute(b) && Le16(b) == n && FirstRouteAttribute(b) == a
            && Align(n) <= |b| && b[Align(n)..] == rest
  {
    var n := |a.data| + 4;
    var b := ToLe16(n) + ToLe16(a.kind) + a.data + Padding(n) + rest;
    assert b[..2] == ToLe16(n) && Le16(b) == Le16(b[..2]) == n;
    assert b[2..][..2] == ToLe16(a.kind) && Le16(b[2..]) == Le16(b[2..][..2]);
    assert b[4..n] == a.data;
    assert b[Align(n)..] == rest;
  }

  /** An ordinary unicast route record with the given attributes. */
  function Record(p: Prefix, table: octet, attrs: seq<RouteAttribute>): Bytes
    requires WellFormed(p) && forall a <- attrs :: Storable(a)
  {
    RecordHeader(p.v6, p.bits, table) + EncodeAttributes(attrs)
  }

  function RecordHeader(v6: bool, bits: octet, table: octet): (h: Bytes)
    ensures |h| == 12 && h[0] == (if v6 then 10 else 2) && h[1] == bits && h[4] == table && Ordinary(h)
  {
    [if v6 then 10 else 2, bits, 0, 0, table, 0, 0, 1, 0, 0, 0, 0]
  }

  /** A record exports its truncated destination exactly when its table, which an attribute may
      override, is selected; attributes of other kinds and their order do not matter. */
  lemma RecordMeans(p: Prefix, table: octet, attrs: seq<RouteAttribute>, t: nat, tables: seq<nat>)
    requires WellFormed(p) && forall a <- attrs :: Storable(a)
    requires TakeAll(Found(table, None), attrs, Width(p.v6)) == Some(Found(t, Some(p.addr)))
    ensures Route(Record(p, table, attrs), tables) == if t in tables then Export(Trunc(p)) else Excluded
  {
    var r := Record(p, table, attrs);
    assert r[12..] == EncodeAttributes(attrs);
    ReadEncodedAttributes(Found(table, None), attrs, Width(p.v6));
    var h := RecordHeader(p.v6, p.bits, table);
    assert forall i :: 0 <= i < 12 ==> r[i] == h[i];
    assert Ordinary(r);
    assert ReadAttributes(Found(r[4], None), r[12..], Width(p.v6)) == Some(Found(t, Some(p.addr)));
  }
}
