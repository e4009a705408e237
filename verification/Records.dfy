/** What a route record exports, told by its header and its attributes. */
module Records {
  import opened Base
  import opened Net
  import opened Netlink

  /** The data of the last attribute of a type. */
  function LastOf(attrs: seq<RouteAttribute>, kind: nat): Option<Bytes> {
    if attrs == [] then None
    else
      var r := LastOf(attrs[1..], kind);
      if r.Some? then r else if attrs[0].kind == kind then Some(attrs[0].data) else None
  }

  const RTA_DST: nat := 1
  const RTA_TABLE: nat := 15

  /** Destinations have the width of their family, table numbers four octets. */
  predicate WellSized(attrs: seq<RouteAttribute>, width: nat) {
    forall a <- attrs :: (a.kind == RTA_DST ==> |a.data| == width) && (a.kind == RTA_TABLE ==> |a.data| == 4)
  }

  /** The last destination and the last table count, whatever else there is and in whatever order. */
  lemma {:induction false} TakeAllMeans(f: Found, attrs: seq<RouteAttribute>, width: nat)
    ensures TakeAll(f, attrs, width).Some? <==> WellSized(attrs, width)
    ensures TakeAll(f, attrs, width).Some? ==>
              var dst, table := LastOf(attrs, RTA_DST), LastOf(attrs, RTA_TABLE);
              && TakeAll(f, attrs, width).value.dst == (if dst.Some? then dst else f.dst)
              && (table.Some? ==> |table.value| == 4)
              && TakeAll(f, attrs, width).value.table == (if table.Some? then Le32(table.value) else f.table)
    decreases |attrs|
  {
    if attrs != [] {
      assert forall a :: a in attrs <==> a == attrs[0] || a in attrs[1..];
      var r := TakeAttribute(f, attrs[0], width);
      if r.Some? {
        TakeAllMeans(r.value, attrs[1..], width);
      }
    }
  }

  lemma Masked(kind: nat, top: nat)
    requires kind < 16384
    ensures (kind + 16384 * top) % 16384 == kind
  {
    assert kind + 16384 * top == 16384 * top + kind;
  }

  /** The two top bits of a type word are flags. */
  lemma TypeMasked(b: Bytes, kind: nat, top: nat)
    requires HasRouteAttribute(b) && kind < 16384 && top < 4 && Le16(b[2..]) == kind + 16384 * top
    ensures FirstRouteAttribute(b).kind == kind
  {
    Masked(kind, top);
  }

  // ---- The header (12 octets) -----------------------------------------------------------------------

  const AF_INET: octet := 2
  const AF_INET6: octet := 10
  const RTN_UNICAST: octet := 1
  const RTM_F_CLONED: nat := 512

  predicate Cloned(h: Bytes)
    requires |h| == 12
  {
    Le32(h[8..]) / RTM_F_CLONED % 2 == 1
  }

  /** Routes that may be exported: IPv4 or IPv6, ordinary unicast, not source-specific, no cached clone. */
  predicate Considered(h: Bytes)
    requires |h| == 12
  {
    var family, sourceBits, kind := h[0], h[2], h[7];
    (family == AF_INET || family == AF_INET6) && kind == RTN_UNICAST && sourceBits == 0 && !Cloned(h)
  }

  lemma ClonedBit(h: Bytes)
    requires |h| == 12
    ensures Cloned(h) <==> h[9] / 2 % 2 == 1
  {
    var b := h[8..];
    var high := b[3] as int * 256 + b[2];
    assert b[2..4][0] == b[2] && b[2..4][1] == b[3] && b[..2][0] == b[0] && b[..2][1] == b[1];
    assert Le32(b) == 512 * (128 * high + b[1] as int / 2) + (b[1] as int % 2 * 256 + b[0]);
  }

  /** The whole decision on a record of that header and those attributes. */
  lemma RouteExactly(h: Bytes, attrs: seq<RouteAttribute>, tables: seq<nat>)
    requires |h| == 12 && forall a <- attrs :: Storable(a)
    ensures var v6 := h[0] == AF_INET6;
            var dst, given := LastOf(attrs, RTA_DST), LastOf(attrs, RTA_TABLE);
            && (WellSized(attrs, Width(v6)) && given.Some? ==> |given.value| == 4)
            && (WellSized(attrs, Width(v6)) && dst.Some? ==> |dst.value| == Width(v6))
            && Route(h + EncodeAttributes(attrs), tables)
               == if !Considered(h) then Excluded
                  else if h[1] as int > 8 * Width(v6) || !WellSized(attrs, Width(v6)) || (h[1] != 0 && dst.None?)
                  then Malformed
                  else if (if given.Some? then Le32(given.value) else h[4]) !in tables then Excluded
                  else Export(Trunc(Prefix(v6, if dst.Some? then dst.value else Zeros(Width(v6)), h[1])))
  {
    var v6 := h[0] == AF_INET6;
    var payload := h + EncodeAttributes(attrs);
    assert payload[12..] == EncodeAttributes(attrs);
    assert forall i :: 0 <= i < 12 ==> payload[i] == h[i];
    ClonedBit(h);
    ReadEncodedAttributes(Found(h[4], None), attrs, Width(v6));
    TakeAllMeans(Found(h[4], None), attrs, Width(v6));
    LastIsMember(attrs, RTA_DST);
  }

  lemma {:induction false} LastIsMember(attrs: seq<RouteAttribute>, kind: nat)
    ensures LastOf(attrs, kind).Some? ==> exists a <- attrs :: a.kind == kind && a.data == LastOf(attrs, kind).value
  {
    if attrs != [] {
      LastIsMember(attrs[1..], kind);
      assert attrs[0] in attrs && forall a <- attrs[1..] :: a in attrs;
    }
  }

  /** Too few octets for a header are malformed. */
  lemma ShortRecord(payload: Bytes, tables: seq<nat>)
    ensures |payload| < 12 ==> Route(payload, tables) == Malformed
  {
  }
}
