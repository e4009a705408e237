/** What the octets of a path attribute stand for: a typed value, and that exactly the values of the
    right type are accepted. */
module Values {
  import opened Base
  import opened Protocol
  import opened Attributes
  import Config

  /** A segment of an AS path: its type and its AS numbers, of two or four octets each. */
  datatype Segment = Segment(kind: octet, asns: seq<Bytes>)

  datatype Value =
    | Origin(code: octet)
    | Path(segments: seq<Segment>)
    | Address(octets: Bytes)
    | Number(octets: Bytes)
    | Present
    | Aggregator(asn: Bytes, address: Bytes)
    | Items(items: seq<Bytes>)
    | Unknown(octets: Bytes)

  predicate AllWide(items: seq<Bytes>, width: nat) {
    forall b <- items :: |b| == width
  }

  predicate ValidSegment(s: Segment, width: nat) {
    1 <= s.kind <= 4 && 0 < |s.asns| < 256 && AllWide(s.asns, width)
  }

  predicate ValidPath(segments: seq<Segment>, width: nat) {
    forall s <- segments :: ValidSegment(s, width)
  }

  /** The values an attribute of a type may have in a session. */
  predicate Typed(v: Value, kind: octet, n: Negotiated) {
    match kind
    case 1 => v.Origin? && v.code <= 2
    case 2 => v.Path? && ValidPath(v.segments, if n.asn4 then 4 else 2)
    case 3 => v.Address? && |v.octets| == 4 && Config.ValidV4(v.octets)
    case 4 => v.Number? && |v.octets| == 4
    case 5 => v.Number? && |v.octets| == 4
    case 9 => v.Number? && |v.octets| == 4
    case 6 => v.Present?
    case 7 => v.Aggregator? && |v.asn| == (if n.asn4 then 4 else 2) && |v.address| == 4
    case 8 => v.Items? && v.items != [] && AllWide(v.items, 4)
    case 10 => v.Items? && v.items != [] && AllWide(v.items, 4)
    case 16 => v.Items? && v.items != [] && AllWide(v.items, 8)
    case 17 => v.Path? && v.segments != [] && ValidPath(v.segments, 4)
    case 18 => v.Aggregator? && |v.asn| == 4 && |v.address| == 4
    case 32 => v.Items? && v.items != [] && AllWide(v.items, 12)
    case _ => v.Unknown?
  }

  // ---- Octets ------------------------------------------------------------------------

  function Joined(items: seq<Bytes>): Bytes {
    if items == [] then [] else items[0] + Joined(items[1..])
  }

  function EncodePath(segments: seq<Segment>): Bytes {
    if segments == [] then []
    else
      var s := segments[0];
      [s.kind, if |s.asns| < 256 then |s.asns| else 255] + Joined(s.asns) + EncodePath(segments[1..])
  }

  function OctetsOf(v: Value): Bytes {
    match v
    case Origin(code) => [code]
    case Path(segments) => EncodePath(segments)
    case Address(octets) => octets
    case Number(octets) => octets
    case Present => []
    case Aggregator(asn, address) => asn + address
    case Items(items) => Joined(items)
    case Unknown(octets) => octets
  }

  // ---- Lists of fixed-width items --------------------------------------------------------

  lemma OneMore(width: nat, count: nat)
    ensures width * (count + 1) == width * count + width
  {
  }

  lemma {:induction false} JoinedLength(items: seq<Bytes>, width: nat)
    requires AllWide(items, width)
    ensures |Joined(items)| == width * |items|
  {
    if items != [] {
      var rest := items[1..];
      assert |items[0]| == width;
      JoinedLength(rest, width);
      OneMore(width, |rest|);
    }
  }

  lemma {:induction false} Cut(b: Bytes, width: nat, count: nat) returns (items: seq<Bytes>)
    requires width > 0 && |b| == width * count
    ensures |items| == count && AllWide(items, width) && Joined(items) == b
    decreases count
  {
    if count == 0 {
      items := [];
    } else {
      OneMore(width, count - 1);
      var rest := Cut(b[width..], width, count - 1);
      items := [b[..width]] + rest;
      assert items[1..] == rest;
    }
  }

  lemma Multiple(length: nat, width: nat)
    requires width in {4, 8, 12}
    ensures length % width == 0 <==> length == width * (length / width)
  {
  }

  lemma WholeItems(width: nat, count: nat)
    requires width in {4, 8, 12}
    ensures (width * count) % width == 0
  {
  }

  // ---- AS paths --------------------------------------------------------------------------------

  lemma PathHead(s: Segment, rest: Bytes, width: nat)
    requires ValidSegment(s, width)
    ensures var b := [s.kind, |s.asns|] + Joined(s.asns) + rest;
            && 2 + width * b[1] as int <= |b| && b[2 + width * b[1] as int..] == rest
            && b[0] == s.kind && b[1] == |s.asns|
  {
    JoinedLength(s.asns, width);
  }

  lemma {:induction false} PathAccepted(segments: seq<Segment>, width: nat)
    requires ValidPath(segments, width)
    ensures PathOk(EncodePath(segments), width)
  {
    if segments != [] {
      PathHead(segments[0], EncodePath(segments[1..]), width);
      PathAccepted(segments[1..], width);
    }
  }

  lemma Layout(b: Bytes, end: nat)
    requires 2 <= end <= |b|
    ensures b == [b[0], b[1]] + b[2..end] + b[end..]
  {
  }

  lemma {:induction false} PathRead(b: Bytes, width: nat) returns (segments: seq<Segment>)
    requires width > 0 && PathOk(b, width)
    ensures ValidPath(segments, width) && EncodePath(segments) == b
    decreases |b|
  {
    if b == [] {
      segments := [];
    } else {
      var end := 2 + width * b[1] as int;
      var asns := Cut(b[2..end], width, b[1]);
      var rest := PathRead(b[end..], width);
      segments := [Segment(b[0], asns)] + rest;
      assert segments[1..] == rest;
      Layout(b, end);
    }
  }

  /** A path is accepted if and only if it is the encoding of nonempty segments of known types. */
  lemma PathExactly(b: Bytes, width: nat)
    requires width > 0
    ensures PathOk(b, width) <==> exists segments :: ValidPath(segments, width) && EncodePath(segments) == b
  {
    if PathOk(b, width) {
      var segments := PathRead(b, width);
    }
    if segments :| ValidPath(segments, width) && EncodePath(segments) == b {
      PathAccepted(segments, width);
    }
  }

  /** Four-octet paths have even length, and six octets at least unless empty. */
  lemma {:induction false} PathLength(b: Bytes)
    requires PathOk(b, 4)
    ensures |b| % 2 == 0 && (b != [] ==> |b| >= 6)
    decreases |b|
  {
    if b != [] {
      PathLength(b[2 + 4 * b[1] as int..]);
    }
  }

  // ---- Every type ----------------------------------------------------------------------------------

  predicate ItemKind(kind: octet) {
    kind in {8, 10, 16, 32}
  }

  function ItemWidth(kind: octet): nat {
    if kind == 16 then 8 else if kind == 32 then 12 else 4
  }

  lemma ItemsAccepted(a: Attribute, v: Value, n: Negotiated)
    requires ItemKind(a.kind) && Typed(v, a.kind, n) && OctetsOf(v) == a.data
    ensures ValueOk(a, n)
  {
    var w := ItemWidth(a.kind);
    JoinedLength(v.items, w);
    WholeItems(w, |v.items|);
  }

  lemma ItemsRead(a: Attribute, n: Negotiated) returns (v: Value)
    requires ItemKind(a.kind) && ValueOk(a, n)
    ensures Typed(v, a.kind, n) && OctetsOf(v) == a.data
  {
    var w := ItemWidth(a.kind);
    Multiple(|a.data|, w);
    var items := Cut(a.data, w, |a.data| / w);
    v := Items(items);
  }

  lemma PathsAccepted(a: Attribute, v: Value, n: Negotiated)
    requires (a.kind == 2 || a.kind == 17) && Typed(v, a.kind, n) && OctetsOf(v) == a.data
    ensures ValueOk(a, n)
  {
    PathAccepted(v.segments, if a.kind == 17 || n.asn4 then 4 else 2);
    if a.kind == 17 {
      PathLength(a.data);
    }
  }

  lemma PathsRead(a: Attribute, n: Negotiated) returns (v: Value)
    requires (a.kind == 2 || a.kind == 17) && ValueOk(a, n)
    ensures Typed(v, a.kind, n) && OctetsOf(v) == a.data
  {
    var segments := PathRead(a.data, if a.kind == 17 || n.asn4 then 4 else 2);
    v := Path(segments);
  }

  lemma ValueRead(a: Attribute, n: Negotiated) returns (v: Value)
    requires ValueOk(a, n)
    ensures Typed(v, a.kind, n) && OctetsOf(v) == a.data
  {
    if ItemKind(a.kind) {
      v := ItemsRead(a, n);
    } else if a.kind == 2 || a.kind == 17 {
      v := PathsRead(a, n);
    } else if a.kind == 1 {
      v := Origin(a.data[0]);
    } else if a.kind == 3 {
      v := Address(a.data);
    } else if a.kind in {4, 5, 9} {
      v := Number(a.data);
    } else if a.kind == 6 {
      v := Present;
    } else if a.kind == 7 || a.kind == 18 {
      v := Aggregator(a.data[..|a.data| - 4], a.data[|a.data| - 4..]);
    } else {
      v := Unknown(a.data);
    }
  }

  /** The octets stand for a value of the attribute's type. */
  ghost predicate Denotes(a: Attribute, n: Negotiated) {
    exists v :: Typed(v, a.kind, n) && OctetsOf(v) == a.data
  }

  /** The receiver accepts exactly the octets that stand for a value of the attribute's type. */
  lemma ValueExactly(a: Attribute, n: Negotiated)
    ensures ValueOk(a, n) <==> Denotes(a, n)
  {
    if ValueOk(a, n) {
      var v := ValueRead(a, n);
    }
    if v :| Typed(v, a.kind, n) && OctetsOf(v) == a.data {
      if ItemKind(a.kind) {
        ItemsAccepted(a, v, n);
      } else if a.kind == 2 || a.kind == 17 {
        PathsAccepted(a, v, n);
      }
    }
  }
}
