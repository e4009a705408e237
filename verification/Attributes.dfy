/** Path attributes: how a field splits into attributes, and what RFC 7606 says of each one. */
module Attributes {
  import opened Base
  import opened Net
  import opened Protocol
  import Config
  import Nlri

  /** One attribute as it stands on the wire; `flags` keeps the extended-length bit. */
  datatype Attribute = Attribute(flags: octet, kind: octet, data: Bytes)

  /** How a field of attributes ends: exactly, or in an attribute that runs past it. */
  datatype Ending = Clean | Broken(mp: bool)

  predicate Multiprotocol(kind: octet) {
    kind == 14 || kind == 15
  }

  function HeaderSize(flags: octet): nat {
    if ExtendedLength(flags) then 4 else 3
  }

  function DataLength(b: Bytes): nat
    requires |b| >= 3 && |b| >= HeaderSize(b[0])
  {
    if ExtendedLength(b[0]) then U16(b[2..]) else b[2]
  }

  /** Whether a whole attribute stands at the front of the field. */
  predicate HasAttribute(b: Bytes) {
    |b| >= 3 && |b| >= HeaderSize(b[0]) && HeaderSize(b[0]) + DataLength(b) <= |b|
  }

  function AttributeSize(b: Bytes): (n: nat)
    requires HasAttribute(b)
    ensures 3 <= n <= |b|
  {
    HeaderSize(b[0]) + DataLength(b)
  }

  function FirstAttribute(b: Bytes): Attribute
    requires HasAttribute(b)
  {
    Attribute(b[0], b[1], b[HeaderSize(b[0])..AttributeSize(b)])
  }

  function Parse(b: Bytes): (r: (seq<Attribute>, Ending)) {
    if b == [] then ([], Clean)
    else if !HasAttribute(b) then ([], Broken(|b| >= 3 && Multiprotocol(b[1])))
    else
      var rest := Parse(b[AttributeSize(b)..]);
      ([FirstAttribute(b)] + rest.0, rest.1)
  }

  /** Attributes whose length field can hold their length. */
  predicate Encodable(a: Attribute) {
    |a.data| < (if ExtendedLength(a.flags) then TWO16 else 256)
  }

  function EncodeOne(a: Attribute): (b: Bytes)
    requires Encodable(a)
    ensures |b| == HeaderSize(a.flags) + |a.data|
  {
    [a.flags, a.kind] + (if ExtendedLength(a.flags) then Be16(|a.data|) else [|a.data|]) + a.data
  }

  function Encode(attrs: seq<Attribute>): Bytes
    requires forall a <- attrs :: Encodable(a)
  {
    if attrs == [] then [] else EncodeOne(attrs[0]) + Encode(attrs[1..])
  }

  lemma ParseStep(a: Attribute, rest: Bytes)
    requires Encodable(a)
    ensures var b := EncodeOne(a) + rest;
            HasAttribute(b) && FirstAttribute(b) == a && b[AttributeSize(b)..] == rest
  {
    var b := EncodeOne(a) + rest;
    var h := HeaderSize(a.flags);
    if ExtendedLength(a.flags) {
      assert b[2..][0] == Be16(|a.data|)[0] && b[2..][1] == Be16(|a.data|)[1];
    }
    assert b[h..h + |a.data|] == a.data;
    assert b[h + |a.data|..] == rest;
  }

  /** Splitting undoes concatenation, and concatenation undoes a clean split. */
  lemma {:induction false} ParseOfEncode(attrs: seq<Attribute>)
    requires forall a <- attrs :: Encodable(a)
    ensures Parse(Encode(attrs)) == (attrs, Clean)
  {
    if attrs != [] {
      ParseStep(attrs[0], Encode(attrs[1..]));
      ParseOfEncode(attrs[1..]);
      assert [attrs[0]] + attrs[1..] == attrs;
    }
  }

  /** Attributes that come from a field re-encode to the octets they came from. */
  lemma EncodeOfFirst(b: Bytes)
    requires HasAttribute(b)
    ensures Encodable(FirstAttribute(b)) && EncodeOne(FirstAttribute(b)) == b[..AttributeSize(b)]
  {
    if ExtendedLength(b[0]) {
      assert b[2..][0] == b[2] && b[2..][1] == b[3];
    }
  }

  lemma EncodeAppend(a: seq<Attribute>, b: seq<Attribute>)
    requires forall x <- a + b :: Encodable(x)
    ensures (forall x <- a :: Encodable(x)) && (forall x <- b :: Encodable(x))
    ensures Encode(a + b) == Encode(a) + Encode(b)
  {
    assert forall x <- a :: x in a + b;
    assert forall x <- b :: x in a + b;
    if a == [] {
      assert a + b == b;
    } else {
      assert (a + b)[1..] == a[1..] + b;
      EncodeAppend(a[1..], b);
    }
  }

  // ---- Flags and values -------------------------------------------------------

  /** The two class bits an attribute must carry: 1 well-known, 2 optional, 3 optional transitive. */
  function ExpectedClass(kind: octet): Option<nat> {
    if kind in {1, 2, 3, 5, 6} then Some(1)
    else if kind in {4, 9, 10, 14, 15} then Some(2)
    else if kind in {7, 8, 16, 17, 18, 32} then Some(3)
    else None
  }

  predicate FlagsOk(a: Attribute) {
    var bits := ExpectedClass(a.kind);
    bits.Some? ==> ClassBits(a.flags) == bits.value && (!PartialBit(a.flags) || bits.value == 3)
  }

  /** AS_PATH segments: a known type, at least one ASN, and all the ASNs they announce. */
  predicate PathOk(b: Bytes, width: nat) {
    b == [] || (|b| >= 2 && 1 <= b[0] <= 4 && b[1] > 0 && 2 + width * b[1] as int <= |b|
                && PathOk(b[2 + width * b[1] as int..], width))
  }

  predicate ValueOk(a: Attribute, n: Negotiated) {
    var l := |a.data|;
    match a.kind
    case 1 => l == 1 && a.data[0] <= 2
    case 2 => PathOk(a.data, if n.asn4 then 4 else 2)
    case 3 => l == 4 && Config.ValidV4(a.data)
    case 4 => l == 4
    case 5 => l == 4
    case 9 => l == 4
    case 6 => l == 0
    case 7 => l == (if n.asn4 then 8 else 6)
    case 8 => l != 0 && l % 4 == 0
    case 10 => l != 0 && l % 4 == 0
    case 16 => l != 0 && l % 8 == 0
    case 17 => l >= 6 && l % 2 == 0 && PathOk(a.data, 4)
    case 18 => l == 8
    case 32 => l != 0 && l % 12 == 0
    case _ => true
  }

  // ---- Multiprotocol attributes (sections 3 and 4 of RFC 4760) ------------------

  /** Unicast routes of a family this program understands. */
  predicate Supported(data: Bytes)
    requires |data| >= 3
  {
    data[2] == 1 && (U16(data) == 1 || U16(data) == 2)
  }

  predicate NextHopFramed(data: Bytes) {
    |data| >= 5 && data[3] as int + 5 <= |data|
  }

  predicate NextHopSizeOk(data: Bytes)
    requires |data| >= 5
  {
    Supported(data) ==> if U16(data) == 2 then data[3] == 16 || data[3] == 32 else data[3] == 4
  }

  /** The packed prefixes of a well-framed attribute 14 or 15 of a supported family. */
  function MpNlri(a: Attribute): (field: Bytes)
    requires |a.data| >= 3 && (a.kind == 14 ==> NextHopFramed(a.data))
  {
    if a.kind == 14 then a.data[5 + a.data[3] as int..] else a.data[3..]
  }

  function AddressBits(data: Bytes): nat
    requires |data| >= 3
  {
    if U16(data) == 1 then 32 else 128
  }

  /** The session-ending error of a multiprotocol attribute, if it has one. */
  function MpError(a: Attribute): Option<ProtocolError>
    requires Multiprotocol(a.kind)
  {
    if !FlagsOk(a) || |a.data| < 3 then Some(ProtocolError(3, 9, []))
    else if a.kind == 14 && (!NextHopFramed(a.data) || !NextHopSizeOk(a.data)) then Some(ProtocolError(3, 9, []))
    else if Supported(a.data) && !Nlri.Fits(MpNlri(a), AddressBits(a.data)) then Some(ProtocolError(3, 10, []))
    else None
  }

  /** The reachable prefixes an attribute carries, as the recovery decoder reads them. */
  function ReachField(a: Attribute): Bytes {
    if a.kind == 14 && NextHopFramed(a.data) && Supported(a.data) then MpNlri(a) else []
  }

  function ReachPrefixes(a: Attribute): seq<Prefix> {
    if a.kind == 14 && NextHopFramed(a.data) && Supported(a.data)
    then Nlri.Decode(MpNlri(a), U16(a.data) == 2)
    else []
  }

  /** The prefixes an attribute withdraws (section 4 of RFC 4760). */
  function UnreachPrefixes(a: Attribute): seq<Prefix> {
    if a.kind == 15 && |a.data| >= 3 && Supported(a.data)
    then Nlri.Decode(MpNlri(a), U16(a.data) == 2)
    else []
  }

  // ---- Verdict on one attribute ------------------------------------------------

  /** Ordered by strength, as section 2 of RFC 7606 orders them. */
  datatype UpdateAction = Valid | AttributeDiscard | TreatAsWithdraw

  function Rank(a: UpdateAction): nat {
    match a
    case Valid => 0
    case AttributeDiscard => 1
    case TreatAsWithdraw => 2
  }

  function Stronger(a: UpdateAction, b: UpdateAction): (r: UpdateAction)
    ensures Rank(r) == if Rank(a) < Rank(b) then Rank(b) else Rank(a)
  {
    if Rank(a) < Rank(b) then b else a
  }

  /** Attributes ignored whatever they contain: AS4 ones between new speakers, iBGP ones from outside. */
  predicate DiscardedUnread(kind: octet, n: Negotiated) {
    (n.asn4 && kind in {17, 18}) || (!n.internal && kind in {5, 9, 10})
  }

  function Fatal(a: Attribute, n: Negotiated): Option<ProtocolError> {
    if DiscardedUnread(a.kind, n) then None
    else if Multiprotocol(a.kind) then MpError(a)
    else if ExpectedClass(a.kind).None? && !OptionalBit(a.flags)
      then Some(ProtocolError(3, 2, if Encodable(a) then EncodeOne(a) else a.data))
    else None
  }

  function Severity(a: Attribute, n: Negotiated): UpdateAction {
    if DiscardedUnread(a.kind, n) then AttributeDiscard
    else if Multiprotocol(a.kind) || (FlagsOk(a) && ValueOk(a, n)) then Valid
    else if a.kind in {6, 7, 17, 18} then AttributeDiscard
    else TreatAsWithdraw
  }

  // ---- Verdict on a list: only first occurrences are read -------------------------

  function Kinds(attrs: seq<Attribute>): set<octet> {
    set a | a in attrs :: a.kind
  }

  predicate Repeated(attrs: seq<Attribute>, i: nat)
    requires i < |attrs|
  {
    attrs[i].kind in Kinds(attrs[..i])
  }

  function FatalAt(attrs: seq<Attribute>, i: nat, n: Negotiated): Option<ProtocolError>
    requires i < |attrs|
  {
    if !Repeated(attrs, i) then Fatal(attrs[i], n)
    else if Multiprotocol(attrs[i].kind) then Some(ProtocolError(3, 1, []))
    else None
  }

  function SeverityAt(attrs: seq<Attribute>, i: nat, n: Negotiated): UpdateAction
    requires i < |attrs|
  {
    if Repeated(attrs, i) then AttributeDiscard else Severity(attrs[i], n)
  }

  /** Index of the first session-ending attribute, or the length of the list. */
  function FirstFatal(attrs: seq<Attribute>, from: nat, n: Negotiated): (i: nat)
    requires from <= |attrs|
    ensures from <= i <= |attrs|
    ensures forall j :: from <= j < i ==> FatalAt(attrs, j, n).None?
    ensures i < |attrs| ==> FatalAt(attrs, i, n).Some?
    decreases |attrs| - from
  {
    if from == |attrs| || FatalAt(attrs, from, n).Some? then from else FirstFatal(attrs, from + 1, n)
  }

  /** The strongest action among the first `k` attributes. */
  function Worst(attrs: seq<Attribute>, k: nat, n: Negotiated): (r: UpdateAction)
    requires k <= |attrs|
    ensures forall i :: 0 <= i < k ==> Rank(SeverityAt(attrs, i, n)) <= Rank(r)
    ensures r == Valid || exists i :: 0 <= i < k && SeverityAt(attrs, i, n) == r
  {
    if k == 0 then Valid else Stronger(Worst(attrs, k - 1, n), SeverityAt(attrs, k - 1, n))
  }

  predicate AnyReach(attrs: seq<Attribute>) {
    exists a <- attrs :: ReachField(a) != []
  }

  // ---- Verdict on an UPDATE ------------------------------------------------------

  datatype Verdict = Accept(action: UpdateAction) | Reject(error: ProtocolError)

  /** The three fields of an UPDATE body (section 4.3 of RFC 4271). */
  datatype Fields = Fields(withdrawn: Bytes, attributes: Bytes, tail: Bytes)

  predicate Framed(b: Bytes) {
    |b| >= 4 && U16(b) + 4 <= |b| && U16(b) + U16(b[2 + U16(b)..]) + 4 <= |b|
  }

  function Split(b: Bytes): (f: Fields)
    requires Framed(b)
    ensures |f.withdrawn| + |f.attributes| + |f.tail| + 4 == |b|
  {
    var w := U16(b);
    var a := U16(b[2 + w..]);
    Fields(b[2..2 + w], b[4 + w..4 + w + a], b[4 + w + a..])
  }

  function Join(f: Fields): (b: Bytes)
    requires |f.withdrawn| < TWO16 && |f.attributes| < TWO16
    ensures |b| == |f.withdrawn| + |f.attributes| + |f.tail| + 4
  {
    Be16(|f.withdrawn|) + f.withdrawn + Be16(|f.attributes|) + f.attributes + f.tail
  }

  lemma SplitOfJoin(f: Fields)
    requires |f.withdrawn| < TWO16 && |f.attributes| < TWO16
    ensures Framed(Join(f)) && Split(Join(f)) == f
  {
    var b := Join(f);
    var w, a := |f.withdrawn|, |f.attributes|;
    assert b[2..2 + w] == f.withdrawn;
    assert b[2 + w..][0] == Be16(a)[0] && b[2 + w..][1] == Be16(a)[1];
    assert b[4 + w..4 + w + a] == f.attributes;
    assert b[4 + w + a..] == f.tail;
  }

  predicate Reachable(tail: Bytes, attrs: seq<Attribute>) {
    tail != [] || AnyReach(attrs)
  }

  /** Mandatory attributes absent from an UPDATE that announces something. */
  predicate MissingMandatory(tail: Bytes, attrs: seq<Attribute>, n: Negotiated) {
    || (Reachable(tail, attrs) && !({1, 2} + (if n.internal then {5} else {}) <= Kinds(attrs)))
    || (tail != [] && 3 !in Kinds(attrs))
  }

  /** The action for attributes none of which is fatal. */
  function Recovery(tail: Bytes, attrs: seq<Attribute>, ending: Ending, n: Negotiated): UpdateAction {
    if ending.Broken? || MissingMandatory(tail, attrs, n) then TreatAsWithdraw else Worst(attrs, |attrs|, n)
  }

  function Judge(tail: Bytes, attrs: seq<Attribute>, ending: Ending, n: Negotiated): Verdict {
    var i := FirstFatal(attrs, 0, n);
    if i < |attrs| then Reject(FatalAt(attrs, i, n).value)
    else if ending == Broken(true) then Reject(ProtocolError(3, 9, []))
    else
      var action := Recovery(tail, attrs, ending, n);
      if action.TreatAsWithdraw? && !Reachable(tail, attrs) then Reject(ProtocolError(3, 1, []))
      else Accept(action)
  }

  /** Declarative verdict on a received UPDATE body. */
  function UpdateVerdict(b: Bytes, n: Negotiated): Verdict {
    if |b| < 4 || U16(b) + 4 > |b| then Reject(ProtocolError(3, 1, []))
    else if !Nlri.Fits(b[2..2 + U16(b)], 32) then Reject(ProtocolError(3, 10, []))
    else if !Framed(b) then Reject(ProtocolError(3, 1, []))
    else
      var f := Split(b);
      if !Nlri.Fits(f.tail, 32) then Reject(ProtocolError(3, 10, []))
      else
        var p := Parse(f.attributes);
        Judge(f.tail, p.0, p.1, n)
  }
}
