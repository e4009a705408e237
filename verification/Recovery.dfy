/** Laws of the verdict: order does not matter, and the recovery decoder agrees with the validator. */
module Recovery {
  import opened Base
  import opened Net
  import opened Protocol
  import opened Attributes
  import Nlri

  // ---- Attribute order ---------------------------------------------------------

  ghost predicate DistinctKinds(attrs: seq<Attribute>) {
    forall i, j :: 0 <= i < j < |attrs| ==> attrs[i].kind != attrs[j].kind
  }

  lemma NotRepeated(attrs: seq<Attribute>, i: nat)
    requires DistinctKinds(attrs) && i < |attrs|
    ensures !Repeated(attrs, i)
  {
  }

  lemma FatalByMembership(attrs: seq<Attribute>, n: Negotiated)
    requires DistinctKinds(attrs)
    ensures FirstFatal(attrs, 0, n) < |attrs| <==> exists a <- attrs :: Fatal(a, n).Some?
  {
    forall i | 0 <= i < |attrs|
      ensures FatalAt(attrs, i, n) == Fatal(attrs[i], n)
    {
      NotRepeated(attrs, i);
    }
    var k := FirstFatal(attrs, 0, n);
    if k < |attrs| {
      assert attrs[k] in attrs;
    }
  }

  lemma WorstBounded(a: seq<Attribute>, b: seq<Attribute>, n: Negotiated)
    requires DistinctKinds(a) && DistinctKinds(b) && Elements(a) <= Elements(b)
    ensures Rank(Worst(a, |a|, n)) <= Rank(Worst(b, |b|, n))
  {
    var r := Worst(a, |a|, n);
    if r != Valid {
      var i :| 0 <= i < |a| && SeverityAt(a, i, n) == r;
      NotRepeated(a, i);
      assert a[i] in Elements(a);
      var j :| 0 <= j < |b| && b[j] == a[i];
      NotRepeated(b, j);
      assert SeverityAt(b, j, n) == r;
    }
  }

  lemma CountOnce<T>(a: seq<T>, k: nat)
    requires k < |a| && forall i :: 0 <= i < |a| && i != k ==> a[i] != a[k]
    ensures multiset(a)[a[k]] == 1
  {
    assert a == a[..k] + [a[k]] + a[k + 1..];
    assert a[k] !in a[..k] && a[k] !in a[k + 1..];
  }

  lemma CountTwice<T>(b: seq<T>, i: nat, j: nat)
    requires i < j < |b| && b[i] == b[j]
    ensures multiset(b)[b[i]] >= 2
  {
    assert b == b[..j] + b[j..];
    assert b[..j][i] == b[i] && b[j..][0] == b[i];
    assert b[i] in multiset(b[..j]) && b[i] in multiset(b[j..]);
  }

  lemma SameMembers<T>(a: seq<T>, b: seq<T>)
    requires multiset(a) == multiset(b)
    ensures forall x :: x in a <==> x in b
    ensures Elements(a) == Elements(b)
  {
    assert forall x :: x in a <==> x in multiset(a);
    assert forall x :: x in b <==> x in multiset(b);
  }

  /** A rearrangement of attributes of distinct types still has distinct types. */
  lemma DistinctPreserved(a: seq<Attribute>, b: seq<Attribute>)
    requires DistinctKinds(a) && multiset(a) == multiset(b)
    ensures DistinctKinds(b) && Elements(a) == Elements(b)
  {
    SameMembers(a, b);
    forall i, j | 0 <= i < j < |b|
      ensures b[i].kind != b[j].kind
    {
      assert b[i] in b && b[j] in b;
      var k :| 0 <= k < |a| && a[k] == b[i];
      var m :| 0 <= m < |a| && a[m] == b[j];
      CountOnce(a, k);
      if k == m {
        CountTwice(b, i, j);
        assert false;
      }
    }
  }

  lemma FatalTogether(a: seq<Attribute>, b: seq<Attribute>, n: Negotiated)
    requires DistinctKinds(a) && DistinctKinds(b) && Elements(a) == Elements(b)
    ensures FirstFatal(a, 0, n) < |a| <==> FirstFatal(b, 0, n) < |b|
  {
    FatalByMembership(a, n);
    FatalByMembership(b, n);
    assert forall x :: x in a <==> x in Elements(a);
    assert forall x :: x in b <==> x in Elements(b);
  }

  lemma WorstTogether(a: seq<Attribute>, b: seq<Attribute>, n: Negotiated)
    requires DistinctKinds(a) && DistinctKinds(b) && Elements(a) == Elements(b)
    ensures Worst(a, |a|, n) == Worst(b, |b|, n)
  {
    WorstBounded(a, b, n);
    WorstBounded(b, a, n);
  }

  /** For attributes of distinct types, fatality and action survive any rearrangement. */
  lemma OrderIrrelevant(tail: Bytes, a: seq<Attribute>, b: seq<Attribute>, n: Negotiated)
    requires DistinctKinds(a) && multiset(a) == multiset(b)
    ensures var v, w := Judge(tail, a, Clean, n), Judge(tail, b, Clean, n);
            (v.Reject? <==> w.Reject?) && (v.Accept? ==> v == w)
  {
    Rearranged(tail, a, b, n);
  }

  lemma Rearranged(tail: Bytes, a: seq<Attribute>, b: seq<Attribute>, n: Negotiated)
    requires DistinctKinds(a) && multiset(a) == multiset(b)
    ensures FirstFatal(a, 0, n) < |a| <==> FirstFatal(b, 0, n) < |b|
    ensures Reachable(tail, a) <==> Reachable(tail, b)
    ensures Attributes.Recovery(tail, a, Clean, n) == Attributes.Recovery(tail, b, Clean, n)
  {
    DistinctPreserved(a, b);
    FatalTogether(a, b, n);
    WorstTogether(a, b, n);
    SameContent(a, b);
  }

  lemma SameContent(a: seq<Attribute>, b: seq<Attribute>)
    requires Elements(a) == Elements(b)
    ensures Kinds(a) == Kinds(b) && (AnyReach(a) <==> AnyReach(b))
  {
    assert forall x :: x in a <==> x in Elements(a);
    assert forall x :: x in b <==> x in Elements(b);
  }

  /** The same on the wire, whatever surrounds the attributes. */
  lemma OrderIrrelevantOnWire(withdrawn: Bytes, tail: Bytes, a: seq<Attribute>, b: seq<Attribute>, n: Negotiated)
    requires DistinctKinds(a) && multiset(a) == multiset(b)
    requires (forall x <- a :: Encodable(x)) && (forall x <- b :: Encodable(x))
    requires |withdrawn| < TWO16 && |Encode(a)| < TWO16 && |Encode(b)| < TWO16
    ensures var v := UpdateVerdict(Join(Fields(withdrawn, Encode(a), tail)), n);
            var w := UpdateVerdict(Join(Fields(withdrawn, Encode(b), tail)), n);
            (v.Reject? <==> w.Reject?) && (v.Accept? ==> v == w)
  {
    OrderIrrelevant(tail, a, b, n);
    VerdictOfJoin(withdrawn, a, tail, n);
    VerdictOfJoin(withdrawn, b, tail, n);
  }

  /** The verdict on a body assembled from its parts. */
  lemma VerdictOfJoin(withdrawn: Bytes, attrs: seq<Attribute>, tail: Bytes, n: Negotiated)
    requires forall x <- attrs :: Encodable(x)
    requires |withdrawn| < TWO16 && |Encode(attrs)| < TWO16
    ensures var body := Join(Fields(withdrawn, Encode(attrs), tail));
            UpdateVerdict(body, n)
            == if Nlri.Fits(withdrawn, 32) && Nlri.Fits(tail, 32) then Judge(tail, attrs, Clean, n)
               else Reject(ProtocolError(3, 10, []))
  {
    SplitOfJoin(Fields(withdrawn, Encode(attrs), tail));
    ParseOfEncode(attrs);
  }

  // ---- The recovery decoder ------------------------------------------------------

  function ReachOf(attrs: seq<Attribute>): seq<Prefix> {
    if attrs == [] then [] else ReachPrefixes(attrs[0]) + ReachOf(attrs[1..])
  }

  function UnreachOf(attrs: seq<Attribute>): seq<Prefix> {
    if attrs == [] then [] else UnreachPrefixes(attrs[0]) + UnreachOf(attrs[1..])
  }

  /** All octets of supported reachable NLRI inside attributes. */
  function ReachBytes(attrs: seq<Attribute>): Bytes {
    if attrs == [] then [] else ReachField(attrs[0]) + ReachBytes(attrs[1..])
  }

  /** Supported reachable prefixes of an UPDATE body. */
  function UpdatePrefixes(b: Bytes): seq<Prefix> {
    if !Framed(b) then []
    else Nlri.Decode(Split(b).tail, false) + ReachOf(Parse(Split(b).attributes).0)
  }

  /** Prefixes an UPDATE body withdraws, in the field of RFC 4271 and the attribute of RFC 4760. */
  function WithdrawnPrefixes(b: Bytes): seq<Prefix> {
    if !Framed(b) then []
    else Nlri.Decode(Split(b).withdrawn, false) + UnreachOf(Parse(Split(b).attributes).0)
  }

  /** The decoder's reading of one attribute. */
  method CollectAttribute(a: Attribute, before: seq<Prefix>) returns (out: seq<Prefix>)
    ensures out == before + ReachPrefixes(a)
  {
    out := before;
    if a.kind == 14 && |a.data| >= 5 && a.data[2] == 1 {
      var start := 5 + a.data[3] as int;
      var afi := U16(a.data);
      if start <= |a.data| && (afi == 1 || afi == 2) {
        out := Nlri.Append(a.data[start..], afi == 2, out);
      }
    }
  }

  /** The decoder's loop over the attributes. */
  method CollectReach(field: Bytes, before: seq<Prefix>) returns (out: seq<Prefix>)
    ensures out == before + ReachOf(Parse(field).0)
  {
    out := before;
    var attrs := field;
    while |attrs| >= 3 && HasAttribute(attrs)
      invariant out + ReachOf(Parse(attrs).0) == before + ReachOf(Parse(field).0)
      decreases |attrs|
    {
      var first := FirstAttribute(attrs);
      ReachStep(attrs);
      Associative(out, ReachPrefixes(first), ReachOf(Parse(attrs[AttributeSize(attrs)..]).0));
      out := CollectAttribute(first, out);
      attrs := attrs[AttributeSize(attrs)..];
    }
    assert Parse(attrs).0 == [];
  }

  lemma ReachStep(b: Bytes)
    requires HasAttribute(b)
    ensures ReachOf(Parse(b).0) == ReachPrefixes(FirstAttribute(b)) + ReachOf(Parse(b[AttributeSize(b)..]).0)
  {
    assert Parse(b).0[1..] == Parse(b[AttributeSize(b)..]).0;
  }

  /** The program's decoder computes those prefixes, in order. */
  method CollectPrefixes(b: Bytes) returns (out: seq<Prefix>)
    ensures out == UpdatePrefixes(b)
  {
    out := [];
    if |b| < 4 {
      return;
    }
    var w := U16(b);
    if w + 4 > |b| {
      return;
    }
    var a := U16(b[2 + w..]);
    if w + a + 4 > |b| {
      return;
    }
    var f := Split(b);
    out := Nlri.Append(f.tail, false, []);
    EmptyUnit(Nlri.Decode(f.tail, false));
    out := CollectReach(f.attributes, out);
  }

  lemma {:induction false} WireSizeAppend(a: seq<Prefix>, b: seq<Prefix>)
    ensures Nlri.WireSize(a + b) == Nlri.WireSize(a) + Nlri.WireSize(b)
  {
    if a == [] {
      assert a + b == b;
    } else {
      assert (a + b)[1..] == a[1..] + b;
      WireSizeAppend(a[1..], b);
    }
  }

  ghost predicate ReachSound(a: Attribute) {
    a.kind == 14 ==> MpError(a).None?
  }

  lemma SoundFieldDecodes(a: Attribute)
    requires ReachSound(a)
    ensures Nlri.WireSize(ReachPrefixes(a)) == |ReachField(a)|
    ensures ReachPrefixes(a) != [] <==> ReachField(a) != []
  {
    if a.kind == 14 && NextHopFramed(a.data) && Supported(a.data) {
      Nlri.FitsMeansFullyDecoded(MpNlri(a), U16(a.data) == 2);
      Nlri.FitsEmpty(MpNlri(a), U16(a.data) == 2);
    }
  }

  lemma {:induction false} SoundListDecodes(attrs: seq<Attribute>)
    requires forall a <- attrs :: ReachSound(a)
    ensures Nlri.WireSize(ReachOf(attrs)) == |ReachBytes(attrs)|
    ensures ReachOf(attrs) != [] <==> AnyReach(attrs)
  {
    if attrs != [] {
      SoundListDecodes(attrs[1..]);
      SoundFieldDecodes(attrs[0]);
      WireSizeAppend(ReachPrefixes(attrs[0]), ReachOf(attrs[1..]));
      assert attrs == [attrs[0]] + attrs[1..];
      assert AnyReach(attrs) <==> ReachField(attrs[0]) != [] || AnyReach(attrs[1..]);
    }
  }

  lemma AcceptedIsSound(attrs: seq<Attribute>, n: Negotiated)
    requires FirstFatal(attrs, 0, n) == |attrs|
    ensures forall a <- attrs :: ReachSound(a)
  {
    forall i | 0 <= i < |attrs|
      ensures ReachSound(attrs[i])
    {
      assert FatalAt(attrs, i, n).None?;
    }
  }

  /** On every accepted UPDATE the decoder consumes all supported reachable NLRI, and finds a
      prefix exactly when the validator found the UPDATE reachable; so a treat-as-withdraw
      always names what it withdraws. */
  lemma ValidatorAndDecoderAgree(b: Bytes, n: Negotiated)
    requires UpdateVerdict(b, n).Accept?
    ensures Framed(b)
    ensures var f, attrs := Split(b), Parse(Split(b).attributes).0;
            && Nlri.WireSize(UpdatePrefixes(b)) == |f.tail| + |ReachBytes(attrs)|
            && (UpdatePrefixes(b) != [] <==> Reachable(f.tail, attrs))
    ensures UpdateVerdict(b, n).action.TreatAsWithdraw? ==> UpdatePrefixes(b) != []
  {
    var f, attrs := Split(b), Parse(Split(b).attributes).0;
    AcceptedIsSound(attrs, n);
    SoundListDecodes(attrs);
    Nlri.FitsMeansFullyDecoded(f.tail, false);
    Nlri.FitsEmpty(f.tail, false);
    WireSizeAppend(Nlri.Decode(f.tail, false), ReachOf(attrs));
  }
}
