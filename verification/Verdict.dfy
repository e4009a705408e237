/** The verdict on a whole UPDATE, told by categories, values and absent attributes. */
module Verdict {
  import opened Base
  import opened Net
  import opened Protocol
  import opened Attributes
  import opened Recovery
  import opened Categories
  import Nlri

  ghost predicate First(attrs: seq<Attribute>, i: nat)
    requires i < |attrs|
  {
    forall j :: 0 <= j < i ==> attrs[j].kind != attrs[i].kind
  }

  /** What ends the session: a first occurrence that cannot be recovered from, or a repeated attribute 14 or 15. */
  ghost predicate EndsSession(attrs: seq<Attribute>, i: nat, n: Negotiated)
    requires i < |attrs|
  {
    var a := attrs[i];
    if !First(attrs, i) then Multiprotocol(a.kind)
    else
      !Meaningless(a.kind, n)
      && if Multiprotocol(a.kind) then !Sound(a, n) else CategoryOf(a.kind) == Unrecognised && a.flags < 0x80
  }

  /** What withdraws the routes: an unsound first occurrence that cannot just be dropped. */
  ghost predicate Withdraws(attrs: seq<Attribute>, i: nat, n: Negotiated)
    requires i < |attrs|
  {
    var a := attrs[i];
    First(attrs, i) && !Multiprotocol(a.kind) && !Meaningless(a.kind, n) && !Sound(a, n) && !Droppable(a.kind)
  }

  /** Nothing to complain of. */
  ghost predicate Impeccable(attrs: seq<Attribute>, i: nat, n: Negotiated)
    requires i < |attrs|
  {
    First(attrs, i) && !Meaningless(attrs[i].kind, n) && Sound(attrs[i], n)
  }

  predicate Lacks(attrs: seq<Attribute>, kind: octet) {
    forall a <- attrs :: a.kind != kind
  }

  /** Absent attributes that withdraw the routes: ORIGIN and AS_PATH whatever is announced, LOCAL_PREF inside
      the own AS, NEXT_HOP for routes in the RFC 4271 field. */
  predicate Absent(b: Bytes, n: Negotiated)
    requires Framed(b)
  {
    var attrs := Parse(Split(b).attributes).0;
    || (UpdatePrefixes(b) != [] && (Lacks(attrs, ORIGIN) || Lacks(attrs, AS_PATH)))
    || (UpdatePrefixes(b) != [] && n.internal && Lacks(attrs, LOCAL_PREF))
    || (Nlri.Decode(Split(b).tail, false) != [] && Lacks(attrs, NEXT_HOP))
  }

  predicate AllDecodable(field: Bytes) {
    Nlri.WireSize(Nlri.Decode(field, false)) == |field|
  }

  lemma FirstExactly(attrs: seq<Attribute>, i: nat)
    requires i < |attrs|
    ensures First(attrs, i) <==> !Repeated(attrs, i)
  {
    if !First(attrs, i) {
      var j :| 0 <= j < i && attrs[j].kind == attrs[i].kind;
      assert attrs[..i][j] in attrs[..i];
    }
  }

  lemma FatalAtExactly(attrs: seq<Attribute>, i: nat, n: Negotiated)
    requires i < |attrs|
    ensures FatalAt(attrs, i, n).Some? <==> EndsSession(attrs, i, n)
  {
    FirstExactly(attrs, i);
    FatalExactly(attrs[i], n);
  }

  lemma FatalSomewhere(attrs: seq<Attribute>, n: Negotiated)
    ensures FirstFatal(attrs, 0, n) < |attrs| <==> exists i :: 0 <= i < |attrs| && EndsSession(attrs, i, n)
  {
    var k := FirstFatal(attrs, 0, n);
    if k < |attrs| {
      FatalAtExactly(attrs, k, n);
    }
    if i :| 0 <= i < |attrs| && EndsSession(attrs, i, n) {
      FatalAtExactly(attrs, i, n);
    }
  }

  lemma SeverityAtExactly(attrs: seq<Attribute>, i: nat, n: Negotiated)
    requires i < |attrs| && FatalAt(attrs, i, n).None?
    ensures SeverityAt(attrs, i, n) == TreatAsWithdraw <==> Withdraws(attrs, i, n)
    ensures SeverityAt(attrs, i, n) == Valid <==> Impeccable(attrs, i, n)
  {
    FirstExactly(attrs, i);
    if First(attrs, i) {
      SeverityExactly(attrs[i], n);
      FatalExactly(attrs[i], n);
    }
  }

  lemma WorstExactly(attrs: seq<Attribute>, n: Negotiated)
    requires FirstFatal(attrs, 0, n) == |attrs|
    ensures Worst(attrs, |attrs|, n) == TreatAsWithdraw
            <==> exists i :: 0 <= i < |attrs| && Withdraws(attrs, i, n)
    ensures Worst(attrs, |attrs|, n) == Valid <==> forall i :: 0 <= i < |attrs| ==> Impeccable(attrs, i, n)
  {
    forall i | 0 <= i < |attrs|
      ensures SeverityAt(attrs, i, n) == TreatAsWithdraw <==> Withdraws(attrs, i, n)
      ensures SeverityAt(attrs, i, n) == Valid <==> Impeccable(attrs, i, n)
    {
      assert FatalAt(attrs, i, n).None?;
      SeverityAtExactly(attrs, i, n);
    }
    StrongestExactly(attrs, n);
  }

  lemma StrongestExactly(attrs: seq<Attribute>, n: Negotiated)
    ensures Worst(attrs, |attrs|, n) == TreatAsWithdraw
            <==> exists i :: 0 <= i < |attrs| && SeverityAt(attrs, i, n) == TreatAsWithdraw
    ensures Worst(attrs, |attrs|, n) == Valid
            <==> forall i :: 0 <= i < |attrs| ==> SeverityAt(attrs, i, n) == Valid
  {
  }

  lemma LacksExactly(attrs: seq<Attribute>, kind: octet)
    ensures Lacks(attrs, kind) <==> kind !in Kinds(attrs)
  {
  }

  /** With no fatal attribute, something is announced exactly when the decoder finds a prefix. */
  lemma ReachableExactly(b: Bytes, n: Negotiated)
    requires Framed(b) && AllDecodable(Split(b).tail)
    requires FirstFatal(Parse(Split(b).attributes).0, 0, n) == |Parse(Split(b).attributes).0|
    ensures Reachable(Split(b).tail, Parse(Split(b).attributes).0) <==> UpdatePrefixes(b) != []
    ensures Split(b).tail != [] <==> Nlri.Decode(Split(b).tail, false) != []
  {
    var attrs := Parse(Split(b).attributes).0;
    AcceptedIsSound(attrs, n);
    SoundListDecodes(attrs);
    Nlri.FitsMeansFullyDecoded(Split(b).tail, false);
    Nlri.FitsEmpty(Split(b).tail, false);
  }

  lemma AbsentExactly(b: Bytes, n: Negotiated)
    requires Framed(b) && AllDecodable(Split(b).tail)
    requires FirstFatal(Parse(Split(b).attributes).0, 0, n) == |Parse(Split(b).attributes).0|
    ensures MissingMandatory(Split(b).tail, Parse(Split(b).attributes).0, n) <==> Absent(b, n)
  {
    var attrs := Parse(Split(b).attributes).0;
    ReachableExactly(b, n);
    LacksExactly(attrs, ORIGIN);
    LacksExactly(attrs, AS_PATH);
    LacksExactly(attrs, NEXT_HOP);
    LacksExactly(attrs, LOCAL_PREF);
  }

  /** When the routes of an UPDATE without fatal attributes are withdrawn. */
  ghost predicate MustWithdraw(b: Bytes, n: Negotiated)
    requires Framed(b)
  {
    var p := Parse(Split(b).attributes);
    p.1.Broken? || Absent(b, n) || exists i :: 0 <= i < |p.0| && Withdraws(p.0, i, n)
  }

  /** Why an UPDATE ends the session, wherever its parts are intact. */
  ghost predicate Unrecoverable(b: Bytes, n: Negotiated)
    requires Framed(b)
  {
    var p := Parse(Split(b).attributes);
    || (exists i :: 0 <= i < |p.0| && EndsSession(p.0, i, n))
    || p.1 == Broken(true)
    || (MustWithdraw(b, n) && UpdatePrefixes(b) == [])
  }

  lemma RecoveryExactly(b: Bytes, n: Negotiated)
    requires Framed(b) && AllDecodable(Split(b).tail)
    requires FirstFatal(Parse(Split(b).attributes).0, 0, n) == |Parse(Split(b).attributes).0|
    ensures var p := Parse(Split(b).attributes);
            Attributes.Recovery(Split(b).tail, p.0, p.1, n) == TreatAsWithdraw <==> MustWithdraw(b, n)
  {
    AbsentExactly(b, n);
    WorstExactly(Parse(Split(b).attributes).0, n);
  }

  lemma JudgedExactly(b: Bytes, n: Negotiated)
    requires Framed(b) && AllDecodable(Split(b).tail)
    ensures var p := Parse(Split(b).attributes);
            Judge(Split(b).tail, p.0, p.1, n).Reject? <==> Unrecoverable(b, n)
  {
    var attrs := Parse(Split(b).attributes).0;
    FatalSomewhere(attrs, n);
    if FirstFatal(attrs, 0, n) == |attrs| {
      RecoveryExactly(b, n);
      ReachableExactly(b, n);
    }
  }

  /** Every UPDATE: the session ends if and only if its fields do not fit together, a prefix field cannot be
      decoded to its end, some attribute is fatal or an attribute 14 or 15 is cut off, or routes would have to
      be withdrawn that cannot be named. */
  lemma RejectedExactly(b: Bytes, n: Negotiated)
    ensures UpdateVerdict(b, n).Reject?
            <==> !Framed(b) || !AllDecodable(Split(b).withdrawn) || !AllDecodable(Split(b).tail)
                 || Unrecoverable(b, n)
  {
    if Framed(b) {
      Nlri.FitsMeansFullyDecoded(Split(b).withdrawn, false);
      Nlri.FitsMeansFullyDecoded(Split(b).tail, false);
      if AllDecodable(Split(b).tail) {
        JudgedExactly(b, n);
      }
    }
  }

  // ---- Error codes -----------------------------------------------------------------------------------

  predicate LacksOctets(b: Bytes) {
    |b| < 4 || U16(b) + 4 > |b|
  }

  /** The error of a fatal attribute (sections 5.3 and 7 of RFC 7606 leave these to the session). */
  ghost predicate FatalError(attrs: seq<Attribute>, i: nat, n: Negotiated, e: ProtocolError)
    requires i < |attrs|
  {
    var a := attrs[i];
    if !First(attrs, i) then e == ProtocolError(3, 1, [])
    else if !Multiprotocol(a.kind) then e.code == 3 && e.subcode == 2 && (Encodable(a) ==> e.data == EncodeOne(a))
    else if Allowed(OptionalNonTransitive, a.flags) && exists r :: StandsFor(a, r) then e == ProtocolError(3, 10, [])
    else e == ProtocolError(3, 9, [])
  }

  lemma FatalErrorIs(attrs: seq<Attribute>, i: nat, n: Negotiated)
    requires i < |attrs| && FatalAt(attrs, i, n).Some?
    ensures FatalError(attrs, i, n, FatalAt(attrs, i, n).value)
  {
    FirstExactly(attrs, i);
    if First(attrs, i) {
      FatalExactly(attrs[i], n);
      if Multiprotocol(attrs[i].kind) {
        MultiprotocolExactly(attrs[i]);
      }
    }
  }

  /** Every refused UPDATE: the error, in the order the reasons are looked for. */
  lemma ErrorExactly(b: Bytes, n: Negotiated)
    requires UpdateVerdict(b, n).Reject?
    ensures var e := UpdateVerdict(b, n).error;
            if LacksOctets(b) then e == ProtocolError(3, 1, [])
            else if !AllDecodable(b[2..2 + U16(b)]) then e == ProtocolError(3, 10, [])
            else if !Framed(b) then e == ProtocolError(3, 1, [])
            else if !AllDecodable(Split(b).tail) then e == ProtocolError(3, 10, [])
            else
              var p := Parse(Split(b).attributes);
              if exists i :: 0 <= i < |p.0| && EndsSession(p.0, i, n) then
                exists i :: 0 <= i < |p.0| && EndsSession(p.0, i, n) && FatalError(p.0, i, n, e)
                            && forall j :: 0 <= j < i ==> !EndsSession(p.0, j, n)
              else if p.1 == Broken(true) then e == ProtocolError(3, 9, [])
              else e == ProtocolError(3, 1, [])
  {
    if !LacksOctets(b) {
      Nlri.FitsMeansFullyDecoded(b[2..2 + U16(b)], false);
      if Framed(b) {
        Nlri.FitsMeansFullyDecoded(Split(b).tail, false);
        FatalErrorFound(Parse(Split(b).attributes).0, n);
      }
    }
  }

  lemma FatalErrorFound(attrs: seq<Attribute>, n: Negotiated)
    ensures FirstFatal(attrs, 0, n) == |attrs| ==> !exists i :: 0 <= i < |attrs| && EndsSession(attrs, i, n)
    ensures var k := FirstFatal(attrs, 0, n);
            k < |attrs| ==> EndsSession(attrs, k, n) && FatalError(attrs, k, n, FatalAt(attrs, k, n).value)
                            && forall j :: 0 <= j < k ==> !EndsSession(attrs, j, n)
  {
    var k := FirstFatal(attrs, 0, n);
    FatalSomewhere(attrs, n);
    forall j | 0 <= j < k
      ensures !EndsSession(attrs, j, n)
    {
      FatalAtExactly(attrs, j, n);
    }
    if k < |attrs| {
      FatalAtExactly(attrs, k, n);
      FatalErrorIs(attrs, k, n);
    }
  }

  /** Every accepted UPDATE: its action, told by what it holds and lacks. */
  lemma ActionExactly(b: Bytes, n: Negotiated)
    requires UpdateVerdict(b, n).Accept?
    ensures Framed(b)
    ensures UpdateVerdict(b, n).action == TreatAsWithdraw <==> MustWithdraw(b, n)
    ensures var attrs := Parse(Split(b).attributes).0;
            UpdateVerdict(b, n).action == Valid
            <==> !MustWithdraw(b, n) && forall i :: 0 <= i < |attrs| ==> Impeccable(attrs, i, n)
  {
    Nlri.FitsMeansFullyDecoded(Split(b).tail, false);
    RecoveryExactly(b, n);
    WorstExactly(Parse(Split(b).attributes).0, n);
  }

  /** Without a mandatory attribute the routes of an accepted UPDATE are withdrawn. */
  lemma AbsenceWithdraws(b: Bytes, n: Negotiated, kind: octet)
    requires UpdateVerdict(b, n).Accept? && Framed(b) && Lacks(Parse(Split(b).attributes).0, kind)
    requires || ((kind == ORIGIN || kind == AS_PATH) && UpdatePrefixes(b) != [])
             || (kind == LOCAL_PREF && n.internal && UpdatePrefixes(b) != [])
             || (kind == NEXT_HOP && Nlri.Decode(Split(b).tail, false) != [])
    ensures UpdateVerdict(b, n) == Accept(TreatAsWithdraw)
  {
    ActionExactly(b, n);
  }
}
