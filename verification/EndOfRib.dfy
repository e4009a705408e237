/** End-of-RIB markers as the peer receives them: one per owed family, IPv4 first, and never otherwise. */
module EndOfRib {
  import opened Base
  import opened Net
  import opened Protocol
  import opened Attributes
  import opened Recovery
  import opened Writer
  import opened WriterLaws
  import opened WriterRuns
  import Agreement
  import Encoder
  import Nlri

  // ---- What the peer receives ------------------------------------------------------------------

  datatype Received = Received(kind: octet, body: Bytes)

  /** The messages at the front of a stream. */
  function Messages(s: Bytes): seq<Received>
    decreases |s|
  {
    match ReadFrame(s)
    case Got(kind, body, rest) => [Received(kind, body)] + Messages(rest)
    case _ => []
  }

  /** An UPDATE that says a family has been sent (section 2 of RFC 4724): for IPv4 one with empty fields, for
      IPv6 one whose only content is an MP_UNREACH_NLRI of AFI 2 and SAFI 1 without routes. */
  ghost predicate EndsFamily(m: Received, v6: bool) {
    && m.kind == UPDATE && Framed(m.body)
    && var f := Split(m.body);
       && f.withdrawn == [] && f.tail == []
       && if !v6 then f.attributes == []
          else
            && |Parse(f.attributes).0| == 1 && Parse(f.attributes).1 == Clean
            && Parse(f.attributes).0[0].kind == 15 && Parse(f.attributes).0[0].data == [0, 2, 1]
  }

  /** Exactly one message per owed family, IPv4 first. */
  ghost predicate EndsExactly(ms: seq<Received>, owed: Families) {
    && |ms| == (if owed.v4 then 1 else 0) + (if owed.v6 then 1 else 0)
    && (owed.v4 ==> EndsFamily(ms[0], false))
    && (owed.v6 ==> EndsFamily(ms[|ms| - 1], true))
  }

  lemma {:induction false} MessagesAppend(s: Bytes, more: Bytes, rib: set<Prefix>, n: Negotiated)
    requires PeerRib(s, rib, n).Up?
    ensures Messages(s + more) == Messages(s) + Messages(more)
    decreases |s|
  {
    if s == [] {
      assert s + more == more;
    } else {
      ReadFrameStable(s, more);
      var g := ReadFrame(s);
      MessagesAppend(g.rest, more, if g.kind == KEEPALIVE then rib else Applied(rib, g.body), n);
      Associative([Received(g.kind, g.body)], Messages(g.rest), Messages(more));
    }
  }

  lemma OneMessage(kind: octet, body: Bytes)
    requires |body| + 19 <= MAX_MESSAGE && LengthFitsKind(kind, |body| + 19)
    ensures Messages(Frame(kind, body)) == [Received(kind, body)]
  {
    ReadFrameOfFrame(kind, body, []);
    EmptyUnit(Frame(kind, body));
  }

  // ---- The markers ---------------------------------------------------------------------------------

  const WITHDRAW_NONE: Bytes := [0x80, 15, 3, 0, 2, 1]

  lemma MarkerAttribute()
    ensures Parse(WITHDRAW_NONE) == ([Attribute(0x80, 15, [0, 2, 1])], Clean)
  {
    var a := Attribute(0x80, 15, [0, 2, 1]);
    var attrs := [a];
    assert attrs[1..] == [] && Encode(attrs[1..]) == [];
    EmptyUnit(EncodeOne(a));
    assert EncodeOne(a) == WITHDRAW_NONE;
    assert Encode(attrs) == WITHDRAW_NONE;
    ParseOfEncode(attrs);
  }

  lemma MarkerFields(v6: bool)
    ensures var f := Fields([], if v6 then WITHDRAW_NONE else [], []);
            Framed(Encoder.EndOfRibBody(v6)) && Split(Encoder.EndOfRibBody(v6)) == f
  {
    var f := Fields([], if v6 then WITHDRAW_NONE else [], []);
    SplitOfJoin(f);
    assert Join(f) == Encoder.EndOfRibBody(v6);
  }

  lemma MarkerEnds(v6: bool)
    ensures EndsFamily(Received(UPDATE, Encoder.EndOfRibBody(v6)), v6)
  {
    MarkerFields(v6);
    MarkerAttribute();
  }

  lemma OneMarker(v6: bool)
    ensures var ms := Messages(Frame(UPDATE, Encoder.EndOfRibBody(v6)));
            |ms| == 1 && EndsFamily(ms[0], v6)
  {
    MarkerEnds(v6);
    OneMessage(UPDATE, Encoder.EndOfRibBody(v6));
  }

  lemma BothMarkers()
    ensures var ms := Messages(Frame(UPDATE, Encoder.EndOfRibBody(false)) + Frame(UPDATE, Encoder.EndOfRibBody(true)));
            |ms| == 2 && EndsFamily(ms[0], false) && EndsFamily(ms[1], true)
  {
    MarkerEnds(false);
    OneMarker(true);
    ReadFrameOfFrame(UPDATE, Encoder.EndOfRibBody(false), Frame(UPDATE, Encoder.EndOfRibBody(true)));
  }

  lemma MarkersEnd(owed: Families)
    ensures EndsExactly(Messages(Markers(owed)), owed)
  {
    EmptyUnit(Frame(UPDATE, Encoder.EndOfRibBody(false)));
    EmptyUnit(Frame(UPDATE, Encoder.EndOfRibBody(true)));
    if owed.v4 && owed.v6 {
      BothMarkers();
    } else if owed.v4 {
      OneMarker(false);
    } else if owed.v6 {
      OneMarker(true);
    }
  }

  /** In every run, what a marker step writes is received as exactly one marker per owed family. */
  lemma MarkersReceived(c: Context, ss: seq<State>, ls: seq<Label>, i: nat)
    requires Ready(c) && IsRun(c, ss, ls) && i < |ls| && ls[i] == SendMarkers
    ensures var before, after := ss[i].w.stream, ss[i + 1].w.stream;
            && before <= after && EndsExactly(Messages(after[|before|..]), ss[i].w.eor)
            && Messages(after) == Messages(before) + Messages(after[|before|..])
  {
    RunInvariant(c, ss, ls, i);
    assert Next(c, ss[i], ls[i], ss[i + 1]);
    MarkersEnd(ss[i].w.eor);
    MessagesAppend(ss[i].w.stream, Markers(ss[i].w.eor), {}, c.n);
    assert ss[i + 1].w.stream[|ss[i].w.stream|..] == Markers(ss[i].w.eor);
  }

  /** Until a session's first markers every negotiated family is owed one. */
  lemma {:induction false} InitiallyOwed(c: Context, ss: seq<State>, ls: seq<Label>, i: nat)
    requires IsRun(c, ss, ls) && i <= |ls| && (c.n.ipv4 || c.n.ipv6) && forall k :: 0 <= k < i ==> ls[k] != SendMarkers
    ensures ss[i].w.eor == Negotiates(c.n)
  {
    if i > 0 {
      InitiallyOwed(c, ss, ls, i - 1);
      OwedKept(c, ss[i - 1], ls[i - 1], ss[i]);
    }
  }

  /** The first markers of a session: one per negotiated family. */
  lemma SessionMarkers(c: Context, ss: seq<State>, ls: seq<Label>, i: nat)
    requires Ready(c) && IsRun(c, ss, ls) && i < |ls| && ls[i] == SendMarkers && (c.n.ipv4 || c.n.ipv6)
    requires forall k :: 0 <= k < i ==> ls[k] != SendMarkers
    ensures ss[i].w.stream <= ss[i + 1].w.stream
    ensures EndsExactly(Messages(ss[i + 1].w.stream[|ss[i].w.stream|..]), Families(c.n.ipv4, c.n.ipv6))
  {
    InitiallyOwed(c, ss, ls, i);
    MarkersReceived(c, ss, ls, i);
  }

  /** The markers that close a refresh: one per requested family. */
  lemma RefreshMarkers(c: Context, ss: seq<State>, ls: seq<Label>, i: nat, j: nat)
    requires Ready(c) && Replaying(c, ss, ls, i, j) && j < |ls| && ls[j] == SendMarkers
    ensures ss[j].w.stream <= ss[j + 1].w.stream
    ensures EndsExactly(Messages(ss[j + 1].w.stream[|ss[j].w.stream|..]), ss[i].refresh.pending)
  {
    ReplayPersists(c, ss, ls, i, j);
    MarkersReceived(c, ss, ls, j);
  }

  // ---- Every other message -------------------------------------------------------------------------------

  /** What each step of a run adds to what the peer receives: one KEEPALIVE, one UPDATE that withdraws or
      announces exactly its batch in order, the markers, or nothing. */
  ghost predicate Adds(c: Context, l: Label, owed: Families, ms: seq<Received>) {
    match l
    case SendKeepalive => ms == [Received(4, [])]
    case SendBatch(withdraw, batch) =>
      && |ms| == 1 && ms[0].kind == 2
      && UpdatePrefixes(ms[0].body) == (if withdraw then [] else batch)
      && WithdrawnPrefixes(ms[0].body) == (if withdraw then batch else [])
    case SendMarkers => EndsExactly(ms, owed)
    case _ => ms == []
  }

  lemma BatchReceived(c: Context, w: Local, withdraw: bool, batch: seq<Prefix>)
    requires Ready(c) && Mirror(c, w) && Encoder.Batch(batch) && (withdraw || Enabled(c.n, batch[0].v6))
    requires forall p <- batch :: Truncated(p)
    ensures Encoder.CanEncode(c.cfg, c.p, batch, withdraw)
    ensures var body := Encoder.UpdateBody(c.cfg, c.p, c.n, batch, withdraw);
            && Messages(w.stream + Frame(UPDATE, body)) == Messages(w.stream) + [Received(UPDATE, body)]
            && UpdatePrefixes(body) == (if withdraw then [] else batch)
            && WithdrawnPrefixes(body) == (if withdraw then batch else [])
  {
    Agreement.EncodedUpdateMeans(c.cfg, c.p, c.n, batch, withdraw);
    Nlri.TruncAllOfTruncated(batch);
    var body := Encoder.UpdateBody(c.cfg, c.p, c.n, batch, withdraw);
    MessagesAppend(w.stream, Frame(UPDATE, body), {}, c.n);
    OneMessage(UPDATE, body);
  }

  lemma StepAdds(c: Context, s: State, l: Label, t: State) returns (ms: seq<Received>)
    requires Ready(c) && Inv(c, s) && Next(c, s, l, t)
    ensures Messages(t.w.stream) == Messages(s.w.stream) + ms && Adds(c, l, s.w.eor, ms)
  {
    if l.SendKeepalive? {
      MessagesAppend(s.w.stream, Frame(KEEPALIVE, []), {}, c.n);
      OneMessage(KEEPALIVE, []);
      ms := [Received(4, [])];
    } else if l.SendBatch? {
      BatchEncodable(c, s.w);
      BatchReceived(c, s.w, l.withdraw, l.batch);
      ms := [Received(UPDATE, Encoder.UpdateBody(c.cfg, c.p, c.n, l.batch, l.withdraw))];
    } else if l.SendMarkers? {
      MessagesAppend(s.w.stream, Markers(s.w.eor), {}, c.n);
      MarkersEnd(s.w.eor);
      ms := Messages(Markers(s.w.eor));
    } else {
      ms := [];
      EmptyUnit(Messages(s.w.stream));
    }
  }

  /** In every run the peer receives, step by step, exactly that. */
  lemma ReceivedExactly(c: Context, ss: seq<State>, ls: seq<Label>, i: nat) returns (ms: seq<Received>)
    requires Ready(c) && IsRun(c, ss, ls) && i < |ls|
    ensures Messages(ss[i + 1].w.stream) == Messages(ss[i].w.stream) + ms && Adds(c, ls[i], ss[i].w.eor, ms)
  {
    RunInvariant(c, ss, ls, i);
    ms := StepAdds(c, ss[i], ls[i], ss[i + 1]);
  }

  // ---- No other message is a marker -------------------------------------------------------------------

  lemma EndsCarriesNothing(m: Received, v6: bool)
    requires EndsFamily(m, v6)
    ensures UpdatePrefixes(m.body) == [] && WithdrawnPrefixes(m.body) == []
  {
    if v6 {
      WithdrawsNothing(Parse(Split(m.body).attributes).0);
    } else {
      assert Parse(Split(m.body).attributes).0 == [];
    }
  }

  lemma WithdrawsNothing(attrs: seq<Attribute>)
    requires |attrs| == 1 && attrs[0].kind == 15 && attrs[0].data == [0, 2, 1]
    ensures ReachOf(attrs) == [] && UnreachOf(attrs) == []
  {
    var a := attrs[0];
    assert attrs[1..] == [] && a.data[3..] == [];
    assert ReachPrefixes(a) == [] && UnreachPrefixes(a) == [];
  }

  ghost function Count(ms: seq<Received>, v6: bool): nat {
    if ms == [] then 0 else (if EndsFamily(ms[0], v6) then 1 else 0) + Count(ms[1..], v6)
  }

  lemma {:induction false} CountAppend(a: seq<Received>, b: seq<Received>, v6: bool)
    ensures Count(a + b, v6) == Count(a, v6) + Count(b, v6)
  {
    if a == [] {
      assert a + b == b;
    } else {
      assert (a + b)[1..] == a[1..] + b;
      CountAppend(a[1..], b, v6);
    }
  }

  lemma OneCount(m: Received, v6: bool)
    ensures Count([m], v6) == if EndsFamily(m, v6) then 1 else 0
  {
    assert [m][1..] == [];
  }

  lemma ExactCount(ms: seq<Received>, owed: Families, v6: bool)
    requires EndsExactly(ms, owed)
    ensures Count(ms, v6) == if Has(owed, v6) then 1 else 0
  {
    if |ms| == 2 {
      assert ms == [ms[0]] + [ms[1]];
      CountAppend([ms[0]], [ms[1]], v6);
      OneCount(ms[0], v6);
      OneCount(ms[1], v6);
    } else if |ms| == 1 {
      assert ms == [ms[0]];
      OneCount(ms[0], v6);
    }
  }

  /** How many marker steps of a run owed a family. */
  ghost function Owed(ss: seq<State>, ls: seq<Label>, v6: bool, i: nat): nat
    requires i <= |ls| < |ss|
  {
    if i == 0 then 0
    else Owed(ss, ls, v6, i - 1) + if ls[i - 1] == SendMarkers && Has(ss[i - 1].w.eor, v6) then 1 else 0
  }

  /** How many of the messages a step adds are markers for a family. */
  lemma AddedCount(c: Context, l: Label, owed: Families, ms: seq<Received>, v6: bool)
    requires Adds(c, l, owed, ms) && (l.SendBatch? ==> l.batch != [])
    ensures Count(ms, v6) == if l == SendMarkers && Has(owed, v6) then 1 else 0
  {
    if l.SendMarkers? {
      ExactCount(ms, owed, v6);
    } else if l.SendKeepalive? || l.SendBatch? {
      assert ms == [ms[0]];
      OneCount(ms[0], v6);
      if EndsFamily(ms[0], v6) {
        EndsCarriesNothing(ms[0], v6);
      }
    }
  }

  lemma CountAt(c: Context, ss: seq<State>, ls: seq<Label>, v6: bool, i: nat)
    requires Ready(c) && IsRun(c, ss, ls) && i < |ls|
    ensures Added(ss, ls, v6, i)
  {
    var ms := ReceivedExactly(c, ss, ls, i);
    BatchNotEmpty(c, ss[i], ls[i], ss[i + 1]);
    AddedCount(c, ls[i], ss[i].w.eor, ms, v6);
    CountAppend(Messages(ss[i].w.stream), ms, v6);
  }

  lemma BatchNotEmpty(c: Context, s: State, l: Label, t: State)
    requires Next(c, s, l, t)
    ensures l.SendBatch? ==> l.batch != []
  {
  }

  /** The count grows by one exactly at a marker step that owed the family. */
  ghost predicate Added(ss: seq<State>, ls: seq<Label>, v6: bool, i: nat)
    requires i < |ls| < |ss|
  {
    Count(Messages(ss[i + 1].w.stream), v6)
    == Count(Messages(ss[i].w.stream), v6) + if ls[i] == SendMarkers && Has(ss[i].w.eor, v6) then 1 else 0
  }

  lemma {:induction false} AddUp(ss: seq<State>, ls: seq<Label>, v6: bool, i: nat)
    requires i <= |ls| < |ss| && ss[0].w.stream == [] && forall k :: 0 <= k < i ==> Added(ss, ls, v6, k)
    ensures Count(Messages(ss[i].w.stream), v6) == Owed(ss, ls, v6, i)
  {
    if i > 0 {
      AddUp(ss, ls, v6, i - 1);
      assert Added(ss, ls, v6, i - 1);
    }
  }

  /** In every run, the markers a peer has received for a family are exactly as many as the marker steps
      that owed it: no update, keepalive or other step is ever taken for one. */
  lemma MarkersExactly(c: Context, ss: seq<State>, ls: seq<Label>, v6: bool, i: nat)
    requires Ready(c) && IsRun(c, ss, ls) && i <= |ls|
    ensures Count(Messages(ss[i].w.stream), v6) == Owed(ss, ls, v6, i)
  {
    forall k | 0 <= k < i
      ensures Added(ss, ls, v6, k)
    {
      CountAt(c, ss, ls, v6, k);
    }
    AddUp(ss, ls, v6, i);
  }
}
