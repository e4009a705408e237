/** What every run of the writer keeps: the peer's table, the plan, refreshes and End-of-RIB. */
module WriterLaws {
  import opened Base
  import opened Net
  import opened Protocol
  import opened Plans
  import opened Writer
  import Agreement
  import Attributes
  import Encoder
  import Nlri
  import Recovery

  ghost predicate AllEnabled(s: set<Prefix>, n: Negotiated) {
    forall p <- s :: Enabled(n, p.v6)
  }

  ghost predicate Ready(c: Context) {
    Agreement.Session(c.cfg, c.p, c.n)
  }

  /** The queued plan is the one a fresh computation from what was written would give. */
  ghost predicate PlanCurrent(c: Context, w: Local) {
    PlanFor(w.plan, w.advertised, w.target, c.n, w.replay)
  }

  ghost predicate SetsOk(c: Context, w: Local) {
    && AllTruncated(w.advertised) && AllEnabled(w.advertised, c.n) && AllTruncated(w.target)
    && w.replay <= w.target && AllEnabled(w.replay, c.n)
    && (w.eor == NONE ==> w.replay == {})
    && Within(w.eor, Negotiates(c.n))
  }

  /** The peer's table, decoded from the bytes written, is what the writer believes it to be. */
  ghost predicate Mirror(c: Context, w: Local) {
    PeerRib(w.stream, {}, c.n) == Up(w.advertised)
  }

  ghost predicate PhaseOk(s: State) {
    && (s.w.phase == Mark || s.w.phase.Blocked? ==> s.w.plan == EMPTY)
    && (s.w.phase.Blocked? ==> s.w.eor == NONE)
  }

  ghost predicate ChannelOk(c: Context, s: State) {
    && ValidExports(s.channel.exports)
    && s.w.seen <= s.channel.version
    && (s.w.seen == s.channel.version ==> s.w.target == Desired(s.channel, c.p.exportAcl))
  }

  /** A blocked writer with requests pending has something that will wake it. */
  ghost predicate WillWake(s: State) {
    s.w.phase.Blocked? && s.refresh.pending != NONE ==> s.w.phase.armed || s.refresh.permit || s.refresh.notifying
  }

  ghost predicate Inv(c: Context, s: State) {
    && PlanCurrent(c, s.w) && SetsOk(c, s.w) && Mirror(c, s.w)
    && PhaseOk(s) && ChannelOk(c, s) && WillWake(s)
    && Within(s.refresh.pending, Negotiates(c.n))
  }

  // ---- Batches are encodable and mean what they should ------------------------------------

  lemma NextBatchFamily(plan: Plan)
    requires plan != EMPTY
    ensures var b := NextBatch(plan).1; forall i :: 0 <= i < |b| ==> b[i].v6 == b[0].v6
    ensures forall p <- NextBatch(plan).1 :: p in (if NextBatch(plan).0 then plan.withdrawals else plan.additions)
  {
  }

  /** Every batch meets all that the encoder asserts and expects. */
  lemma BatchEncodable(c: Context, w: Local)
    requires Ready(c) && PlanCurrent(c, w) && SetsOk(c, w) && w.plan != EMPTY
    ensures var b := NextBatch(w.plan);
            && Encoder.Batch(b.1) && (b.0 || Enabled(c.n, b.1[0].v6))
            && Encoder.CanEncode(c.cfg, c.p, b.1, b.0)
            && (forall p <- b.1 :: Truncated(p))
  {
    var b := NextBatch(w.plan);
    NextBatchFamily(w.plan);
    QueueMembers(w.plan.withdrawals, ToWithdraw(w.advertised, w.target, c.n));
    QueueMembers(w.plan.additions, ToAdd(w.advertised, w.target, c.n, w.replay));
    assert forall p <- b.1 :: Truncated(p) && (b.0 || Enabled(c.n, p.v6));
    forall p | p in b.1
      ensures WellFormed(p) && p.v6 == b.1[0].v6
    {
      var i :| 0 <= i < |b.1| && b.1[i] == p;
    }
    assert b.1[0] in b.1;
    Agreement.EncodedUpdateMeans(c.cfg, c.p, c.n, b.1, b.0);
  }

  lemma SentIsStep(c: Context, s: State, withdraw: bool, batch: seq<Prefix>, rest: Plan)
    requires s.w.phase == Send && s.w.plan != EMPTY && NextBatch(s.w.plan) == (withdraw, batch, rest)
    requires Encoder.CanEncode(c.cfg, c.p, batch, withdraw)
    ensures var message := Frame(UPDATE, Encoder.UpdateBody(c.cfg, c.p, c.n, batch, withdraw));
            WriterStep(c, s, SendBatch(withdraw, batch),
                       s.(w := Sent(s.w, withdraw, batch, rest).(stream := s.w.stream + message)))
  {
  }

  /** A valid UPDATE on the stream changes the peer's table by the routes it carries. */
  lemma RibAfterUpdate(stream: Bytes, rib: set<Prefix>, body: Bytes, n: Negotiated,
                       unreach: seq<Prefix>, reach: seq<Prefix>)
    requires PeerRib(stream, {}, n) == Up(rib)
    requires 4 <= |body| <= MAX_MESSAGE - 19
    requires Attributes.UpdateVerdict(body, n) == Attributes.Accept(Attributes.Valid)
    requires Recovery.WithdrawnPrefixes(body) == unreach && Recovery.UpdatePrefixes(body) == reach
    ensures PeerRib(stream + Frame(UPDATE, body), {}, n) == Up((rib - Elements(unreach)) + Elements(reach))
  {
    RibAfter(stream, UPDATE, body, n);
  }

  /** Writing a batch changes the peer's table exactly as it changes `advertised`. */
  lemma MirrorAfterBatch(c: Context, w: Local)
    requires Ready(c) && PlanCurrent(c, w) && SetsOk(c, w) && Mirror(c, w) && w.plan != EMPTY
    ensures var b := NextBatch(w.plan);
            Encoder.CanEncode(c.cfg, c.p, b.1, b.0)
            && PeerRib(w.stream + Frame(UPDATE, Encoder.UpdateBody(c.cfg, c.p, c.n, b.1, b.0)), {}, c.n)
               == Up(Sent(w, b.0, b.1, b.2).advertised)
  {
    var b := NextBatch(w.plan);
    BatchEncodable(c, w);
    UpdateMirrored(c, w, b.1, b.0);
  }

  lemma UpdateMirrored(c: Context, w: Local, batch: seq<Prefix>, withdraw: bool)
    requires Ready(c) && Mirror(c, w) && Encoder.Batch(batch) && (withdraw || Enabled(c.n, batch[0].v6))
    requires forall p <- batch :: Truncated(p)
    ensures Encoder.CanEncode(c.cfg, c.p, batch, withdraw)
    ensures PeerRib(w.stream + Frame(UPDATE, Encoder.UpdateBody(c.cfg, c.p, c.n, batch, withdraw)), {}, c.n)
            == Up(if withdraw then w.advertised - Elements(batch) else w.advertised + Elements(batch))
  {
    Agreement.EncodedUpdateMeans(c.cfg, c.p, c.n, batch, withdraw);
    Nlri.TruncAllOfTruncated(batch);
    var body := Encoder.UpdateBody(c.cfg, c.p, c.n, batch, withdraw);
    RibAfterUpdate(w.stream, w.advertised, body, c.n,
                   if withdraw then batch else [], if withdraw then [] else batch);
    OnlyOneSide(w.advertised, batch);
  }

  lemma OnlyOneSide<T>(a: set<T>, b: seq<T>)
    ensures (a - Elements(b)) + Elements([]) == a - Elements(b)
    ensures (a - Elements([])) + Elements(b) == a + Elements(b)
  {
    NoElements<T>();
  }

  lemma NoElements<T>()
    ensures Elements<T>([]) == {}
  {
  }

  lemma PlanAfterBatch(c: Context, w: Local)
    requires PlanCurrent(c, w) && SetsOk(c, w) && w.plan != EMPTY
    ensures var b := NextBatch(w.plan);
            PlanCurrent(c, Sent(w, b.0, b.1, b.2)) && SetsOk(c, Sent(w, b.0, b.1, b.2))
  {
    var b := NextBatch(w.plan);
    var t := Sent(w, b.0, b.1, b.2);
    var out, add := ToWithdraw(w.advertised, w.target, c.n), ToAdd(w.advertised, w.target, c.n, w.replay);
    QueueMembers(w.plan.withdrawals, out);
    QueueMembers(w.plan.additions, add);
    if b.0 {
      QueueSplit(w.plan.withdrawals, out, BatchSize(w.plan.withdrawals));
      assert ToWithdraw(t.advertised, t.target, c.n) == out - Elements(b.1);
      assert ToAdd(t.advertised, t.target, c.n, t.replay) == add;
    } else {
      QueueSplit(w.plan.additions, add, BatchSize(w.plan.additions));
      assert ToAdd(t.advertised, t.target, c.n, t.replay) == add - Elements(b.1);
      assert ToWithdraw(t.advertised, t.target, c.n) == out;
    }
  }

  /** An End-of-RIB marker leaves the peer's table alone. */
  lemma MarkerMirrored(stream: Bytes, rib: set<Prefix>, v6: bool, n: Negotiated)
    requires PeerRib(stream, {}, n) == Up(rib)
    ensures PeerRib(stream + Frame(UPDATE, Encoder.EndOfRibBody(v6)), {}, n) == Up(rib)
  {
    Agreement.EndOfRibMeans(v6, n);
    NoElements<Prefix>();
    RibAfterUpdate(stream, rib, Encoder.EndOfRibBody(v6), n, [], []);
  }

  lemma MirrorAfterMarkers(c: Context, w: Local)
    requires Mirror(c, w)
    ensures PeerRib(w.stream + Markers(w.eor), {}, c.n) == Up(w.advertised)
  {
    var first := if w.eor.v4 then Frame(UPDATE, Encoder.EndOfRibBody(false)) else [];
    var second := if w.eor.v6 then Frame(UPDATE, Encoder.EndOfRibBody(true)) else [];
    MarkerMirrored(w.stream, w.advertised, false, c.n);
    EmptyUnit(w.stream);
    assert PeerRib(w.stream + first, {}, c.n) == Up(w.advertised);
    MarkerMirrored(w.stream + first, w.advertised, true, c.n);
    EmptyUnit(w.stream + first);
    Associative(w.stream, first, second);
  }

  // ---- The invariant -------------------------------------------------------------------------

  lemma AdoptKeeps(c: Context, s: State, w: Local)
    requires Inv(c, s) && Adopted(c, s, w) && !w.phase.Blocked? && w.phase != Mark
    ensures Inv(c, s.(w := w))
  {
    assert AllTruncated(w.target);
  }

  lemma BatchKeeps(c: Context, s: State, l: Label, t: State)
    requires Ready(c) && Inv(c, s) && l.SendBatch? && WriterStep(c, s, l, t)
    ensures Inv(c, t)
  {
    MirrorAfterBatch(c, s.w);
    PlanAfterBatch(c, s.w);
  }

  lemma MarkersKeep(c: Context, s: State, t: State)
    requires Ready(c) && Inv(c, s) && WriterStep(c, s, SendMarkers, t)
    ensures Inv(c, t)
  {
    MirrorAfterMarkers(c, s.w);
    EmptyPlanMeans(c, s.w);
  }

  /** The writer's other steps move prefixes between no sets but `replay`. */
  lemma QuietKeeps(c: Context, s: State, l: Label, t: State)
    requires Inv(c, s) && WriterStep(c, s, l, t)
    requires !l.Adopt? && !l.WakeSnapshot? && !l.SendKeepalive? && !l.SendBatch? && !l.SendMarkers?
    ensures Inv(c, t)
  {
  }

  lemma KeepaliveKeeps(c: Context, s: State, t: State)
    requires Inv(c, s) && WriterStep(c, s, SendKeepalive, t)
    ensures Inv(c, t)
  {
    RibAfter(s.w.stream, KEEPALIVE, [], c.n);
  }

  /** Every step of the writer keeps the invariant. */
  lemma WriterKeeps(c: Context, s: State, l: Label, t: State)
    requires Ready(c) && Inv(c, s) && WriterStep(c, s, l, t)
    ensures Inv(c, t)
  {
    if l.Adopt? || l.WakeSnapshot? {
      AdoptKeeps(c, s, t.w);
      assert t == s.(w := t.w);
    } else if l.SendKeepalive? {
      KeepaliveKeeps(c, s, t);
    } else if l.SendBatch? {
      BatchKeeps(c, s, l, t);
    } else if l.SendMarkers? {
      MarkersKeep(c, s, t);
    } else {
      QuietKeeps(c, s, l, t);
    }
  }

  lemma EnvironmentKeeps(c: Context, s: State, l: Label, t: State)
    requires Inv(c, s) && EnvironmentStep(c, s, l, t)
    ensures Inv(c, t)
  {
  }

  lemma InitOk(c: Context, s: State)
    requires Init(c, s)
    ensures Inv(c, s)
  {
    assert AllTruncated(s.w.target);
  }

  /** An empty plan means the peer knows exactly the target, and no replay is outstanding. */
  lemma EmptyPlanMeans(c: Context, w: Local)
    requires PlanCurrent(c, w) && SetsOk(c, w) && w.plan == EMPTY
    ensures w.advertised == set p | p in w.target && Enabled(c.n, p.v6)
    ensures w.replay == {}
  {
    QueueMembers(w.plan.withdrawals, ToWithdraw(w.advertised, w.target, c.n));
    QueueMembers(w.plan.additions, ToAdd(w.advertised, w.target, c.n, w.replay));
    assert forall p <- w.replay :: p in ToAdd(w.advertised, w.target, c.n, w.replay);
    assert forall p <- w.advertised :: p !in ToWithdraw(w.advertised, w.target, c.n);
    assert forall p <- w.target :: p !in ToAdd(w.advertised, w.target, c.n, w.replay);
  }
}
