/** A run from a kernel route to a peer's table: quiescent states with routes to export are reachable. */
module Quiescence {
  import opened Base
  import opened Net
  import opened Protocol
  import opened Netlink
  import opened Dump
  import opened Freshness
  import Config
  import Plans
  import R = Reconciler
  import RL = ReconcilerLaws
  import W = Writer
  import WL = WriterLaws
  import G = RefreshGap
  import opened EndToEnd

  // ---- Two routes, one table, one peer -----------------------------------------------------------

  const ROUTE4: Prefix := Prefix(false, [198, 51, 100, 0], 24)
  const ROUTE6: Prefix := Prefix(true, [32, 1, 13, 184, 0, 0, 0, 0, 0, 0, 0, 0, 0, 0, 0, 0], 32)
  const NEXT_HOP6: Bytes := [32, 1, 13, 184, 0, 0, 0, 0, 0, 0, 0, 0, 0, 0, 0, 1]
  const ROUTES: set<Prefix> := {ROUTE4, ROUTE6}

  function RouteOf(v6: bool): Prefix {
    if v6 then ROUTE6 else ROUTE4
  }

  const RULES: seq<Config.Rule> :=
    [Config.Rule(Config.Permit, ROUTE4, None, None), Config.Rule(Config.Permit, ROUTE6, None, None)]

  const PEER: Config.Peer :=
    Config.Peer([192, 0, 2, 1], 65002, "all", 90, true, true, None, Some(NEXT_HOP6), None)

  const CFG: Config.Config :=
    Config.Config(65001, 1, true, [254], 10, 1000, map["all" := Config.Acl(RULES)], [PEER])

  const SESSION: W.Context := W.Context(CFG, PEER, Negotiated(2, 90, true, false, true, true))

  function SlotOf(v6: bool): R.Slot {
    R.Slot(v6, 254)
  }

  ghost predicate Ready() {
    RL.Usable(CFG) && R.Slots(CFG) == [SlotOf(false), SlotOf(true)]
  }

  lemma Usable()
    ensures Ready() && Opens(CFG, SESSION)
  {
    assert PEER in CFG.peers;
    assert NEXT_HOP6[15] != Zeros(16)[15];
    assert Config.ValidPeer(CFG, PEER);
    assert R.TableSlots([254], false) == [SlotOf(false)] && R.TableSlots([254], true) == [SlotOf(true)];
  }

  lemma RouteTruncated(v6: bool)
    ensures Truncated(RouteOf(v6)) && Trunc(RouteOf(v6)) == RouteOf(v6)
  {
    var a := RouteOf(v6).addr;
    assert Network(a, RouteOf(v6).bits) == a;
  }

  lemma RoutePermitted(v6: bool)
    ensures Config.Permits(RULES, RouteOf(v6))
  {
    var i := if v6 then 1 else 0;
    assert Config.Matches(RULES[i], RouteOf(v6));
    assert v6 ==> !Config.Matches(RULES[0], RouteOf(v6));
    assert Config.FirstMatch(RULES, RouteOf(v6), i);
  }

  // ---- The kernel's answers, with the flags of a filtered multipart dump --------------------------

  ghost function RouteRecord(v6: bool): Bytes {
    Record(RouteOf(v6), 254, [RouteAttribute(1, RouteOf(v6).addr)])
  }

  ghost function Answering(v6: bool, seqno: nat): seq<Message> {
    [Message(24, 0x22, seqno, RouteRecord(v6)), Message(3, 0x22, seqno, [0, 0, 0, 0])]
  }

  lemma RecordSize(v6: bool)
    ensures |RouteRecord(v6)| < 100
  {
    var attrs := [RouteAttribute(1, RouteOf(v6).addr)];
    assert attrs[1..] == [] && EncodeAttributes(attrs[1..]) == [];
    assert |EncodeAttributes(attrs)| <= 23;
  }

  lemma RecordExports(v6: bool)
    ensures Route(RouteRecord(v6), [254]) == Export(RouteOf(v6))
  {
    var f, attrs := Found(254, None), [RouteAttribute(1, RouteOf(v6).addr)];
    assert attrs[1..] == [];
    assert TakeAll(f, attrs, Width(v6)) == Some(Found(254, Some(RouteOf(v6).addr)));
    RecordMeans(RouteOf(v6), 254, attrs, 254, [254]);
    RouteTruncated(v6);
  }

  /** A datagram that answers a request. */
  ghost predicate Answers(d: Bytes, v6: bool, seqno: nat) {
    d != [] && ParseMessages(d) == (Answering(v6, seqno), true)
  }

  lemma Datagram(v6: bool, seqno: nat) returns (d: Bytes)
    requires seqno < TWO32
    ensures Answers(d, v6, seqno)
  {
    RecordSize(v6);
    assert forall m <- Answering(v6, seqno) :: Netlink.Encodable(m);
    d := Netlink.Pack(Answering(v6, seqno), false);
    ParseOfPack(Answering(v6, seqno), false);
  }

  lemma AnswerHolds(v6: bool, seqno: nat)
    ensures var ms := Answering(v6, seqno);
            RecordsOf(ms) == {RouteRecord(v6)} && HasRoute(ms) && HasEnd(ms)
  {
    var ms := Answering(v6, seqno);
    assert ms[0] in ms && ms[1] in ms;
    assert Ends(ms[1]);
  }

  lemma AnswerAcceptable(q: Request, v6: bool)
    requires q.tables == [254]
    ensures Acceptable(q, false, Answering(v6, q.seqno))
  {
    RecordExports(v6);
    var ms := Answering(v6, q.seqno);
    assert Admissible(q, ms[0]) && Admissible(q, ms[1]);
  }

  lemma AnswerRead(d: Bytes, v6: bool, seqno: nat, found: set<Prefix>)
    requires Answers(d, v6, seqno) && |found + {RouteOf(v6)}| <= 10 && |found| <= 10
    ensures OnDatagram(Request([254], 10, seqno), Progress(found, false, false), d)
            == Going(Progress(found + {RouteOf(v6)}, true, true))
  {
    var q := Request([254], 10, seqno);
    AnswerHolds(v6, seqno);
    AnswerAcceptable(q, v6);
    RecordExports(v6);
    ReadAsMeant(q, Progress(found, false, false), d);
    OneEligible(RouteRecord(v6), [254], RouteOf(v6));
  }

  lemma ReadAsMeant(q: Request, p: Progress, d: Bytes)
    requires WellFramed(d) && |p.found| <= q.limit
    ensures OnDatagram(q, p, d) == Meaning(q, p, ParseMessages(d).0)
  {
    MessagesMean(q, p, ParseMessages(d).0);
  }

  lemma OneEligible(record: Bytes, tables: seq<nat>, prefix: Prefix)
    requires Route(record, tables) == Export(prefix)
    ensures Eligible({record}, tables) == {prefix}
  {
    assert forall r <- {record} :: Route(r, tables).prefix == prefix;
  }

  // ---- The reconciler's part of the run --------------------------------------------------------------

  datatype Run = Run(ss: seq<System>, ls: seq<Label>)

  ghost predicate Runs(r: Run)
    requires RL.Usable(CFG)
  {
    IsRun(CFG, r.ss, r.ls)
  }

  function Last(r: Run): System
    requires |r.ss| == |r.ls| + 1
  {
    r.ss[|r.ls|]
  }

  lemma Go(q: Run, l: Label, t: System) returns (r: Run)
    requires RL.Usable(CFG) && Runs(q) && Next(CFG, Last(q), l, t)
    ensures Runs(r) && Last(r) == t
  {
    r := Run(q.ss + [t], q.ls + [l]);
  }

  lemma Reconciles(q: Run, l: R.Label, t: R.State) returns (r: Run)
    requires RL.Usable(CFG) && Runs(q) && Last(q).session.Closed? && R.Next(CFG, Last(q).rec, l, t)
    ensures Runs(r) && Last(r) == System(t, Closed)
  {
    r := Go(q, Reconcile(l), System(t, Closed));
  }

  ghost function Tables(): map<R.Slot, set<Bytes>> {
    map[SlotOf(false) := {RouteRecord(false)}, SlotOf(true) := {RouteRecord(true)}]
  }

  ghost function At(pc: R.Pc, reply: R.Reply, slot: nat, progress: Progress, seqno: nat): R.State {
    R.State(R.Kernel(Tables(), 0, [], false, reply), R.Worker(pc, true, 0, 0, slot, progress, false, seqno),
            Status(Some(0), false), W.Channel(map[], 0), 0)
  }

  const FRESH: Progress := Progress({}, false, false)

  function Silent(v6: bool): R.Reply {
    R.Reply(SlotOf(v6), {}, false, false, [])
  }

  ghost function Sent(v6: bool, out: seq<Bytes>): R.Reply {
    R.Reply(SlotOf(v6), {RouteRecord(v6)}, false, true, out)
  }

  lemma Begins() returns (r: Run)
    requires RL.Usable(CFG)
    ensures Runs(r) && Last(r) == System(At(R.Draining(R.LoopHead, QUIET), Silent(false), 0, FRESH, 0), Closed)
  {
    r := Run([System(At(R.Draining(R.LoopHead, QUIET), Silent(false), 0, FRESH, 0), Closed)], []);
  }

  lemma ObserveStep()
    requires RL.Usable(CFG)
    ensures R.WorkerStep(CFG, At(R.Drained(R.LoopHead, QUIET), Silent(false), 0, FRESH, 0), R.Observe,
                         At(R.Decide, Silent(false), 0, FRESH, 0))
  {
  }

  lemma Dirty() returns (r: Run)
    requires Ready()
    ensures Runs(r) && Last(r) == System(At(R.NextSlot, Silent(false), 0, FRESH, 0), Closed)
  {
    r := Begins();
    ObserveStep();
    r := Reconciles(r, R.StopDraining, At(R.Drained(R.LoopHead, QUIET), Silent(false), 0, FRESH, 0));
    r := Reconciles(r, R.Observe, At(R.Decide, Silent(false), 0, FRESH, 0));
    r := Reconciles(r, R.StartDump, At(R.NextSlot, Silent(false), 0, FRESH, 0));
  }

  lemma EmitStep(d: Bytes, v6: bool, slot: nat, progress: Progress, seqno: nat)
    requires Answers(d, v6, seqno)
    ensures R.KernelStep(CFG, At(R.Receiving, Silent(v6), slot, progress, seqno), R.Emit(d),
                         At(R.Receiving, Sent(v6, [d]), slot, progress, seqno))
  {
    AnswerHolds(v6, seqno);
    assert R.Carried(d) == {RouteRecord(v6)} && R.Final(d);
    assert {} + {RouteRecord(v6)} == {RouteRecord(v6)} && Silent(v6).out + [d] == [d];
  }

  lemma ReadStep(d: Bytes, v6: bool, slot: nat, found: set<Prefix>, seqno: nat)
    requires RL.Usable(CFG) && Answers(d, v6, seqno) && |found + {RouteOf(v6)}| <= 10 && |found| <= 10
    ensures R.WorkerStep(CFG, At(R.Receiving, Sent(v6, [d]), slot, Progress(found, false, false), seqno), R.ReadDump,
                         At(R.NextSlot, Sent(v6, []), slot + 1, Progress(found + {RouteOf(v6)}, true, true), seqno))
  {
    AnswerRead(d, v6, seqno, found);
    assert Sent(v6, [d]).out[1..] == [];
    var w := At(R.Receiving, Sent(v6, [d]), slot, Progress(found, false, false), seqno).worker;
    assert R.DumpRequest(CFG, w) == Request([254], 10, seqno);
  }

  lemma RequestStep(v6: bool, before: R.Reply, progress: Progress)
    requires Ready() && before.out == []
    ensures var i := if v6 then 1 else 0;
            R.WorkerStep(CFG, At(R.NextSlot, before, i, progress, i), R.RequestSlot,
                         At(R.Draining(R.Round, QUIET), Silent(v6), i, Progress(progress.found, false, false), i + 1))
  {
  }

  /** From a request to the moment the worker waits for its answer. */
  lemma Asks(q: Run, v6: bool, before: R.Reply, progress: Progress) returns (r: Run)
    requires Ready() && Runs(q) && before.out == []
    requires Last(q) == System(At(R.NextSlot, before, if v6 then 1 else 0, progress, if v6 then 1 else 0), Closed)
    ensures Runs(r)
    ensures var w := At(R.Receiving, Silent(v6), if v6 then 1 else 0, Progress(progress.found, false, false),
                        if v6 then 2 else 1);
            Last(r) == System(w, Closed)
  {
    var i, n, p := if v6 then 1 else 0, if v6 then 2 else 1, Progress(progress.found, false, false);
    RequestStep(v6, before, progress);
    r := Reconciles(q, R.RequestSlot, At(R.Draining(R.Round, QUIET), Silent(v6), i, p, n));
    r := Reconciles(r, R.StopDraining, At(R.Drained(R.Round, QUIET), Silent(v6), i, p, n));
    r := Reconciles(r, R.RoundEvents, At(R.Receiving, Silent(v6), i, p, n));
  }

  /** The dump of one family. */
  lemma Dumps(q: Run, v6: bool, before: R.Reply, progress: Progress) returns (r: Run)
    requires Ready() && Runs(q) && before.out == []
    requires |progress.found + {RouteOf(v6)}| <= 10 && |progress.found| <= 10
    requires Last(q) == System(At(R.NextSlot, before, if v6 then 1 else 0, progress, if v6 then 1 else 0), Closed)
    ensures Runs(r)
    ensures var w := At(R.NextSlot, Sent(v6, []), if v6 then 2 else 1,
                        Progress(progress.found + {RouteOf(v6)}, true, true), if v6 then 2 else 1);
            Last(r) == System(w, Closed)
  {
    var i, n, p := if v6 then 1 else 0, if v6 then 2 else 1, Progress(progress.found, false, false);
    r := Asks(q, v6, before, progress);
    var d := Datagram(v6, n);
    EmitStep(d, v6, i, p, n);
    r := Reconciles(r, R.Emit(d), At(R.Receiving, Sent(v6, [d]), i, p, n));
    ReadStep(d, v6, i, progress.found, n);
    r := Reconciles(r, R.ReadDump,
                    At(R.NextSlot, Sent(v6, []), i + 1, Progress(progress.found + {RouteOf(v6)}, true, true), n));
  }

  const FULL: Progress := Progress(ROUTES, true, true)

  lemma Read() returns (r: Run)
    requires Ready()
    ensures Runs(r) && Last(r) == System(At(R.NextSlot, Sent(true, []), 2, FULL, 2), Closed)
  {
    r := Dirty();
    var four: set<Prefix> := {ROUTE4};
    assert {} + {RouteOf(false)} == four && |four| == 1;
    r := Dumps(r, false, Silent(false), FRESH);
    assert four + {RouteOf(true)} == ROUTES && |ROUTES| <= 2;
    r := Dumps(r, true, Sent(false, []), Progress(four, true, true));
  }

  /** What the worker publishes. */
  ghost function Published(): R.State
    requires RL.Usable(CFG)
  {
    R.State(R.Kernel(Tables(), 0, [], false, Sent(true, [])),
            R.Worker(R.Draining(R.LoopHead, QUIET), false, 1000, 60000, 2, FULL, false, 2),
            Status(None, false), W.Channel(Filter(CFG, ROUTES), 1), 0)
  }

  lemma Publishes() returns (r: Run)
    requires Ready()
    ensures Runs(r) && Last(r) == System(Published(), Closed)
  {
    r := Read();
    r := Reconciles(r, R.FinishSlots, At(R.Draining(R.EndOfDump, QUIET), Sent(true, []), 2, FULL, 2));
    r := Reconciles(r, R.StopDraining, At(R.Drained(R.EndOfDump, QUIET), Sent(true, []), 2, FULL, 2));
    r := Reconciles(r, R.EndEvents, At(R.Draining(R.AfterFilter, QUIET), Sent(true, []), 2, FULL, 2));
    r := Reconciles(r, R.StopDraining, At(R.Drained(R.AfterFilter, QUIET), Sent(true, []), 2, FULL, 2));
    PublishStep();
    r := Reconciles(r, R.Publish(1000, 60000), Published());
  }

  lemma PublishStep()
    requires Ready()
    ensures R.WorkerStep(CFG, At(R.Drained(R.AfterFilter, QUIET), Sent(true, []), 2, FULL, 2),
                         R.Publish(1000, 60000), Published())
  {
    FilteredRoutes();
  }

  // ---- The writer's part ----------------------------------------------------------------------------------

  /** Exports that hold just the two routes. */
  ghost predicate BothRoutes(ch: W.Channel) {
    W.ValidExports(ch.exports) && W.Desired(ch, "all") == ROUTES
  }

  lemma ExportsBothRoutes()
    requires RL.Usable(CFG)
    ensures BothRoutes(Published().channel)
  {
    RouteTruncated(false);
    RouteTruncated(true);
    RL.FilterValid(CFG, ROUTES);
    FilteredRoutes();
  }

  /** The list of the peer lets the given routes through. */
  ghost predicate LetsThrough(cfg: Config.Config, name: string, routes: set<Prefix>) {
    name in cfg.acls && forall p <- routes :: Config.Permits(cfg.acls[name].rules, p)
  }

  lemma FilterKeeps(cfg: Config.Config, name: string, routes: set<Prefix>)
    requires RL.Usable(cfg) && name in AclNames(cfg) && LetsThrough(cfg, name, routes)
    ensures name in Filter(cfg, routes) && Filter(cfg, routes)[name] == routes
  {
  }

  lemma RoutesLetThrough()
    ensures LetsThrough(CFG, "all", ROUTES)
  {
    RoutePermitted(false);
    RoutePermitted(true);
  }

  lemma FilteredRoutes()
    requires RL.Usable(CFG)
    ensures "all" in Filter(CFG, ROUTES) && Filter(CFG, ROUTES)["all"] == ROUTES
  {
    assert PEER in CFG.peers;
    RoutesLetThrough();
    FilterKeeps(CFG, "all", ROUTES);
  }

  /** The writer when its session opens. */
  ghost function Awake(ch: W.Channel): W.State {
    W.State(W.Local(W.Top, {}, ROUTES, {}, Plans.Plan([], [ROUTE4] + [ROUTE6]), W.Families(true, true),
                    ch.version, 0, 0, W.Keepalive(SESSION.n), []),
            ch, W.Refresh(W.NONE, false, false), 0)
  }

  lemma Starts(ch: W.Channel)
    requires BothRoutes(ch)
    ensures W.Init(SESSION, Awake(ch))
  {
    G.NothingQueues(Plans.ToWithdraw({}, ROUTES, SESSION.n));
    G.PairQueued(ROUTE4, ROUTE6, Plans.ToAdd({}, ROUTES, SESSION.n, {}));
  }

  /** A writer that sends both routes and goes to sleep. */
  lemma Writes(ch: W.Channel) returns (r: G.Trace)
    requires WL.Ready(SESSION) && BothRoutes(ch)
    ensures G.Runs(SESSION, r) && forall l <- r.ls :: OwnStep(l)
    ensures r.ss[0].channel == ch && r.ss[0].now == 0
    ensures G.Last(r).w.phase.Blocked? && G.Last(r).w.seen == ch.version
  {
    Starts(ch);
    r := G.Trace([Awake(ch)], []);
    r := SendsFirst(ch, r);
    r := SendsSecond(ch, r);
    r := G.PassHead(SESSION, r);
    var m;
    m, r := G.Finish(SESSION, r);
  }

  lemma SendsSecond(ch: W.Channel, q: G.Trace) returns (r: G.Trace)
    requires WL.Ready(SESSION) && G.Runs(SESSION, q) && (forall l <- q.ls :: OwnStep(l)) && q.ss[0] == Awake(ch)
    requires var w := Awake(ch).w.(advertised := {ROUTE4}, plan := Plans.Plan([], [ROUTE6]),
                                   stream := G.Last(q).w.stream);
             G.Last(q) == Awake(ch).(w := w)
    ensures G.Runs(SESSION, r) && (forall l <- r.ls :: OwnStep(l)) && r.ss[0] == Awake(ch)
    ensures var w := G.Last(r).w;
            && w.phase == W.Top && w.plan == Plans.EMPTY && w.eor == Awake(ch).w.eor && w.lastReplan == 0
            && w.nextKeepalive == W.Keepalive(SESSION.n) && w.seen == ch.version
            && G.Last(r) == Awake(ch).(w := w)
  {
    r := G.PassHead(SESSION, q);
    G.FamilyBatch(ROUTE6, []);
    assert [ROUTE6] + [] == [ROUTE6];
    r := G.SendOne(SESSION, r, false, ROUTE6, Plans.EMPTY);
  }

  lemma SendsFirst(ch: W.Channel, q: G.Trace) returns (r: G.Trace)
    requires WL.Ready(SESSION) && G.Runs(SESSION, q) && q == G.Trace([Awake(ch)], [])
    ensures G.Runs(SESSION, r) && (forall l <- r.ls :: OwnStep(l)) && r.ss[0] == Awake(ch)
    ensures var w := Awake(ch).w.(advertised := {ROUTE4}, plan := Plans.Plan([], [ROUTE6]),
                                  stream := G.Last(r).w.stream);
            G.Last(r) == Awake(ch).(w := w)
  {
    r := G.PassHead(SESSION, q);
    G.FamilyBatch(ROUTE4, [ROUTE6]);
    r := G.SendOne(SESSION, r, false, ROUTE4, Plans.Plan([], [ROUTE6]));
    assert {} + Elements([ROUTE4]) == {ROUTE4};
  }

  /** Labels of the writer's own steps, as far as this run has them. */
  predicate OwnStep(l: W.Label) {
    !l.Publish? && !l.RequestBit? && !l.RequestNotify? && !l.Tick?
  }

  lemma OwnStepIs(c: W.Context, s: W.State, l: W.Label, t: W.State)
    requires W.Next(c, s, l, t) && OwnStep(l)
    ensures W.WriterStep(c, s, l, t) && t.channel == s.channel && t.now == s.now
  {
  }

  ghost function With(rec: R.State, s: W.State): System {
    System(rec, Established(SESSION, s.w, s.refresh))
  }

  /** A run of the writer alone is one of the whole system, once a session is open. */
  lemma {:induction false} Lift(q: Run, rec: R.State, w: G.Trace, k: nat) returns (r: Run)
    requires RL.Usable(CFG) && Opens(CFG, SESSION) && Runs(q) && Last(q) == System(rec, Closed)
    requires G.Runs(SESSION, w) && k <= |w.ls| && forall l <- w.ls :: OwnStep(l)
    requires w.ss[0].channel == rec.channel && w.ss[0].now == rec.now
    ensures Runs(r) && Last(r) == With(rec, w.ss[k])
    ensures w.ss[k].channel == rec.channel && w.ss[k].now == rec.now
  {
    if k == 0 {
      r := Go(q, Open, With(rec, w.ss[0]));
    } else {
      r := Lift(q, rec, w, k - 1);
      var l := w.ls[k - 1];
      OwnStepIs(SESSION, w.ss[k - 1], l, w.ss[k]);
      assert View(With(rec, w.ss[k - 1])) == w.ss[k - 1] && View(With(rec, w.ss[k])) == w.ss[k];
      r := Go(r, Write(l), With(rec, w.ss[k]));
    }
  }

  /** Some run reaches a quiescent state in which the kernel holds an IPv4 and an IPv6 route to export, and
      the peer's table decoded from the bytes is exactly those two. */
  lemma QuiescentRun() returns (r: Run)
    ensures RL.Usable(CFG) && Runs(r) && Quiescent(Last(r))
    ensures RL.KernelPrefixes(CFG, Last(r).rec.kernel) == ROUTES
    ensures W.PeerRib(Last(r).session.w.stream, {}, Last(r).session.c.n) == W.Up(ROUTES)
  {
    Usable();
    r := Sends();
    TheKernelPrefixes();
    RoutesLetThrough();
    RoutesIntended(CFG, Last(r), ROUTES);
    KernelReachesPeer(CFG, r.ss, r.ls, |r.ls|);
  }

  /** The whole run: the writer of a new session sends what the worker has published. */
  lemma Sends() returns (r: Run)
    requires Ready() && Opens(CFG, SESSION)
    ensures Runs(r) && Quiescent(Last(r)) && Last(r).rec == Published() && Last(r).session.c == SESSION
  {
    r := Publishes();
    ExportsBothRoutes();
    var w := Writes(Published().channel);
    r := Lift(r, Published(), w, |w.ls|);
  }

  lemma RoutesIntended(cfg: Config.Config, s: System, routes: set<Prefix>)
    requires RL.Usable(cfg) && s.session.Established? && Opens(cfg, s.session.c)
    requires RL.KernelPrefixes(cfg, s.rec.kernel) == routes && LetsThrough(cfg, s.session.c.p.exportAcl, routes)
    requires s.session.c.n.ipv4 && s.session.c.n.ipv6
    ensures Intended(cfg, s) == routes
  {
  }

  lemma TheKernelPrefixes()
    requires Ready()
    ensures RL.KernelPrefixes(CFG, Published().kernel) == ROUTES
  {
    var k := Published().kernel;
    RecordExports(false);
    RecordExports(true);
    OneEligible(RouteRecord(false), [254], ROUTE4);
    OneEligible(RouteRecord(true), [254], ROUTE6);
    RL.InKernelPrefixes(CFG, k, false, 254, ROUTE4);
    RL.InKernelPrefixes(CFG, k, true, 254, ROUTE6);
  }
}
