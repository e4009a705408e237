/** A run in which a refresh skips a prefix: it left the target and came back before its withdrawal was sent. */
module RefreshGap {
  import opened Base
  import opened Net
  import opened Protocol
  import opened Plans
  import opened Writer
  import opened WriterLaws
  import opened WriterRuns
  import Encoder

  const ALL6: Prefix := Prefix(true, Zeros(16), 0)
  const ALL4: Prefix := Prefix(false, Zeros(4), 0)

  /** A run under construction. */
  datatype Trace = Trace(ss: seq<State>, ls: seq<Label>)

  ghost predicate Runs(c: Context, r: Trace) {
    IsRun(c, r.ss, r.ls)
  }

  function Last(r: Trace): State
    requires |r.ss| == |r.ls| + 1
  {
    r.ss[|r.ls|]
  }

  /** `r` continues `q` with the given labels. */
  ghost predicate Continues(q: Trace, r: Trace, more: seq<Label>) {
    && |q.ss| == |q.ls| + 1 && |r.ss| == |r.ls| + 1
    && q.ss <= r.ss && r.ls == q.ls + more
  }

  lemma Join(a: Trace, b: Trace, d: Trace, x: seq<Label>, y: seq<Label>)
    requires Continues(a, b, x) && Continues(b, d, y)
    ensures Continues(a, d, x + y)
  {
  }

  lemma Go(c: Context, q: Trace, l: Label, t: State) returns (r: Trace)
    requires Runs(c, q) && Next(c, Last(q), l, t)
    ensures Runs(c, r) && Continues(q, r, [l]) && Last(r) == t
  {
    r := Trace(q.ss + [t], q.ls + [l]);
  }

  // ---- Pieces of the run ---------------------------------------------------------------------

  const QUIET: seq<Label> := [KeepTarget, SkipRefresh, SkipKeepalive]

  /** The head of the loop when none of its checks fires. */
  lemma PassHead(c: Context, q: Trace) returns (r: Trace)
    requires Runs(c, q) && Last(q).w.phase == Top
    requires !MayAdopt(Last(q)) && !MayTakeRefresh(Last(q)) && !KeepaliveDue(c, Last(q))
    ensures Runs(c, r) && Continues(q, r, QUIET)
    ensures Last(r) == Last(q).(w := Last(q).w.(phase := Send))
  {
    var s := Last(q);
    var a := Go(c, q, KeepTarget, s.(w := s.w.(phase := RefreshCheck)));
    var b := Go(c, a, SkipRefresh, s.(w := s.w.(phase := KeepaliveCheck)));
    r := Go(c, b, SkipKeepalive, s.(w := s.w.(phase := Send)));
    Join(q, a, b, [KeepTarget], [SkipRefresh]);
    Join(q, b, r, [KeepTarget] + [SkipRefresh], [SkipKeepalive]);
  }

  /** Send a batch of one prefix. */
  lemma SendOne(c: Context, q: Trace, withdraw: bool, x: Prefix, rest: Plan) returns (r: Trace)
    requires Ready(c) && Runs(c, q) && Last(q).w.phase == Send && Last(q).w.plan != EMPTY
    requires NextBatch(Last(q).w.plan) == (withdraw, [x], rest)
    ensures Runs(c, r) && Continues(q, r, [SendBatch(withdraw, [x])])
    ensures Last(r) == Last(q).(w := Sent(Last(q).w, withdraw, [x], rest).(stream := Last(r).w.stream))
  {
    var s := Last(q);
    CanSendOne(c, q, withdraw, x, rest);
    SentIsStep(c, s, withdraw, [x], rest);
    var t := s.(w := Sent(s.w, withdraw, [x], rest).(
                  stream := s.w.stream + Frame(UPDATE, Encoder.UpdateBody(c.cfg, c.p, c.n, [x], withdraw))));
    r := Go(c, q, SendBatch(withdraw, [x]), t);
  }

  lemma CanSendOne(c: Context, q: Trace, withdraw: bool, x: Prefix, rest: Plan)
    requires Ready(c) && Runs(c, q) && Last(q).w.plan != EMPTY
    requires NextBatch(Last(q).w.plan) == (withdraw, [x], rest)
    ensures Encoder.CanEncode(c.cfg, c.p, [x], withdraw)
  {
    RunInvariant(c, q.ss, q.ls, |q.ls|);
    BatchEncodable(c, Last(q).w);
  }

  /** Nothing queued: write the markers and block. */
  lemma Finish(c: Context, q: Trace) returns (m: Trace, r: Trace)
    requires Runs(c, q) && Last(q).w.phase == Send && Last(q).w.plan == EMPTY
    ensures Runs(c, m) && Continues(q, m, [NothingQueued]) && Last(m) == Last(q).(w := Last(q).w.(phase := Mark))
    ensures Runs(c, r) && Continues(m, r, [SendMarkers])
    ensures Last(r) == Last(q).(w := Last(q).w.(eor := NONE, phase := Blocked(Last(q).refresh.pending != NONE),
                                                stream := Last(r).w.stream))
  {
    var s := Last(q);
    m := Go(c, q, NothingQueued, s.(w := s.w.(phase := Mark)));
    r := Go(c, m, SendMarkers, s.(w := s.w.(stream := s.w.stream + Markers(s.w.eor), eor := NONE,
                                            phase := Blocked(s.refresh.pending != NONE))));
  }

  lemma FamilyBatch(x: Prefix, rest: seq<Prefix>)
    requires rest == [] || rest[0].v6 != x.v6
    ensures BatchSize([x] + rest) == 1
    ensures ([x] + rest)[..1] == [x] && ([x] + rest)[1..] == rest
  {
    LeadingIs([x] + rest, x.v6, MAX_UPDATE_PREFIXES, 1);
  }

  lemma PairQueued(a: Prefix, b: Prefix, s: set<Prefix>)
    requires !a.v6 && b.v6 && s == {a, b}
    ensures Queues([a] + [b], s)
  {
    assert multiset([a] + [b]) == multiset{a, b};
    assert multiset(s) == multiset{a, b};
  }

  lemma NothingQueues(s: set<Prefix>)
    requires s == {}
    ensures Queues([], s)
  {
    assert multiset(s) == multiset{};
  }

  // ---- The states between the pieces ----------------------------------------------------------

  const BOTH: set<Prefix> := {ALL4, ALL6}

  /** The state after `k` snapshots, one every 100 ms, each adopted as it appears. */
  ghost function Stage(c: Context, k: nat, target: set<Prefix>, w: Local, refresh: Refresh): State {
    State(w.(target := target, seen := k, lastReplan := 100 * k, nextKeepalive := Keepalive(c.n)),
          Channel(map[c.p.exportAcl := target], k), refresh, 100 * k)
  }

  ghost function Here(phase: Phase, advertised: set<Prefix>, replay: set<Prefix>, plan: Plan, eor: Families,
                      nextRefresh: nat, stream: Bytes): Local {
    Local(phase, advertised, {}, replay, plan, eor, 0, 0, nextRefresh, 0, stream)
  }

  const IDLE: Refresh := Refresh(NONE, false, false)
  const ALL: Families := Families(true, true)

  ghost predicate DualStack(c: Context) {
    Ready(c) && c.n.ipv4 && c.n.ipv6
  }

  lemma NoKeepaliveYet(c: Context, s: State)
    requires s.w.nextKeepalive == Keepalive(c.n) && s.now <= 200
    ensures !KeepaliveDue(c, s)
  {
  }

  lemma Start(c: Context) returns (r: Trace)
    requires DualStack(c)
    ensures Runs(c, r)
    ensures Last(r) == Stage(c, 0, BOTH, Here(Top, {}, {}, Plan([], [ALL4] + [ALL6]), ALL, 0, []), IDLE)
  {
    var s := Stage(c, 0, BOTH, Here(Top, {}, {}, Plan([], [ALL4] + [ALL6]), ALL, 0, []), IDLE);
    PairQueued(ALL4, ALL6, ToAdd({}, BOTH, c.n, {}));
    NothingQueues(ToWithdraw({}, BOTH, c.n));
    assert ValidExports(s.channel.exports);
    assert Init(c, s);
    r := Trace([s], []);
  }

  /** Initial synchronisation: both prefixes sent, markers written. */
  lemma Synchronised(c: Context) returns (r: Trace)
    requires DualStack(c)
    ensures Runs(c, r)
    ensures Last(r) == Stage(c, 0, BOTH, Here(Blocked(false), BOTH, {}, EMPTY, NONE, 0, Last(r).w.stream), IDLE)
  {
    r := Start(c);
    r := PassHead(c, r);
    FamilyBatch(ALL4, [ALL6]);
    r := SendOne(c, r, false, ALL4, Plan([], [ALL6]));
    r := PassHead(c, r);
    FamilyBatch(ALL6, []);
    assert [ALL6] + [] == [ALL6];
    r := SendOne(c, r, false, ALL6, EMPTY);
    r := PassHead(c, r);
    var m;
    m, r := Finish(c, r);
    assert {} + Elements([ALL4]) + Elements([ALL6]) == BOTH;
  }

  /** The peer asks for both families; the writer wakes. */
  lemma Requested(c: Context) returns (r: Trace)
    requires DualStack(c)
    ensures Runs(c, r)
    ensures Last(r) == Stage(c, 0, BOTH, Here(Top, BOTH, {}, EMPTY, NONE, 0, Last(r).w.stream),
                             Refresh(ALL, false, false))
  {
    r := Synchronised(c);
    var s := Last(r);
    r := Asks(c, r, [0, 1, 0, 1], false);
    r := Asks(c, r, [0, 2, 0, 1], true);
    r := Go(c, r, WakeNotified, s.(w := s.w.(phase := Top), refresh := Refresh(ALL, false, false)));
  }

  /** The reader takes a refresh request and notifies the writer. */
  lemma Asks(c: Context, q: Trace, body: Bytes, v6: bool) returns (r: Trace)
    requires Runs(c, q) && RefreshFamily(body, c.n) == For(v6) && !Last(q).refresh.notifying
    ensures Runs(c, r)
    ensures Last(r) == Last(q).(refresh := Refresh(With(Last(q).refresh.pending, v6), true, false))
  {
    var s := Last(q);
    var asked := With(s.refresh.pending, v6);
    r := Go(c, q, RequestBit(body), s.(refresh := s.refresh.(pending := asked, notifying := true)));
    r := Go(c, r, RequestNotify, s.(refresh := Refresh(asked, true, false)));
  }

  lemma ReplayTaken(c: Context, s: State, w: Local)
    requires DualStack(c) && s.w.phase == RefreshCheck && MayTakeRefresh(s) && s.now == 0
    requires s.refresh == Refresh(ALL, false, false) && s.w.advertised == BOTH && s.w.target == BOTH
    requires w == s.w.(replay := BOTH, plan := Plan([], [ALL4] + [ALL6]), eor := ALL, nextRefresh := 1000,
                       phase := KeepaliveCheck)
    ensures WriterStep(c, s, TakeRefresh, s.(w := w, refresh := IDLE))
  {
    PairQueued(ALL4, ALL6, ToAdd(BOTH, BOTH, c.n, BOTH));
    NothingQueues(ToWithdraw(BOTH, BOTH, c.n));
    assert (set p | p in BOTH && Has(ALL, p.v6)) == BOTH;
  }

  /** The replay starts with both prefixes queued and sends the IPv4 one. */
  lemma Replayed(c: Context) returns (q: Trace, r: Trace)
    requires DualStack(c)
    ensures Runs(c, q) && Last(q).w.target == BOTH && Last(q).w.advertised == BOTH && Last(q).refresh.pending == ALL
    ensures Runs(c, r) && Continues(q, r, [TakeRefresh] + [SkipKeepalive] + [SendBatch(false, [ALL4])])
    ensures Last(r) == Stage(c, 0, BOTH, Here(Top, BOTH, {ALL6}, Plan([], [ALL6]), ALL, 1000, Last(r).w.stream), IDLE)
  {
    q := Requested(c);
    var s := Last(q);
    q := Go(c, q, KeepTarget, s.(w := s.w.(phase := RefreshCheck)));
    s := Last(q);
    var w := s.w.(replay := BOTH, plan := Plan([], [ALL4] + [ALL6]), eor := ALL, nextRefresh := 1000,
                  phase := KeepaliveCheck);
    ReplayTaken(c, s, w);
    var a := Go(c, q, TakeRefresh, s.(w := w, refresh := IDLE));
    var b := Go(c, a, SkipKeepalive, s.(w := w.(phase := Send), refresh := IDLE));
    FamilyBatch(ALL4, [ALL6]);
    r := SendOne(c, b, false, ALL4, Plan([], [ALL6]));
    Join(q, a, b, [TakeRefresh], [SkipKeepalive]);
    Join(q, b, r, [TakeRefresh] + [SkipKeepalive], [SendBatch(false, [ALL4])]);
    assert BOTH + Elements([ALL4]) == BOTH;
    assert BOTH - Elements([ALL4]) == {ALL6};
  }

  function Snapshot(c: Context, target: set<Prefix>): Exports {
    map[c.p.exportAcl := target]
  }

  /** 100 ms pass and a new snapshot appears. */
  lemma Published(c: Context, q: Trace, target: set<Prefix>) returns (r: Trace)
    requires Runs(c, q) && target <= BOTH
    ensures Runs(c, r) && Continues(q, r, [Tick(100)] + [Publish(Snapshot(c, target))])
    ensures Last(r) == Last(q).(now := Last(q).now + 100,
                                channel := Channel(Snapshot(c, target), Last(q).channel.version + 1))
  {
    var late := Last(q).(now := Last(q).now + 100);
    assert ValidExports(Snapshot(c, target));
    var a := Go(c, q, Tick(100), late);
    r := Go(c, a, Publish(Snapshot(c, target)),
            late.(channel := Channel(Snapshot(c, target), late.channel.version + 1)));
    Join(q, a, r, [Tick(100)], [Publish(Snapshot(c, target))]);
  }

  /** A pass that adopts the waiting snapshot, up to the point where it sends. */
  lemma AdoptedPass(c: Context, q: Trace, w: Local) returns (r: Trace)
    requires Runs(c, q) && Last(q).w.phase == Top && MayAdopt(Last(q)) && Last(q).w.eor != NONE
    requires Adopted(c, Last(q), w) && w.phase == RefreshCheck && !KeepaliveDue(c, Last(q))
    ensures Runs(c, r) && Continues(q, r, [Adopt] + [SkipRefresh] + [SkipKeepalive])
    ensures Last(r) == Last(q).(w := w.(phase := Send))
  {
    var s := Last(q).(w := w);
    var a := Go(c, q, Adopt, s);
    var b := Go(c, a, SkipRefresh, s.(w := w.(phase := KeepaliveCheck)));
    r := Go(c, b, SkipKeepalive, s.(w := w.(phase := Send)));
    Join(q, a, b, [Adopt], [SkipRefresh]);
    Join(q, b, r, [Adopt] + [SkipRefresh], [SkipKeepalive]);
  }

  function RetargetLabels(c: Context, target: set<Prefix>): seq<Label> {
    [Tick(100)] + [Publish(Snapshot(c, target))] + ([Adopt] + [SkipRefresh] + [SkipKeepalive])
  }

  /** 100 ms later a new snapshot appears and is adopted at once. */
  lemma Retargeted(c: Context, q: Trace, k: nat, was: set<Prefix>, target: set<Prefix>, w: Local, plan: Plan)
    returns (r: Trace)
    requires Runs(c, q) && k < 2 && target <= BOTH && w.phase == Top && w.eor == ALL
    requires Last(q) == Stage(c, k, was, w, IDLE)
    requires PlanFor(plan, w.advertised, target, c.n, set p | p in w.replay && p in target)
    ensures Runs(c, r) && Continues(q, r, RetargetLabels(c, target))
    ensures Last(r) == Stage(c, k + 1, target,
                             w.(phase := Send, plan := plan, replay := set p | p in w.replay && p in target), IDLE)
  {
    var a := Published(c, q, target);
    NoKeepaliveYet(c, Last(a));
    var next := w.(phase := RefreshCheck, plan := plan, replay := set p | p in w.replay && p in target);
    r := AdoptedPass(c, a, Stage(c, k + 1, target, next, IDLE).w);
    Join(q, a, r, [Tick(100)] + [Publish(Snapshot(c, target))], [Adopt] + [SkipRefresh] + [SkipKeepalive]);
  }

  lemma WithdrawBoth(c: Context)
    requires DualStack(c)
    ensures PlanFor(Plan([ALL4] + [ALL6], []), BOTH, {}, c.n, {})
  {
    PairQueued(ALL4, ALL6, ToWithdraw(BOTH, {}, c.n));
    NothingQueues(ToAdd(BOTH, {}, c.n, {}));
  }

  lemma NothingToDo(c: Context)
    requires DualStack(c)
    ensures PlanFor(EMPTY, {ALL6}, {ALL6}, c.n, {})
  {
    NothingQueues(ToWithdraw({ALL6}, {ALL6}, c.n));
    NothingQueues(ToAdd({ALL6}, {ALL6}, c.n, {}));
  }

  /** The prefix leaves the target; only the IPv4 withdrawal is sent before it comes back. */
  lemma LeftAndBack(c: Context, q: Trace) returns (r: Trace, more: seq<Label>)
    requires DualStack(c) && Runs(c, q)
    requires Last(q) == Stage(c, 0, BOTH, Here(Top, BOTH, {ALL6}, Plan([], [ALL6]), ALL, 1000, Last(q).w.stream), IDLE)
    ensures more == RetargetLabels(c, {}) + [SendBatch(true, [ALL4])] + RetargetLabels(c, {ALL6})
    ensures Runs(c, r) && Continues(q, r, more)
    ensures Last(r) == Stage(c, 2, {ALL6}, Here(Send, {ALL6}, {}, EMPTY, ALL, 1000, Last(r).w.stream), IDLE)
  {
    var w := Here(Top, BOTH, {ALL6}, Plan([], [ALL6]), ALL, 1000, Last(q).w.stream);
    WithdrawBoth(c);
    var a := Retargeted(c, q, 0, BOTH, {}, w, Plan([ALL4] + [ALL6], []));
    FamilyBatch(ALL4, [ALL6]);
    var b := SendOne(c, a, true, ALL4, Plan([ALL6], []));
    assert BOTH - Elements([ALL4]) == {ALL6};
    NothingToDo(c);
    var v := Here(Top, {ALL6}, {}, Plan([ALL6], []), ALL, 1000, Last(b).w.stream);
    r := Retargeted(c, b, 1, {}, {ALL6}, v, EMPTY);
    more := RetargetLabels(c, {}) + [SendBatch(true, [ALL4])];
    Join(q, a, b, RetargetLabels(c, {}), [SendBatch(true, [ALL4])]);
    Join(q, b, r, more, RetargetLabels(c, {ALL6}));
    more := more + RetargetLabels(c, {ALL6});
  }

  /** Neither markers nor an announcement of the prefix. */
  ghost predicate Silent(ls: seq<Label>) {
    forall l <- ls :: l != SendMarkers && !(l.SendBatch? && !l.withdraw && ALL6 in l.batch)
  }

  lemma SilentConcat(a: seq<Label>, b: seq<Label>)
    requires Silent(a) && Silent(b)
    ensures Silent(a + b)
  {
  }

  lemma RetargetSilent(c: Context, target: set<Prefix>)
    ensures Silent(RetargetLabels(c, target))
  {
  }

  lemma MiddleSilent(c: Context, more: seq<Label>) returns (all: seq<Label>)
    requires more == RetargetLabels(c, {}) + [SendBatch(true, [ALL4])] + RetargetLabels(c, {ALL6})
    ensures all == [SkipKeepalive] + [SendBatch(false, [ALL4])] + more + [NothingQueued]
    ensures Silent(all)
  {
    var first := [SkipKeepalive] + [SendBatch(false, [ALL4])];
    RetargetSilent(c, {});
    RetargetSilent(c, {ALL6});
    SilentConcat(RetargetLabels(c, {}), [SendBatch(true, [ALL4])]);
    SilentConcat(RetargetLabels(c, {}) + [SendBatch(true, [ALL4])], RetargetLabels(c, {ALL6}));
    SilentConcat(first, more);
    all := first + more + [NothingQueued];
    SilentConcat(first + more, [NothingQueued]);
  }

  /** A refresh does not always re-announce what the target holds when it starts and when it ends: in
      every dual-stack session some run leaves out a prefix the peer asked for, still advertised. */
  lemma RefreshCanSkip(c: Context) returns (ss: seq<State>, ls: seq<Label>, i: nat, j: nat)
    requires Ready(c) && c.n.ipv4 && c.n.ipv6
    ensures Replaying(c, ss, ls, i, j) && j < |ls| && ls[j] == SendMarkers
    ensures Has(ss[i].refresh.pending, ALL6.v6) && ALL6 in ss[i].w.target && ALL6 in ss[j].w.target
    ensures ALL6 in ss[i].w.advertised && ALL6 in ss[j].w.advertised
    ensures !Announced(ls, ALL6, i + 1, j)
  {
    var q, a := Replayed(c);
    var b, more := LeftAndBack(c, a);
    var m, r := Finish(c, b);
    var all := MiddleSilent(c, more);
    ss, ls, i, j := r.ss, r.ls, |q.ls|, |m.ls|;
    Assembled(q, a, b, m, r, more, all);
  }

  /** Where the marked moments of the assembled run are, and what lies between them. */
  lemma Assembled(q: Trace, a: Trace, b: Trace, m: Trace, r: Trace, more: seq<Label>, all: seq<Label>)
    requires Continues(q, a, [TakeRefresh] + [SkipKeepalive] + [SendBatch(false, [ALL4])])
    requires Continues(a, b, more) && Continues(b, m, [NothingQueued]) && Continues(m, r, [SendMarkers])
    requires all == [SkipKeepalive] + [SendBatch(false, [ALL4])] + more + [NothingQueued] && Silent(all)
    ensures |q.ls| < |m.ls| < |r.ls| == |r.ss| - 1
    ensures r.ls[|q.ls|] == TakeRefresh && r.ls[|m.ls|] == SendMarkers
    ensures r.ss[|q.ls|] == Last(q) && r.ss[|m.ls|] == Last(m)
    ensures forall k :: |q.ls| < k < |m.ls| ==> r.ls[k] != SendMarkers
    ensures !Announced(r.ls, ALL6, |q.ls| + 1, |m.ls|)
  {
    assert r.ls == q.ls + [TakeRefresh] + all + [SendMarkers];
    var i := |q.ls|;
    assert forall k :: i < k < |m.ls| ==> r.ls[k] == all[k - i - 1] && all[k - i - 1] in all;
    assert q.ss <= a.ss <= b.ss <= m.ss <= r.ss;
  }
}
