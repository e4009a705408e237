/** Theorems about whole runs of the writer, in any interleaving with its environment. */
module WriterRuns {
  import opened Base
  import opened Net
  import opened Protocol
  import opened Plans
  import opened Writer
  import opened WriterLaws

  ghost predicate IsRun(c: Context, ss: seq<State>, ls: seq<Label>) {
    && |ss| == |ls| + 1
    && Init(c, ss[0])
    && forall i :: 0 <= i < |ls| ==> Next(c, ss[i], ls[i], ss[i + 1])
  }

  lemma {:induction false} RunInvariant(c: Context, ss: seq<State>, ls: seq<Label>, i: nat)
    requires Ready(c) && IsRun(c, ss, ls) && i <= |ls|
    ensures Inv(c, ss[i])
  {
    if i == 0 {
      InitOk(c, ss[0]);
    } else {
      RunInvariant(c, ss, ls, i - 1);
      if WriterStep(c, ss[i - 1], ls[i - 1], ss[i]) {
        WriterKeeps(c, ss[i - 1], ls[i - 1], ss[i]);
      } else {
        EnvironmentKeeps(c, ss[i - 1], ls[i - 1], ss[i]);
      }
    }
  }

  /** At every moment the peer's table, decoded from the bytes, is `advertised`; and the queued plan
      is what recomputing it from `advertised`, `target` and `replay` would give. */
  lemma WriterMirror(c: Context, ss: seq<State>, ls: seq<Label>, i: nat)
    requires Ready(c) && IsRun(c, ss, ls) && i <= |ls|
    ensures PeerRib(ss[i].w.stream, {}, c.n) == Up(ss[i].w.advertised)
    ensures Elements(ss[i].w.plan.withdrawals) == ToWithdraw(ss[i].w.advertised, ss[i].w.target, c.n)
    ensures Elements(ss[i].w.plan.additions) == ToAdd(ss[i].w.advertised, ss[i].w.target, c.n, ss[i].w.replay)
  {
    RunInvariant(c, ss, ls, i);
    QueueMembers(ss[i].w.plan.withdrawals, ToWithdraw(ss[i].w.advertised, ss[i].w.target, c.n));
    QueueMembers(ss[i].w.plan.additions, ToAdd(ss[i].w.advertised, ss[i].w.target, c.n, ss[i].w.replay));
  }

  /** Markers are written, and the writer goes to sleep, only when the peer knows exactly the target. */
  lemma EndOfRibOnlyInSync(c: Context, ss: seq<State>, ls: seq<Label>, i: nat)
    requires Ready(c) && IsRun(c, ss, ls) && i <= |ls|
    requires ss[i].w.phase == Mark || ss[i].w.phase.Blocked?
    ensures PeerRib(ss[i].w.stream, {}, c.n) == Up(set p | p in ss[i].w.target && Enabled(c.n, p.v6))
    ensures ss[i].w.replay == {}
  {
    RunInvariant(c, ss, ls, i);
    EmptyPlanMeans(c, ss[i].w);
  }

  ghost predicate CanStep(c: Context, s: State) {
    exists l, t :: WriterStep(c, s, l, t)
  }

  lemma CanReplan(c: Context, s: State)
    requires s.w.phase == Top
    ensures CanStep(c, s)
  {
    if MayAdopt(s) {
      var target := Desired(s.channel, c.p.exportAcl);
      var replay := set p | p in s.w.replay && p in target;
      var plan := PlanExists(s.w.advertised, target, c.n, replay);
      var w := s.w.(target := target, replay := replay, plan := plan, seen := s.channel.version,
                    lastReplan := s.now, phase := RefreshCheck);
      assert WriterStep(c, s, Adopt, s.(w := w));
    } else {
      assert WriterStep(c, s, KeepTarget, s.(w := s.w.(phase := RefreshCheck)));
    }
  }

  lemma CanReplay(c: Context, s: State)
    requires s.w.phase == RefreshCheck
    ensures CanStep(c, s)
  {
    if MayTakeRefresh(s) {
      var replay := set p | p in s.w.target && Has(s.refresh.pending, p.v6);
      var plan := PlanExists(s.w.advertised, s.w.target, c.n, replay);
      var w := s.w.(replay := replay, plan := plan, eor := Both(s.refresh.pending, Negotiates(c.n)),
                    nextRefresh := s.now + 1000, phase := KeepaliveCheck);
      assert WriterStep(c, s, TakeRefresh, s.(w := w, refresh := s.refresh.(pending := NONE)));
    } else {
      assert WriterStep(c, s, SkipRefresh, s.(w := s.w.(phase := KeepaliveCheck)));
    }
  }

  lemma CanKeepAlive(c: Context, s: State)
    requires s.w.phase == KeepaliveCheck
    ensures CanStep(c, s)
  {
    if KeepaliveDue(c, s) {
      var t := s.(w := s.w.(stream := s.w.stream + Frame(KEEPALIVE, []),
                            nextKeepalive := s.now + Keepalive(c.n), phase := Send));
      assert WriterStep(c, s, SendKeepalive, t);
    } else {
      assert WriterStep(c, s, SkipKeepalive, s.(w := s.w.(phase := Send)));
    }
  }

  lemma CanSend(c: Context, s: State)
    requires Ready(c) && Inv(c, s) && s.w.phase == Send
    ensures CanStep(c, s)
  {
    if s.w.plan == EMPTY {
      assert WriterStep(c, s, NothingQueued, s.(w := s.w.(phase := Mark)));
    } else {
      BatchEncodable(c, s.w);
      var b := NextBatch(s.w.plan);
      SentIsStep(c, s, b.0, b.1, b.2);
    }
  }

  lemma CanMark(c: Context, s: State)
    requires s.w.phase == Mark
    ensures CanStep(c, s)
  {
    var t := s.(w := s.w.(stream := s.w.stream + Markers(s.w.eor), eor := NONE,
                          phase := Blocked(s.refresh.pending != NONE)));
    assert WriterStep(c, s, SendMarkers, t);
  }

  /** The writer is never stuck: unless it waits in `select`, one of its steps can be taken. In
      particular no assertion of the encoder can fail. */
  lemma NeverStuck(c: Context, ss: seq<State>, ls: seq<Label>, i: nat)
    requires Ready(c) && IsRun(c, ss, ls) && i <= |ls| && !ss[i].w.phase.Blocked?
    ensures CanStep(c, ss[i])
  {
    RunInvariant(c, ss, ls, i);
    match ss[i].w.phase
    case Top => CanReplan(c, ss[i]);
    case RefreshCheck => CanReplay(c, ss[i]);
    case KeepaliveCheck => CanKeepAlive(c, ss[i]);
    case Send => CanSend(c, ss[i]);
    case Mark => CanMark(c, ss[i]);
  }

  // ---- Refreshes are complete ---------------------------------------------------------------

  /** Between two moments, some announcement carried the prefix. */
  ghost predicate Announced(ls: seq<Label>, p: Prefix, from: nat, to: nat)
    requires to <= |ls|
  {
    exists k :: from <= k < to && ls[k].SendBatch? && !ls[k].withdraw && p in ls[k].batch
  }

  /** Between two moments, some batch withdrew the prefix. */
  ghost predicate Withdrawn(ls: seq<Label>, p: Prefix, from: nat, to: nat)
    requires to <= |ls|
  {
    exists k :: from <= k < to && ls[k].SendBatch? && ls[k].withdraw && p in ls[k].batch
  }

  /** A replay in progress: requested at `i`, its markers not yet written before `j`. */
  ghost predicate Replaying(c: Context, ss: seq<State>, ls: seq<Label>, i: nat, j: nat)
  {
    && IsRun(c, ss, ls) && i < j <= |ls|
    && ls[i] == TakeRefresh
    && forall k :: i < k < j ==> ls[k] != SendMarkers
  }

  /** Markers stay owed, and replayed prefixes stay queued for replay until written or dropped. */
  lemma {:induction false} ReplayPersists(c: Context, ss: seq<State>, ls: seq<Label>, i: nat, j: nat)
    requires Ready(c) && Replaying(c, ss, ls, i, j)
    ensures ss[j].w.eor == ss[i].refresh.pending != NONE
  {
    if j > i + 1 {
      ReplayPersists(c, ss, ls, i, j - 1);
      OwedKept(c, ss[j - 1], ls[j - 1], ss[j]);
    } else {
      RunInvariant(c, ss, ls, i);
      OwedStarts(c, ss[i], ls[i], ss[j]);
    }
  }

  lemma OwedStarts(c: Context, s: State, l: Label, t: State)
    requires Next(c, s, l, t) && l == TakeRefresh && Within(s.refresh.pending, Negotiates(c.n))
    ensures t.w.eor == s.refresh.pending != NONE
  {
  }

  lemma OwedKept(c: Context, s: State, l: Label, t: State)
    requires Next(c, s, l, t) && s.w.eor != NONE && l != SendMarkers
    ensures t.w.eor == s.w.eor
  {
  }

  /** The adoption at `k` took an advertised prefix out of the target and out of an unfinished replay, and
      its withdrawal has not been written since. */
  ghost predicate LostAt(ss: seq<State>, ls: seq<Label>, p: Prefix, k: nat, j: nat)
    requires k < j <= |ls| && |ss| == |ls| + 1
  {
    && (ls[k] == Adopt || ls[k] == WakeSnapshot)
    && p in ss[k].w.replay && p in ss[k].w.advertised && p !in ss[k + 1].w.target
    && !Withdrawn(ls, p, k + 1, j)
  }

  ghost predicate Lost(ss: seq<State>, ls: seq<Label>, p: Prefix, i: nat, j: nat)
    requires i < j <= |ls| && |ss| == |ls| + 1
  {
    exists k :: i < k < j && LostAt(ss, ls, p, k, j)
  }

  /** Where a prefix that was due for replay stands. */
  ghost predicate Accounted(ss: seq<State>, ls: seq<Label>, p: Prefix, i: nat, j: nat)
    requires i < j <= |ls| && |ss| == |ls| + 1
  {
    && (Announced(ls, p, i + 1, j) || p in ss[j].w.replay || Lost(ss, ls, p, i, j) || p !in ss[j].w.advertised)
    && !(Announced(ls, p, i + 1, j) && p in ss[j].w.replay)
  }

  lemma WindowStep(ss: seq<State>, ls: seq<Label>, p: Prefix, i: nat, j: nat)
    requires i < j < |ls| && |ss| == |ls| + 1
    ensures Announced(ls, p, i + 1, j + 1)
            <==> Announced(ls, p, i + 1, j) || (ls[j].SendBatch? && !ls[j].withdraw && p in ls[j].batch)
    ensures Lost(ss, ls, p, i, j) && !(ls[j].SendBatch? && ls[j].withdraw && p in ls[j].batch)
            ==> Lost(ss, ls, p, i, j + 1)
  {
    if Lost(ss, ls, p, i, j) && !(ls[j].SendBatch? && ls[j].withdraw && p in ls[j].batch) {
      var k :| i < k < j && LostAt(ss, ls, p, k, j);
      assert LostAt(ss, ls, p, k, j + 1);
    }
  }

  ghost predicate Carries(l: Label, p: Prefix) {
    l.SendBatch? && p in l.batch
  }

  /** What one step inside a replay can do to a prefix. */
  ghost predicate Moves(s: State, l: Label, t: State, p: Prefix) {
    && (p in t.w.replay ==> p in s.w.replay && !Carries(l, p))
    && (p in s.w.replay && p !in t.w.replay && !Carries(l, p) ==>
          (l == Adopt || l == WakeSnapshot) && p !in t.w.target)
    && (Carries(l, p) && l.withdraw ==> p !in t.w.advertised)
    && (!Carries(l, p) ==> (p in t.w.advertised <==> p in s.w.advertised))
  }

  lemma StepDuringReplay(c: Context, s: State, l: Label, t: State, p: Prefix)
    requires Next(c, s, l, t) && s.w.eor != NONE && l != SendMarkers
    ensures Moves(s, l, t, p)
  {
  }

  lemma AccountedStep(ss: seq<State>, ls: seq<Label>, p: Prefix, i: nat, j: nat)
    requires i < j < |ls| && |ss| == |ls| + 1
    requires Accounted(ss, ls, p, i, j) && Moves(ss[j], ls[j], ss[j + 1], p)
    ensures Accounted(ss, ls, p, i, j + 1)
  {
    WindowStep(ss, ls, p, i, j);
    if p in ss[j].w.replay && p !in ss[j + 1].w.replay && !Carries(ls[j], p) && p in ss[j].w.advertised {
      assert LostAt(ss, ls, p, j, j + 1);
    }
  }

  lemma MovesInReplay(c: Context, ss: seq<State>, ls: seq<Label>, p: Prefix, i: nat, j: nat)
    requires Ready(c) && Replaying(c, ss, ls, i, j) && j < |ls| && ls[j] != SendMarkers
    ensures Moves(ss[j], ls[j], ss[j + 1], p)
  {
    ReplayPersists(c, ss, ls, i, j);
    StepDuringReplay(c, ss[j], ls[j], ss[j + 1], p);
  }

  lemma ReplayBegins(c: Context, s: State, l: Label, t: State, p: Prefix)
    requires Next(c, s, l, t) && l == TakeRefresh && p in s.w.target && Has(s.refresh.pending, p.v6)
    ensures p in t.w.replay
  {
  }

  ghost predicate MovesBetween(ss: seq<State>, ls: seq<Label>, p: Prefix, i: nat, j: nat)
    requires i < j <= |ls| && |ss| == |ls| + 1
  {
    forall k :: i < k < j ==> Moves(ss[k], ls[k], ss[k + 1], p)
  }

  lemma {:induction false} AccountedByMoves(ss: seq<State>, ls: seq<Label>, p: Prefix, i: nat, j: nat)
    requires i < j <= |ls| && |ss| == |ls| + 1 && p in ss[i + 1].w.replay && MovesBetween(ss, ls, p, i, j)
    ensures Accounted(ss, ls, p, i, j)
  {
    if i + 1 < j {
      AccountedByMoves(ss, ls, p, i, j - 1);
      AccountedStep(ss, ls, p, i, j - 1);
    }
  }

  lemma AccountedThroughout(c: Context, ss: seq<State>, ls: seq<Label>, p: Prefix, i: nat, j: nat)
    requires Ready(c) && Replaying(c, ss, ls, i, j)
    requires p in ss[i].w.target && Has(ss[i].refresh.pending, p.v6)
    ensures Accounted(ss, ls, p, i, j)
  {
    ReplayBegins(c, ss[i], ls[i], ss[i + 1], p);
    ReplaySteps(c, ss, ls, p, i, j);
    AccountedByMoves(ss, ls, p, i, j);
  }

  /** What the peer has and no replay is due for is not queued for announcement. */
  lemma NotQueued(c: Context, w: Local, p: Prefix)
    requires PlanCurrent(c, w) && w.plan != EMPTY && p in w.advertised && p !in w.replay
    ensures p in NextBatch(w.plan).1 ==> NextBatch(w.plan).0
  {
    NextBatchFamily(w.plan);
    QueueMembers(w.plan.additions, ToAdd(w.advertised, w.target, c.n, w.replay));
  }

  /** Nor is it announced. */
  ghost predicate LeavesAlone(s: State, l: Label, p: Prefix) {
    p in s.w.advertised && p !in s.w.replay && Carries(l, p) ==> l.withdraw
  }

  lemma StepLeavesAlone(c: Context, s: State, l: Label, t: State, p: Prefix)
    requires PlanCurrent(c, s.w) && Next(c, s, l, t)
    ensures LeavesAlone(s, l, p)
  {
    if l.SendBatch? && p in s.w.advertised && p !in s.w.replay {
      NotQueued(c, s.w, p);
    }
  }

  ghost predicate LeftAlone(ss: seq<State>, ls: seq<Label>, p: Prefix, i: nat, j: nat)
    requires i < j <= |ls| && |ss| == |ls| + 1
  {
    forall k :: i < k < j ==> LeavesAlone(ss[k], ls[k], p)
  }

  /** Once lost from the replay, a prefix stays advertised and is not announced. */
  lemma {:induction false} LostStays(ss: seq<State>, ls: seq<Label>, p: Prefix, i: nat, k: nat, j: nat)
    requires i < k < j <= |ls| && |ss| == |ls| + 1 && MovesBetween(ss, ls, p, i, j) && LeftAlone(ss, ls, p, i, j)
    requires p !in ss[k + 1].w.replay && LostAt(ss, ls, p, k, j)
    ensures p in ss[j].w.advertised && p !in ss[j].w.replay && !Announced(ls, p, k, j)
    decreases j
  {
    assert Moves(ss[j - 1], ls[j - 1], ss[j], p);
    if k + 1 < j {
      assert LostAt(ss, ls, p, k, j - 1);
      LostStays(ss, ls, p, i, k, j - 1);
      assert LeavesAlone(ss[j - 1], ls[j - 1], p);
    }
  }

  /** A run of a replay, step by step. */
  lemma ReplaySteps(c: Context, ss: seq<State>, ls: seq<Label>, p: Prefix, i: nat, j: nat)
    requires Ready(c) && Replaying(c, ss, ls, i, j)
    ensures MovesBetween(ss, ls, p, i, j) && LeftAlone(ss, ls, p, i, j)
  {
    forall k | i < k < j
      ensures Moves(ss[k], ls[k], ss[k + 1], p) && LeavesAlone(ss[k], ls[k], p)
    {
      MovesInReplay(c, ss, ls, p, i, k);
      RunInvariant(c, ss, ls, k);
      StepLeavesAlone(c, ss[k], ls[k], ss[k + 1], p);
    }
  }

  lemma AnnouncedSplit(ls: seq<Label>, p: Prefix, from: nat, k: nat, to: nat)
    requires from <= k <= to <= |ls| && !Announced(ls, p, from, k) && !Announced(ls, p, k, to)
    ensures !Announced(ls, p, from, to)
  {
  }

  lemma LostNotAnnounced(c: Context, ss: seq<State>, ls: seq<Label>, p: Prefix, i: nat, j: nat)
    requires Ready(c) && Replaying(c, ss, ls, i, j) && Lost(ss, ls, p, i, j)
    requires Has(ss[i].refresh.pending, p.v6) && p in ss[i].w.target
    ensures !Announced(ls, p, i + 1, j)
  {
    ReplaySteps(c, ss, ls, p, i, j);
    ReplayBegins(c, ss[i], ls[i], ss[i + 1], p);
    ReplayInTarget(c, ss, ls, p, i, j);
    LostOnceNotAnnounced(ss, ls, p, i, j);
  }

  lemma ReplayInTarget(c: Context, ss: seq<State>, ls: seq<Label>, p: Prefix, i: nat, j: nat)
    requires Ready(c) && IsRun(c, ss, ls) && i < j <= |ls|
    ensures NoStrayReplay(ss, p, i, j)
  {
    forall k | i < k <= j
      ensures p in ss[k].w.replay ==> p in ss[k].w.target
    {
      RunInvariant(c, ss, ls, k);
    }
  }

  ghost predicate NoStrayReplay(ss: seq<State>, p: Prefix, i: nat, j: nat)
    requires i < j < |ss|
  {
    forall k :: i < k <= j && p in ss[k].w.replay ==> p in ss[k].w.target
  }

  lemma LostOnceNotAnnounced(ss: seq<State>, ls: seq<Label>, p: Prefix, i: nat, j: nat)
    requires i < j <= |ls| && |ss| == |ls| + 1 && MovesBetween(ss, ls, p, i, j) && LeftAlone(ss, ls, p, i, j)
    requires Lost(ss, ls, p, i, j) && p in ss[i + 1].w.replay && NoStrayReplay(ss, p, i, j)
    ensures !Announced(ls, p, i + 1, j)
  {
    var k :| i < k < j && LostAt(ss, ls, p, k, j);
    assert p !in ss[k + 1].w.replay;
    LostAtNotAnnounced(ss, ls, p, i, k, j);
  }

  lemma LostAtNotAnnounced(ss: seq<State>, ls: seq<Label>, p: Prefix, i: nat, k: nat, j: nat)
    requires i < k < j <= |ls| && |ss| == |ls| + 1 && MovesBetween(ss, ls, p, i, j) && LeftAlone(ss, ls, p, i, j)
    requires LostAt(ss, ls, p, k, j) && p !in ss[k + 1].w.replay && p in ss[i + 1].w.replay
    ensures !Announced(ls, p, i + 1, j)
  {
    AccountedByMoves(ss, ls, p, i, k);
    LostStays(ss, ls, p, i, k, j);
    AnnouncedSplit(ls, p, i + 1, k, j);
  }

  /** A prefix in the target when its refresh starts and when its markers are written was announced in
      between, except exactly when a snapshot left it out while it was advertised and still to be replayed,
      and it came back before its withdrawal was written. */
  lemma RefreshExactly(c: Context, ss: seq<State>, ls: seq<Label>, p: Prefix, i: nat, j: nat)
    requires Ready(c) && Replaying(c, ss, ls, i, j) && j < |ls| && ls[j] == SendMarkers
    requires Has(ss[i].refresh.pending, p.v6) && p in ss[i].w.target && p in ss[j].w.target
    ensures Announced(ls, p, i + 1, j) <==> !Lost(ss, ls, p, i, j)
  {
    RunInvariant(c, ss, ls, i);
    RunInvariant(c, ss, ls, j);
    AccountedThroughout(c, ss, ls, p, i, j);
    assert Next(c, ss[j], ls[j], ss[j + 1]);
    EmptyPlanMeans(c, ss[j].w);
    if Lost(ss, ls, p, i, j) {
      LostNotAnnounced(c, ss, ls, p, i, j);
    }
  }

  /** A refresh re-announces every prefix of its family that no adopted snapshot left out. */
  lemma RefreshComplete(c: Context, ss: seq<State>, ls: seq<Label>, p: Prefix, i: nat, j: nat)
    requires Ready(c) && Replaying(c, ss, ls, i, j) && j < |ls| && ls[j] == SendMarkers
    requires Has(ss[i].refresh.pending, p.v6)
    requires forall k :: i <= k <= j ==> p in ss[k].w.target
    ensures Announced(ls, p, i + 1, j)
  {
    RefreshExactly(c, ss, ls, p, i, j);
  }

  // ---- Pace ------------------------------------------------------------------------------------

  /** A third of the hold time, in milliseconds, rounded down to seconds but at least one. */
  lemma KeepaliveExactly(n: Negotiated)
    ensures n.hold >= 3 ==> 3 * Keepalive(n) <= 1000 * n.hold < 3 * Keepalive(n) + 3000
    ensures n.hold < 3 ==> Keepalive(n) == 1000
    ensures Keepalive(n) % 1000 == 0 && Keepalive(n) >= 1000
  {
  }

  lemma KeepaliveStep(c: Context, s: State, l: Label, t: State)
    requires Next(c, s, l, t)
    ensures t.now >= s.now
    ensures l != SendKeepalive ==> t.w.nextKeepalive == s.w.nextKeepalive
    ensures l == SendKeepalive ==> t.w.nextKeepalive == s.now + Keepalive(c.n) && s.now >= s.w.nextKeepalive
  {
  }

  lemma {:induction false} KeepaliveKept(c: Context, ss: seq<State>, ls: seq<Label>, i: nat, j: nat)
    requires IsRun(c, ss, ls) && i < j <= |ls| && ls[i] == SendKeepalive
    ensures ss[j].w.nextKeepalive >= ss[i].now + Keepalive(c.n) && ss[j].now >= ss[i].now
    decreases j - i
  {
    KeepaliveStep(c, ss[j - 1], ls[j - 1], ss[j]);
    if i + 1 < j {
      KeepaliveKept(c, ss, ls, i, j - 1);
    }
  }

  /** KEEPALIVEs of the writer are at least a third of the hold time apart, and there are none without one. */
  lemma KeepalivesSpaced(c: Context, ss: seq<State>, ls: seq<Label>, i: nat, j: nat)
    requires IsRun(c, ss, ls) && i < j < |ls| && ls[i] == SendKeepalive && ls[j] == SendKeepalive
    ensures c.n.hold != 0 && ss[j].now >= ss[i].now + Keepalive(c.n)
  {
    KeepaliveKept(c, ss, ls, i, j);
    assert Next(c, ss[j], ls[j], ss[j + 1]);
  }

  lemma {:induction false} LastKeepalive(c: Context, ss: seq<State>, ls: seq<Label>, i: nat, j: nat)
    requires IsRun(c, ss, ls) && i <= j <= |ls| && forall k :: i <= k < j ==> ls[k] != SendKeepalive
    ensures ss[j].w.nextKeepalive == ss[i].w.nextKeepalive
    decreases j - i
  {
    if i < j {
      LastKeepalive(c, ss, ls, i, j - 1);
      KeepaliveStep(c, ss[j - 1], ls[j - 1], ss[j]);
    }
  }

  /** Nor are they forgotten: with a hold time, the first check that long after the last KEEPALIVE, or after
      the start, sends one. */
  lemma KeepaliveInTime(c: Context, ss: seq<State>, ls: seq<Label>, i: nat, j: nat)
    requires IsRun(c, ss, ls) && i < j < |ls| && c.n.hold != 0
    requires forall k :: i < k < j ==> ls[k] != SendKeepalive
    requires ls[i] == SendKeepalive || (i == 0 && ls[0] != SendKeepalive)
    requires ss[j].now >= ss[i].now + Keepalive(c.n)
    ensures ls[j] != SkipKeepalive
  {
    assert Next(c, ss[i], ls[i], ss[i + 1]);
    LastKeepalive(c, ss, ls, i + 1, j);
    assert Next(c, ss[j], ls[j], ss[j + 1]);
  }

  lemma {:induction false} AdoptionKept(c: Context, ss: seq<State>, ls: seq<Label>, i: nat, j: nat)
    requires IsRun(c, ss, ls) && i < j <= |ls| && (ls[i] == Adopt || ls[i] == WakeSnapshot)
    ensures ss[j].w.lastReplan >= ss[i].now && ss[j].now >= ss[j].w.lastReplan
    decreases j - i
  {
    assert Next(c, ss[j - 1], ls[j - 1], ss[j]);
    if i + 1 < j {
      AdoptionKept(c, ss, ls, i, j - 1);
    }
  }

  /** While it transmits, the writer adopts snapshots at least 100 ms apart. */
  lemma AdoptionsSpaced(c: Context, ss: seq<State>, ls: seq<Label>, i: nat, j: nat)
    requires IsRun(c, ss, ls) && i < j < |ls| && (ls[i] == Adopt || ls[i] == WakeSnapshot) && ls[j] == Adopt
    ensures ss[j].now >= ss[i].now + 100
  {
    AdoptionKept(c, ss, ls, i, j);
    assert Next(c, ss[j], ls[j], ss[j + 1]);
  }

  lemma {:induction false} LastAdoption(c: Context, ss: seq<State>, ls: seq<Label>, i: nat, j: nat)
    requires IsRun(c, ss, ls) && i <= j <= |ls|
    requires forall k :: i <= k < j ==> ls[k] != Adopt && ls[k] != WakeSnapshot
    ensures ss[j].w.lastReplan == ss[i].w.lastReplan
    decreases j - i
  {
    if i < j {
      LastAdoption(c, ss, ls, i, j - 1);
      assert Next(c, ss[j - 1], ls[j - 1], ss[j]);
    }
  }

  /** And it does not wait longer: a snapshot is adopted by the first check 100 ms after the last adoption. */
  lemma AdoptedInTime(c: Context, ss: seq<State>, ls: seq<Label>, i: nat, j: nat)
    requires IsRun(c, ss, ls) && i < j < |ls| && (ls[i] == Adopt || ls[i] == WakeSnapshot)
    requires forall k :: i < k < j ==> ls[k] != Adopt && ls[k] != WakeSnapshot
    requires ss[j].w.seen != ss[j].channel.version && ss[j].now >= ss[i].now + 100
    ensures ls[j] != KeepTarget
  {
    assert Next(c, ss[i], ls[i], ss[i + 1]);
    LastAdoption(c, ss, ls, i + 1, j);
    assert Next(c, ss[j], ls[j], ss[j + 1]);
  }

  // ---- No request is lost ---------------------------------------------------------------------

  /** A requested family stays requested until a replay takes it. */
  lemma {:induction false} PendingKept(c: Context, ss: seq<State>, ls: seq<Label>, i: nat, j: nat)
    requires IsRun(c, ss, ls) && i <= j <= |ls|
    requires forall k :: i <= k < j ==> ls[k] != TakeRefresh
    ensures Within(ss[i].refresh.pending, ss[j].refresh.pending)
    decreases j - i
  {
    if i < j {
      PendingKept(c, ss, ls, i, j - 1);
      assert Next(c, ss[j - 1], ls[j - 1], ss[j]);
    }
  }

  lemma {:induction false} CooldownKept(c: Context, ss: seq<State>, ls: seq<Label>, i: nat, j: nat)
    requires IsRun(c, ss, ls) && i < j <= |ls| && ls[i] == TakeRefresh
    ensures ss[j].w.nextRefresh >= ss[i].now + 1000 && ss[j].now >= ss[i].now
    decreases j - i
  {
    assert Next(c, ss[j - 1], ls[j - 1], ss[j]);
    if i + 1 < j {
      CooldownKept(c, ss, ls, i, j - 1);
    }
  }

  /** Successive replays start at least one second apart. */
  lemma ReplaysSpaced(c: Context, ss: seq<State>, ls: seq<Label>, i: nat, j: nat)
    requires IsRun(c, ss, ls) && i < j < |ls| && ls[i] == TakeRefresh && ls[j] == TakeRefresh
    ensures ss[j].now >= ss[i].now + 1000
  {
    CooldownKept(c, ss, ls, i, j);
    assert Next(c, ss[j], ls[j], ss[j + 1]);
  }

  /** A blocked writer with requests pending and its cooldown over is woken by a permit or its timer,
      as soon as the reader has finished notifying. */
  lemma BlockedWakes(c: Context, ss: seq<State>, ls: seq<Label>, i: nat)
    requires Ready(c) && IsRun(c, ss, ls) && i <= |ls|
    requires ss[i].w.phase.Blocked? && ss[i].refresh.pending != NONE
    requires !ss[i].refresh.notifying && ss[i].now >= ss[i].w.nextRefresh
    ensures exists l, t :: (l == WakeNotified || l == WakeCooldown) && WriterStep(c, ss[i], l, t)
  {
    RunInvariant(c, ss, ls, i);
    var s := ss[i];
    if s.refresh.permit {
      assert WriterStep(c, s, WakeNotified, s.(w := s.w.(phase := Top), refresh := s.refresh.(permit := false)));
    } else {
      assert WriterStep(c, s, WakeCooldown, s.(w := s.w.(phase := Top)));
    }
  }

  /** Whatever wakes it, the next refresh check takes every pending bit. */
  lemma {:induction false} NextCheckTakesAll(c: Context, ss: seq<State>, ls: seq<Label>, i: nat, j: nat)
    requires Ready(c) && IsRun(c, ss, ls) && i < j < |ls|
    requires ss[i].w.phase.Blocked? && ss[i].refresh.pending != NONE && ss[i].now >= ss[i].w.nextRefresh
    requires forall k :: i <= k < j ==> ls[k] != SkipRefresh && ls[k] != TakeRefresh
    requires ls[j] == SkipRefresh || ls[j] == TakeRefresh
    ensures ls[j] == TakeRefresh && Within(ss[i].refresh.pending, ss[j].refresh.pending)
  {
    RunInvariant(c, ss, ls, i);
    ServedThroughout(c, ss, ls, i, j);
    PendingKept(c, ss, ls, i, j);
    assert Next(c, ss[j], ls[j], ss[j + 1]);
  }

  lemma {:induction false} ServedThroughout(c: Context, ss: seq<State>, ls: seq<Label>, i: nat, j: nat)
    requires IsRun(c, ss, ls) && i <= j <= |ls| && Inv(c, ss[i])
    requires ss[i].w.phase.Blocked? && ss[i].refresh.pending != NONE && ss[i].now >= ss[i].w.nextRefresh
    requires forall k :: i <= k < j ==> ls[k] != SkipRefresh && ls[k] != TakeRefresh
    ensures ss[j].w.eor == NONE && ss[j].refresh.pending != NONE && ss[j].now >= ss[j].w.nextRefresh
    ensures ss[j].w.phase.Blocked? || ss[j].w.phase == Top || ss[j].w.phase == RefreshCheck
    decreases j - i
  {
    if i < j {
      ServedThroughout(c, ss, ls, i, j - 1);
      assert Next(c, ss[j - 1], ls[j - 1], ss[j]);
    }
  }
}
