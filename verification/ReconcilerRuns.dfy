/** Theorems about whole runs of the reconciler. */
module ReconcilerRuns {
  import opened Base
  import opened Dump
  import opened Freshness
  import opened Reconciler
  import opened ReconcilerLaws
  import Config

  ghost predicate IsRun(cfg: Config.Config, ss: seq<State>, ls: seq<Label>)
    requires Usable(cfg)
  {
    && |ss| == |ls| + 1
    && Init(ss[0])
    && forall i :: 0 <= i < |ls| ==> Next(cfg, ss[i], ls[i], ss[i + 1])
  }

  lemma {:induction false} RunInvariant(cfg: Config.Config, ss: seq<State>, ls: seq<Label>, i: nat)
    requires Usable(cfg) && IsRun(cfg, ss, ls) && i <= |ls|
    ensures Inv(cfg, ss[i])
  {
    if i == 0 {
      InitOk(cfg, ss[0]);
    } else {
      RunInvariant(cfg, ss, ls, i - 1);
      NextKeeps(cfg, ss[i - 1], ls[i - 1], ss[i]);
    }
  }

  /** In every state of every interleaving: a refresh is due, or news is still on its way, or the
      published exports are those of the kernel's present tables. */
  lemma NoMissedChange(cfg: Config.Config, ss: seq<State>, ls: seq<Label>, i: nat)
    requires Usable(cfg) && IsRun(cfg, ss, ls) && i <= |ls|
    ensures ss[i].worker.dirty || Pending(ss[i])
            || ss[i].channel.exports == Filter(cfg, KernelPrefixes(cfg, ss[i].kernel))
    ensures ss[i].worker.dirty <==> ss[i].status.dirtySince.Some?
  {
    RunInvariant(cfg, ss, ls, i);
  }

  // ---- Staleness -----------------------------------------------------------------------------

  /** The start of a pending invalidation does not move until a publication. */
  lemma {:induction false} DeadlineNeverMoves(cfg: Config.Config, ss: seq<State>, ls: seq<Label>, i: nat, j: nat)
    requires Usable(cfg) && IsRun(cfg, ss, ls) && i <= j <= |ls|
    requires ss[i].status.dirtySince.Some? && forall k :: i <= k < j ==> !ls[k].Publish?
    ensures ss[j].status.dirtySince == ss[i].status.dirtySince
    ensures ss[i].status.withdrawn ==> ss[j].status.withdrawn
    decreases j - i
  {
    if i < j {
      DeadlineNeverMoves(cfg, ss, ls, i, j - 1);
      assert Next(cfg, ss[j - 1], ls[j - 1], ss[j]);
    }
  }

  /** Withdrawn means empty; and right after the watchdog looked, exports are empty, nothing is
      dirty, or the pending invalidation is younger than the limit. */
  lemma StaleSafety(cfg: Config.Config, ss: seq<State>, ls: seq<Label>, i: nat)
    requires Usable(cfg) && IsRun(cfg, ss, ls) && i <= |ls|
    ensures ss[i].status.withdrawn ==> ss[i].channel.exports == map[]
    ensures i > 0 && ls[i - 1] == Expire ==> Safe(ss[i].status, ss[i].channel, ss[i].now, cfg.staleLimit)
  {
    RunInvariant(cfg, ss, ls, i);
    if i > 0 && ls[i - 1] == Expire {
      RunInvariant(cfg, ss, ls, i - 1);
      assert Next(cfg, ss[i - 1], ls[i - 1], ss[i]);
      ExpiryIsSafe(ss[i - 1].status, ss[i - 1].channel, ss[i - 1].now, cfg.staleLimit);
    }
  }

  /** Once the watchdog looks at an invalidation past its limit, nothing is exported until the next
      publication, however many dumps fail meanwhile. */
  lemma StaleStaysWithdrawn(cfg: Config.Config, ss: seq<State>, ls: seq<Label>, i: nat, k: nat, j: nat)
    requires Usable(cfg) && IsRun(cfg, ss, ls) && i <= k < j <= |ls|
    requires ss[i].status.dirtySince.Some? && forall m :: i <= m < j ==> !ls[m].Publish?
    requires ls[k] == Expire && ss[k].now >= ss[i].status.dirtySince.value + cfg.staleLimit
    ensures ss[j].channel.exports == map[]
  {
    RunInvariant(cfg, ss, ls, k);
    RunInvariant(cfg, ss, ls, j);
    DeadlineNeverMoves(cfg, ss, ls, i, k);
    assert Next(cfg, ss[k], ls[k], ss[k + 1]);
    assert ss[k + 1].status.withdrawn;
    DeadlineNeverMoves(cfg, ss, ls, k + 1, j);
  }

  /** Exports are never withdrawn early: while they are, the pending invalidation is past its limit. */
  lemma {:induction false} NeverEarly(cfg: Config.Config, ss: seq<State>, ls: seq<Label>, i: nat)
    requires Usable(cfg) && IsRun(cfg, ss, ls) && i <= |ls|
    ensures ss[i].status.withdrawn ==>
              ss[i].status.dirtySince.Some? && ss[i].now - ss[i].status.dirtySince.value >= cfg.staleLimit
  {
    if i > 0 {
      NeverEarly(cfg, ss, ls, i - 1);
      NotEarlier(cfg, ss[i - 1], ls[i - 1], ss[i]);
    }
  }

  lemma NotEarlier(cfg: Config.Config, s: State, l: Label, t: State)
    requires Usable(cfg) && Next(cfg, s, l, t)
    requires s.status.withdrawn ==>
               s.status.dirtySince.Some? && s.now - s.status.dirtySince.value >= cfg.staleLimit
    ensures t.status.withdrawn ==>
              t.status.dirtySince.Some? && t.now - t.status.dirtySince.value >= cfg.staleLimit
  {
  }

  /** A watchdog step withdraws exactly when the limit is reached, and otherwise touches nothing. */
  lemma ExpireExactly(cfg: Config.Config, ss: seq<State>, ls: seq<Label>, i: nat)
    requires Usable(cfg) && IsRun(cfg, ss, ls) && i < |ls| && ls[i] == Expire
    ensures ss[i + 1].status.withdrawn
            <==> ss[i].status.dirtySince.Some? && ss[i].now - ss[i].status.dirtySince.value >= cfg.staleLimit
    ensures ss[i + 1].status.dirtySince == ss[i].status.dirtySince
    ensures ss[i + 1].channel.exports == if ss[i + 1].status.withdrawn then map[] else ss[i].channel.exports
  {
    RunInvariant(cfg, ss, ls, i);
    NeverEarly(cfg, ss, ls, i);
    assert Next(cfg, ss[i], ls[i], ss[i + 1]);
  }

  // ---- One call of the program's drain ----------------------------------------------------------

  /** The kernel can give these results to at most `left` receives: datagrams come off the queue, and not
      while an overflow is to be reported. */
  predicate Answers(k: Kernel, results: seq<Recv>, left: nat)
    decreases |results|
  {
    left == 0 || results == []
    || match results[0]
       case Datagram(d) =>
         !k.overflow && k.queue != [] && k.queue[0] == d
         && (d == [] || Answers(k.(queue := k.queue[1..]), results[1..], left - 1))
       case Interrupted => Answers(k, results[1..], left - 1)
       case WouldBlock => true
       case Failed => true
  }

  function Delivered(results: seq<Recv>): seq<Bytes> {
    if results == [] then []
    else (if results[0].Datagram? then [results[0].bytes] else []) + Delivered(results[1..])
  }

  /** Every list of results is what some queue gives. */
  lemma {:induction false} EveryListAnswered(k: Kernel, results: seq<Recv>, left: nat)
    requires !k.overflow && k.queue == Delivered(results)
    ensures Answers(k, results, left)
    decreases |results|
  {
    if left > 0 && results != [] && (results[0].Datagram? || results[0].Interrupted?) {
      var rest := if results[0].Datagram? then k.queue[1..] else k.queue;
      assert rest == Delivered(results[1..]);
      EveryListAnswered(k.(queue := rest), results[1..], left - 1);
    }
  }

  ghost predicate DrainPath(ss: seq<State>, ls: seq<Label>) {
    |ss| == |ls| + 1 && forall i :: 0 <= i < |ls| ==> DrainStep(ss[i], ls[i], ss[i + 1])
  }

  lemma PathFrom(s: State, l: Label, ss: seq<State>, ls: seq<Label>)
    requires DrainPath(ss, ls) && DrainStep(s, l, ss[0])
    ensures DrainPath([s] + ss, [l] + ls)
  {
  }

  /** The protocol step that stands for a receive that ends the drain. */
  lemma LastReceive(s: State, result: Recv) returns (l: Label, t: State)
    requires s.worker.pc.Draining? && Answers(s.kernel, [result], 1)
    requires result.WouldBlock? || result.Failed? || result == Datagram([])
    ensures DrainStep(s, l, t)
    ensures t.worker.pc == Drained(s.worker.pc.why, DrainResult(s.worker.pc.ev, [result], 1))
  {
    var k, w := s.kernel, s.worker;
    var lost := w.(pc := Drained(w.pc.why, w.pc.ev.(lost := true)));
    if result.WouldBlock? {
      l, t := StopDraining, s.(worker := w.(pc := Drained(w.pc.why, w.pc.ev)));
    } else if result.Datagram? {
      l, t := Receive, s.(kernel := k.(queue := k.queue[1..]), worker := lost);
    } else if k.overflow {
      l, t := Receive, s.(kernel := k.(overflow := false), worker := lost);
    } else {
      l, t := ReceiveError(false), s.(worker := lost);
    }
  }

  /** The program's drain is a sequence of protocol steps: whatever the receives return, the steps reach
      exactly the flags the drain computes. */
  lemma {:induction false} DrainReached(s: State, results: seq<Recv>, left: nat)
    returns (ss: seq<State>, ls: seq<Label>)
    requires s.worker.pc.Draining? && Answers(s.kernel, results, left)
    ensures DrainPath(ss, ls) && ss[0] == s
    ensures ss[|ls|].worker.pc == Drained(s.worker.pc.why, DrainResult(s.worker.pc.ev, results, left))
    decreases |results|
  {
    var k, w := s.kernel, s.worker;
    if left == 0 || results == [] {
      var t := s.(worker := w.(pc := Drained(w.pc.why, w.pc.ev)));
      ss, ls := [s, t], [StopDraining];
    } else if results[0].Interrupted? {
      ss, ls := DrainReached(s, results[1..], left - 1);
    } else if results[0].Datagram? && results[0].bytes != [] {
      var t := s.(kernel := k.(queue := k.queue[1..]),
                  worker := w.(pc := Draining(w.pc.why, NoteDatagram(w.pc.ev, k.queue[0]))));
      ss, ls := DrainReached(t, results[1..], left - 1);
      PathFrom(s, Receive, ss, ls);
      ss, ls := [s] + ss, [Receive] + ls;
    } else {
      var l, t := LastReceive(s, results[0]);
      ss, ls := [s, t], [l];
    }
  }
}
