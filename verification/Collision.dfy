/** Connection collisions: choosing one of two connections, and both ends keeping the same one. */
module Collision {
  import opened Base
  import opened Protocol
  import opened Open
  import Config
  import Negotiation

  /** Section 6.8 of RFC 4271 with the tie-break of section 2.3 of RFC 6286. */
  predicate PreferIncoming(cfg: Config.Config, p: Config.Peer, n: Negotiated) {
    cfg.routerId < n.routerId || (cfg.routerId == n.routerId && cfg.asn < p.remoteAsn)
  }

  datatype Candidate = Candidate(incoming: bool, n: Negotiated)

  /** What the selection loop can wake up for. */
  datatype Event =
    | Accepted
    | ListenerClosed
    | Finished(incoming: bool, result: Option<Negotiated>)
    | Deadline

  datatype Outcome = Chosen(candidate: Candidate) | NoConnection

  /** Loop state: a candidate held back, the exchanges still running, whether a peer has connected. */
  datatype Selection = Selection(pending: Option<Candidate>, running: set<bool>, started: bool)

  const START: Selection := Selection(None, {false}, false)

  /** The guards of the loop's `select`. */
  predicate Possible(s: Selection, e: Event) {
    match e
    case Accepted => !s.started
    case ListenerClosed => !s.started
    case Finished(d, _) => d in s.running
    case Deadline => true
  }

  /** One turn of the loop: the new state, and the outcome when the turn returns. */
  function Turn(cfg: Config.Config, p: Config.Peer, s: Selection, e: Event): (Selection, Option<Outcome>) {
    match e
    case Accepted => (s.(started := true, running := s.running + {true}), None)
    case ListenerClosed => (s, Some(NoConnection))
    case Finished(d, Some(n)) =>
      var t := s.(running := s.running - {d});
      if d == PreferIncoming(cfg, p, n) then (t.(pending := None), Some(Chosen(Candidate(d, n))))
      else (t.(pending := Some(Candidate(d, n))), None)
    case Finished(d, None) =>
      var t := s.(running := s.running - {d});
      (t, if t.running == {} && t.pending.None? && t.started then Some(NoConnection) else None)
    case Deadline =>
      (s.(pending := None), Some(if s.pending.Some? then Chosen(s.pending.value) else NoConnection))
  }

  /** Sequences of events the loop can go through; only the last may end it. */
  predicate IsRun(cfg: Config.Config, p: Config.Peer, s: Selection, es: seq<Event>)
    decreases |es|
  {
    es == [] || (
      && Possible(s, es[0])
      && (Turn(cfg, p, s, es[0]).1.Some? ==> |es| == 1)
      && IsRun(cfg, p, Turn(cfg, p, s, es[0]).0, es[1..]))
  }

  /** The outcome of a run, if it has returned. */
  function Result(cfg: Config.Config, p: Config.Peer, s: Selection, es: seq<Event>): Option<Outcome>
    decreases |es|
  {
    if es == [] then None
    else
      var t := Turn(cfg, p, s, es[0]);
      if t.1.Some? then t.1 else Result(cfg, p, t.0, es[1..])
  }

  /** The program's loop over the events of one selection window. */
  method Choose(cfg: Config.Config, p: Config.Peer, events: seq<Event>) returns (r: Option<Outcome>)
    requires IsRun(cfg, p, START, events)
    ensures r == Result(cfg, p, START, events)
  {
    var pending: Option<Candidate> := None;
    var running := {false};
    var started := false;
    var i := 0;
    while i < |events|
      invariant i <= |events|
      invariant IsRun(cfg, p, Selection(pending, running, started), events[i..])
      invariant Result(cfg, p, Selection(pending, running, started), events[i..]) == Result(cfg, p, START, events)
    {
      var e := events[i];
      assert events[i..][0] == e && events[i..][1..] == events[i + 1..];
      match e {
        case Accepted =>
          started := true;
          running := running + {true};
        case ListenerClosed =>
          return Some(NoConnection);
        case Finished(d, result) =>
          running := running - {d};
          if result.Some? {
            if d == PreferIncoming(cfg, p, result.value) {
              return Some(Chosen(Candidate(d, result.value)));
            }
            pending := Some(Candidate(d, result.value));
          }
          if running == {} && pending.None? && started {
            return Some(NoConnection);
          }
        case Deadline =>
          if pending.Some? {
            return Some(Chosen(pending.value));
          }
          return Some(NoConnection);
      }
      i := i + 1;
    }
    return None;
  }

  // ---- The loop is short ---------------------------------------------------------------

  /** Turns left before only the deadline remains. */
  function Remaining(s: Selection): nat {
    (if s.started then 0 else 2) + |s.running|
  }

  /** At most three events precede the deadline, and the deadline always ends the loop. */
  lemma {:induction false} RunsAreShort(cfg: Config.Config, p: Config.Peer, s: Selection, es: seq<Event>)
    requires IsRun(cfg, p, s, es) && s.running <= {false, true} && (!s.started ==> true !in s.running)
    ensures |es| <= Remaining(s) + 1
    ensures forall i :: 0 <= i < |es| - 1 ==> !es[i].Deadline?
    decreases |es|
  {
    if es != [] {
      var e, t := es[0], Turn(cfg, p, s, es[0]);
      if t.1.None? {
        RunsAreShort(cfg, p, t.0, es[1..]);
        assert forall i :: 0 < i < |es| ==> es[i] == es[1..][i - 1];
      }
    }
  }

  // ---- A held-back candidate ---------------------------------------------------------------

  /** The selection after some events. */
  function After(cfg: Config.Config, p: Config.Peer, es: seq<Event>): Selection {
    if es == [] then START else Turn(cfg, p, After(cfg, p, es[..|es| - 1]), es[|es| - 1]).0
  }

  /** An exchange completed, but in the direction its own OPEN does not prefer. */
  predicate YieldsTo(cfg: Config.Config, p: Config.Peer, e: Event, incoming: bool) {
    e.Finished? && e.result.Some? && e.incoming == incoming && incoming != PreferIncoming(cfg, p, e.result.value)
  }

  /** Among some events, the exchange of one direction completed so. */
  ghost predicate Yielded(cfg: Config.Config, p: Config.Peer, es: seq<Event>, incoming: bool) {
    exists e <- es :: YieldsTo(cfg, p, e, incoming)
  }

  /** What a candidate is held back for, whether it is still held back, and what is still running. */
  ghost predicate HeldOk(cfg: Config.Config, p: Config.Peer, es: seq<Event>, s: Selection) {
    && s.running <= {false, true}
    && (true in s.running ==> s.started)
    && (s.pending.Some? <==> Yielded(cfg, p, es, false) || Yielded(cfg, p, es, true))
    && (s.pending.Some? ==>
          s.pending.value.incoming != PreferIncoming(cfg, p, s.pending.value.n)
          && Yielded(cfg, p, es, s.pending.value.incoming))
    && (forall d: bool :: Yielded(cfg, p, es, d) ==> d !in s.running && (d ==> s.started))
  }

  /** A sequence of events the loop went through without returning. */
  ghost predicate Ongoing(cfg: Config.Config, p: Config.Peer, es: seq<Event>)
    decreases |es|
  {
    es == [] || (
      var before, e := es[..|es| - 1], es[|es| - 1];
      Ongoing(cfg, p, before) && Possible(After(cfg, p, before), e)
      && Turn(cfg, p, After(cfg, p, before), e).1.None?)
  }

  lemma YieldedStep(cfg: Config.Config, p: Config.Peer, before: seq<Event>, e: Event, d: bool)
    ensures Yielded(cfg, p, before + [e], d) <==> Yielded(cfg, p, before, d) || YieldsTo(cfg, p, e, d)
  {
    assert forall x :: x in before + [e] <==> x in before || x == e;
  }

  lemma HeldStep(cfg: Config.Config, p: Config.Peer, before: seq<Event>, s: Selection, e: Event)
    requires HeldOk(cfg, p, before, s) && Possible(s, e) && Turn(cfg, p, s, e).1.None?
    ensures HeldOk(cfg, p, before + [e], Turn(cfg, p, s, e).0)
  {
    YieldedStep(cfg, p, before, e, false);
    YieldedStep(cfg, p, before, e, true);
  }

  /** In every reachable state a held-back candidate is of the direction its own OPEN does not prefer, and
      that direction no longer runs. */
  lemma {:induction false} HeldThroughout(cfg: Config.Config, p: Config.Peer, es: seq<Event>)
    requires Ongoing(cfg, p, es)
    ensures HeldOk(cfg, p, es, After(cfg, p, es))
    decreases |es|
  {
    if es != [] {
      var before, e := es[..|es| - 1], es[|es| - 1];
      HeldThroughout(cfg, p, before);
      HeldStep(cfg, p, before, After(cfg, p, before), e);
      assert before + [e] == es;
    }
  }

  /** At turn `k` the candidate held back so far is displaced by another one. */
  ghost predicate ReplacedAt(cfg: Config.Config, p: Config.Peer, es: seq<Event>, k: nat)
    requires k < |es|
  {
    var s, t := After(cfg, p, es[..k]), After(cfg, p, es[..k + 1]);
    s.pending.Some? && t.pending.Some? && s.pending.value.incoming != t.pending.value.incoming
  }

  lemma {:induction false} OngoingPrefix(cfg: Config.Config, p: Config.Peer, es: seq<Event>, k: nat)
    requires Ongoing(cfg, p, es) && k <= |es|
    ensures Ongoing(cfg, p, es[..k])
    decreases |es|
  {
    if k < |es| {
      assert es[..|es| - 1][..k] == es[..k];
      OngoingPrefix(cfg, p, es[..|es| - 1], k);
    } else {
      assert es[..k] == es;
    }
  }

  lemma TurnAt(cfg: Config.Config, p: Config.Peer, es: seq<Event>, k: nat)
    requires Ongoing(cfg, p, es) && k < |es|
    ensures Ongoing(cfg, p, es[..k]) && Possible(After(cfg, p, es[..k]), es[k])
    ensures es[..k] + [es[k]] == es[..k + 1]
    ensures After(cfg, p, es[..k + 1]) == Turn(cfg, p, After(cfg, p, es[..k]), es[k]).0
    ensures Turn(cfg, p, After(cfg, p, es[..k]), es[k]).1.None?
  {
    OngoingPrefix(cfg, p, es, k + 1);
    assert es[..k + 1][..k] == es[..k];
    assert es[..k] + [es[k]] == es[..k + 1];
  }

  lemma ReplacedMeans(cfg: Config.Config, p: Config.Peer, es: seq<Event>, k: nat)
    requires Ongoing(cfg, p, es) && k < |es| && ReplacedAt(cfg, p, es, k)
    ensures Yielded(cfg, p, es, false) && Yielded(cfg, p, es, true)
  {
    TurnAt(cfg, p, es, k);
    HeldThroughout(cfg, p, es[..k]);
    YieldedStep(cfg, p, es[..k], es[k], false);
    YieldedStep(cfg, p, es[..k], es[k], true);
    assert forall e :: e in es[..k + 1] ==> e in es;
  }

  /** From the first of two yielding exchanges on, one is held back; the second displaces it. */
  lemma BothYield(cfg: Config.Config, p: Config.Peer, es: seq<Event>) returns (k: nat)
    requires Ongoing(cfg, p, es) && Yielded(cfg, p, es, false) && Yielded(cfg, p, es, true)
    ensures k < |es| && ReplacedAt(cfg, p, es, k)
    decreases |es|
  {
    var before, e := es[..|es| - 1], es[|es| - 1];
    assert es == before + [e];
    YieldedStep(cfg, p, before, e, false);
    YieldedStep(cfg, p, before, e, true);
    if Yielded(cfg, p, before, false) && Yielded(cfg, p, before, true) {
      k := BothYield(cfg, p, before);
      assert before[..k] == es[..k] && before[..k + 1] == es[..k + 1];
    } else {
      k := |es| - 1;
      HeldThroughout(cfg, p, before);
      assert es[..k + 1] == es;
    }
  }

  lemma OverwriteOngoing(cfg: Config.Config, p: Config.Peer, es: seq<Event>)
    requires Ongoing(cfg, p, es)
    ensures Replaced(cfg, p, es) <==> Yielded(cfg, p, es, false) && Yielded(cfg, p, es, true)
  {
    if k :| 0 <= k < |es| && ReplacedAt(cfg, p, es, k) {
      ReplacedMeans(cfg, p, es, k);
    }
    if Yielded(cfg, p, es, false) && Yielded(cfg, p, es, true) {
      var k := BothYield(cfg, p, es);
    }
  }

  /** At some turn a held-back candidate was displaced by another one. */
  ghost predicate Replaced(cfg: Config.Config, p: Config.Peer, es: seq<Event>) {
    exists k :: 0 <= k < |es| && ReplacedAt(cfg, p, es, k)
  }

  lemma OneMore(cfg: Config.Config, p: Config.Peer, done: seq<Event>, e: Event)
    requires Ongoing(cfg, p, done) && Possible(After(cfg, p, done), e) && Turn(cfg, p, After(cfg, p, done), e).1.None?
    ensures Ongoing(cfg, p, done + [e]) && After(cfg, p, done + [e]) == Turn(cfg, p, After(cfg, p, done), e).0
  {
    assert (done + [e])[..|done|] == done;
  }

  /** A run goes on until its last event. */
  lemma {:induction false} RunSplits(cfg: Config.Config, p: Config.Peer, done: seq<Event>, es: seq<Event>)
    requires Ongoing(cfg, p, done) && IsRun(cfg, p, After(cfg, p, done), es) && es != []
    ensures var before := done + es[..|es| - 1];
            Ongoing(cfg, p, before) && Possible(After(cfg, p, before), es[|es| - 1])
    decreases |es|
  {
    if |es| == 1 {
      assert done + es[..0] == done;
    } else {
      var next := done + [es[0]];
      OneMore(cfg, p, done, es[0]);
      RunSplits(cfg, p, next, es[1..]);
      assert next + es[1..][..|es| - 2] == done + es[..|es| - 1];
      assert es[1..][|es| - 2] == es[|es| - 1];
    }
  }

  /** The event that ends the loop displaces nothing and yields to nothing. */
  lemma LastTurn(cfg: Config.Config, p: Config.Peer, before: seq<Event>, e: Event)
    requires Ongoing(cfg, p, before) && Possible(After(cfg, p, before), e)
    requires Turn(cfg, p, After(cfg, p, before), e).1.Some?
    ensures Replaced(cfg, p, before + [e]) <==> Replaced(cfg, p, before)
    ensures forall d: bool :: Yielded(cfg, p, before + [e], d) <==> Yielded(cfg, p, before, d)
  {
    var es := before + [e];
    YieldedStep(cfg, p, before, e, false);
    YieldedStep(cfg, p, before, e, true);
    assert es[..|before|] == before && es[..|es|] == es;
    forall k | 0 <= k < |before|
      ensures ReplacedAt(cfg, p, es, k) <==> ReplacedAt(cfg, p, before, k)
    {
      assert es[..k] == before[..k] && es[..k + 1] == before[..k + 1];
    }
    assert !ReplacedAt(cfg, p, es, |before|);
  }

  /** In every run, a held-back candidate is displaced if and only if both exchanges completed and neither
      was of the direction its own OPEN prefers. */
  lemma OverwriteExactly(cfg: Config.Config, p: Config.Peer, es: seq<Event>)
    requires IsRun(cfg, p, START, es)
    ensures Replaced(cfg, p, es) <==> Yielded(cfg, p, es, false) && Yielded(cfg, p, es, true)
  {
    if es != [] {
      var before, e := es[..|es| - 1], es[|es| - 1];
      RunSplits(cfg, p, [], es);
      assert [] + before == before && before + [e] == es;
      if Turn(cfg, p, After(cfg, p, before), e).1.Some? {
        LastTurn(cfg, p, before, e);
        OverwriteOngoing(cfg, p, before);
      } else {
        OverwriteOngoing(cfg, p, es);
      }
    }
  }

  /** When all OPENs of the peer agree on the preference, no candidate is ever displaced. */
  lemma NeverOverwritten(cfg: Config.Config, p: Config.Peer, es: seq<Event>, best: bool)
    requires IsRun(cfg, p, START, es)
    requires forall e <- es :: e.Finished? && e.result.Some? ==> PreferIncoming(cfg, p, e.result.value) == best
    ensures !Replaced(cfg, p, es)
  {
    OverwriteExactly(cfg, p, es);
  }

  /** The speaker at the other end, with a router identifier of its choice. */
  function PeerConfig(cfg: Config.Config, p: Config.Peer, routerId: nat): Config.Config {
    cfg.(asn := p.remoteAsn, routerId := routerId)
  }

  function PeerOpen(cfg: Config.Config, p: Config.Peer, routerId: nat): Bytes
    requires p.remoteAsn < TWO32 && routerId < TWO32 && p.hold < TWO16
  {
    OpenBody(PeerConfig(cfg, p, routerId), p.(remoteAsn := cfg.asn))
  }

  lemma PeerOpenAccepted(cfg: Config.Config, p: Config.Peer, routerId: nat) returns (n: Negotiated)
    requires Config.ValidConfig(cfg) && Config.ValidPeer(cfg, p)
    requires 0 < routerId < TWO32 && routerId != cfg.routerId
    ensures ParseOpen(PeerOpen(cfg, p, routerId), cfg, p) == Agreed(n) && n.routerId == routerId
  {
    var b, pb := PeerConfig(cfg, p, routerId), p.(remoteAsn := cfg.asn);
    assert Config.ValidPeer(b, pb);
    assert forall q :: Config.ValidPeer(cfg, q) ==> Config.ValidPeer(b, q);
    Negotiation.ReceivedOpen(cfg, p, b, pb);
    n := ParseOpen(PeerOpen(cfg, p, routerId), cfg, p).n;
  }

  lemma DisplacingRun(cfg: Config.Config, p: Config.Peer, high: Negotiated, low: Negotiated)
    requires low.routerId < cfg.routerId < high.routerId
    ensures var es := [Accepted, Finished(false, Some(high)), Finished(true, Some(low)), Deadline];
            && IsRun(cfg, p, START, es) && Replaced(cfg, p, es)
            && Result(cfg, p, START, es) == Some(Chosen(Candidate(true, low)))
  {
    var es := [Accepted, Finished(false, Some(high)), Finished(true, Some(low)), Deadline];
    RunOfFour(cfg, p, high, low, es);
    OverwriteExactly(cfg, p, es);
    assert YieldsTo(cfg, p, es[1], false) && YieldsTo(cfg, p, es[2], true);
  }

  lemma RunOfFour(cfg: Config.Config, p: Config.Peer, high: Negotiated, low: Negotiated, es: seq<Event>)
    requires low.routerId < cfg.routerId < high.routerId
    requires es == [Accepted, Finished(false, Some(high)), Finished(true, Some(low)), Deadline]
    ensures IsRun(cfg, p, START, es) && Result(cfg, p, START, es) == Some(Chosen(Candidate(true, low)))
  {
    var s1 := Turn(cfg, p, START, es[0]).0;
    var s2 := Turn(cfg, p, s1, es[1]).0;
    var s3 := Turn(cfg, p, s2, es[2]).0;
    assert s3.pending == Some(Candidate(true, low));
    assert es[3..][1..] == [] && es[3..][0] == Deadline;
    assert IsRun(cfg, p, s3, es[3..]) && Result(cfg, p, s3, es[3..]) == Some(Chosen(Candidate(true, low)));
    assert es[2..][1..] == es[3..] && es[2..][0] == es[2];
    assert IsRun(cfg, p, s2, es[2..]) && Result(cfg, p, s2, es[2..]) == Some(Chosen(Candidate(true, low)));
    assert es[1..][1..] == es[2..] && es[1..][0] == es[1];
    assert IsRun(cfg, p, s1, es[1..]) && Result(cfg, p, s1, es[1..]) == Some(Chosen(Candidate(true, low)));
  }

  /** Reachable, for every validated configuration: a peer that sends a higher router identifier on the
      outgoing connection and a lower one on the incoming one has the first displaced by the second. Both
      OPENs are accepted. */
  lemma OverwriteHappens(cfg: Config.Config, p: Config.Peer) returns (high: Negotiated, low: Negotiated)
    requires Config.ValidConfig(cfg) && Config.ValidPeer(cfg, p) && 1 < cfg.routerId < TWO32 - 1
    ensures ParseOpen(PeerOpen(cfg, p, cfg.routerId + 1), cfg, p) == Agreed(high)
    ensures ParseOpen(PeerOpen(cfg, p, cfg.routerId - 1), cfg, p) == Agreed(low)
    ensures var es := [Accepted, Finished(false, Some(high)), Finished(true, Some(low)), Deadline];
            && IsRun(cfg, p, START, es) && Replaced(cfg, p, es)
            && Result(cfg, p, START, es) == Some(Chosen(Candidate(true, low)))
  {
    high := PeerOpenAccepted(cfg, p, cfg.routerId + 1);
    low := PeerOpenAccepted(cfg, p, cfg.routerId - 1);
    DisplacingRun(cfg, p, high, low);
  }

  // ---- No connection at all -----------------------------------------------------------------

  /** The exchange of one direction has ended, one way or another. */
  predicate Ended(es: seq<Event>, incoming: bool) {
    exists e <- es :: e.Finished? && e.incoming == incoming
  }

  predicate Failed(es: seq<Event>, incoming: bool) {
    Finished(incoming, None) in es
  }

  /** What still runs, and what ended without a connection. */
  ghost predicate EndsOk(cfg: Config.Config, p: Config.Peer, es: seq<Event>, s: Selection) {
    && (s.started <==> Accepted in es)
    && (forall d: bool :: d in s.running <==> (d ==> s.started) && !Ended(es, d))
    && (forall d: bool :: Ended(es, d) ==> (d ==> s.started) && (Failed(es, d) || Yielded(cfg, p, es, d)))
    && (forall d: bool :: !(Failed(es, d) && Yielded(cfg, p, es, d)))
    && !(Failed(es, false) && Failed(es, true))
  }

  lemma EndedStep(es: seq<Event>, e: Event, d: bool)
    ensures Ended(es + [e], d) <==> Ended(es, d) || (e.Finished? && e.incoming == d)
    ensures Failed(es + [e], d) <==> Failed(es, d) || e == Finished(d, None)
    ensures Accepted in es + [e] <==> Accepted in es || e == Accepted
    ensures Failed(es, d) ==> Ended(es, d)
  {
    assert forall x :: x in es + [e] <==> x in es || x == e;
  }

  lemma YieldedEnds(cfg: Config.Config, p: Config.Peer, es: seq<Event>, d: bool)
    ensures Yielded(cfg, p, es, d) ==> Ended(es, d)
  {
  }

  /** A failure ends the loop exactly when the other exchange had failed before. */
  lemma LastFailure(cfg: Config.Config, p: Config.Peer, before: seq<Event>, s: Selection, d: bool)
    requires EndsOk(cfg, p, before, s) && HeldOk(cfg, p, before, s) && d in s.running
    ensures Turn(cfg, p, s, Finished(d, None)).1 == (if Failed(before, !d) then Some(NoConnection) else None)
    ensures !Failed(before, d)
  {
    EndedStep(before, Finished(d, None), d);
    EndedStep(before, Finished(d, None), !d);
    YieldedEnds(cfg, p, before, d);
    var rest := s.running - {d};
    assert !d in s.running ==> !d in rest;
    if !d !in s.running {
      assert forall x :: x in rest ==> x in s.running && x == !d;
      assert rest == {};
    }
    assert Failed(before, !d) ==> Ended(before, !d);
  }

  lemma EndsStep(cfg: Config.Config, p: Config.Peer, before: seq<Event>, s: Selection, e: Event)
    requires EndsOk(cfg, p, before, s) && HeldOk(cfg, p, before, s)
    requires Possible(s, e) && Turn(cfg, p, s, e).1.None?
    ensures EndsOk(cfg, p, before + [e], Turn(cfg, p, s, e).0)
  {
    if e.Finished? && e.result.None? {
      LastFailure(cfg, p, before, s, e.incoming);
    }
    forall d: bool
      ensures Ended(before + [e], d) <==> Ended(before, d) || (e.Finished? && e.incoming == d)
      ensures Failed(before + [e], d) <==> Failed(before, d) || e == Finished(d, None)
      ensures Yielded(cfg, p, before + [e], d) <==> Yielded(cfg, p, before, d) || YieldsTo(cfg, p, e, d)
      ensures (Yielded(cfg, p, before, d) || Failed(before, d)) ==> Ended(before, d)
    {
      EndedStep(before, e, d);
      YieldedStep(cfg, p, before, e, d);
      YieldedEnds(cfg, p, before, d);
    }
    EndedStep(before, e, true);
  }

  lemma {:induction false} EndsThroughout(cfg: Config.Config, p: Config.Peer, es: seq<Event>)
    requires Ongoing(cfg, p, es)
    ensures EndsOk(cfg, p, es, After(cfg, p, es))
    decreases |es|
  {
    if es != [] {
      var before, e := es[..|es| - 1], es[|es| - 1];
      EndsThroughout(cfg, p, before);
      HeldThroughout(cfg, p, before);
      EndsStep(cfg, p, before, After(cfg, p, before), e);
      assert before + [e] == es;
    }
  }

  lemma {:induction false} ResultIsLast(cfg: Config.Config, p: Config.Peer, done: seq<Event>, es: seq<Event>)
    requires Ongoing(cfg, p, done) && IsRun(cfg, p, After(cfg, p, done), es) && es != []
    ensures var before := done + es[..|es| - 1];
            Result(cfg, p, After(cfg, p, done), es) == Turn(cfg, p, After(cfg, p, before), es[|es| - 1]).1
    decreases |es|
  {
    if |es| == 1 {
      assert done + es[..0] == done && es[1..] == [];
    } else {
      var next := done + [es[0]];
      OneMore(cfg, p, done, es[0]);
      ResultIsLast(cfg, p, next, es[1..]);
      assert next + es[1..][..|es| - 2] == done + es[..|es| - 1];
      assert es[1..][|es| - 2] == es[|es| - 1];
    }
  }

  /** In every run, selection ends without a connection if and only if the listener stopped, the deadline came
      with nothing held back, or both exchanges failed; one failure alone, before or after the peer has
      connected, never ends it. */
  lemma NoConnectionExactly(cfg: Config.Config, p: Config.Peer, es: seq<Event>)
    requires IsRun(cfg, p, START, es)
    ensures Result(cfg, p, START, es) == Some(NoConnection)
            <==> es != []
                 && var e := es[|es| - 1];
                    || e == ListenerClosed
                    || (e == Deadline && !Yielded(cfg, p, es, false) && !Yielded(cfg, p, es, true))
                    || (Failed(es, false) && Failed(es, true))
  {
    if es != [] {
      var before, e := es[..|es| - 1], es[|es| - 1];
      assert [] + before == before && before + [e] == es;
      RunSplits(cfg, p, [], es);
      ResultIsLast(cfg, p, [], es);
      EndsThroughout(cfg, p, before);
      HeldThroughout(cfg, p, before);
      LastWithout(cfg, p, before, After(cfg, p, before), e);
    }
  }

  lemma LastWithout(cfg: Config.Config, p: Config.Peer, before: seq<Event>, s: Selection, e: Event)
    requires EndsOk(cfg, p, before, s) && HeldOk(cfg, p, before, s) && Possible(s, e)
    ensures Turn(cfg, p, s, e).1 == Some(NoConnection)
            <==> || e == ListenerClosed
                 || (e == Deadline && !Yielded(cfg, p, before + [e], false) && !Yielded(cfg, p, before + [e], true))
                 || (Failed(before + [e], false) && Failed(before + [e], true))
  {
    EndedStep(before, e, false);
    EndedStep(before, e, true);
    YieldedStep(cfg, p, before, e, false);
    YieldedStep(cfg, p, before, e, true);
    if e.Finished? && e.result.None? {
      LastFailure(cfg, p, before, s, e.incoming);
    }
  }

  // ---- Which connection is chosen -----------------------------------------------------------

  /** Every completed exchange of the run carried the same OPEN contents. */
  ghost predicate Consistent(es: seq<Event>, n: Negotiated) {
    forall e <- es :: e.Finished? && e.result.Some? ==> e.result.value == n
  }

  predicate Completed(es: seq<Event>, incoming: bool) {
    exists e <- es :: e.Finished? && e.result.Some? && e.incoming == incoming
  }

  /** With one identity per peer: the preferred direction if it completed, else the other, else none. */
  lemma {:induction false} ChoiceMeans(cfg: Config.Config, p: Config.Peer, s: Selection, es: seq<Event>, n: Negotiated)
    requires IsRun(cfg, p, s, es) && Consistent(es, n) && ListenerClosed !in es
    requires Result(cfg, p, s, es).Some?
    requires s.pending.Some? ==> s.pending.value == Candidate(!PreferIncoming(cfg, p, n), n)
    ensures var best := PreferIncoming(cfg, p, n);
            Result(cfg, p, s, es).value
            == if Completed(es, best) then Chosen(Candidate(best, n))
               else if Completed(es, !best) || s.pending.Some? then Chosen(Candidate(!best, n))
               else NoConnection
    decreases |es|
  {
    var e, rest := es[0], es[1..];
    assert es == [e] + rest;
    assert forall x :: x in es <==> x == e || x in rest;
    var t := Turn(cfg, p, s, e);
    if t.1.None? {
      ChoiceMeans(cfg, p, t.0, rest, n);
    } else {
      assert rest == [];
    }
  }

  /** Two speakers that accept each other's OPEN never both prefer, nor both yield, the same direction. */
  lemma ExactlyOnePrefersIncoming(a: Config.Config, pa: Config.Peer, b: Config.Config, pb: Config.Peer)
    requires Negotiation.Mutual(a, pa, b, pb)
    requires ParseOpen(OpenBody(b, pb), a, pa).Agreed? && ParseOpen(OpenBody(a, pa), b, pb).Agreed?
    ensures PreferIncoming(a, pa, ParseOpen(OpenBody(b, pb), a, pa).n)
            <==> !PreferIncoming(b, pb, ParseOpen(OpenBody(a, pa), b, pb).n)
  {
    Negotiation.ReceivedOpen(a, pa, b, pb);
    Negotiation.ReceivedOpen(b, pb, a, pa);
  }

  /** Which speaker opened a connection, seen from `a` and from `b`. */
  datatype Initiator = ByA | ByB

  function SeenFromA(incoming: bool): Initiator {
    if incoming then ByB else ByA
  }

  function SeenFromB(incoming: bool): Initiator {
    if incoming then ByA else ByB
  }

  /** When each window completed some connection, both speakers keep the same TCP connection exactly when
      the one started by the preferred side completed in both windows or in neither; in particular when
      both connections completed in both windows. */
  lemma CollisionAgreement(a: Config.Config, pa: Config.Peer, ea: seq<Event>,
                           b: Config.Config, pb: Config.Peer, eb: seq<Event>)
    requires Negotiation.Mutual(a, pa, b, pb)
    requires ParseOpen(OpenBody(b, pb), a, pa).Agreed? && ParseOpen(OpenBody(a, pa), b, pb).Agreed?
    requires IsRun(a, pa, START, ea) && Consistent(ea, ParseOpen(OpenBody(b, pb), a, pa).n) && ListenerClosed !in ea
    requires IsRun(b, pb, START, eb) && Consistent(eb, ParseOpen(OpenBody(a, pa), b, pb).n) && ListenerClosed !in eb
    requires Result(a, pa, START, ea).Some? && Result(b, pb, START, eb).Some?
    requires exists d :: Completed(ea, d)
    requires exists d :: Completed(eb, d)
    ensures var ra, rb := Result(a, pa, START, ea).value, Result(b, pb, START, eb).value;
            && ra.Chosen? && rb.Chosen?
            && (SeenFromA(ra.candidate.incoming) == SeenFromB(rb.candidate.incoming)
                <==> (Completed(ea, PreferIncoming(a, pa, ParseOpen(OpenBody(b, pb), a, pa).n))
                      <==> Completed(eb, PreferIncoming(b, pb, ParseOpen(OpenBody(a, pa), b, pb).n))))
  {
    var na, nb := ParseOpen(OpenBody(b, pb), a, pa).n, ParseOpen(OpenBody(a, pa), b, pb).n;
    ExactlyOnePrefersIncoming(a, pa, b, pb);
    ChoiceMeans(a, pa, START, ea, na);
    ChoiceMeans(b, pb, START, eb, nb);
    var da :| Completed(ea, da);
    var db :| Completed(eb, db);
    assert Completed(ea, PreferIncoming(a, pa, na)) || Completed(ea, !PreferIncoming(a, pa, na));
    assert Completed(eb, PreferIncoming(b, pb, nb)) || Completed(eb, !PreferIncoming(b, pb, nb));
  }

  /** The higher identifier, and of equal ones the higher AS (section 6.8 of RFC 4271, RFC 6286). */
  predicate Outranks(a: Config.Config, b: Config.Config) {
    a.routerId > b.routerId || (a.routerId == b.routerId && a.asn > b.asn)
  }

  /** Of two speakers that accept each other's OPEN, each keeps the connection started by the one that
      outranks the other whenever that connection completes in its window. */
  lemma HigherSpeakerWins(a: Config.Config, pa: Config.Peer, b: Config.Config, pb: Config.Peer, ea: seq<Event>)
    requires Negotiation.Mutual(a, pa, b, pb)
    requires ParseOpen(OpenBody(b, pb), a, pa).Agreed?
    requires IsRun(a, pa, START, ea) && Consistent(ea, ParseOpen(OpenBody(b, pb), a, pa).n) && ListenerClosed !in ea
    requires Result(a, pa, START, ea).Some? && Completed(ea, Outranks(b, a))
    ensures Outranks(a, b) <==> !Outranks(b, a)
    ensures Result(a, pa, START, ea).value.Chosen?
    ensures SeenFromA(Result(a, pa, START, ea).value.candidate.incoming) == if Outranks(b, a) then ByB else ByA
  {
    Negotiation.ReceivedOpen(a, pa, b, pb);
    ChoiceMeans(a, pa, START, ea, ParseOpen(OpenBody(b, pb), a, pa).n);
  }
}
