/** The writer's loop as imperative code: its variables, updated section by section, refine the state machine. */
module Transmitter {
  import opened Base
  import opened Net
  import opened Protocol
  import opened Plans
  import opened Writer
  import opened WriterLaws
  import Encoder

  /** The cell shared with the reader: pending family bits and a stored wake-up permit. */
  class RefreshCell {
    var pending: Families
    var permit: bool

    constructor ()
      ensures pending == NONE && !permit
    {
      pending, permit := NONE, false;
    }

    method Request(v6: bool)
      modifies this
      ensures pending == With(old(pending), v6) && permit
    {
      pending := if v6 then pending.(v6 := true) else pending.(v4 := true);
      permit := true;
    }

    method Swap() returns (families: Families)
      modifies this
      ensures families == old(pending) && pending == NONE && permit == old(permit)
    {
      families := pending;
      pending := NONE;
    }
  }

  lemma ReplayIsStep(c: Context, s: State, plan: Plan)
    requires s.w.phase == RefreshCheck && MayTakeRefresh(s)
    requires PlanFor(plan, s.w.advertised, s.w.target, c.n, set p | p in s.w.target && Has(s.refresh.pending, p.v6))
    ensures var replay := set p | p in s.w.target && Has(s.refresh.pending, p.v6);
            WriterStep(c, s, TakeRefresh,
                       s.(w := s.w.(replay := replay, plan := plan, eor := Both(s.refresh.pending, Negotiates(c.n)),
                                    nextRefresh := s.now + 1000, phase := KeepaliveCheck),
                          refresh := s.refresh.(pending := NONE)))
  {
  }

  lemma SkipIsStep(c: Context, s: State)
    requires s.w.phase == RefreshCheck && !MayTakeRefresh(s)
    ensures WriterStep(c, s, SkipRefresh, s.(w := s.w.(phase := KeepaliveCheck)))
  {
  }

  class Loop {
    const c: Context
    const cell: RefreshCell
    var advertised: set<Prefix>
    var target: set<Prefix>
    var replay: set<Prefix>
    var plan: Queue
    var eor: Families
    var seen: nat
    var lastReplan: nat
    var nextRefresh: nat
    var nextKeepalive: nat
    var out: Bytes

    /** The loop's variables as the state machine sees them, at a point of its body. */
    ghost function At(phase: Phase): Local
      reads this, plan
    {
      Local(phase, advertised, target, replay, plan.Value(), eor, seen, lastReplan, nextRefresh, nextKeepalive, out)
    }

    ghost function View(phase: Phase, ch: Channel, now: nat): State
      reads this, plan, cell
    {
      State(At(phase), ch, Refresh(cell.pending, cell.permit, false), now)
    }

    constructor (c: Context, cell: RefreshCell, ch: Channel, now: nat)
      requires ValidExports(ch.exports) && cell.pending == NONE && !cell.permit
      ensures this.c == c && this.cell == cell && fresh(plan)
      ensures Init(c, View(Top, ch, now))
    {
      this.c := c;
      this.cell := cell;
      advertised, replay, out := {}, {}, [];
      var wanted := Desired(ch, c.p.exportAcl);
      target := wanted;
      seen := ch.version;
      plan := new Queue({}, wanted, c.n, {});
      nextKeepalive := now + Keepalive(c.n);
      eor := Families(c.n.ipv4, c.n.ipv6);
      lastReplan, nextRefresh := now, now;
    }

    /** Retarget to the latest snapshot and replan against what was written. */
    method Replan(ch: Channel, now: nat, ghost before: Phase, ghost after: Phase)
      modifies this
      ensures Adopted(c, old(View(before, ch, now)), At(after))
      ensures fresh(plan)
    {
      var wanted := Desired(ch, c.p.exportAcl);
      var kept := set p | p in replay && p in wanted;
      var queue := new Queue(advertised, wanted, c.n, kept);
      target, seen, replay, plan, lastReplan := wanted, ch.version, kept, queue, now;
    }

    method ReplanIfChanged(ch: Channel, now: nat) returns (ghost l: Label)
      modifies this
      ensures WriterStep(c, old(View(Top, ch, now)), l, View(RefreshCheck, ch, now))
      ensures l == if MayAdopt(old(View(Top, ch, now))) then Adopt else KeepTarget
      ensures plan == old(plan) || fresh(plan)
    {
      l := KeepTarget;
      if seen != ch.version && now >= lastReplan + 100 {
        Replan(ch, now, Top, RefreshCheck);
        l := Adopt;
      }
    }

    /** Queue everything of the requested families again and owe their markers. */
    method StartReplay(families: Families, now: nat)
      modifies this
      ensures fresh(plan)
      ensures PlanFor(plan.Value(), advertised, target, c.n, set p | p in target && Has(families, p.v6))
      ensures At(KeepaliveCheck) == old(At(RefreshCheck)).(
                replay := (set p | p in target && Has(families, p.v6)), plan := plan.Value(),
                eor := Both(families, Negotiates(c.n)), nextRefresh := now + 1000, phase := KeepaliveCheck)
    {
      var again := set p | p in target && Has(families, p.v6);
      var queue := new Queue(advertised, target, c.n, again);
      replay, plan, nextRefresh := again, queue, now + 1000;
      eor := Both(families, Negotiates(c.n));
    }

    method ReplayIfRequested(ch: Channel, now: nat) returns (ghost l: Label)
      modifies this, cell
      ensures WriterStep(c, old(View(RefreshCheck, ch, now)), l, View(KeepaliveCheck, ch, now))
      ensures l == if MayTakeRefresh(old(View(RefreshCheck, ch, now))) then TakeRefresh else SkipRefresh
      ensures plan == old(plan) || fresh(plan)
    {
      ghost var s := View(RefreshCheck, ch, now);
      l := SkipRefresh;
      if eor == NONE && now >= nextRefresh {
        var families := cell.Swap();
        if families != NONE {
          StartReplay(families, now);
          l := TakeRefresh;
          ReplayIsStep(c, s, plan.Value());
          return;
        }
      }
      SkipIsStep(c, s);
    }

    method KeepaliveIfDue(ch: Channel, now: nat) returns (ghost l: Label)
      modifies this`out, this`nextKeepalive
      ensures WriterStep(c, old(View(KeepaliveCheck, ch, now)), l, View(Send, ch, now))
    {
      l := SkipKeepalive;
      if c.n.hold != 0 && now >= nextKeepalive {
        out := out + Frame(KEEPALIVE, []);
        nextKeepalive := now + Keepalive(c.n);
        l := SendKeepalive;
      }
    }

    /** Write one batch, then record it prefix by prefix. */
    method SendNext(ch: Channel, now: nat) returns (sent: bool, ghost l: Label)
      requires Ready(c) && PlanCurrent(c, At(Send)) && SetsOk(c, At(Send))
      modifies this`out, this`replay, this`advertised, plan
      ensures sent <==> old(plan.Value()) != EMPTY
      ensures WriterStep(c, old(View(Send, ch, now)), l, View(if sent then Top else Mark, ch, now))
    {
      ghost var s := View(Send, ch, now);
      var next := plan.Next();
      if next.None? {
        return false, NothingQueued;
      }
      var withdraw, batch := next.value.0, next.value.1;
      assert Encoder.CanEncode(c.cfg, c.p, batch, withdraw) by {
        BatchEncodable(c, s.w);
      }
      Write(withdraw, batch);
      SentIsStep(c, s, withdraw, batch, plan.Value());
      return true, SendBatch(withdraw, batch);
    }

    method Write(withdraw: bool, batch: seq<Prefix>)
      requires Encoder.CanEncode(c.cfg, c.p, batch, withdraw)
      modifies this`out, this`replay, this`advertised
      ensures out == old(out) + Frame(UPDATE, Encoder.UpdateBody(c.cfg, c.p, c.n, batch, withdraw))
      ensures replay == old(replay) - Elements(batch)
      ensures advertised == if withdraw then old(advertised) - Elements(batch) else old(advertised) + Elements(batch)
    {
      var packet := Encoder.Update(c.cfg, c.p, c.n, batch, withdraw);
      out := out + packet;
      Record(withdraw, batch);
    }

    /** Record a written batch, prefix by prefix. */
    method Record(withdraw: bool, batch: seq<Prefix>)
      modifies this`replay, this`advertised
      ensures replay == old(replay) - Elements(batch)
      ensures advertised == if withdraw then old(advertised) - Elements(batch) else old(advertised) + Elements(batch)
    {
      for i := 0 to |batch|
        invariant replay == old(replay) - Elements(batch[..i])
        invariant advertised == if withdraw then old(advertised) - Elements(batch[..i])
                                else old(advertised) + Elements(batch[..i])
      {
        assert Elements(batch[..i + 1]) == Elements(batch[..i]) + {batch[i]};
        replay := replay - {batch[i]};
        if withdraw {
          advertised := advertised - {batch[i]};
        } else {
          advertised := advertised + {batch[i]};
        }
      }
      assert batch[..|batch|] == batch;
    }

    method WriteMarkers(ch: Channel, now: nat)
      modifies this`out, this`eor
      ensures WriterStep(c, old(View(Mark, ch, now)), SendMarkers, View(Blocked(cell.pending != NONE), ch, now))
    {
      ghost var before, owed := out, eor;
      if eor != NONE {
        if eor.v4 {
          out := out + Frame(UPDATE, Encoder.EndOfRibBody(false));
        }
        if eor.v6 {
          out := out + Frame(UPDATE, Encoder.EndOfRibBody(true));
        }
        eor := NONE;
      }
      assert out == before + Markers(owed);
    }

    /** The three checks at the head of the loop. */
    method Checks(ch: Channel, now: nat)
      requires Ready(c) && Inv(c, View(Top, ch, now))
      modifies this, cell
      ensures plan == old(plan) || fresh(plan)
      ensures Checked(c, old(View(Top, ch, now)), View(Send, ch, now))
    {
      FirstTwoChecks(ch, now);
      ghost var s := View(KeepaliveCheck, ch, now);
      ghost var l := KeepaliveIfDue(ch, now);
      LaterCheck(c, old(View(Top, ch, now)), s, l, View(Send, ch, now));
    }

    method FirstTwoChecks(ch: Channel, now: nat)
      requires Ready(c) && Inv(c, View(Top, ch, now))
      modifies this, cell
      ensures plan == old(plan) || fresh(plan)
      ensures Checked(c, old(View(Top, ch, now)), View(KeepaliveCheck, ch, now))
    {
      ghost var l := ReplanIfChanged(ch, now);
      ghost var s := View(RefreshCheck, ch, now);
      FirstCheck(c, old(View(Top, ch, now)), l, s);
      l := ReplayIfRequested(ch, now);
      LaterCheck(c, old(View(Top, ch, now)), s, l, View(KeepaliveCheck, ch, now));
    }

    /** One pass of the loop body. */
    method Pass(ch: Channel, now: nat) returns (sent: bool)
      requires Ready(c) && Inv(c, View(Top, ch, now))
      modifies this, cell, plan
      ensures plan == old(plan) || fresh(plan)
      ensures Passed(c, old(View(Top, ch, now)), View(if sent then Top else Mark, ch, now), sent)
    {
      ghost var s0 := View(Top, ch, now);
      Checks(ch, now);
      ghost var s := View(Send, ch, now);
      ghost var l;
      sent, l := SendNext(ch, now);
      RestOfLoop(c, s0, s, l, View(if sent then Top else Mark, ch, now), sent);
    }

    /** Left undisturbed, the loop drains its plan and goes to sleep with the peer in sync. */
    method Synchronise(ch: Channel, now: nat)
      requires Ready(c) && Inv(c, View(Top, ch, now))
      modifies this, cell, plan
      ensures Inv(c, View(Blocked(cell.pending != NONE), ch, now))
      ensures PeerRib(out, {}, c.n) == Up(set p | p in target && Enabled(c.n, p.v6))
      ensures seen == ch.version || now < lastReplan + 100
    {
      var sent := true;
      while sent
        invariant plan == old(plan) || fresh(plan)
        invariant Inv(c, View(if sent then Top else Mark, ch, now))
        invariant !sent ==> !MayAdopt(View(Mark, ch, now))
        decreases sent, Disturbances(View(Top, ch, now)), Size(plan.Value())
      {
        sent := Pass(ch, now);
      }
      ghost var s := View(Mark, ch, now);
      WriteMarkers(ch, now);
      ghost var t := View(Blocked(cell.pending != NONE), ch, now);
      WriterKeeps(c, s, SendMarkers, t);
      EmptyPlanMeans(c, t.w);
    }
  }

  /** Disturbances that can still change the plan while channel and clock stand still. */
  ghost function Disturbances(s: State): nat {
    (if MayAdopt(s) then 1 else 0) + (if s.refresh.pending != NONE then 1 else 0)
  }

  ghost predicate Checked(c: Context, s: State, t: State) {
    && Inv(c, t) && !MayAdopt(t)
    && Disturbances(t) <= Disturbances(s)
    && (Disturbances(t) == Disturbances(s) ==> t.w.plan == s.w.plan)
  }

  ghost predicate Passed(c: Context, s: State, t: State, sent: bool) {
    && Inv(c, t) && !MayAdopt(t)
    && Disturbances(t) <= Disturbances(s)
    && (sent && Disturbances(t) == Disturbances(s) ==> Size(t.w.plan) < Size(s.w.plan))
  }

  /** The first check leaves no snapshot to adopt; it changes the plan only by adopting one. */
  lemma FirstCheck(c: Context, s: State, l: Label, t: State)
    requires Ready(c) && Inv(c, s) && s.w.phase == Top && WriterStep(c, s, l, t)
    ensures Checked(c, s, t)
  {
    WriterKeeps(c, s, l, t);
  }

  /** A later check changes the plan only by using up the pending requests. */
  lemma LaterCheck(c: Context, start: State, s: State, l: Label, t: State)
    requires Ready(c) && Checked(c, start, s) && WriterStep(c, s, l, t)
    requires s.w.phase == RefreshCheck || s.w.phase == KeepaliveCheck
    ensures Checked(c, start, t)
  {
    WriterKeeps(c, s, l, t);
  }

  lemma RestOfLoop(c: Context, s0: State, s: State, l: Label, t: State, sent: bool)
    requires Ready(c) && Checked(c, s0, s) && s.w.phase == Send && WriterStep(c, s, l, t)
    requires sent <==> s.w.plan != EMPTY
    ensures Passed(c, s0, t, sent)
  {
    WriterKeeps(c, s, l, t);
  }
}
