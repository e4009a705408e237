/** Kernel to peer: the reconciler and the writer of one peer, composed through the export channel. */
module EndToEnd {
  import opened Net
  import opened Protocol
  import Config
  import Freshness
  import R = Reconciler
  import RL = ReconcilerLaws
  import W = Writer
  import WL = WriterLaws

  /** A peer's session: none, or one with its parameters, its writer and its refresh requests. */
  datatype Session = Closed | Established(c: W.Context, w: W.Local, refresh: W.Refresh)

  datatype System = System(rec: R.State, session: Session)

  /** The writer's view: its own variables, and the channel and clock it shares with the reconciler. */
  function View(s: System): W.State
    requires s.session.Established?
  {
    W.State(s.session.w, s.rec.channel, s.session.refresh, s.rec.now)
  }

  datatype Label = Reconcile(rl: R.Label) | Write(wl: W.Label) | Open | Close

  /** A session may be opened for a configured peer with parameters its OPEN was accepted with. */
  ghost predicate Opens(cfg: Config.Config, c: W.Context) {
    c.cfg == cfg && WL.Ready(c) && exists p <- cfg.peers :: p.exportAcl == c.p.exportAcl
  }

  ghost predicate Next(cfg: Config.Config, s: System, l: Label, t: System)
    requires RL.Usable(cfg)
  {
    match l
    case Reconcile(rl) =>
      R.Next(cfg, s.rec, rl, t.rec) && t.session == s.session
    case Write(wl) =>
      && s.session.Established? && t.session.Established? && t.session.c == s.session.c && t.rec == s.rec
      && (W.WriterStep(s.session.c, View(s), wl, View(t))
          || ((wl.RequestBit? || wl.RequestNotify?) && W.EnvironmentStep(s.session.c, View(s), wl, View(t))))
    case Open =>
      && s.session.Closed? && t.session.Established? && t.rec == s.rec
      && Opens(cfg, t.session.c) && W.Init(t.session.c, View(t))
    case Close =>
      t == s.(session := Closed)
  }

  ghost predicate IsRun(cfg: Config.Config, ss: seq<System>, ls: seq<Label>)
    requires RL.Usable(cfg)
  {
    && |ss| == |ls| + 1
    && R.Init(ss[0].rec) && ss[0].session.Closed?
    && forall i :: 0 <= i < |ls| ==> Next(cfg, ss[i], ls[i], ss[i + 1])
  }

  ghost predicate Inv(cfg: Config.Config, s: System)
    requires RL.Usable(cfg)
  {
    && RL.Inv(cfg, s.rec)
    && (s.session.Established? ==> Opens(cfg, s.session.c) && WL.Inv(s.session.c, View(s)))
  }

  /** To the writer, a step of the reconciler is a new snapshot, time passing, or nothing. */
  lemma ReconcilerSeenByWriter(cfg: Config.Config, s: R.State, l: R.Label, t: R.State)
    requires RL.Usable(cfg) && R.Next(cfg, s, l, t)
    ensures t.channel == s.channel || t.channel.version == s.channel.version + 1
  {
  }

  lemma ReconcileKeeps(cfg: Config.Config, s: System, l: R.Label, t: System)
    requires RL.Usable(cfg) && Inv(cfg, s) && Next(cfg, s, Reconcile(l), t)
    ensures Inv(cfg, t)
  {
    RL.NextKeeps(cfg, s.rec, l, t.rec);
    ReconcilerSeenByWriter(cfg, s.rec, l, t.rec);
    if s.session.Established? {
      NewChannelKeeps(s.session.c, View(s), View(t));
    }
  }

  lemma NewChannelKeeps(c: W.Context, s: W.State, t: W.State)
    requires WL.Inv(c, s) && t == s.(channel := t.channel, now := t.now)
    requires t.channel == s.channel || t.channel.version == s.channel.version + 1
    requires W.ValidExports(t.channel.exports)
    ensures WL.Inv(c, t)
  {
  }

  lemma WriteKeeps(cfg: Config.Config, s: System, l: W.Label, t: System)
    requires RL.Usable(cfg) && Inv(cfg, s) && Next(cfg, s, Write(l), t)
    ensures Inv(cfg, t)
  {
    if W.WriterStep(s.session.c, View(s), l, View(t)) {
      WL.WriterKeeps(s.session.c, View(s), l, View(t));
    } else {
      WL.EnvironmentKeeps(s.session.c, View(s), l, View(t));
    }
  }

  lemma {:induction false} RunInvariant(cfg: Config.Config, ss: seq<System>, ls: seq<Label>, i: nat)
    requires RL.Usable(cfg) && IsRun(cfg, ss, ls) && i <= |ls|
    ensures Inv(cfg, ss[i])
  {
    if i == 0 {
      RL.InitOk(cfg, ss[0].rec);
    } else {
      RunInvariant(cfg, ss, ls, i - 1);
      var s, l, t := ss[i - 1], ls[i - 1], ss[i];
      assert Next(cfg, s, l, t);
      match l
      case Reconcile(rl) => ReconcileKeeps(cfg, s, rl, t);
      case Write(wl) => WriteKeeps(cfg, s, wl, t);
      case Open => WL.InitOk(t.session.c, View(t));
      case Close =>
    }
  }

  /** Nothing is under way between kernel and peer. */
  ghost predicate Quiescent(s: System) {
    && s.session.Established?
    && !s.rec.worker.dirty && !RL.Pending(s.rec)
    && s.session.w.phase.Blocked? && s.session.w.seen == s.rec.channel.version
  }

  /** What the peer should know: the kernel's eligible prefixes that its access list permits, in the
      families negotiated with it. */
  ghost function Intended(cfg: Config.Config, s: System): set<Prefix>
    requires s.session.Established? && Opens(cfg, s.session.c) && RL.Usable(cfg)
  {
    set p | p in RL.KernelPrefixes(cfg, s.rec.kernel)
            && Config.Permits(cfg.acls[s.session.c.p.exportAcl].rules, p)
            && Enabled(s.session.c.n, p.v6)
  }

  /** In every quiescent state of every run, across any number of sessions, decoding all bytes the
      session has sent yields exactly the intended prefixes. */
  lemma KernelReachesPeer(cfg: Config.Config, ss: seq<System>, ls: seq<Label>, i: nat)
    requires RL.Usable(cfg) && IsRun(cfg, ss, ls) && i <= |ls| && Quiescent(ss[i])
    ensures Opens(cfg, ss[i].session.c)
    ensures W.PeerRib(ss[i].session.w.stream, {}, ss[i].session.c.n) == W.Up(Intended(cfg, ss[i]))
  {
    RunInvariant(cfg, ss, ls, i);
    var s := ss[i];
    WL.EmptyPlanMeans(s.session.c, s.session.w);
    var acl := s.session.c.p.exportAcl;
    assert acl in Freshness.AclNames(cfg);
    assert s.session.w.target == Freshness.Filter(cfg, RL.KernelPrefixes(cfg, s.rec.kernel))[acl];
  }
}
