/** The export writer as a state machine: its loop, section by section, between the steps of its environment. */
module Writer {
  import opened Base
  import opened Net
  import opened Protocol
  import opened Plans
  import Attributes
  import Config
  import Encoder
  import Recovery

  // ---- State ----------------------------------------------------------------------------

  type Exports = map<string, set<Prefix>>

  /** The watch channel: the latest exports and how often they were replaced. */
  datatype Channel = Channel(exports: Exports, version: nat)

  /** One bit per address family. */
  datatype Families = Families(v4: bool, v6: bool)

  const NONE: Families := Families(false, false)

  predicate Has(f: Families, v6: bool) {
    if v6 then f.v6 else f.v4
  }

  function With(f: Families, v6: bool): Families {
    if v6 then f.(v6 := true) else f.(v4 := true)
  }

  predicate Within(a: Families, b: Families) {
    (a.v4 ==> b.v4) && (a.v6 ==> b.v6)
  }

  function Both(a: Families, b: Families): Families {
    Families(a.v4 && b.v4, a.v6 && b.v6)
  }

  /** Refresh requests shared with the reader: pending bits, the stored wake-up permit, and whether
      the reader is between setting a bit and notifying. */
  datatype Refresh = Refresh(pending: Families, permit: bool, notifying: bool)

  /** Where the loop stands; `armed` says whether the cooldown timer was enabled on entry to `select`. */
  datatype Phase = Top | RefreshCheck | KeepaliveCheck | Send | Mark | Blocked(armed: bool)

  datatype Local = Local(
    phase: Phase,
    advertised: set<Prefix>,
    target: set<Prefix>,
    replay: set<Prefix>,
    plan: Plan,
    eor: Families,
    seen: nat,
    lastReplan: nat,
    nextRefresh: nat,
    nextKeepalive: nat,
    stream: Bytes)

  /** Writer, channel, refresh requests and clock (milliseconds). */
  datatype State = State(w: Local, channel: Channel, refresh: Refresh, now: nat)

  /** What a session fixes: configuration, peer and negotiated parameters. */
  datatype Context = Context(cfg: Config.Config, p: Config.Peer, n: Negotiated)

  function Negotiates(n: Negotiated): Families {
    Families(n.ipv4, n.ipv6)
  }

  function Keepalive(n: Negotiated): nat {
    1000 * (if n.hold / 3 > 1 then n.hold / 3 else 1)
  }

  /** The exports of the peer's access list, none when the list is absent. */
  function Desired(ch: Channel, acl: string): set<Prefix> {
    if acl in ch.exports then ch.exports[acl] else {}
  }

  // ---- The reader's side -------------------------------------------------------------------

  datatype RefreshRequest = For(v6: bool) | Ignored | Malformed

  /** A ROUTE-REFRESH body (section 3 of RFC 2918). */
  function RefreshFamily(b: Bytes, n: Negotiated): (r: RefreshRequest)
    ensures r.For? ==> Enabled(n, r.v6)
  {
    if |b| != 4 then Malformed
    else if b[2] != 0 || b[3] != 1 then Ignored
    else if U16(b) == 1 && n.ipv4 then For(false)
    else if U16(b) == 2 && n.ipv6 then For(true)
    else Ignored
  }

  /** A request is for a family exactly when it is basic (subtype 0), unicast and for a negotiated one; it is
      malformed exactly when it is not four octets long. */
  lemma RefreshFamilyExactly(b: Bytes, n: Negotiated, v6: bool)
    ensures RefreshFamily(b, n) == For(v6) <==> b == [0, if v6 then 2 else 1, 0, 1] && Enabled(n, v6)
    ensures RefreshFamily(b, n) == Malformed <==> |b| != 4
  {
    if |b| == 4 {
      assert b == [b[0], b[1], b[2], b[3]];
    }
  }

  // ---- Steps ---------------------------------------------------------------------------------

  datatype Label =
    | Adopt | KeepTarget
    | TakeRefresh | SkipRefresh
    | SendKeepalive | SkipKeepalive
    | SendBatch(withdraw: bool, batch: seq<Prefix>) | NothingQueued
    | SendMarkers
    | WakeSnapshot | WakeNotified | WakeCooldown | WakeKeepalive
    | Publish(exports: Exports) | RequestBit(body: Bytes) | RequestNotify | Tick(elapsed: nat)

  /** A snapshot is waiting and the last replan is at least 100 ms old. */
  predicate MayAdopt(s: State) {
    s.w.seen != s.channel.version && s.now >= s.w.lastReplan + 100
  }

  predicate MayTakeRefresh(s: State) {
    s.w.eor == NONE && s.now >= s.w.nextRefresh && s.refresh.pending != NONE
  }

  predicate KeepaliveDue(c: Context, s: State) {
    c.n.hold != 0 && s.now >= s.w.nextKeepalive
  }

  /** Take the latest snapshot: retarget, forget replays of prefixes that left, replan. */
  ghost predicate Adopted(c: Context, s: State, w: Local) {
    var target := Desired(s.channel, c.p.exportAcl);
    var replay := set p | p in s.w.replay && p in target;
    && PlanFor(w.plan, s.w.advertised, target, c.n, replay)
    && w == s.w.(target := target, replay := replay, plan := w.plan, seen := s.channel.version,
                 lastReplan := s.now, phase := w.phase)
  }

  ghost predicate ReplayStarted(c: Context, s: State, w: Local) {
    var families := s.refresh.pending;
    var replay := set p | p in s.w.target && Has(families, p.v6);
    && PlanFor(w.plan, s.w.advertised, s.w.target, c.n, replay)
    && w == s.w.(replay := replay, plan := w.plan, eor := Both(families, Negotiates(c.n)),
                 nextRefresh := s.now + 1000, phase := KeepaliveCheck)
  }

  /** The writer's sets after a batch has been written. */
  function Sent(w: Local, withdraw: bool, batch: seq<Prefix>, rest: Plan): Local {
    var done := Elements(batch);
    w.(replay := w.replay - done,
       advertised := if withdraw then w.advertised - done else w.advertised + done,
       plan := rest, phase := Top)
  }

  function Markers(eor: Families): Bytes {
    (if eor.v4 then Frame(UPDATE, Encoder.EndOfRibBody(false)) else [])
    + (if eor.v6 then Frame(UPDATE, Encoder.EndOfRibBody(true)) else [])
  }

  /** Steps of the writer's own loop. */
  ghost predicate WriterStep(c: Context, s: State, l: Label, t: State) {
    match l
    case Adopt =>
      && s.w.phase == Top && MayAdopt(s)
      && Adopted(c, s, t.w) && t.w.phase == RefreshCheck && t == s.(w := t.w)
    case KeepTarget =>
      s.w.phase == Top && !MayAdopt(s) && t == s.(w := s.w.(phase := RefreshCheck))
    case TakeRefresh =>
      && s.w.phase == RefreshCheck && MayTakeRefresh(s)
      && ReplayStarted(c, s, t.w)
      && t == s.(w := t.w, refresh := s.refresh.(pending := NONE))
    case SkipRefresh =>
      s.w.phase == RefreshCheck && !MayTakeRefresh(s) && t == s.(w := s.w.(phase := KeepaliveCheck))
    case SendKeepalive =>
      && s.w.phase == KeepaliveCheck && KeepaliveDue(c, s)
      && t == s.(w := s.w.(stream := s.w.stream + Frame(KEEPALIVE, []),
                           nextKeepalive := s.now + Keepalive(c.n), phase := Send))
    case SkipKeepalive =>
      s.w.phase == KeepaliveCheck && !KeepaliveDue(c, s) && t == s.(w := s.w.(phase := Send))
    case SendBatch(withdraw, batch) =>
      && s.w.phase == Send && s.w.plan != EMPTY
      && (withdraw, batch) == (NextBatch(s.w.plan).0, NextBatch(s.w.plan).1)
      && Encoder.CanEncode(c.cfg, c.p, batch, withdraw)
      && t == s.(w := Sent(s.w, withdraw, batch, NextBatch(s.w.plan).2).(
                   stream := s.w.stream + Frame(UPDATE, Encoder.UpdateBody(c.cfg, c.p, c.n, batch, withdraw))))
    case NothingQueued =>
      s.w.phase == Send && s.w.plan == EMPTY && t == s.(w := s.w.(phase := Mark))
    case SendMarkers =>
      && s.w.phase == Mark
      && t == s.(w := s.w.(stream := s.w.stream + Markers(s.w.eor), eor := NONE,
                           phase := Blocked(s.refresh.pending != NONE)))
    case WakeSnapshot =>
      && s.w.phase.Blocked? && s.w.seen != s.channel.version
      && Adopted(c, s, t.w) && t.w.phase == Top && t == s.(w := t.w)
    case WakeNotified =>
      && s.w.phase.Blocked? && s.refresh.permit
      && t == s.(w := s.w.(phase := Top), refresh := s.refresh.(permit := false))
    case WakeCooldown =>
      s.w.phase == Blocked(true) && s.now >= s.w.nextRefresh && t == s.(w := s.w.(phase := Top))
    case WakeKeepalive =>
      s.w.phase.Blocked? && KeepaliveDue(c, s) && t == s.(w := s.w.(phase := Top))
    case _ => false
  }

  ghost predicate ValidExports(e: Exports) {
    forall acl <- e :: forall p <- e[acl] :: Truncated(p)
  }

  /** Steps of the environment: the kernel worker, the reader task and time. */
  ghost predicate EnvironmentStep(c: Context, s: State, l: Label, t: State) {
    match l
    case Publish(exports) =>
      ValidExports(exports) && t == s.(channel := Channel(exports, s.channel.version + 1))
    case RequestBit(body) =>
      && RefreshFamily(body, c.n).For? && !s.refresh.notifying
      && t == s.(refresh := s.refresh.(pending := With(s.refresh.pending, RefreshFamily(body, c.n).v6),
                                       notifying := true))
    case RequestNotify =>
      s.refresh.notifying && t == s.(refresh := s.refresh.(permit := true, notifying := false))
    case Tick(elapsed) =>
      t == s.(now := s.now + elapsed)
    case _ => false
  }

  ghost predicate Next(c: Context, s: State, l: Label, t: State) {
    WriterStep(c, s, l, t) || EnvironmentStep(c, s, l, t)
  }

  ghost predicate Init(c: Context, s: State) {
    && ValidExports(s.channel.exports)
    && s.refresh == Refresh(NONE, false, false)
    && s.w == Local(Top, {}, Desired(s.channel, c.p.exportAcl), {}, s.w.plan, Negotiates(c.n),
                    s.channel.version, s.now, s.now, s.now + Keepalive(c.n), [])
    && PlanFor(s.w.plan, {}, s.w.target, c.n, {})
  }

  // ---- The peer: what the bytes written so far make it believe ---------------------------------

  datatype Rib = Up(routes: set<Prefix>) | Down

  /** Decode a stream as the receiver does: every frame must be read and every UPDATE must be valid. */
  function PeerRib(s: Bytes, rib: set<Prefix>, n: Negotiated): Rib
    decreases |s|
  {
    if s == [] then Up(rib)
    else
      match ReadFrame(s)
      case Got(kind, body, rest) =>
        if kind == KEEPALIVE then PeerRib(rest, rib, n)
        else if kind == UPDATE && Attributes.UpdateVerdict(body, n) == Attributes.Accept(Attributes.Valid) then
          PeerRib(rest, Applied(rib, body), n)
        else Down
      case _ => Down
  }

  /** The effect of one UPDATE on a table of routes. */
  function Applied(rib: set<Prefix>, body: Bytes): set<Prefix> {
    (rib - Elements(Recovery.WithdrawnPrefixes(body))) + Elements(Recovery.UpdatePrefixes(body))
  }

  lemma {:induction false} RibAppend(s: Bytes, more: Bytes, rib: set<Prefix>, n: Negotiated)
    requires PeerRib(s, rib, n).Up?
    ensures PeerRib(s + more, rib, n) == PeerRib(more, PeerRib(s, rib, n).routes, n)
    decreases |s|
  {
    if s == [] {
      assert s + more == more;
    } else {
      ReadFrameStable(s, more);
      var g := ReadFrame(s);
      RibAppend(g.rest, more, if g.kind == KEEPALIVE then rib else Applied(rib, g.body), n);
    }
  }

  /** One more readable message on the stream. */
  lemma RibAfter(s: Bytes, kind: octet, body: Bytes, n: Negotiated)
    requires PeerRib(s, {}, n).Up?
    requires |body| + 19 <= MAX_MESSAGE && LengthFitsKind(kind, |body| + 19)
    requires kind == KEEPALIVE
             || (kind == UPDATE && Attributes.UpdateVerdict(body, n) == Attributes.Accept(Attributes.Valid))
    ensures var rib := PeerRib(s, {}, n).routes;
            PeerRib(s + Frame(kind, body), {}, n) == Up(if kind == KEEPALIVE then rib else Applied(rib, body))
  {
    var f := Frame(kind, body);
    RibAppend(s, f, {}, n);
    ReadFrameOfFrame(kind, body, []);
    EmptyUnit(f);
  }
}
