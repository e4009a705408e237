/** The kernel reconciler as a protocol: routing tables, a lossy notification queue, table dumps that
    are not atomic, the worker, its watchdog and time, all interleaved. */
module Reconciler {
  import opened Base
  import opened Netlink
  import opened Dump
  import opened Freshness
  import Config
  import Writer

  // ---- The kernel ---------------------------------------------------------------------------

  /** One dump request: an address family and a routing table. */
  datatype Slot = Slot(v6: bool, table: nat)

  function TableSlots(tables: seq<nat>, v6: bool): seq<Slot> {
    seq(|tables|, i requires 0 <= i < |tables| => Slot(v6, tables[i]))
  }

  /** The dumps of one snapshot, in the order the worker asks for them. */
  function Slots(cfg: Config.Config): seq<Slot> {
    TableSlots(cfg.tables, false) + (if cfg.ipv6 then TableSlots(cfg.tables, true) else [])
  }

  /** The route records a datagram carries. */
  function Carried(d: Bytes): set<Bytes> {
    RecordsOf(ParseMessages(d).0)
  }

  /** Whether a datagram ends a dump. */
  predicate Final(d: Bytes) {
    HasEnd(ParseMessages(d).0)
  }

  /** The dump in progress: records already sent, whether the table changed meanwhile, whether the
      ending datagram was sent, and the datagrams not yet received. */
  datatype Reply = Reply(slot: Slot, emitted: set<Bytes>, touched: bool, finished: bool, out: seq<Bytes>)

  /** Tables, changes whose notification is still to come, the notification queue and its overflow flag. */
  datatype Kernel = Kernel(tables: map<Slot, set<Bytes>>, owed: nat, queue: seq<Bytes>, overflow: bool, reply: Reply)

  function Records(k: Kernel, s: Slot): set<Bytes> {
    if s in k.tables then k.tables[s] else {}
  }

  // ---- The worker ------------------------------------------------------------------------------

  /** The four places that drain notifications. */
  datatype Why = LoopHead | Round | EndOfDump | AfterFilter

  datatype Pc =
    | Draining(why: Why, ev: Events)
    | Drained(why: Why, ev: Events)
    | Decide
    | NextSlot
    | Receiving

  datatype Worker = Worker(
    pc: Pc,
    dirty: bool,
    due: nat,
    periodic: nat,
    slot: nat,
    progress: Progress,
    changed: bool,
    seqno: nat)

  datatype State = State(kernel: Kernel, worker: Worker, status: Status, channel: Writer.Channel, now: nat)

  function DumpRequest(cfg: Config.Config, w: Worker): Request {
    Request(cfg.tables, cfg.maxPrefixes, w.seqno)
  }

  /** The next sequence number wraps to one, never to zero. */
  function NextSeqno(n: nat): nat {
    if n + 1 < TWO32 then n + 1 else 1
  }

  function BackToLoop(w: Worker, due: nat): Worker {
    w.(pc := Draining(LoopHead, QUIET), due := due)
  }

  // ---- Steps -------------------------------------------------------------------------------------

  datatype Label =
    // kernel
    | Change(slot: Slot, records: set<Bytes>)
    | Deliver(d: Bytes)
    | DropNotification
    | Unrelated(d: Bytes)
    | Emit(d: Bytes)
    // worker: draining
    | Receive | ReceiveError(consumed: bool) | StopDraining
    // worker: main loop
    | Observe | Rest | StartDump
    | RequestSlot | FinishSlots
    | RoundEvents | ReadDump | Pause | FailDump(retryAt: nat)
    | EndEvents
    | Publish(nextDue: nat, nextPeriodic: nat)
    // watchdog and time
    | Expire | Tick(elapsed: nat)

  /** A datagram of a reply may hold anything at all: any flags, sequence numbers and message types, errors,
      broken framing. Only its route records are in the table, and the datagram that ends a dump of a table
      that did not change meanwhile completes its records. */
  ghost predicate KernelStep(cfg: Config.Config, s: State, l: Label, t: State) {
    var k := s.kernel;
    match l
    case Change(slot, records) =>
      t == s.(kernel := k.(tables := k.tables[slot := records], owed := k.owed + 1,
                           reply := if slot == k.reply.slot then k.reply.(touched := true) else k.reply))
    case Deliver(d) =>
      k.owed > 0 && Noticed(d) && t == s.(kernel := k.(owed := k.owed - 1, queue := k.queue + [d]))
    case DropNotification =>
      t == s.(kernel := k.(owed := if k.owed > 0 then k.owed - 1 else 0, overflow := true))
    case Unrelated(d) =>
      t == s.(kernel := k.(queue := k.queue + [d]))
    case Emit(d) =>
      && !k.reply.finished && Carried(d) <= Records(k, k.reply.slot)
      && (Final(d) ==> k.reply.touched || k.reply.emitted + Carried(d) == Records(k, k.reply.slot))
      && t == s.(kernel := k.(reply := k.reply.(emitted := k.reply.emitted + Carried(d),
                                                finished := Final(d), out := k.reply.out + [d])))
    case _ => false
  }

  /** Receiving notifications: overflow is reported first, and a drain may stop at any point. */
  ghost predicate DrainStep(s: State, l: Label, t: State) {
    var k, w := s.kernel, s.worker;
    && w.pc.Draining?
    && match l
       case Receive =>
         if k.overflow then
           t == s.(kernel := k.(overflow := false), worker := w.(pc := Drained(w.pc.why, w.pc.ev.(lost := true))))
         else
           && k.queue != []
           && var ev := NoteDatagram(w.pc.ev, k.queue[0]);
              t == s.(kernel := k.(queue := k.queue[1..]),
                      worker := w.(pc := if k.queue[0] == [] then Drained(w.pc.why, ev) else Draining(w.pc.why, ev)))
       case ReceiveError(consumed) =>
         && (consumed ==> k.queue != [])
         && t == s.(kernel := k.(queue := if consumed then k.queue[1..] else k.queue),
                    worker := w.(pc := Drained(w.pc.why, w.pc.ev.(lost := true))))
       case StopDraining =>
         t == s.(worker := w.(pc := Drained(w.pc.why, w.pc.ev)))
       case _ => false
  }

  predicate InSnapshot(pc: Pc) {
    pc.NextSlot? || pc.Receiving? || ((pc.Draining? || pc.Drained?) && !pc.why.LoopHead?)
  }

  ghost predicate WorkerStep(cfg: Config.Config, s: State, l: Label, t: State)
    requires forall p <- cfg.peers :: p.exportAcl in cfg.acls
  {
    var k, w := s.kernel, s.worker;
    match l
    case Observe =>
      && w.pc.Drained? && w.pc.why.LoopHead?
      && var news := w.pc.ev.changed || w.pc.ev.lost || s.now >= w.periodic;
         t == s.(worker := w.(pc := Decide, dirty := w.dirty || news),
                 status := if news then Invalidated(s.status, s.now) else s.status)
    case Rest =>
      w.pc.Decide? && t == s.(worker := w.(pc := Draining(LoopHead, QUIET)))
    case StartDump =>
      && w.pc.Decide? && w.dirty && s.now >= w.due
      && t == s.(worker := w.(pc := NextSlot, slot := 0, progress := Progress({}, false, false), changed := false))
    case RequestSlot =>
      && w.pc.NextSlot? && w.slot < |Slots(cfg)|
      && t == s.(kernel := k.(reply := Reply(Slots(cfg)[w.slot], {}, false, false,
                                             if w.slot == 0 then [] else k.reply.out)),
                 worker := w.(pc := Draining(Round, QUIET), seqno := NextSeqno(w.seqno),
                              progress := w.progress.(saw := false, done := false)))
    case FinishSlots =>
      w.pc.NextSlot? && w.slot == |Slots(cfg)| && t == s.(worker := w.(pc := Draining(EndOfDump, QUIET)))
    case RoundEvents =>
      && w.pc.Drained? && w.pc.why.Round? && !w.pc.ev.lost
      && t == s.(worker := w.(pc := Receiving, changed := w.changed || w.pc.ev.changed))
    case ReadDump =>
      && w.pc.Receiving? && k.reply.out != []
      && var r := OnDatagram(DumpRequest(cfg, w), w.progress, k.reply.out[0]);
         r.Going?
         && t == s.(kernel := k.(reply := k.reply.(out := k.reply.out[1..])),
                    worker := w.(progress := r.progress,
                                 pc := if r.progress.done then NextSlot else Receiving,
                                 slot := if r.progress.done then w.slot + 1 else w.slot))
    case Pause =>
      w.pc.Receiving? && t == s.(worker := w.(pc := Draining(Round, QUIET)))
    case EndEvents =>
      && w.pc.Drained? && w.pc.why.EndOfDump? && !w.pc.ev.lost
      && t == s.(worker := w.(pc := Draining(AfterFilter, QUIET), changed := w.changed || w.pc.ev.changed))
    case FailDump(retryAt) =>
      InSnapshot(w.pc) && t == s.(worker := BackToLoop(w, retryAt))
    case Publish(nextDue, nextPeriodic) =>
      && w.pc.Drained? && w.pc.why.AfterFilter? && !w.pc.ev.lost
      && var changed := w.changed || w.pc.ev.changed;
         var r := Published(s.status, s.channel, s.now, changed, Filter(cfg, w.progress.found));
         t == s.(status := r.0, channel := r.1,
                 worker := BackToLoop(w, nextDue).(dirty := changed, periodic := nextPeriodic))
    case _ => false
  }

  ghost predicate OtherStep(cfg: Config.Config, s: State, l: Label, t: State) {
    match l
    case Expire =>
      var r := Expired(s.status, s.channel, s.now, cfg.staleLimit);
      t == s.(status := r.0, channel := r.1)
    case Tick(elapsed) => t == s.(now := s.now + elapsed)
    case _ => false
  }

  ghost predicate Next(cfg: Config.Config, s: State, l: Label, t: State)
    requires forall p <- cfg.peers :: p.exportAcl in cfg.acls
  {
    KernelStep(cfg, s, l, t) || DrainStep(s, l, t) || WorkerStep(cfg, s, l, t) || OtherStep(cfg, s, l, t)
  }

  ghost predicate Init(s: State) {
    && s.worker == Worker(Draining(LoopHead, QUIET), true, s.now, s.now, 0, Progress({}, false, false), false, 0)
    && s.status == Status(Some(s.now), false)
    && s.channel == Writer.Channel(map[], 0)
  }
}
