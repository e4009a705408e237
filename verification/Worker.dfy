/** The reconciler's main loop as imperative code: its variables and the shared monitor refine the protocol. */
module Worker {
  import opened Base
  import opened Net
  import opened Dump
  import opened Freshness
  import opened Reconciler
  import opened ReconcilerLaws
  import Config
  import Writer

  /** What a failed attempt waits, in milliseconds: doubling from 200, at most three seconds. */
  function Backoff(retries: nat): (ms: nat)
    ensures 100 <= ms <= 3000
  {
    if retries == 0 then 100
    else if retries == 1 then 200
    else if retries == 2 then 400
    else if retries == 3 then 800
    else if retries == 4 then 1600
    else 3000
  }

  function DoubledFrom(ms: nat, times: nat): nat {
    if times == 0 then ms else 2 * DoubledFrom(ms, times - 1)
  }

  /** The delay doubles from 100 ms with each retry, and never exceeds three seconds. */
  lemma BackoffExactly(retries: nat)
    ensures retries <= 4 ==> Backoff(retries) == DoubledFrom(100, retries)
    ensures retries >= 5 ==> Backoff(retries) == 3000 <= DoubledFrom(100, 5)
  {
  }

  /** The next sequence number is a nonzero 32-bit one, and not the one before. */
  lemma NextSeqnoDiffers(n: nat)
    requires n < TWO32
    ensures 0 < NextSeqno(n) < TWO32 && NextSeqno(n) != n
    ensures NextSeqno(n) == n + 1 || (n == TWO32 - 1 && NextSeqno(n) == 1)
  {
  }

  /** What the protocol tracks of a snapshot in progress besides the loop's own variables. */
  datatype Dumping = Dumping(kernel: Kernel, slot: nat, progress: Progress, changed: bool, seqno: nat)

  class Loop {
    const cfg: Config.Config
    const monitor: Monitor
    var dirty: bool
    var due: nat
    var periodic: nat
    var retries: nat

    /** The loop's variables as the protocol sees them, at a point of its body. */
    ghost function View(pc: Pc, d: Dumping, now: nat): State
      reads this, monitor
    {
      State(d.kernel, Reconciler.Worker(pc, dirty, due, periodic, d.slot, d.progress, d.changed, d.seqno),
            monitor.Value().0, monitor.channel, now)
    }

    constructor (cfg: Config.Config, monitor: Monitor, now: nat)
      requires monitor.Value() == (Status(Some(now), false), Writer.Channel(map[], 0))
      ensures this.cfg == cfg && this.monitor == monitor
      ensures forall k: Kernel ::
                Init(View(Draining(LoopHead, QUIET), Dumping(k, 0, Progress({}, false, false), false, 0), now))
    {
      this.cfg, this.monitor := cfg, monitor;
      dirty, due, periodic, retries := true, now, now, 0;
    }

    /** Take note of what was drained; the periodic deadline counts as news too. */
    method Notice(ev: Events, now: nat, ghost d: Dumping)
      requires Usable(cfg)
      modifies this`dirty, monitor`dirtySince
      ensures WorkerStep(cfg, old(View(Drained(LoopHead, ev), d, now)), Observe, View(Decide, d, now))
    {
      if ev.changed || ev.lost || now >= periodic {
        dirty := true;
        monitor.Invalidate(now);
      }
    }

    /** A snapshot failed: discard it and retry later, without touching the stale deadline. */
    method Failed(now: nat, ghost d: Dumping, ghost pc: Pc)
      requires Usable(cfg) && InSnapshot(pc)
      modifies this`due, this`retries
      ensures now < due <= now + 3000 && retries == old(retries) + 1
      ensures WorkerStep(cfg, old(View(pc, d, now)), FailDump(due), View(Draining(LoopHead, QUIET), d, now))
    {
      retries := retries + 1;
      due := now + Backoff(retries);
    }

    /** A snapshot succeeded: filter it, then publish it unless notifications were lost meanwhile. */
    method Complete(prefixes: set<Prefix>, during: bool, after: Events, now: nat, refresh: nat, reconcile: nat,
                    ghost d: Dumping)
      returns (published: bool)
      requires Usable(cfg) && d.progress.found == prefixes && d.changed == during
      modifies this, monitor
      ensures published <==> !after.lost
      ensures var s := old(View(Drained(AfterFilter, after), d, now));
              var t := View(Draining(LoopHead, QUIET), d, now);
              if published then WorkerStep(cfg, s, Publish(due, periodic), t) && dirty == (during || after.changed)
              else WorkerStep(cfg, s, FailDump(due), t)
      ensures published ==> due == now + refresh && periodic == now + reconcile && retries == 0
    {
      var exports := Filter(cfg, prefixes);
      if after.lost {
        due := now + refresh;
        return false;
      }
      var changed := during || after.changed;
      monitor.Publish(now, changed, exports);
      retries := 0;
      dirty := changed;
      periodic := now + reconcile;
      due := now + refresh;
      return true;
    }
  }
}
