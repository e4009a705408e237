/** What every interleaving of kernel, worker and watchdog keeps: no change is missed, nothing stale
    outlives its limit. */
module ReconcilerLaws {
  import opened Base
  import opened Net
  import opened Netlink
  import opened Dump
  import opened Freshness
  import opened Reconciler
  import Config
  import Writer

  // ---- What should be exported -------------------------------------------------------------

  /** The prefixes the first `i` tables export. */
  ghost function UpTo(cfg: Config.Config, k: Kernel, i: nat): set<Prefix>
    requires i <= |Slots(cfg)|
  {
    if i == 0 then {} else UpTo(cfg, k, i - 1) + Eligible(Records(k, Slots(cfg)[i - 1]), cfg.tables)
  }

  /** All prefixes the kernel's selected tables export right now: those of every selected table, in IPv4
      and, when it is enabled, in IPv6. */
  ghost function KernelPrefixes(cfg: Config.Config, k: Kernel): set<Prefix> {
    set v6: bool, t, p |
      t in cfg.tables && (v6 ==> cfg.ipv6) && p in Eligible(Records(k, Slot(v6, t)), cfg.tables) :: p
  }

  lemma TableSlotsAre(tables: seq<nat>, v6: bool, s: Slot)
    ensures s in TableSlots(tables, v6) <==> s.v6 == v6 && s.table in tables
  {
    var slots := TableSlots(tables, v6);
    if s.v6 == v6 && s.table in tables {
      var i :| 0 <= i < |tables| && tables[i] == s.table;
      assert slots[i] == s;
    }
  }

  /** Every selected table is dumped in IPv4, and in IPv6 exactly when it is enabled. */
  lemma SlotsAre(cfg: Config.Config, s: Slot)
    ensures s in Slots(cfg) <==> s.table in cfg.tables && (s.v6 ==> cfg.ipv6)
  {
    TableSlotsAre(cfg.tables, false, s);
    TableSlotsAre(cfg.tables, true, s);
  }

  /** The dump at position `j` exports the prefix. */
  ghost predicate Exports(cfg: Config.Config, k: Kernel, j: nat, p: Prefix)
    requires j < |Slots(cfg)|
  {
    p in Eligible(Records(k, Slots(cfg)[j]), cfg.tables)
  }

  lemma UpToStep(cfg: Config.Config, k: Kernel, i: nat, p: Prefix)
    requires 0 < i <= |Slots(cfg)|
    ensures p in UpTo(cfg, k, i) <==> p in UpTo(cfg, k, i - 1) || Exports(cfg, k, i - 1, p)
  {
  }

  lemma {:induction false} UpToHas(cfg: Config.Config, k: Kernel, i: nat, j: nat, p: Prefix)
    requires j < i <= |Slots(cfg)| && Exports(cfg, k, j, p)
    ensures p in UpTo(cfg, k, i)
  {
    UpToStep(cfg, k, i, p);
    if j < i - 1 {
      UpToHas(cfg, k, i - 1, j, p);
    }
  }

  lemma {:induction false} UpToFrom(cfg: Config.Config, k: Kernel, i: nat, p: Prefix) returns (j: nat)
    requires 0 < i <= |Slots(cfg)| && p in UpTo(cfg, k, i)
    ensures j < i && Exports(cfg, k, j, p)
  {
    UpToStep(cfg, k, i, p);
    j := i - 1;
    if !Exports(cfg, k, j, p) {
      j := UpToFrom(cfg, k, j, p);
    }
  }

  /** What the dumps of one snapshot export together is what the kernel's selected tables export. */
  lemma AllSlots(cfg: Config.Config, k: Kernel)
    ensures UpTo(cfg, k, |Slots(cfg)|) == KernelPrefixes(cfg, k)
  {
    forall p
      ensures p in UpTo(cfg, k, |Slots(cfg)|) <==> p in KernelPrefixes(cfg, k)
    {
      if |Slots(cfg)| > 0 && p in UpTo(cfg, k, |Slots(cfg)|) {
        var j := UpToFrom(cfg, k, |Slots(cfg)|, p);
        SlotsAre(cfg, Slots(cfg)[j]);
        InKernelPrefixes(cfg, k, Slots(cfg)[j].v6, Slots(cfg)[j].table, p);
      }
      if p in KernelPrefixes(cfg, k) {
        SomeSlot(cfg, k, p);
      }
    }
  }

  lemma InKernelPrefixes(cfg: Config.Config, k: Kernel, v6: bool, t: nat, p: Prefix)
    requires t in cfg.tables && (v6 ==> cfg.ipv6) && p in Eligible(Records(k, Slot(v6, t)), cfg.tables)
    ensures p in KernelPrefixes(cfg, k)
  {
  }

  lemma SomeSlot(cfg: Config.Config, k: Kernel, p: Prefix)
    requires p in KernelPrefixes(cfg, k)
    ensures p in UpTo(cfg, k, |Slots(cfg)|)
  {
    var v6: bool, t :| t in cfg.tables && (v6 ==> cfg.ipv6) && p in Eligible(Records(k, Slot(v6, t)), cfg.tables);
    SlotsAre(cfg, Slot(v6, t));
    var j: nat :| j < |Slots(cfg)| && Slots(cfg)[j] == Slot(v6, t);
    UpToHas(cfg, k, |Slots(cfg)|, j, p);
  }

  lemma SameKernelPrefixes(cfg: Config.Config, a: Kernel, b: Kernel)
    requires a.tables == b.tables
    ensures KernelPrefixes(cfg, a) == KernelPrefixes(cfg, b)
  {
    assert forall s :: Records(a, s) == Records(b, s);
  }

  ghost predicate Usable(cfg: Config.Config) {
    (forall p <- cfg.peers :: p.exportAcl in cfg.acls)
  }

  // ---- Evidence of change --------------------------------------------------------------------

  ghost predicate QueueNoticed(q: seq<Bytes>) {
    exists d <- q :: Noticed(d)
  }

  predicate Flagged(pc: Pc) {
    (pc.Draining? || pc.Drained?) && (pc.ev.changed || pc.ev.lost)
  }

  /** A change is on its way to the worker: owed, queued, overflowed or just received. */
  ghost predicate Pending(s: State) {
    s.kernel.owed > 0 || s.kernel.overflow || QueueNoticed(s.kernel.queue) || Flagged(s.worker.pc)
  }

  /** The same, or already recorded by the snapshot in progress. */
  ghost predicate Evidence(s: State) {
    Pending(s) || s.worker.changed
  }

  // ---- Invariants -----------------------------------------------------------------------------

  predicate Reading(pc: Pc) {
    pc.Receiving? || ((pc.Draining? || pc.Drained?) && pc.why.Round?)
  }

  predicate Collected(pc: Pc) {
    (pc.Draining? || pc.Drained?) && (pc.why.EndOfDump? || pc.why.AfterFilter?)
  }

  ghost function Held(out: seq<Bytes>): set<Bytes> {
    if out == [] then {} else Carried(out[0]) + Held(out[1..])
  }

  /** The datagram that ends a dump is the last one in flight. */
  ghost predicate LastOk(out: seq<Bytes>, finished: bool) {
    && (forall i :: 0 <= i < |out| - 1 ==> !Final(out[i]))
    && (if out == [] then !finished else Final(out[|out| - 1]) == finished)
  }

  ghost predicate Shape(cfg: Config.Config, s: State) {
    var w, r := s.worker, s.kernel.reply;
    && (InSnapshot(w.pc) ==> w.dirty && w.slot <= |Slots(cfg)|)
    && (Reading(w.pc) ==> w.slot < |Slots(cfg)| && r.slot == Slots(cfg)[w.slot] && !w.progress.done
                           && LastOk(r.out, r.finished))
    && (w.pc.NextSlot? && w.slot > 0 ==> r.finished && r.out == [])
    && (Collected(w.pc) ==> w.slot == |Slots(cfg)|)
  }

  ghost predicate FoundOk(cfg: Config.Config, s: State) {
    |s.worker.progress.found| <= cfg.maxPrefixes && AllTruncated(s.worker.progress.found)
  }

  /** As long as nothing suggests a change, what was collected is exactly what the tables hold. */
  ghost predicate Exact(cfg: Config.Config, s: State)
    requires Shape(cfg, s)
  {
    var w, k := s.worker, s.kernel;
    && (w.pc.NextSlot? || Collected(w.pc) ==> w.progress.found == UpTo(cfg, k, w.slot))
    && (Reading(w.pc) ==>
          && !k.reply.touched
          && k.reply.emitted <= Records(k, k.reply.slot)
          && (k.reply.finished ==> k.reply.emitted == Records(k, k.reply.slot))
          && w.progress.found + Eligible(Held(k.reply.out), cfg.tables)
             == UpTo(cfg, k, w.slot) + Eligible(k.reply.emitted, cfg.tables))
  }

  ghost predicate StatusOk(s: State) {
    (s.worker.dirty <==> s.status.dirtySince.Some?) && Sound(s.status, s.channel)
  }

  /** No missed change. */
  ghost predicate NothingMissed(cfg: Config.Config, s: State)
    requires Usable(cfg)
  {
    s.worker.dirty || Pending(s) || s.channel.exports == Filter(cfg, KernelPrefixes(cfg, s.kernel))
  }

  ghost predicate Inv(cfg: Config.Config, s: State)
    requires Usable(cfg)
  {
    && Shape(cfg, s) && FoundOk(cfg, s) && StatusOk(s)
    && (Evidence(s) || Exact(cfg, s))
    && NothingMissed(cfg, s)
    && Writer.ValidExports(s.channel.exports)
  }

  lemma InitOk(cfg: Config.Config, s: State)
    requires Usable(cfg) && Init(s)
    ensures Inv(cfg, s)
  {
  }

  // ---- Kernel steps ------------------------------------------------------------------------------

  lemma QueueGrows(q: seq<Bytes>, d: Bytes)
    ensures QueueNoticed(q + [d]) <==> QueueNoticed(q) || Noticed(d)
  {
    assert d in q + [d];
    assert forall x <- q :: x in q + [d];
  }

  lemma QueueShrinks(q: seq<Bytes>)
    requires q != []
    ensures QueueNoticed(q) <==> QueueNoticed(q[1..]) || Noticed(q[0])
  {
    assert forall x :: x in q <==> x == q[0] || x in q[1..];
  }

  lemma {:induction false} HeldAppend(a: seq<Bytes>, d: Bytes)
    ensures Held(a + [d]) == Held(a) + Carried(d)
  {
    if a == [] {
      assert [d][1..] == [];
    } else {
      assert (a + [d])[1..] == a[1..] + [d];
      HeldAppend(a[1..], d);
    }
  }

  lemma EligibleUnion(a: set<Bytes>, b: set<Bytes>, tables: seq<nat>)
    ensures Eligible(a + b, tables) == Eligible(a, tables) + Eligible(b, tables)
  {
  }

  lemma EmitShape(out: seq<Bytes>, d: Bytes)
    requires LastOk(out, false)
    ensures LastOk(out + [d], Final(d))
  {
  }

  /** Datagrams move prefixes from "emitted" to "held" without changing the balance of a dump. */
  lemma EmitBalance(found: set<Prefix>, base: set<Prefix>, r: Reply, d: Bytes, tables: seq<nat>)
    requires found + Eligible(Held(r.out), tables) == base + Eligible(r.emitted, tables)
    ensures found + Eligible(Held(r.out + [d]), tables) == base + Eligible(r.emitted + Carried(d), tables)
  {
    HeldAppend(r.out, d);
    EligibleUnion(Held(r.out), Carried(d), tables);
    EligibleUnion(r.emitted, Carried(d), tables);
    SameAddition(found, Eligible(Held(r.out), tables), base, Eligible(r.emitted, tables),
                 Eligible(Carried(d), tables));
  }

  lemma SameAddition<T>(a: set<T>, b: set<T>, c: set<T>, d: set<T>, e: set<T>)
    requires a + b == c + d
    ensures a + (b + e) == c + (d + e)
  {
    assert a + (b + e) == (a + b) + e;
    assert c + (d + e) == (c + d) + e;
  }

  lemma EmitKeeps(cfg: Config.Config, s: State, d: Bytes, t: State)
    requires Usable(cfg) && Inv(cfg, s) && KernelStep(cfg, s, Emit(d), t)
    ensures Inv(cfg, t)
  {
    SameKernelPrefixes(cfg, s.kernel, t.kernel);
    UpToSame(cfg, s.kernel, t.kernel, s.worker.slot);
    if Reading(s.worker.pc) {
      EmitShape(s.kernel.reply.out, d);
      if !Evidence(s) {
        EmitBalance(s.worker.progress.found, UpTo(cfg, s.kernel, s.worker.slot), s.kernel.reply, d, cfg.tables);
        EmitExact(cfg, s, d, t);
      }
    }
  }

  lemma EmitExact(cfg: Config.Config, s: State, d: Bytes, t: State)
    requires Shape(cfg, s) && Shape(cfg, t) && Exact(cfg, s) && KernelStep(cfg, s, Emit(d), t) && Reading(s.worker.pc)
    requires UpTo(cfg, s.kernel, s.worker.slot) == UpTo(cfg, t.kernel, s.worker.slot)
    requires s.worker.progress.found + Eligible(Held(t.kernel.reply.out), cfg.tables)
             == UpTo(cfg, s.kernel, s.worker.slot) + Eligible(t.kernel.reply.emitted, cfg.tables)
    ensures Exact(cfg, t)
  {
  }

  /** What tables export depends on the tables alone. */
  lemma {:induction false} UpToSame(cfg: Config.Config, a: Kernel, b: Kernel, i: nat)
    requires a.tables == b.tables
    ensures i <= |Slots(cfg)| ==> UpTo(cfg, a, i) == UpTo(cfg, b, i)
  {
    if 0 < i <= |Slots(cfg)| {
      UpToSame(cfg, a, b, i - 1);
    }
  }

  lemma KernelKeeps(cfg: Config.Config, s: State, l: Label, t: State)
    requires Usable(cfg) && Inv(cfg, s) && KernelStep(cfg, s, l, t) && !l.Emit?
    ensures Inv(cfg, t)
  {
    if l.Deliver? || l.Unrelated? {
      QueueGrows(s.kernel.queue, l.d);
    }
    if !l.Change? {
      SameKernelPrefixes(cfg, s.kernel, t.kernel);
      UpToSame(cfg, s.kernel, t.kernel, s.worker.slot);
    }
  }

  // ---- Draining -----------------------------------------------------------------------------------

  /** Draining neither invents nor forgets evidence. */
  lemma DrainEvidence(s: State, l: Label, t: State)
    requires DrainStep(s, l, t)
    ensures Pending(s) ==> Pending(t)
  {
    if s.kernel.queue != [] {
      QueueShrinks(s.kernel.queue);
      DatagramGrows(s.worker.pc.ev, s.kernel.queue[0]);
    }
  }

  lemma DrainExact(cfg: Config.Config, s: State, l: Label, t: State)
    requires DrainStep(s, l, t) && Shape(cfg, s)
    ensures Shape(cfg, t) && (Exact(cfg, s) ==> Exact(cfg, t))
  {
    UpToSame(cfg, s.kernel, t.kernel, s.worker.slot);
  }

  lemma DrainKeeps(cfg: Config.Config, s: State, l: Label, t: State)
    requires Usable(cfg) && Inv(cfg, s) && DrainStep(s, l, t)
    ensures Inv(cfg, t)
  {
    SameKernelPrefixes(cfg, s.kernel, t.kernel);
    DrainEvidence(s, l, t);
    DrainExact(cfg, s, l, t);
  }

  // ---- Reading a dump -------------------------------------------------------------------------------

  lemma EligibleTruncated(records: set<Bytes>, tables: seq<nat>)
    ensures AllTruncated(Eligible(records, tables))
  {
  }

  /** An accepted datagram of any shape adds exactly what its records export, and ends the dump exactly
      when it holds an ending message. */
  lemma PacketMeans(q: Request, p: Progress, d: Bytes)
    requires !p.done && |p.found| <= q.limit && OnDatagram(q, p, d).Going?
    ensures var r := OnDatagram(q, p, d).progress;
            && r.found == p.found + Eligible(Carried(d), q.tables)
            && |r.found| <= q.limit && (r.done <==> Final(d))
  {
    MessagesMean(q, p, ParseMessages(d).0);
  }

  lemma ReadShape(out: seq<Bytes>, finished: bool)
    requires LastOk(out, finished) && out != []
    ensures !Final(out[0]) ==> LastOk(out[1..], finished)
    ensures Final(out[0]) ==> out[1..] == [] && finished
  {
    if |out| > 1 {
      assert out[1..][|out| - 2] == out[|out| - 1];
    }
  }

  lemma ReadBalance(found: set<Prefix>, base: set<Prefix>, r: Reply, tables: seq<nat>)
    requires r.out != [] && found + Eligible(Held(r.out), tables) == base + Eligible(r.emitted, tables)
    ensures (found + Eligible(Carried(r.out[0]), tables)) + Eligible(Held(r.out[1..]), tables)
            == base + Eligible(r.emitted, tables)
  {
    EligibleUnion(Carried(r.out[0]), Held(r.out[1..]), tables);
  }

  /** What reading the front datagram does, in terms of what it carries. */
  ghost predicate ReadAs(cfg: Config.Config, s: State, t: State) {
    var w, r, v := s.worker, s.kernel.reply, t.worker;
    && w.pc.Receiving? && r.out != []
    && v.progress.found == w.progress.found + Eligible(Carried(r.out[0]), cfg.tables)
    && v.progress.done == Final(r.out[0])
    && t == s.(kernel := s.kernel.(reply := r.(out := r.out[1..])),
               worker := w.(progress := v.progress, pc := if Final(r.out[0]) then NextSlot else Receiving,
                            slot := if Final(r.out[0]) then w.slot + 1 else w.slot))
  }

  lemma ReadIs(cfg: Config.Config, s: State, t: State)
    requires Usable(cfg) && Shape(cfg, s) && FoundOk(cfg, s) && WorkerStep(cfg, s, ReadDump, t)
    ensures ReadAs(cfg, s, t) && FoundOk(cfg, t)
  {
    var w, r := s.worker, s.kernel.reply;
    PacketMeans(DumpRequest(cfg, w), w.progress, r.out[0]);
    EligibleTruncated(Carried(r.out[0]), cfg.tables);
  }

  lemma ReadKeepsShape(cfg: Config.Config, s: State, t: State)
    requires Shape(cfg, s) && ReadAs(cfg, s, t)
    ensures Shape(cfg, t)
  {
    ReadShape(s.kernel.reply.out, s.kernel.reply.finished);
  }

  lemma NothingHeld(found: set<Prefix>, all: set<Prefix>, out: seq<Bytes>, tables: seq<nat>)
    requires out == [] && found + Eligible(Held(out), tables) == all
    ensures found == all
  {
    assert Eligible({}, tables) == {};
  }

  lemma ReadMoreExact(cfg: Config.Config, s: State, t: State)
    requires Shape(cfg, s) && Shape(cfg, t) && Exact(cfg, s) && ReadAs(cfg, s, t) && !Final(s.kernel.reply.out[0])
    ensures Exact(cfg, t)
  {
    UpToSame(cfg, s.kernel, t.kernel, s.worker.slot);
    ReadBalance(s.worker.progress.found, UpTo(cfg, s.kernel, s.worker.slot), s.kernel.reply, cfg.tables);
  }

  lemma ReadLastExact(cfg: Config.Config, s: State, t: State)
    requires Shape(cfg, s) && Shape(cfg, t) && Exact(cfg, s) && ReadAs(cfg, s, t) && Final(s.kernel.reply.out[0])
    ensures Exact(cfg, t)
  {
    var w, r := s.worker, s.kernel.reply;
    var base := UpTo(cfg, s.kernel, w.slot);
    ReadShape(r.out, r.finished);
    ReadBalance(w.progress.found, base, r, cfg.tables);
    NothingHeld(t.worker.progress.found, base + Eligible(r.emitted, cfg.tables), r.out[1..], cfg.tables);
    assert t.worker.progress.found == UpTo(cfg, s.kernel, w.slot + 1);
    UpToSame(cfg, s.kernel, t.kernel, w.slot + 1);
  }

  lemma ReadKeeps(cfg: Config.Config, s: State, t: State)
    requires Usable(cfg) && Inv(cfg, s) && WorkerStep(cfg, s, ReadDump, t)
    ensures Inv(cfg, t)
  {
    ReadIs(cfg, s, t);
    ReadKeepsShape(cfg, s, t);
    if !Evidence(s) {
      if Final(s.kernel.reply.out[0]) {
        ReadLastExact(cfg, s, t);
      } else {
        ReadMoreExact(cfg, s, t);
      }
    }
  }

  lemma RequestKeeps(cfg: Config.Config, s: State, t: State)
    requires Usable(cfg) && Inv(cfg, s) && WorkerStep(cfg, s, RequestSlot, t)
    ensures Inv(cfg, t)
  {
    SameKernelPrefixes(cfg, s.kernel, t.kernel);
    if !Evidence(s) {
      RequestExact(cfg, s, t);
    }
  }

  lemma RequestExact(cfg: Config.Config, s: State, t: State)
    requires Usable(cfg) && Shape(cfg, s) && Exact(cfg, s) && WorkerStep(cfg, s, RequestSlot, t)
    ensures Shape(cfg, t) && Exact(cfg, t)
  {
    UpToSame(cfg, s.kernel, t.kernel, s.worker.slot);
    assert Eligible({}, cfg.tables) == {};
    assert t.kernel.reply.out == [];
    assert Held([]) == {};
  }

  // ---- The main loop --------------------------------------------------------------------------------

  lemma FilterValid(cfg: Config.Config, found: set<Prefix>)
    requires Usable(cfg) && AllTruncated(found)
    ensures Writer.ValidExports(Filter(cfg, found))
  {
  }

  lemma PublishKeeps(cfg: Config.Config, s: State, nextDue: nat, nextPeriodic: nat, t: State)
    requires Usable(cfg) && Inv(cfg, s) && WorkerStep(cfg, s, Publish(nextDue, nextPeriodic), t)
    ensures Inv(cfg, t)
  {
    FilterValid(cfg, s.worker.progress.found);
    AllSlots(cfg, s.kernel);
  }

  lemma LoopKeeps(cfg: Config.Config, s: State, l: Label, t: State)
    requires Usable(cfg) && Inv(cfg, s) && WorkerStep(cfg, s, l, t)
    requires !l.ReadDump? && !l.RequestSlot? && !l.Publish?
    ensures Inv(cfg, t)
  {
  }

  lemma OtherKeeps(cfg: Config.Config, s: State, l: Label, t: State)
    requires Usable(cfg) && Inv(cfg, s) && OtherStep(cfg, s, l, t)
    ensures Inv(cfg, t)
  {
  }

  lemma NextKeeps(cfg: Config.Config, s: State, l: Label, t: State)
    requires Usable(cfg) && Inv(cfg, s) && Next(cfg, s, l, t)
    ensures Inv(cfg, t)
  {
    if l.Emit? {
      EmitKeeps(cfg, s, l.d, t);
    } else if KernelStep(cfg, s, l, t) {
      KernelKeeps(cfg, s, l, t);
    } else if DrainStep(s, l, t) {
      DrainKeeps(cfg, s, l, t);
    } else if OtherStep(cfg, s, l, t) {
      OtherKeeps(cfg, s, l, t);
    } else if l.ReadDump? {
      ReadKeeps(cfg, s, t);
    } else if l.RequestSlot? {
      RequestKeeps(cfg, s, t);
    } else if l.Publish? {
      PublishKeeps(cfg, s, l.nextDue, l.nextPeriodic, t);
    } else {
      LoopKeeps(cfg, s, l, t);
    }
  }
}
