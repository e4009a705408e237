# ubgp: a verified model of an announce-only BGP exporter

ubgp copies unicast routes from selected Linux routing tables to BGP peers and
imports nothing. Routes travel kernel → reconciler → per-peer writer → wire →
peer. This project models each stage of that pipeline in Dafny, in the form the
program has (loops and objects where it mutates state, functions where it
computes), proves each stage correct on its own, and composes them:

> In every run, whenever no kernel change is under way and the writer sleeps with
> no unseen snapshot, decoding all bytes the writer has sent since the session was
> established yields exactly the kernel's eligible prefixes that the peer's access
> list permits, in the families negotiated with it (`EndToEnd.KernelReachesPeer`).

`dafny verify dfyconfig.toml` checks everything.

## How the files fit together

| files | what they hold |
|---|---|
| `Base`, `Net`, `Config`, `Bits` | octets and integers, prefixes and truncation, configuration and access lists, and what these mean bit by bit |
| `Protocol`, `Nlri`, `Attributes` | framing, packed prefixes, path attributes and the declarative verdict of RFC 7606 |
| `Values`, `Categories`, `Verdict`, `Validator`, `Recovery` | what attribute octets stand for, the categories of attributes, the verdict on every UPDATE told in those terms, the receiver's validation and decoding loops, and the laws that relate them |
| `Encoder`, `Agreement`, `Announcement` | the UPDATE encoder, that encoder, validator and decoder agree, and what each UPDATE says, attribute by attribute |
| `Open`, `Negotiation`, `OpenVerdict`, `Collision` | OPEN parsing, symmetric negotiation, the outcome of every OPEN told by what it announces, choice among two connections |
| `Plans`, `Writer`, `WriterLaws`, `WriterRuns`, `RefreshGap`, `EndOfRib`, `Transmitter` | the export writer: its queue, its state machine, invariants, theorems over runs, what its peer receives step by step, a run that shows the limit of the refresh guarantee, and its loop as imperative code refining the state machine |
| `Netlink`, `Records`, `Dump` | netlink datagrams, what route records export, notifications and dump replies |
| `Freshness`, `Reconciler`, `ReconcilerLaws`, `ReconcilerRuns`, `Worker` | stale-state tracking, the kernel reconciler as a protocol with lossy notifications and non-atomic dumps, and its main loop's variables refining that protocol |
| `EndToEnd`, `Quiescence` | reconciler and writer composed through the export channel, and a run that carries an IPv4 and an IPv6 route from kernel tables to a peer |

A run is a sequence of states and labels; every step is one section of a loop, or
one step of the environment (kernel, peer, clock, watchdog), in any interleaving.
The specification functions are declarative where the program is a loop, and each
loop is a method proved equal to its specification.

Three properties one might expect of the program do not hold. Each is answered with
a concrete input and an exact condition:

* A route refresh need not re-announce every prefix that the target holds both
  when the refresh starts and when its End-of-RIB is sent: a prefix that leaves
  the target and returns before its withdrawal is written is skipped
  (`RefreshGap.RefreshCanSkip`). It is announced if and only if no adopted
  snapshot left it out while it was advertised and still to be replayed, with no
  withdrawal of it written afterwards (`WriterRuns.RefreshExactly`); in particular
  if every adopted target holds it (`WriterRuns.RefreshComplete`).
* A connection held back during collision resolution can be replaced by the other
  one: a peer that sends different router identifiers on its two connections, both
  in acceptable OPENs, brings it about (`Collision.OverwriteHappens`). In every run
  it happens if and only if both exchanges complete and neither is of the direction
  its own OPEN prefers (`Collision.OverwriteExactly`).
* The order of messages in a dump reply can matter: a "no such table" status is
  accepted before a route and refused after one (`Dump.OrderCanMatter`). Replies of
  the same messages have the same outcome if and only if they agree on that, or are
  refused anyway (`Dump.ReplyOrderExactly`).

Assumptions about the environment: every change of a selected table owes a
notification that is eventually queued or lost to an overflow the next receive
reports; the route records of a dump are records of its table, and the datagram that
ends the dump (an end without an error, or "no such table") completes them unless the
table changed meanwhile, while flags, sequence numbers, other messages and framing of
the datagrams are unconstrained; a write succeeds entirely or ends the session; the peer reads with the
parameters it negotiated, which `Negotiation.SymmetricNegotiation` shows equal at
both ends.

## Model

| member | source | states |
|---|---|---|
| `EndToEnd.KernelReachesPeer` | src/netlink.rs:547-656 | In every quiescent state of every run, across any number of sessions, the table decoded from all bytes the writer has sent since the session was established equals the kernel's eligible prefixes permitted by the peer's list in negotiated families. |
| `Quiescence.QuiescentRun` | src/netlink.rs:547-656 | A run exists from the start through an IPv4 and an IPv6 table dump, with the flags Linux gives a filtered dump, and a dual-stack session to a quiescent state where the kernel holds a route of each family and the peer's decoded table is those two. |
| `EndToEnd.RunInvariant` | src/bgp.rs:403-492 | Reconciler and writer invariants hold together in every reachable state of the composed system. |
| `EndToEnd.ReconcilerSeenByWriter` | src/netlink.rs:490-521 | Whatever the reconciler does, the writer sees an unchanged channel or one new version of it. |
| `ReconcilerRuns.NoMissedChange` | src/netlink.rs:586-651 | In every interleaving: dirty, or a change still owed, queued, overflowed or just received, or the published exports equal the filter of the kernel's present tables; and dirty holds exactly when an invalidation is pending. |
| `ReconcilerRuns.RunInvariant` | src/netlink.rs:547-656 | Every reachable state of the reconciler satisfies its invariant. |
| `ReconcilerRuns.DeadlineNeverMoves` | src/netlink.rs:490-521 | Between publications the start of a pending invalidation never changes, and withdrawn exports stay withdrawn. |
| `ReconcilerRuns.StaleSafety` | src/netlink.rs:566-576 | Withdrawn means empty exports in every reachable state; after each watchdog step exports are empty, nothing is dirty, or the invalidation is younger than the limit. |
| `ReconcilerRuns.StaleStaysWithdrawn` | src/netlink.rs:566-651 | Once the watchdog meets an invalidation past its limit, nothing is exported until the next publication, however many dumps fail. |
| `ReconcilerLaws.SlotsAre` | src/netlink.rs:375-381 | Every selected table is dumped in IPv4, and in IPv6 if and only if IPv6 is enabled. |
| `ReconcilerLaws.AllSlots` | src/netlink.rs:375-381 | What the dumps of one snapshot export together is what the kernel's selected tables export, a set defined without reference to the order or list of dumps. |
| `ReconcilerRuns.NeverEarly` | src/netlink.rs:496-506 | In every run, while exports are withdrawn the pending invalidation is past its limit. |
| `ReconcilerRuns.ExpireExactly` | src/netlink.rs:496-506 | A watchdog step withdraws if and only if the limit is reached, and otherwise touches nothing. |
| `ReconcilerLaws.NextKeeps` | src/netlink.rs:547-656 | Every step of kernel, worker, watchdog or clock keeps the invariant: unless something suggests a change, what was collected so far is exactly what the tables read so far export. |
| `ReconcilerLaws.PacketMeans` | src/netlink.rs:395-441 | An accepted datagram of any flags and message types adds exactly what its route records export, stays within the limit, and ends the dump exactly when it holds an ending message. |
| `ReconcilerLaws.EmitKeeps` | src/netlink.rs:375-455 | A dump that is not atomic, in datagrams of any shape, keeps the balance between records sent, in flight and read. |
| `ReconcilerLaws.ReadKeeps` | src/netlink.rs:395-447 | Reading a datagram keeps that balance; after the ending one what was found is what all tables so far export. |
| `ReconcilerRuns.DrainReached` | src/netlink.rs:281-314 | Whatever the receives return, steps of the protocol reach exactly the flags the drain computes. |
| `ReconcilerRuns.EveryListAnswered` | src/netlink.rs:281-314 | Every list of receive results is one that some queue gives. |
| `ReconcilerLaws.DrainKeeps` | src/netlink.rs:281-314 | Draining, stopped at any point or failing, keeps the invariant. |
| `ReconcilerLaws.DrainEvidence` | src/netlink.rs:281-314 | Draining never loses the evidence that something changed. |
| `ReconcilerLaws.PublishKeeps` | src/netlink.rs:603-640 | A publication that clears dirty publishes the exports of the present tables, or evidence of change is still on its way. |
| `ReconcilerLaws.KernelKeeps` | src/netlink.rs:586-601 | Table changes, delivered, dropped and unrelated notifications keep the invariant. |
| `ReconcilerLaws.InitOk` | src/netlink.rs:547-585 | The worker starts dirty with empty exports, which satisfies the invariant. |
| `Worker.Loop.constructor` | src/netlink.rs:552-585 | The loop's variables and the shared state start in an initial state of the protocol. |
| `Worker.Loop.Notice` | src/netlink.rs:587-600 | Drained news, or the periodic deadline, makes the worker dirty and starts the stale deadline: a step of the protocol. |
| `Worker.Loop.Complete` | src/netlink.rs:604-640 | A complete snapshot is published, and dirty recomputed, exactly when no notification was lost during filtering; otherwise it is discarded. Either way a step of the protocol. |
| `Worker.Loop.Failed` | src/netlink.rs:641-650 | A failed snapshot only schedules a retry, within three seconds; the stale deadline is untouched. |
| `Worker.BackoffExactly` | src/netlink.rs:645-649 | The retry delay doubles from 100 ms with each failure and is capped at three seconds. |
| `Worker.NextSeqnoDiffers` | src/netlink.rs:380-380 | The next sequence number is a nonzero 32-bit one that differs from the last. |
| `Freshness.ExpiryIsSafe` | src/netlink.rs:496-506 | From a sound state, a watchdog look leaves a sound state that is empty, clean or young enough. |
| `Freshness.Monitor.constructor` | src/netlink.rs:554-558 | The shared state starts dirty, not withdrawn, with no exports. |
| `Freshness.Monitor.Invalidate` | src/netlink.rs:492-494 | Starts the stale deadline without moving one already pending; nothing else changes. |
| `Freshness.Monitor.Expire` | src/netlink.rs:496-506 | Withdraws exactly when the limit is reached, and is safe afterwards. |
| `Freshness.Monitor.Publish` | src/netlink.rs:508-520 | Replaces the exports (a new version only if they differ), restarts or clears the deadline, ends withdrawal. |
| `Dump.Drain` | src/netlink.rs:281-314 | At most 128 receives, coalesced into the change and loss flags, for every sequence of receive results. |
| `Dump.DatagramGrows` | src/netlink.rs:293-304 | Flags never fall, and a datagram noticeable on its own raises one of them from any state. |
| `Dump.RouteNotificationNoticed` | src/netlink.rs:293-299 | A datagram holding a route notification anywhere before a framing error is always noticed. |
| `Dump.DrainMeans` | src/netlink.rs:281-314 | A drain reports a change if and only if a datagram it took announces one (links, addresses, routes, neighbours or next hops), and loss if and only if one of them is empty, badly framed, an error or an overrun, or a receive failed. |
| `Dump.DatagramMeans` | src/netlink.rs:292-304 | The same for one datagram, whatever was noted before. |
| `Dump.NoEntryOctets` | src/netlink.rs:344-356 | The status of a missing table is minus two in 32 bits. |
| `Dump.AbsorbMessage` | src/netlink.rs:398-434 | The reply handler's effect of one message: sequence number, interruption, end, error, overrun, route. |
| `Dump.AbsorbDatagram` | src/netlink.rs:395-439 | The loop over one datagram equals folding its messages, with empty and malformed datagrams refused. |
| `Dump.CollectReply` | src/netlink.rs:382-450 | The loop over the datagrams of one table, until done or refused. |
| `Dump.MessagesMean` | src/netlink.rs:397-436 | For every list of messages: accepted if and only if each is admissible, no route precedes a "no such table" and the union fits the limit; the outcome is the union of what the route records export, done exactly when an ending message is present. |
| `Dump.PackingIrrelevant` | src/netlink.rs:392-447 | For every stream of datagrams: the part up to the datagram that ends the dump is read as the list of its messages, and refused if one of them is badly framed. |
| `Dump.ReplyMeans` | src/netlink.rs:375-455 | For every stream of datagrams: exactly the eligible prefixes of the answer's route records when it is framed, acceptable and within the limit, and nothing otherwise. |
| `Dump.ReplyOrderExactly` | src/netlink.rs:375-455 | Replies made of the same messages, in any order, multiplicity and packing, have the same outcome if and only if they agree on whether a route precedes a "no such table", or are refused anyway. |
| `Dump.ReplyOrderIrrelevant` | src/netlink.rs:375-455 | So order, duplicates and packing do not matter unless a reply holds both a route and a "no such table". |
| `Dump.OrderCanMatter` | src/netlink.rs:406-432 | With both, the same two messages are accepted one way round and refused the other. |
| `Dump.NeverPartial` | src/netlink.rs:344-356 | A dump counts as done exactly when an ending message was read, never exceeds the limit and never forgets a prefix. |
| `Netlink.WalkMessages` | src/netlink.rs:195-216 | The walk yields the messages before the first framing error and whether there was one. |
| `Netlink.ParseOfPack` | src/netlink.rs:195-216 | Packed aligned messages are read back exactly, with or without padding after the last. |
| `Netlink.WalkRouteAttributes` | src/netlink.rs:239-261 | The attribute loop computes the last destination and table, or refuses. |
| `Netlink.DecodeRoute` | src/netlink.rs:220-272 | Exported, excluded or malformed, for every payload; exports are truncated. |
| `Netlink.DestinationWidth` | src/netlink.rs:245-249 | A destination read from attributes always has the width of its family. |
| `Netlink.ReadEncodedAttributes` | src/netlink.rs:239-261 | Encoded attributes of any kinds are read back as taking each in turn. |
| `Netlink.RecordMeans` | src/netlink.rs:220-272 | A unicast record exports its truncated destination exactly when its table, which an attribute may override, is selected. |
| `Records.RouteExactly` | src/netlink.rs:220-272 | For every header and attribute list: excluded, malformed or exported, told by family, route type, source length, clone flag, destination width, the last destination and the last table. |
| `Records.TakeAllMeans` | src/netlink.rs:239-262 | The last destination and the last table count, whatever else there is. |
| `Records.TypeMasked` | src/netlink.rs:244-244 | The two top bits of an attribute type are flags and ignored. |
| `Records.ShortRecord` | src/netlink.rs:221-221 | Fewer than twelve octets are malformed. |
| `WriterRuns.RunInvariant` | src/bgp.rs:403-492 | Every reachable state of the writer satisfies its invariant. |
| `WriterRuns.WriterMirror` | src/bgp.rs:420-468 | At every moment of every run, decoding the bytes written gives exactly `advertised`, and the queued plan equals recomputation from `advertised`, `target` and `replay`. |
| `WriterRuns.EndOfRibOnlyInSync` | src/bgp.rs:469-478 | Markers are written, and the writer blocks, only when the peer's decoded table is the target in negotiated families and no replay is outstanding. |
| `WriterRuns.NeverStuck` | src/bgp.rs:420-478 | Unless blocked, some step of the loop is always possible, so no assertion or expectation of the encoder fails. |
| `WriterRuns.RefreshExactly` | src/bgp.rs:423-478 | A prefix in the target when its refresh starts and when its markers are written was announced in between if and only if no snapshot left it out while it was advertised and still to be replayed, with no withdrawal of it written afterwards. |
| `WriterRuns.RefreshComplete` | src/bgp.rs:423-478 | A refresh re-announces every prefix of its family that all adopted targets hold. |
| `RefreshGap.RefreshCanSkip` | src/bgp.rs:423-428 | In every dual-stack session some run from the start skips a requested prefix that is in the target and advertised both when the refresh starts and when its markers are written. |
| `WriterRuns.LostStays` | src/bgp.rs:423-468 | Once lost from a replay and not withdrawn, a prefix stays advertised and is not announced. |
| `WriterRuns.PendingKept` | src/bgp.rs:429-441 | A requested family stays requested until a replay takes it. |
| `WriterRuns.ReplaysSpaced` | src/bgp.rs:429-441 | Successive replays start at least one second apart. |
| `WriterRuns.BlockedWakes` | src/bgp.rs:479-490 | A blocked writer with requests pending and its cooldown over is woken by a stored permit or its armed timer. |
| `WriterRuns.NextCheckTakesAll` | src/bgp.rs:429-441 | Whatever wakes it, the next refresh check takes every bit that was pending. |
| `WriterRuns.ReplayPersists` | src/bgp.rs:429-478 | From the start of a replay until its markers, exactly the requested families stay owed. |
| `WriterRuns.KeepaliveExactly` | src/bgp.rs:415-415 | The keepalive interval is a third of the hold time in whole seconds, at least one. |
| `WriterRuns.KeepalivesSpaced` | src/bgp.rs:442-450 | Two KEEPALIVEs of a run are at least that interval apart, and there are none without a hold time. |
| `WriterRuns.KeepaliveInTime` | src/bgp.rs:442-450 | The first check that long after the last KEEPALIVE, or after the start, sends one. |
| `WriterRuns.AdoptionsSpaced` | src/bgp.rs:421-428 | While transmitting, snapshots are adopted at least 100 ms apart. |
| `WriterRuns.AdoptedInTime` | src/bgp.rs:421-428 | The first check 100 ms after the last adoption adopts a waiting snapshot. |
| `EndOfRib.MarkersReceived` | src/bgp.rs:469-478 | In every run, a marker step is received as exactly one End-of-RIB per owed family, IPv4 first, and nothing else. |
| `EndOfRib.SessionMarkers` | src/bgp.rs:416-416 | The first markers of a session are one per negotiated family. |
| `EndOfRib.RefreshMarkers` | src/bgp.rs:429-478 | The markers that close a refresh are one per requested family. |
| `EndOfRib.MarkersExactly` | src/bgp.rs:420-478 | In every run the peer has received as many markers for a family as marker steps owed it: no other message is ever one. |
| `EndOfRib.ReceivedExactly` | src/bgp.rs:442-478 | Step by step the peer receives one KEEPALIVE, one UPDATE that carries exactly its batch in order, the markers, or nothing. |
| `WriterLaws.WriterKeeps` | src/bgp.rs:420-491 | Every step of the writer keeps mirror, plan, replay, marker, phase and wake-up invariants. |
| `WriterLaws.EnvironmentKeeps` | src/bgp.rs:281-292 | So do new snapshots, refresh requests and time. |
| `WriterLaws.InitOk` | src/bgp.rs:411-419 | The initial state satisfies the invariant. |
| `WriterLaws.BatchEncodable` | src/wire.rs:332-385 | Every batch the queue can yield meets all that `update` asserts and expects. |
| `WriterLaws.MirrorAfterBatch` | src/bgp.rs:451-468 | After a batch is written, the peer's decoded table equals the updated `advertised`. |
| `WriterLaws.PlanAfterBatch` | src/bgp.rs:451-468 | What remains of the queue is still the plan of the updated sets. |
| `WriterLaws.MirrorAfterMarkers` | src/wire.rs:402-408 | End-of-RIB markers leave the peer's table alone. |
| `WriterLaws.EmptyPlanMeans` | src/bgp.rs:354-376 | An empty plan means `advertised` is the target in negotiated families and `replay` is empty. |
| `Writer.RibAppend` | src/wire.rs:72-116 | Decoding a stream and then more bytes is decoding the whole. |
| `Writer.RibAfter` | src/wire.rs:72-116 | A further KEEPALIVE or valid UPDATE changes the decoded table by exactly what it carries. |
| `Writer.RefreshFamily` | src/wire.rs:660-671 | A refresh request only ever names a negotiated family. |
| `Writer.RefreshFamilyExactly` | src/wire.rs:660-671 | A request names a family if and only if its octets are AFI, subtype 0 and SAFI 1 of that negotiated family; it is malformed if and only if it is not four octets long. |
| `Transmitter.RefreshCell.Request` | src/bgp.rs:287-291 | Adds one family bit and stores a permit. |
| `Transmitter.RefreshCell.Swap` | src/bgp.rs:430-430 | Takes all pending bits and leaves the permit. |
| `Transmitter.Loop.constructor` | src/bgp.rs:411-419 | The variables start in an initial state of the state machine. |
| `Transmitter.Loop.Replan` | src/bgp.rs:423-428 | Adopting a snapshot: retarget, drop replays that left, replan against what was written. |
| `Transmitter.Loop.ReplanIfChanged` | src/bgp.rs:423-428 | The first check refines a step of the state machine and adopts exactly when allowed. |
| `Transmitter.Loop.ReplayIfRequested` | src/bgp.rs:429-441 | The refresh check refines a step and replays exactly when markers are not owed, the cooldown is over and a bit is set. |
| `Transmitter.Loop.StartReplay` | src/bgp.rs:431-440 | Everything of the requested families is queued again, their markers are owed and the cooldown starts; nothing else changes. |
| `Transmitter.Loop.KeepaliveIfDue` | src/bgp.rs:442-450 | The keepalive check refines a step. |
| `Transmitter.Loop.Write` | src/bgp.rs:451-465 | One UPDATE is written, and the batch moves in or out of `advertised` and out of `replay`. |
| `Transmitter.Loop.Record` | src/bgp.rs:458-465 | Recording a batch prefix by prefix has the effect of recording it as a set. |
| `Transmitter.Loop.SendNext` | src/bgp.rs:451-468 | Sending refines a step; nothing is sent exactly when the queue is empty. |
| `Transmitter.Loop.WriteMarkers` | src/bgp.rs:469-478 | Owed markers are written, IPv4 first, and cleared. |
| `Transmitter.Loop.Pass` | src/bgp.rs:420-468 | One pass keeps the invariant and shrinks the plan unless it used up a snapshot or a request. |
| `Transmitter.Loop.Synchronise` | src/bgp.rs:420-478 | Left undisturbed the loop ends, with the peer's decoded table equal to the target in negotiated families. |
| `Transmitter.FirstCheck` | src/bgp.rs:421-428 | The first check leaves no snapshot to adopt and changes the plan only by adopting one. |
| `Transmitter.LaterCheck` | src/bgp.rs:429-450 | The later checks change the plan only by using up the pending requests. |
| `Plans.Queue.constructor` | src/bgp.rs:354-376 | The two queues hold exactly the withdrawals and additions due, each once, grouped by family. |
| `Plans.Queue.Next` | src/bgp.rs:379-394 | Pops the next batch of one family, withdrawals first, and nothing exactly when both queues are empty. |
| `Plans.PopBatch` | src/bgp.rs:386-392 | The popping loop takes the longest run of the front's family, at most 200. |
| `Plans.SortByFamily` | src/bgp.rs:368-374 | A rearrangement with IPv4 before IPv6. |
| `Plans.PlanExists` | src/bgp.rs:354-376 | Every state of the writer has a plan. |
| `Plans.QueueSplit` | src/bgp.rs:379-394 | Popping from a queue removes exactly the popped prefixes from the set it stands for. |
| `Plans.ChopMeans` | src/bgp.rs:379-394 | Cutting a queue loses, repeats and reorders nothing, gives nonempty single-family batches of at most 200, and exactly one batch per started 200 of each family. |
| `Plans.DrainMeans` | src/bgp.rs:379-394 | Draining sends all withdrawals before any addition, in the sum over the four (direction, family) classes of their batches. |
| `Plans.BatchingIsOptimal` | src/bgp.rs:367-374 | No other cutting into such batches that carries as many prefixes of each family uses fewer. |
| `Agreement.EncodedUpdateMeans` | src/wire.rs:325-400 | Every UPDATE of a session is Valid to its receiver; announcements decode to the truncated prefixes in order and withdraw nothing, withdrawals the reverse. |
| `Agreement.EndOfRibMeans` | src/wire.rs:402-408 | Both markers are Valid and carry no route. |
| `Agreement.AttributesMean` | src/wire.rs:339-386 | The attribute list of any UPDATE has distinct types, each acceptable to the receiver, none missing, and carries exactly the batch's IPv6 routes. |
| `Agreement.FieldsMean` | src/wire.rs:387-399 | The two RFC 4271 prefix fields hold the batch exactly when it is an IPv4 one. |
| `Announcement.OriginSaid` | src/wire.rs:358-359 | Every announcement is received with ORIGIN INCOMPLETE. |
| `Announcement.PathIsRight` | src/wire.rs:360-369 | The AS_PATH received is empty if the session is internal, and otherwise one AS_SEQUENCE of the own AS alone, in the negotiated width, with AS_TRANS where it does not fit. |
| `Announcement.As4PathIsRight` | src/wire.rs:370-374 | AS4_PATH is received if and only if AS_TRANS stands in for the own AS, and holds it. |
| `Announcement.PreferenceSaid` | src/wire.rs:375-377 | LOCAL_PREF is received, as 100, if and only if the session is internal. |
| `Announcement.NextHopSaid` | src/config.rs:173-179 | The IPv4 next hop received is the configured one, or else the session's own address. |
| `Announcement.RoutesSaid` | src/wire.rs:341-356 | IPv6 announcements carry MP_REACH_NLRI for IPv6 unicast with the configured next hop or else the own address, then the link-local one if there is one, and the packed prefixes. |
| `Announcement.NothingElse` | src/wire.rs:339-386 | No attribute of another type is received. |
| `Announcement.WithdrawalSays` | src/wire.rs:341-356 | A withdrawal carries no attribute but, for IPv6, MP_UNREACH_NLRI with the packed prefixes. |
| `Encoder.AttributesFit` | src/wire.rs:300-309 | Every attribute's length fits its length field; the attributes of any batch stay within a fixed bound. |
| `Encoder.UpdateFields` | src/wire.rs:325-400 | For every batch the message fits 4096 octets, including 200 IPv6 host routes with two next hops and AS4_PATH. |
| `Encoder.AppendAttribute` | src/wire.rs:300-309 | Appends the attribute with the extended length bit exactly when it needs it. |
| `Encoder.AppendAttributes` | src/wire.rs:339-386 | The encoder's branches append exactly the declared attribute list. |
| `Encoder.Update` | src/wire.rs:325-400 | The encoder writes the frame of the declared body. |
| `Recovery.ValidatorAndDecoderAgree` | src/wire.rs:597-654 | On every accepted UPDATE the decoder consumes every octet of supported reachable NLRI, finds a prefix exactly when the validator found one, and never returns nothing for a treat-as-withdraw. |
| `Recovery.OrderIrrelevant` | src/wire.rs:464-592 | For attributes of distinct types, fatality and action survive any permutation. |
| `Recovery.OrderIrrelevantOnWire` | src/wire.rs:450-593 | The same on encoded bodies, whatever fields surround the attributes. |
| `Recovery.VerdictOfJoin` | src/wire.rs:450-463 | The verdict on a body assembled from its parts is the verdict on those parts. |
| `Recovery.CollectReach` | src/wire.rs:630-652 | The decoder's attribute loop appends the reachable prefixes of all attributes before a broken one. |
| `Recovery.CollectPrefixes` | src/wire.rs:597-654 | The decoder returns the tail's prefixes, then those of the attributes, in order; none for a body that is not framed. |
| `Validator.ValidateUpdate` | src/wire.rs:450-593 | The validator computes the declarative verdict for every body. |
| `Verdict.RejectedExactly` | src/wire.rs:450-593 | For every body: refused if and only if its fields do not fit together, a prefix field cannot be decoded to its end, an attribute is fatal, an attribute 14 or 15 is cut off or repeated, or routes would have to be withdrawn that cannot be named. |
| `Verdict.ActionExactly` | src/wire.rs:450-593 | For every accepted body: treat-as-withdraw if and only if an attribute is cut off, a mandatory one is absent or an unsound one cannot be dropped; Valid if and only if, besides, every attribute is a first occurrence, means something and is sound. |
| `Verdict.ErrorExactly` | src/wire.rs:450-593 | For every refused body: code, subcode and data, by the first reason. |
| `Verdict.AbsenceWithdraws` | src/wire.rs:579-585 | Without ORIGIN or AS_PATH, LOCAL_PREF inside the AS, or NEXT_HOP for RFC 4271 routes, the announced routes are withdrawn. |
| `Categories.SeverityExactly` | src/wire.rs:498-577 | Type by type: Valid if and only if the flags suit the category and the octets stand for a value of the type, unless the attribute means nothing in the session; otherwise dropped or treated as withdraw by type. |
| `Categories.FatalExactly` | src/wire.rs:498-577 | Type by type: what ends the session. |
| `Categories.FlagsExactly` | src/wire.rs:503-511 | The flags accepted are those of the category: well-known, optional non-transitive or optional transitive. |
| `Categories.MultiprotocolExactly` | src/wire.rs:513-543 | Attributes 14 and 15: accepted if and only if they are the encoding of routes with next hops of the right size that can all be decoded; which of the two errors otherwise. |
| `Validator.WalkAttributes` | src/wire.rs:464-578 | The walk finds the first fatal attribute, or the kinds, reachability and strongest severity over first occurrences. |
| `Validator.CheckMultiprotocol` | src/wire.rs:513-543 | Exactly the session-ending errors of attributes 14 and 15, and whether routes are announced. |
| `Validator.CheckAttribute` | src/wire.rs:491-577 | Repeated, discarded, multiprotocol, unknown well-known and malformed attributes, each with its error or severity. |
| `Validator.CheckValue` | src/wire.rs:544-568 | Accepts exactly the octets that stand for a typed value of the attribute's type: an origin code, a path of segments, an address, items of a fixed width and so on. |
| `Values.ValueExactly` | src/wire.rs:544-568 | The value rules accept octets if and only if they are the encoding of a value of the attribute's type. |
| `Values.PathExactly` | src/wire.rs:420-433 | A path is accepted if and only if it is the encoding of nonempty segments of known types. |
| `Values.PathLength` | src/wire.rs:553-553 | The extra length rule of AS4_PATH says only that the path is not empty. |
| `Validator.Conclude` | src/wire.rs:579-592 | Missing mandatory attributes strengthen the action; an action that needs reachable NLRI without it is refused. |
| `Validator.ValidatePath` | src/wire.rs:420-433 | Accepts exactly the well-formed segment lists of the given ASN width. |
| `Attributes.FirstFatal` | src/wire.rs:464-578 | The first attribute that ends the session; every earlier one does not. |
| `Attributes.Worst` | src/wire.rs:438-442 | The maximum severity, attained by some attribute. |
| `Attributes.ParseOfEncode` | src/wire.rs:464-491 | Splitting an encoded list gives the list back. |
| `Attributes.EncodeOfFirst` | src/wire.rs:474-491 | An attribute read from a field re-encodes to the octets it came from. |
| `Attributes.SplitOfJoin` | src/wire.rs:450-463 | The three fields of a body are read back exactly. |
| `Bits.AttributeLayout` | src/wire.rs:474-491 | An attribute is its flags, its type, a length of one octet or, with the extended-length flag, two, and its data. |
| `Bits.FlagBits` | src/wire.rs:472-511 | The flags are the four top bits of the octet: optional, transitive, partial, extended length. |
| `Nlri.RoundTrip` | src/wire.rs:311-318 | Packed prefixes are accepted and decode to the truncated prefixes, in order. |
| `Nlri.FitsMeansFullyDecoded` | src/wire.rs:411-418 | A prefix field is accepted if and only if the decoder consumes every octet of it. |
| `Nlri.FitsEmpty` | src/wire.rs:598-615 | An accepted field is empty exactly when it decodes to nothing. |
| `Nlri.ValidateNlri` | src/wire.rs:411-418 | The validation loop accepts exactly the fields whose entries fit. |
| `Nlri.Append` | src/wire.rs:598-615 | The decoding loop appends the prefixes before the first malformed entry. |
| `Nlri.Pack` | src/wire.rs:311-338 | The packing loop writes the encoding of the whole batch. |
| `Bits.NetworkBits` | src/netlink.rs:271-271 | Truncation keeps the first bits of an address and clears every other. |
| `Bits.ContainsExactly` | src/config.rs:153-153 | A prefix contains another if and only if it is no longer and agrees with it on all its own bits. |
| `Bits.MatchesExactly` | src/config.rs:153-155 | A rule without bounds matches exactly its own prefix; bounds given replace that length. |
| `Bits.ValidV4Exactly` | src/config.rs:161-163 | Usable IPv4 addresses are those outside 224.0.0.0/4 other than 0.0.0.0 and 255.255.255.255. |
| `Bits.ValidV6Exactly` | src/config.rs:169-171 | Usable IPv6 addresses are those outside ff00::/8 other than the unspecified one. |
| `Bits.LinkLocalExactly` | src/config.rs:361-370 | Link-local addresses are those of fe80::/10. |
| `Net.OctetsExactly` | src/wire.rs:313-313 | A prefix takes the fewest octets that hold its bits. |
| `Net.TruncIsTruncated` | src/netlink.rs:271-271 | A truncated prefix is a fixed point of truncation. |
| `Net.PaddedNetwork` | src/wire.rs:311-318 | The octets the encoder leaves out are the zeros the decoder puts back. |
| `Protocol.ReadFrame` | src/wire.rs:72-116 | A frame is returned only if the stream begins with its exact encoding and its length suits its type. |
| `Protocol.ReadFrameOfFrame` | src/wire.rs:51-58 | Reading undoes framing, whatever follows. |
| `Protocol.ReadFrameStable` | src/wire.rs:72-116 | Later bytes never change a frame that could already be read. |
| `Protocol.SizesExactly` | src/wire.rs:94-112 | Which body sizes each message type may have, and the error for the others and for unknown types. |
| `Protocol.HeaderExactly` | src/wire.rs:51-58 | The octets of a frame: sixteen ones, length, type, body. |
| `Protocol.BadHeaders` | src/wire.rs:75-84 | The errors for a wrong marker and an impossible length. |
| `Base.OctetWeights` | src/wire.rs:43-45 | The octets of a number, big-endian and little-endian. |
| `Protocol.NotificationReadable` | src/wire.rs:60-64 | Every NOTIFICATION fits, is readable and begins with its error; data is kept whole unless it is too long. |
| `Open.ReceiveOpen` | src/wire.rs:154-297 | The OPEN parser computes the declarative outcome, error by error, for every body. |
| `OpenVerdict.OpenExactly` | src/wire.rs:154-297 | Every well-laid-out OPEN is agreed if and only if hold time, router ID and capabilities are acceptable, the announced AS and My AS are those of the configured peer, and a family is common; then every field of the result is as announced. |
| `OpenVerdict.AgreedIsLaidOut` | src/wire.rs:154-297 | Whatever octets are agreed to are such an OPEN. |
| `OpenVerdict.RefusedExactly` | src/wire.rs:160-295 | Every well-laid-out OPEN that is refused: the error code, by the first reason, and the wanted families for subcode 7. |
| `OpenVerdict.ForeignParameterRefused` | src/wire.rs:214-222 | A parameter of another type after acceptable ones is refused with subcode 4 and returned. |
| `OpenVerdict.FrontRefused` | src/wire.rs:155-164 | Short bodies and other versions are refused. |
| `OpenVerdict.OwnOpenAnnounces` | src/wire.rs:128-147 | The own OPEN announces the own AS in four octets, route refresh, and exactly the families configured. |
| `Open.WalkParameters` | src/wire.rs:199-259 | The loop over optional parameters of either form. |
| `Open.WalkCapabilities` | src/wire.rs:224-257 | The loop over capabilities. |
| `Open.Negotiate` | src/wire.rs:260-296 | An agreed session has at least one family, and only families configured locally. |
| `Negotiation.CollectAccepts` | src/wire.rs:224-257 | A capability list is accepted if and only if each capability is well formed and at most one ASN is announced. |
| `Negotiation.CollectOutcome` | src/wire.rs:224-257 | What an accepted list offers, independent of its order. |
| `Negotiation.OpenMeans` | src/wire.rs:175-259 | The outcome of an encoded OPEN depends only on its header and its flat capability list. |
| `Negotiation.GroupingIrrelevant` | src/wire.rs:175-259 | The same capabilities give the same outcome however they are grouped, in legacy or extended form. |
| `Negotiation.ReceivedOpen` | src/wire.rs:128-147 | What one validated speaker makes of the other's OPEN, in closed form. |
| `Negotiation.SymmetricNegotiation` | src/wire.rs:128-297 | Two validated configurations naming each other both accept with equal hold time, ASN width, iBGP flag and families, or both refuse; which one is decided by their IDs and families; the hold time is zero or at least three. |
| `Negotiation.AcceptedOpenMakesSession` | src/wire.rs:260-296 | Any accepted OPEN under a validated configuration gives a session that the encoding guarantees apply to, and never an equal ID and ASN pair. |
| `Collision.Choose` | src/bgp.rs:211-278 | The selection loop computes the outcome of its event sequence. |
| `Collision.RunsAreShort` | src/bgp.rs:237-275 | At most three events precede the deadline, and the deadline always ends the loop. |
| `Collision.HeldThroughout` | src/bgp.rs:246-258 | In every reachable state a held-back candidate is of the direction its own OPEN does not prefer, and that direction no longer runs. |
| `Collision.OverwriteExactly` | src/bgp.rs:211-278 | In every run a held-back candidate is replaced if and only if both exchanges completed and neither was of the direction its own OPEN prefers. |
| `Collision.NeverOverwritten` | src/bgp.rs:211-278 | So it is never replaced when the peer's OPENs agree on the preference. |
| `Collision.OverwriteHappens` | src/bgp.rs:211-278 | For every validated configuration with room above and below its router ID, two OPEN bodies that the parser accepts lead to a replacement. |
| `Collision.NoConnectionExactly` | src/bgp.rs:237-275 | In every run selection ends without a connection if and only if the listener stopped, the deadline came with nothing held back, or both exchanges failed. |
| `Collision.ChoiceMeans` | src/bgp.rs:211-278 | With one identity per peer: the preferred direction if it completed, else the other, else none. |
| `Collision.ExactlyOnePrefersIncoming` | src/bgp.rs:205-207 | Of two speakers that accept each other's OPEN exactly one prefers the incoming connection. |
| `Collision.HigherSpeakerWins` | src/bgp.rs:205-207 | Each of two speakers that accept each other keeps the connection started by the one with the higher router ID, or AS if equal, whenever it completes. |
| `Collision.CollisionAgreement` | src/bgp.rs:205-278 | If each window completed some connection, both speakers keep the same TCP connection if and only if the winning one completed in both windows or in neither. |
| `Config.Permits` | src/config.rs:149-158 | Permitted if and only if some permitting rule is the first that matches. |

## Left out

- Socket setup, netlink system calls, interface address discovery and TCP-MD5: foreign calls; a receive is an environment input.
- Task scheduling, cancellation and real clocks: steps interleave nondeterministically and time is a natural number of milliseconds.
- Timing of KEEPALIVE against the peer's hold timer: it depends on write durations that the program does not bound.
- The order of states in `handshake`, `session` and `receive`, and the error for unexpected messages: a short straight-line sequence.
- Collision.Choose: does not model the NOTIFICATION sent to a losing connection, task panics or error texts.
- Command line, daemonisation, logging, signals and the management console.
- TOML parsing and the range checks of `Config::validate` that no theorem uses; the ones used are predicates in `Config`.
- Reconnect backoff and jitter.
- The reason strings of protocol errors; codes, subcodes and data are modelled.
- Netlink.WalkMessages: integers are read in little-endian order, as on the common hosts; the high octet of the message flags, which the program does not look at, is not kept.
- Config.Permits: prefix containment is equality on the outer prefix's bits; the address-range formulation of the library type is not modelled.
- The loop of `snapshot` in `src/netlink.rs` over tables and receive rounds is a sequence of steps of `Reconciler` rather than one method; the dump deadline and the 128-datagram bound of a receive round appear there as nondeterministic stops.
- `Writer` writes both End-of-RIB markers in one step; snapshots and requests that arrive between the two take effect after them.
- Hash-set iteration order: a plan may list the prefixes of one family in any order.
