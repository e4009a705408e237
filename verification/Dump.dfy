/** Change notifications and dump replies, message by message and datagram by datagram. */
module Dump {
  import opened Base
  import opened Net
  import opened Netlink

  // ---- Notifications ----------------------------------------------------------------------

  datatype Events = Events(changed: bool, lost: bool)

  const QUIET: Events := Events(false, false)

  function Note(e: Events, m: Message): Events {
    if m.kind == 2 || m.kind == 4 then e.(lost := true)
    else if 16 <= m.kind <= 28 || 104 <= m.kind <= 106 then e.(changed := true)
    else e
  }

  function NoteAll(e: Events, msgs: seq<Message>): Events
    decreases |msgs|
  {
    if msgs == [] then e else NoteAll(Note(e, msgs[0]), msgs[1..])
  }

  /** One datagram: an empty or malformed one counts as loss. */
  function NoteDatagram(e: Events, d: Bytes): Events {
    if d == [] then e.(lost := true)
    else
      var p := ParseMessages(d);
      var r := NoteAll(e, p.0);
      if p.1 then r else r.(lost := true)
  }

  /** Results of one receive call on the notification socket. */
  datatype Recv = Datagram(bytes: Bytes) | WouldBlock | Interrupted | Failed

  /** The outcome of at most `left` receives with the given results. */
  function DrainResult(e: Events, results: seq<Recv>, left: nat): Events
    decreases |results|
  {
    if left == 0 || results == [] then e
    else
      match results[0]
      case Datagram(d) =>
        if d == [] then e.(lost := true) else DrainResult(NoteDatagram(e, d), results[1..], left - 1)
      case WouldBlock => e
      case Interrupted => DrainResult(e, results[1..], left - 1)
      case Failed => e.(lost := true)
  }

  method Drain(results: seq<Recv>) returns (e: Events)
    ensures e == DrainResult(QUIET, results, 128)
  {
    e := QUIET;
    var i := 0;
    while i < 128 && i < |results|
      invariant i <= |results| && i <= 128
      invariant DrainResult(QUIET, results, 128) == DrainResult(e, results[i..], 128 - i)
    {
      assert results[i..][0] == results[i] && results[i..][1..] == results[i + 1..];
      match results[i] {
        case Datagram(d) =>
          if d == [] {
            return e.(lost := true);
          }
          e := NoteDatagram(e, d);
        case WouldBlock =>
          return e;
        case Interrupted =>
        case Failed =>
          return e.(lost := true);
      }
      i := i + 1;
    }
  }

  /** Whether receiving a datagram makes the worker aware of something. */
  predicate Noticed(d: Bytes) {
    NoteDatagram(QUIET, d) != QUIET
  }

  lemma {:induction false} NoteAllGrows(e: Events, msgs: seq<Message>)
    ensures var r := NoteAll(e, msgs);
            && (e.changed ==> r.changed) && (e.lost ==> r.lost)
            && r == Events(e.changed || NoteAll(QUIET, msgs).changed, e.lost || NoteAll(QUIET, msgs).lost)
    decreases |msgs|
  {
    if msgs != [] {
      NoteAllGrows(Note(e, msgs[0]), msgs[1..]);
      NoteAllGrows(Note(QUIET, msgs[0]), msgs[1..]);
    }
  }

  /** Flags never fall, and a noticeable datagram raises one of them. */
  lemma DatagramGrows(e: Events, d: Bytes)
    ensures var r := NoteDatagram(e, d);
            && (e.changed ==> r.changed) && (e.lost ==> r.lost)
            && (Noticed(d) ==> r.changed || r.lost)
  {
    if d != [] {
      NoteAllGrows(e, ParseMessages(d).0);
    }
  }

  /** A datagram that carries a route notification is always noticed. */
  lemma {:induction false} RouteNotificationNoticed(d: Bytes, i: nat)
    requires d != [] && i < |ParseMessages(d).0| && ParseMessages(d).0[i].kind in {24, 25}
    ensures Noticed(d)
  {
    NoteReached(QUIET, ParseMessages(d).0, i);
  }

  lemma {:induction false} NoteReached(e: Events, msgs: seq<Message>, i: nat)
    requires i < |msgs| && msgs[i].kind in {24, 25}
    ensures NoteAll(e, msgs).changed
    decreases i
  {
    if i == 0 {
      NoteAllGrows(Note(e, msgs[0]), msgs[1..]);
    } else {
      NoteReached(Note(e, msgs[0]), msgs[1..], i - 1);
    }
  }

  // ---- What notifications mean -----------------------------------------------------------------

  /** Links, addresses, routes, neighbours and next hops, new or deleted. */
  const CHANGES: set<nat> := {16, 17, 18, 19, 20, 21, 22, 23, 24, 25, 26, 27, 28, 104, 105, 106}

  /** An error or an overrun. */
  const LOSSES: set<nat> := {2, 4}

  predicate SomeKind(msgs: seq<Message>, kinds: set<nat>) {
    exists m <- msgs :: m.kind in kinds
  }

  lemma SomeKindStep(msgs: seq<Message>, kinds: set<nat>)
    requires msgs != []
    ensures SomeKind(msgs, kinds) <==> msgs[0].kind in kinds || SomeKind(msgs[1..], kinds)
  {
    assert forall m :: m in msgs <==> m == msgs[0] || m in msgs[1..];
  }

  lemma {:induction false} NoteAllMeans(e: Events, msgs: seq<Message>)
    ensures NoteAll(e, msgs) == Events(e.changed || SomeKind(msgs, CHANGES), e.lost || SomeKind(msgs, LOSSES))
    decreases |msgs|
  {
    if msgs != [] {
      SomeKindStep(msgs, CHANGES);
      SomeKindStep(msgs, LOSSES);
      NoteAllMeans(Note(e, msgs[0]), msgs[1..]);
    }
  }

  predicate Changes(d: Bytes) {
    d != [] && SomeKind(ParseMessages(d).0, CHANGES)
  }

  /** Loss: an empty or badly framed datagram, an error or an overrun. */
  predicate Loses(d: Bytes) {
    d == [] || !ParseMessages(d).1 || SomeKind(ParseMessages(d).0, LOSSES)
  }

  lemma DatagramMeans(e: Events, d: Bytes)
    ensures NoteDatagram(e, d) == Events(e.changed || Changes(d), e.lost || Loses(d))
  {
    NoteAllMeans(e, ParseMessages(d).0);
  }

  /** The datagrams a drain takes: up to the first empty one, error or exhausted queue. */
  function Taken(results: seq<Recv>, left: nat): seq<Bytes>
    decreases |results|
  {
    if left == 0 || results == [] then []
    else
      match results[0]
      case Datagram(d) => [d] + if d == [] then [] else Taken(results[1..], left - 1)
      case WouldBlock => []
      case Interrupted => Taken(results[1..], left - 1)
      case Failed => []
  }

  /** Whether a drain stops at an error. */
  predicate StopsAtError(results: seq<Recv>, left: nat)
    decreases |results|
  {
    left > 0 && results != []
    && (results[0].Failed?
        || ((results[0].Interrupted? || (results[0].Datagram? && results[0].bytes != []))
            && StopsAtError(results[1..], left - 1)))
  }

  /** A drain reports a change exactly when a datagram it took announces one, and loss exactly when one of
      them loses something or it stopped at an error. */
  lemma {:induction false} DrainMeans(e: Events, results: seq<Recv>, left: nat)
    ensures DrainResult(e, results, left)
            == Events(e.changed || exists d <- Taken(results, left) :: Changes(d),
                      e.lost || StopsAtError(results, left) || exists d <- Taken(results, left) :: Loses(d))
    decreases |results|
  {
    if left > 0 && results != [] {
      if results[0].Interrupted? {
        DrainMeans(e, results[1..], left - 1);
      } else if results[0].Datagram? {
        var d := results[0].bytes;
        DatagramMeans(e, d);
        if d == [] {
          assert Taken(results, left) == [d];
        } else {
          var rest := Taken(results[1..], left - 1);
          assert Taken(results, left) == [d] + rest;
          assert forall x :: x in [d] + rest <==> x == d || x in rest;
          DrainMeans(NoteDatagram(e, d), results[1..], left - 1);
        }
      }
    }
  }

  /** The code of a missing table is minus two, as 32 bits. */
  lemma NoEntryOctets(payload: Bytes)
    requires |payload| >= 4
    ensures Le32(payload) == NO_ENTRY <==> payload[..4] == [254, 255, 255, 255]
  {
    var b := payload[..4];
    assert payload[2..4] == b[2..4] && payload[..2] == b[..2];
  }

  // ---- Dump replies -------------------------------------------------------------------------

  /** Progress of one table's dump: prefixes so far, whether a route was seen, whether it ended. */
  datatype Progress = Progress(found: set<Prefix>, saw: bool, done: bool)

  datatype DumpResult = Going(progress: Progress) | Broken

  /** What a dump request fixes: the selected tables, the prefix limit and the sequence number. */
  datatype Request = Request(tables: seq<nat>, limit: nat, seqno: nat)

  /** The error code for "no entry", minus two in 32 bits. */
  const NO_ENTRY: nat := 4294967294

  /** The flag every part of a multipart reply carries. */
  const MULTI: octet := 2

  predicate StatusOk(payload: Bytes, saw: bool) {
    payload == [] || (|payload| >= 4 && (Le32(payload) == 0 || (Le32(payload) == NO_ENTRY && !saw)))
  }

  function OnMessage(q: Request, p: Progress, m: Message): DumpResult {
    if m.seqno != q.seqno || Bit10(m.flags) then Broken
    else if m.kind == 3 then
      if StatusOk(m.payload, p.saw) then Going(p.(done := true)) else Broken
    else if m.kind == 2 then
      if |m.payload| < 4 then Broken
      else if Le32(m.payload) == NO_ENTRY && !p.saw then Going(p.(done := true))
      else if Le32(m.payload) != 0 then Broken
      else Going(p)
    else if m.kind == 4 then Broken
    else if m.kind == 24 then
      match Route(m.payload, q.tables)
      case Malformed => Broken
      case Excluded => Going(p.(saw := true))
      case Export(prefix) =>
        if |p.found + {prefix}| <= q.limit then Going(p.(saw := true, found := p.found + {prefix})) else Broken
    else Going(p)
  }

  function OnMessages(q: Request, p: Progress, msgs: seq<Message>): DumpResult
    decreases |msgs|
  {
    if msgs == [] then Going(p)
    else
      var r := OnMessage(q, p, msgs[0]);
      if r.Broken? then Broken else OnMessages(q, r.progress, msgs[1..])
  }

  function OnDatagram(q: Request, p: Progress, d: Bytes): DumpResult {
    if d == [] then Broken
    else
      var parsed := ParseMessages(d);
      var r := OnMessages(q, p, parsed.0);
      if !parsed.1 then Broken else r
  }

  /** A table's whole reply: datagrams until the dump is done. */
  function OnReply(q: Request, p: Progress, ds: seq<Bytes>): DumpResult
    decreases |ds|
  {
    if p.done || ds == [] then Going(p)
    else
      var r := OnDatagram(q, p, ds[0]);
      if r.Broken? then Broken else OnReply(q, r.progress, ds[1..])
  }

  lemma OnMessagesStep(q: Request, p: Progress, msgs: seq<Message>, i: nat)
    requires i < |msgs|
    ensures var r := OnMessage(q, p, msgs[i]);
            OnMessages(q, p, msgs[i..]) == if r.Broken? then Broken else OnMessages(q, r.progress, msgs[i + 1..])
  {
    assert msgs[i..][0] == msgs[i] && msgs[i..][1..] == msgs[i + 1..];
  }

  /** The program's loop over one datagram of a reply. */
  method AbsorbDatagram(q: Request, start: Progress, d: Bytes) returns (r: DumpResult)
    ensures r == OnDatagram(q, start, d)
  {
    if d == [] {
      return Broken;
    }
    var msgs, ok := WalkMessages(d);
    var p := start;
    for i := 0 to |msgs|
      invariant OnMessages(q, start, msgs) == OnMessages(q, p, msgs[i..])
    {
      OnMessagesStep(q, p, msgs, i);
      var next := AbsorbMessage(q, p, msgs[i]);
      if next.Broken? {
        return Broken;
      }
      p := next.progress;
    }
    return if ok then Going(p) else Broken;
  }

  /** The handler of one message of a reply. */
  method AbsorbMessage(q: Request, start: Progress, m: Message) returns (r: DumpResult)
    ensures r == OnMessage(q, start, m)
  {
    if m.seqno != q.seqno || Bit10(m.flags) {
      return Broken;
    }
    var p := start;
    if m.kind == 3 {
      if !StatusOk(m.payload, p.saw) {
        return Broken;
      }
      p := p.(done := true);
    } else if m.kind == 2 {
      if |m.payload| < 4 {
        return Broken;
      }
      var code := Le32(m.payload);
      if code == NO_ENTRY && !p.saw {
        p := p.(done := true);
      } else if code != 0 {
        return Broken;
      }
    } else if m.kind == 4 {
      return Broken;
    } else if m.kind == 24 {
      p := p.(saw := true);
      var route := DecodeRoute(m.payload, q.tables);
      if route.Malformed? {
        return Broken;
      }
      if route.Export? {
        p := p.(found := p.found + {route.prefix});
        if |p.found| > q.limit {
          return Broken;
        }
      }
    }
    return Going(p);
  }

  lemma OnReplyStep(q: Request, p: Progress, ds: seq<Bytes>, i: nat)
    requires i < |ds| && !p.done
    ensures var r := OnDatagram(q, p, ds[i]);
            OnReply(q, p, ds[i..]) == if r.Broken? then Broken else OnReply(q, r.progress, ds[i + 1..])
  {
    assert ds[i..][0] == ds[i] && ds[i..][1..] == ds[i + 1..];
  }

  /** The program's loop over the datagrams of one table. */
  method CollectReply(q: Request, start: Progress, ds: seq<Bytes>) returns (r: DumpResult)
    ensures r == OnReply(q, start, ds)
  {
    var p, i := start, 0;
    while !p.done && i < |ds|
      invariant i <= |ds| && OnReply(q, start, ds) == OnReply(q, p, ds[i..])
      decreases |ds| - i
    {
      OnReplyStep(q, p, ds, i);
      r := AbsorbDatagram(q, p, ds[i]);
      if r.Broken? {
        return;
      }
      p, i := r.progress, i + 1;
    }
    return Going(p);
  }

  // ---- What a reply means ---------------------------------------------------------------------

  /** The prefixes a set of route records exports. */
  function Eligible(records: set<Bytes>, tables: seq<nat>): set<Prefix> {
    set r | r in records && Route(r, tables).Export? :: Route(r, tables).prefix
  }

  function Exported(route: RouteResult): set<Prefix> {
    if route.Export? then {route.prefix} else {}
  }

  /** The route records among some messages: everything a reply says about a table. */
  function RecordsOf(msgs: seq<Message>): set<Bytes> {
    set m | m in msgs && m.kind == 24 :: m.payload
  }

  predicate HasRoute(msgs: seq<Message>) {
    exists m <- msgs :: m.kind == 24
  }

  /** A status that says the table does not exist. */
  predicate NoEntry(m: Message) {
    (m.kind == 2 || m.kind == 3) && |m.payload| >= 4 && Le32(m.payload) == NO_ENTRY
  }

  /** Messages that end a dump: no such table, or the end of the dump without an error. */
  predicate Ends(m: Message) {
    NoEntry(m) || (m.kind == 3 && (m.payload == [] || (|m.payload| >= 4 && Le32(m.payload) == 0)))
  }

  predicate HasEnd(msgs: seq<Message>) {
    exists m <- msgs :: Ends(m)
  }

  /** What a message must be in itself; types the program does not know are ignored. */
  predicate Admissible(q: Request, m: Message) {
    && m.seqno == q.seqno && !Bit10(m.flags) && m.kind != 4
    && (m.kind == 3 ==> Ends(m))
    && (m.kind == 2 ==> |m.payload| >= 4 && (Le32(m.payload) == 0 || NoEntry(m)))
    && (m.kind == 24 ==> !Route(m.payload, q.tables).Malformed?)
  }

  /** No route precedes a status that says there is no table. */
  predicate Early(saw: bool, msgs: seq<Message>) {
    forall i :: 0 <= i < |msgs| && NoEntry(msgs[i]) ==> !saw && !HasRoute(msgs[..i])
  }

  predicate Acceptable(q: Request, saw: bool, msgs: seq<Message>) {
    (forall m <- msgs :: Admissible(q, m)) && Early(saw, msgs)
  }

  /** What reading should come to: all prefixes together if everything is acceptable and within the limit. */
  ghost function Reached(limit: nat, all: set<Prefix>, acceptable: bool, saw: bool, done: bool): DumpResult {
    if acceptable && |all| <= limit then Going(Progress(all, saw, done)) else Broken
  }

  ghost function Meaning(q: Request, p: Progress, msgs: seq<Message>): DumpResult {
    Reached(q.limit, p.found + Eligible(RecordsOf(msgs), q.tables), Acceptable(q, p.saw, msgs),
            p.saw || HasRoute(msgs), p.done || HasEnd(msgs))
  }

  lemma SubsetSize<T>(a: set<T>, b: set<T>)
    requires a <= b
    ensures |a| <= |b|
  {
    assert b == a + (b - a);
  }

  lemma Regroup<T>(a: set<T>, b: set<T>, c: set<T>)
    ensures a + (b + c) == (a + c) + b && |a + c| <= |(a + c) + b|
  {
    assert a + (b + c) == (a + c) + b;
    SubsetSize(a + c, (a + c) + b);
  }

  function ExportsOf(q: Request, m: Message): set<Prefix> {
    if m.kind == 24 then Exported(Route(m.payload, q.tables)) else {}
  }

  lemma RouteStep(q: Request, p: Progress, m: Message, route: RouteResult)
    requires m.kind == 24 && Route(m.payload, q.tables) == route && |p.found| <= q.limit
    ensures OnMessage(q, p, m) == Reached(q.limit, p.found + Exported(route), Admissible(q, m), true, p.done)
  {
    if !route.Export? {
      assert p.found + {} == p.found;
    }
  }

  lemma MessageStep(q: Request, p: Progress, m: Message)
    requires |p.found| <= q.limit
    ensures OnMessage(q, p, m)
            == Reached(q.limit, p.found + ExportsOf(q, m), Admissible(q, m) && (NoEntry(m) ==> !p.saw),
                       p.saw || m.kind == 24, p.done || Ends(m))
  {
    if m.kind == 24 {
      RouteStep(q, p, m, Route(m.payload, q.tables));
    } else {
      assert p.found + {} == p.found;
    }
  }

  lemma ReachedStep(limit: nat, found: set<Prefix>, added: set<Prefix>, rest: set<Prefix>, one: bool, others: bool,
                    saw1: bool, done1: bool, saw: bool, done: bool)
    ensures Reached(limit, found + (rest + added), one && others, saw, done)
            == if Reached(limit, found + added, one, saw1, done1).Broken? then Broken
               else Reached(limit, (found + added) + rest, others, saw, done)
  {
    Regroup(found, rest, added);
  }

  lemma FirstOrRest(msgs: seq<Message>)
    requires msgs != []
    ensures forall m :: m in msgs <==> m == msgs[0] || m in msgs[1..]
  {
    assert msgs == [msgs[0]] + msgs[1..];
  }

  lemma RecordsStep(q: Request, msgs: seq<Message>)
    requires msgs != []
    ensures Eligible(RecordsOf(msgs), q.tables) == Eligible(RecordsOf(msgs[1..]), q.tables) + ExportsOf(q, msgs[0])
  {
    FirstOrRest(msgs);
    var first := if msgs[0].kind == 24 then {msgs[0].payload} else {};
    assert RecordsOf(msgs) == RecordsOf(msgs[1..]) + first;
  }

  lemma FlagsStep(msgs: seq<Message>)
    requires msgs != []
    ensures HasRoute(msgs) <==> msgs[0].kind == 24 || HasRoute(msgs[1..])
    ensures HasEnd(msgs) <==> Ends(msgs[0]) || HasEnd(msgs[1..])
  {
    FirstOrRest(msgs);
  }

  lemma EarlyStep(saw: bool, msgs: seq<Message>)
    requires msgs != []
    ensures Early(saw, msgs) <==> (NoEntry(msgs[0]) ==> !saw) && Early(saw || msgs[0].kind == 24, msgs[1..])
  {
    var rest := msgs[1..];
    forall i | 0 <= i < |rest|
      ensures HasRoute(msgs[..i + 1]) <==> msgs[0].kind == 24 || HasRoute(rest[..i])
    {
      assert msgs[..i + 1][1..] == rest[..i];
      FlagsStep(msgs[..i + 1]);
    }
    assert forall i :: 0 < i < |msgs| ==> msgs[i] == rest[i - 1];
    if Early(saw, msgs) {
      forall i | 0 <= i < |rest| && NoEntry(rest[i])
        ensures !(saw || msgs[0].kind == 24) && !HasRoute(rest[..i])
      {
        assert NoEntry(msgs[i + 1]);
      }
    }
    if (NoEntry(msgs[0]) ==> !saw) && Early(saw || msgs[0].kind == 24, rest) {
      forall i | 0 <= i < |msgs| && NoEntry(msgs[i])
        ensures !saw && !HasRoute(msgs[..i])
      {
        if i > 0 {
          assert NoEntry(rest[i - 1]);
          assert HasRoute(msgs[..i - 1 + 1]) <==> msgs[0].kind == 24 || HasRoute(rest[..i - 1]);
        }
      }
    }
  }

  lemma AcceptableStep(q: Request, saw: bool, msgs: seq<Message>)
    requires msgs != []
    ensures Acceptable(q, saw, msgs)
            <==> (Admissible(q, msgs[0]) && (NoEntry(msgs[0]) ==> !saw))
                 && Acceptable(q, saw || msgs[0].kind == 24, msgs[1..])
  {
    FirstOrRest(msgs);
    EarlyStep(saw, msgs);
  }

  /** Any messages whatever: accepted exactly when each is admissible, no route precedes a "no such table",
      and the prefixes fit the limit; the outcome is the union of what the route records export, in any
      order and multiplicity, and the dump is done exactly when an ending message is present. */
  lemma {:induction false} MessagesMean(q: Request, p: Progress, msgs: seq<Message>)
    requires |p.found| <= q.limit
    ensures OnMessages(q, p, msgs) == Meaning(q, p, msgs)
    decreases |msgs|
  {
    if msgs == [] {
      assert p.found + Eligible(RecordsOf(msgs), q.tables) == p.found;
    } else {
      var m, rest := msgs[0], msgs[1..];
      MessageStep(q, p, m);
      RecordsStep(q, msgs);
      FlagsStep(msgs);
      AcceptableStep(q, p.saw, msgs);
      ReachedStep(q.limit, p.found, ExportsOf(q, m), Eligible(RecordsOf(rest), q.tables),
                  Admissible(q, m) && (NoEntry(m) ==> !p.saw), Acceptable(q, p.saw || m.kind == 24, rest),
                  p.saw || m.kind == 24, p.done || Ends(m), p.saw || HasRoute(msgs), p.done || HasEnd(msgs));
      var r := OnMessage(q, p, m);
      if r.Going? {
        MessagesMean(q, r.progress, rest);
      }
    }
  }

  // ---- Packing, order and completeness of a reply ----------------------------------------------

  lemma {:induction false} OnMessagesAppend(q: Request, p: Progress, a: seq<Message>, b: seq<Message>)
    ensures var r := OnMessages(q, p, a);
            OnMessages(q, p, a + b) == if r.Broken? then Broken else OnMessages(q, r.progress, b)
    decreases |a|
  {
    if a == [] {
      assert a + b == b;
    } else {
      assert (a + b)[1..] == a[1..] + b;
      var r := OnMessage(q, p, a[0]);
      if r.Going? {
        OnMessagesAppend(q, r.progress, a[1..], b);
      }
    }
  }

  /** Reading is done exactly when it was before or an ending message was read. */
  lemma {:induction false} DoneMeans(q: Request, p: Progress, msgs: seq<Message>)
    requires OnMessages(q, p, msgs).Going?
    ensures OnMessages(q, p, msgs).progress.done <==> p.done || HasEnd(msgs)
    decreases |msgs|
  {
    if msgs != [] {
      FlagsStep(msgs);
      DoneMeans(q, OnMessage(q, p, msgs[0]).progress, msgs[1..]);
    }
  }

  function Flat(ds: seq<Bytes>): seq<Message> {
    if ds == [] then [] else ParseMessages(ds[0]).0 + Flat(ds[1..])
  }

  /** A datagram that frames its messages correctly and carries at least one. */
  predicate WellFramed(d: Bytes) {
    d != [] && ParseMessages(d).1
  }

  predicate WellPacked(ds: seq<Bytes>)
    decreases |ds|
  {
    ds == [] || (WellFramed(ds[0]) && WellPacked(ds[1..]))
  }

  /** The part of a stream of datagrams that answers one request: up to the one that ends the dump. */
  function Answer(ds: seq<Bytes>): seq<Bytes>
    decreases |ds|
  {
    if ds == [] then []
    else if HasEnd(ParseMessages(ds[0]).0) then [ds[0]]
    else [ds[0]] + Answer(ds[1..])
  }

  /** However messages are cut into datagrams, a table's reply is read as the list of its messages. */
  lemma {:induction false} PackingIrrelevant(q: Request, p: Progress, ds: seq<Bytes>)
    requires !p.done
    ensures var a := Answer(ds);
            OnReply(q, p, ds) == if WellPacked(a) then OnMessages(q, p, Flat(a)) else Broken
    decreases |ds|
  {
    if ds != [] {
      var first, a := ParseMessages(ds[0]).0, Answer(ds);
      var rest := a[1..];
      OnMessagesAppend(q, p, first, Flat(rest));
      var r := OnDatagram(q, p, ds[0]);
      if r.Going? {
        DoneMeans(q, p, first);
        if HasEnd(first) {
          assert rest == [] && Flat(rest) == [];
        } else {
          assert rest == Answer(ds[1..]);
          PackingIrrelevant(q, r.progress, ds[1..]);
        }
      }
    }
  }

  /** Every reply: it yields exactly the eligible prefixes of its route records, within the limit, when all
      its messages are acceptable, and nothing otherwise. */
  lemma ReplyMeans(q: Request, p: Progress, ds: seq<Bytes>)
    requires !p.done && |p.found| <= q.limit
    ensures var msgs := Flat(Answer(ds));
            var all := p.found + Eligible(RecordsOf(msgs), q.tables);
            OnReply(q, p, ds)
            == if WellPacked(Answer(ds)) && Acceptable(q, p.saw, msgs) && |all| <= q.limit
               then Going(Progress(all, p.saw || HasRoute(msgs), HasEnd(msgs)))
               else Broken
  {
    PackingIrrelevant(q, p, ds);
    MessagesMean(q, p, Flat(Answer(ds)));
  }

  /** Replies made of the same messages, in any order, multiplicity and packing, have the same outcome
      exactly when they agree on whether a route precedes a "no such table", or are refused anyway. */
  lemma ReplyOrderExactly(q: Request, p: Progress, ds: seq<Bytes>, es: seq<Bytes>)
    requires !p.done && |p.found| <= q.limit && WellPacked(Answer(ds)) && WellPacked(Answer(es))
    requires Elements(Flat(Answer(ds))) == Elements(Flat(Answer(es)))
    ensures var a, b := Flat(Answer(ds)), Flat(Answer(es));
            var all := p.found + Eligible(RecordsOf(a), q.tables);
            var refused := (exists m <- a :: !Admissible(q, m)) || |all| > q.limit;
            OnReply(q, p, ds) == OnReply(q, p, es) <==> refused || (Early(p.saw, a) <==> Early(p.saw, b))
  {
    var a, b := Flat(Answer(ds)), Flat(Answer(es));
    ReplyMeans(q, p, ds);
    ReplyMeans(q, p, es);
    SameMessages(q, a, b);
  }

  lemma SameMessages(q: Request, a: seq<Message>, b: seq<Message>)
    requires Elements(a) == Elements(b)
    ensures RecordsOf(a) == RecordsOf(b) && (HasRoute(a) <==> HasRoute(b)) && (HasEnd(a) <==> HasEnd(b))
    ensures (forall m <- a :: Admissible(q, m)) <==> (forall m <- b :: Admissible(q, m))
  {
    assert forall m :: m in a <==> m in Elements(a);
    assert forall m :: m in b <==> m in Elements(b);
  }

  /** So order, duplicates and packing do not matter unless a reply holds both a route and a "no such table". */
  lemma ReplyOrderIrrelevant(q: Request, p: Progress, ds: seq<Bytes>, es: seq<Bytes>)
    requires !p.done && |p.found| <= q.limit && WellPacked(Answer(ds)) && WellPacked(Answer(es))
    requires Elements(Flat(Answer(ds))) == Elements(Flat(Answer(es)))
    requires (forall m <- Flat(Answer(ds)) :: !NoEntry(m)) || !HasRoute(Flat(Answer(ds)))
    ensures OnReply(q, p, ds) == OnReply(q, p, es)
  {
    var a, b := Flat(Answer(ds)), Flat(Answer(es));
    ReplyOrderExactly(q, p, ds, es);
    SameMessages(q, a, b);
    assert forall m :: m in a <==> m in Elements(a);
    assert forall m :: m in b <==> m in Elements(b);
    NeverLate(p.saw, a, b);
  }

  lemma NeverLate(saw: bool, a: seq<Message>, b: seq<Message>)
    requires forall m :: m in a <==> m in b
    requires (forall m <- a :: !NoEntry(m)) || !HasRoute(a)
    ensures Early(saw, a) <==> Early(saw, b)
  {
    if !HasRoute(a) {
      EarlyWithoutRoutes(saw, a);
      EarlyWithoutRoutes(saw, b);
    }
  }

  lemma EarlyWithoutRoutes(saw: bool, a: seq<Message>)
    requires !HasRoute(a)
    ensures Early(saw, a) <==> !saw || forall m <- a :: !NoEntry(m)
  {
    assert forall i, m :: 0 <= i < |a| && m in a[..i] ==> m in a;
  }

  lemma OneMessage(q: Request, p: Progress, m: Message)
    ensures OnMessages(q, p, [m]) == OnMessage(q, p, m)
  {
    assert [m][1..] == [];
    var r := OnMessage(q, p, m);
    assert r.Going? ==> OnMessages(q, r.progress, []) == r;
  }

  lemma TwoMessages(q: Request, p: Progress, a: Message, b: Message)
    ensures var r := OnMessage(q, p, a);
            OnMessages(q, p, [a, b]) == if r.Broken? then Broken else OnMessage(q, r.progress, b)
  {
    assert [a, b][1..] == [b];
    if OnMessage(q, p, a).Going? {
      OneMessage(q, OnMessage(q, p, a).progress, b);
    }
  }

  lemma RouteTaken(q: Request, p: Progress, record: Bytes)
    requires Route(record, q.tables).Export? && q.limit > 0 && p.found == {}
    ensures OnMessage(q, p, Message(24, MULTI, q.seqno, record))
            == Going(p.(saw := true, found := {Route(record, q.tables).prefix}))
  {
    assert {} + {Route(record, q.tables).prefix} == {Route(record, q.tables).prefix};
  }

  lemma NoneTaken(q: Request, p: Progress, payload: Bytes)
    requires |payload| >= 4 && Le32(payload) == NO_ENTRY
    ensures OnMessage(q, p, Message(2, 0, q.seqno, payload)) == if p.saw then Broken else Going(p.(done := true))
  {
  }

  /** With both, order does matter: the same two messages are accepted one way round and refused the other. */
  lemma OrderCanMatter(q: Request, record: Bytes, payload: Bytes)
    requires Route(record, q.tables).Export? && q.limit > 0 && |payload| >= 4 && Le32(payload) == NO_ENTRY
    ensures var start := Progress({}, false, false);
            var route, none := Message(24, MULTI, q.seqno, record), Message(2, 0, q.seqno, payload);
            && OnMessages(q, start, [none, route]).Going?
            && OnMessages(q, start, [route, none]).Broken?
  {
    var start := Progress({}, false, false);
    var route, none := Message(24, MULTI, q.seqno, record), Message(2, 0, q.seqno, payload);
    TwoMessages(q, start, none, route);
    TwoMessages(q, start, route, none);
    RouteTaken(q, start, record);
    RouteTaken(q, start.(done := true), record);
    NoneTaken(q, start, payload);
    NoneTaken(q, OnMessage(q, start, route).progress, payload);
  }

  /** A dump ends only on an ending message, never holds more than the limit and never forgets a prefix. */
  lemma NeverPartial(q: Request, p: Progress, msgs: seq<Message>)
    requires |p.found| <= q.limit && OnMessages(q, p, msgs).Going?
    ensures var r := OnMessages(q, p, msgs).progress;
            && |r.found| <= q.limit && p.found <= r.found
            && (r.done <==> p.done || exists m <- msgs :: Ends(m))
  {
    MessagesMean(q, p, msgs);
  }
}
