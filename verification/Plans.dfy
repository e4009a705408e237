/** The difference between what a peer was told and what it should know, cut into batches. */
module Plans {
  import opened Base
  import opened Net
  import opened Protocol

  datatype Plan = Plan(withdrawals: seq<Prefix>, additions: seq<Prefix>)

  const EMPTY: Plan := Plan([], [])

  function ToWithdraw(advertised: set<Prefix>, target: set<Prefix>, n: Negotiated): set<Prefix> {
    set p | p in advertised && (p !in target || !Enabled(n, p.v6))
  }

  function ToAdd(advertised: set<Prefix>, target: set<Prefix>, n: Negotiated, replay: set<Prefix>): set<Prefix> {
    set p | p in target && Enabled(n, p.v6) && (p in replay || p !in advertised)
  }

  /** IPv4 before IPv6, so that batches of one family are as full as possible. */
  ghost predicate Grouped(q: seq<Prefix>) {
    forall i, j :: 0 <= i < j < |q| && q[i].v6 ==> q[j].v6
  }

  /** The queue holds exactly the elements of the set, each once, grouped by family. */
  ghost predicate Queues(q: seq<Prefix>, s: set<Prefix>) {
    multiset(q) == multiset(s) && Grouped(q)
  }

  /** The plan for a state of the writer; hash-set iteration leaves the order inside a family open. */
  ghost predicate PlanFor(plan: Plan, advertised: set<Prefix>, target: set<Prefix>, n: Negotiated,
                          replay: set<Prefix>)
  {
    && Queues(plan.withdrawals, ToWithdraw(advertised, target, n))
    && Queues(plan.additions, ToAdd(advertised, target, n, replay))
  }

  lemma QueueMembers(q: seq<Prefix>, s: set<Prefix>)
    requires multiset(q) == multiset(s)
    ensures forall p :: p in q <==> p in s
    ensures Elements(q) == s
    ensures q == [] <==> s == {}
  {
    assert forall p :: p in q <==> p in multiset(q);
    assert forall p :: p in s <==> p in multiset(s);
    if q == [] {
      assert forall p :: p !in multiset(q);
    }
  }

  lemma ListingExists(s: set<Prefix>) returns (q: seq<Prefix>)
    ensures multiset(q) == multiset(s)
  {
    if s == {} {
      q := [];
    } else {
      var p :| p in s;
      var rest := ListingExists(s - {p});
      q := [p] + rest;
      assert s == (s - {p}) + {p};
    }
  }

  /** Every state of the writer has a plan. */
  lemma PlanExists(advertised: set<Prefix>, target: set<Prefix>, n: Negotiated, replay: set<Prefix>)
    returns (plan: Plan)
    ensures PlanFor(plan, advertised, target, n, replay)
  {
    var out := QueueExists(ToWithdraw(advertised, target, n));
    var add := QueueExists(ToAdd(advertised, target, n, replay));
    plan := Plan(out, add);
  }

  lemma QueueExists(s: set<Prefix>) returns (q: seq<Prefix>)
    ensures Queues(q, s)
  {
    var v4, v6 := set p | p in s && !p.v6, set p | p in s && p.v6;
    var a := ListingExists(v4);
    var b := ListingExists(v6);
    QueueMembers(a, v4);
    QueueMembers(b, v6);
    q := a + b;
    assert s == v4 + v6;
    assert multiset(s) == multiset(v4) + multiset(v6);
    forall i, j | 0 <= i < j < |q|
      ensures q[i].v6 ==> q[j].v6
    {
      if i < |a| {
        assert a[i] in a;
      } else {
        assert b[j - |a|] in b;
      }
    }
  }

  // ---- One batch --------------------------------------------------------------------------

  /** How many leading prefixes of family `v6` there are, counting no further than `cap`. */
  function Leading(q: seq<Prefix>, v6: bool, cap: nat): (k: nat)
    ensures k <= |q| && k <= cap
    ensures forall i :: 0 <= i < k ==> q[i].v6 == v6
    ensures k < |q| && k < cap ==> q[k].v6 != v6
    decreases |q|
  {
    if cap == 0 || q == [] || q[0].v6 != v6 then 0 else 1 + Leading(q[1..], v6, cap - 1)
  }

  function BatchSize(q: seq<Prefix>): (k: nat)
    requires q != []
    ensures 1 <= k <= |q| && k <= MAX_UPDATE_PREFIXES
  {
    Leading(q, q[0].v6, MAX_UPDATE_PREFIXES)
  }

  /** The next batch, its direction, and the plan that remains. */
  function NextBatch(plan: Plan): (r: (bool, seq<Prefix>, Plan))
    requires plan != EMPTY
    ensures 0 < |r.1| <= MAX_UPDATE_PREFIXES
  {
    if plan.withdrawals != [] then
      var k := BatchSize(plan.withdrawals);
      (true, plan.withdrawals[..k], plan.(withdrawals := plan.withdrawals[k..]))
    else
      var k := BatchSize(plan.additions);
      (false, plan.additions[..k], plan.(additions := plan.additions[k..]))
  }

  lemma QueueSplit(q: seq<Prefix>, s: set<Prefix>, k: nat)
    requires Queues(q, s) && k <= |q|
    ensures Elements(q[..k]) <= s
    ensures Queues(q[k..], s - Elements(q[..k]))
  {
    var a, b := q[..k], q[k..];
    assert q == a + b;
    assert multiset(q) == multiset(a) + multiset(b);
    QueueMembers(q, s);
    var rest := s - Elements(a);
    forall p
      ensures multiset(b)[p] == multiset(rest)[p]
    {
      assert p in a <==> p in multiset(a);
      assert multiset(s)[p] <= 1;
    }
  }

  // ---- The program's queue -------------------------------------------------------------------

  method SortByFamily(queue: seq<Prefix>) returns (r: seq<Prefix>)
    ensures multiset(r) == multiset(queue) && Grouped(r)
  {
    var v4, v6: seq<Prefix> := [], [];
    for i := 0 to |queue|
      invariant multiset(v4) + multiset(v6) == multiset(queue[..i])
      invariant (forall p <- v4 :: !p.v6) && (forall p <- v6 :: p.v6)
    {
      assert queue[..i + 1] == queue[..i] + [queue[i]];
      if queue[i].v6 {
        v6 := v6 + [queue[i]];
      } else {
        v4 := v4 + [queue[i]];
      }
    }
    assert queue[..|queue|] == queue;
    r := v4 + v6;
  }

  /** The members of a set in some order, as iterating over a hash set yields them. */
  method Listing(s: set<Prefix>) returns (q: seq<Prefix>)
    ensures multiset(q) == multiset(s)
  {
    var left := s;
    q := [];
    while left != {}
      invariant left <= s && multiset(q) == multiset(s - left)
      decreases left
    {
      var p :| p in left;
      assert s - (left - {p}) == (s - left) + {p};
      left := left - {p};
      q := q + [p];
    }
    assert s - left == s;
  }

  lemma LeadingIs(q: seq<Prefix>, v6: bool, cap: nat, k: nat)
    requires k <= |q| && k <= cap
    requires forall i :: 0 <= i < k ==> q[i].v6 == v6
    requires k < |q| && k < cap ==> q[k].v6 != v6
    ensures Leading(q, v6, cap) == k
  {
  }

  /** The loop that pops prefixes of the front's family off a queue. */
  method PopBatch(all: seq<Prefix>) returns (batch: seq<Prefix>, rest: seq<Prefix>)
    requires all != []
    ensures batch == all[..BatchSize(all)] && rest == all[BatchSize(all)..]
  {
    var v6 := all[0].v6;
    batch, rest := [], all;
    while |batch| < MAX_UPDATE_PREFIXES && rest != [] && rest[0].v6 == v6
      invariant |batch| <= |all| && |batch| <= MAX_UPDATE_PREFIXES
      invariant batch == all[..|batch|] && rest == all[|batch|..]
      invariant forall i :: 0 <= i < |batch| ==> all[i].v6 == v6
      decreases |rest|
    {
      batch := batch + [rest[0]];
      rest := rest[1..];
    }
    LeadingIs(all, v6, MAX_UPDATE_PREFIXES, |batch|);
  }

  class Queue {
    var withdrawals: seq<Prefix>
    var additions: seq<Prefix>

    function Value(): Plan
      reads this
    {
      Plan(withdrawals, additions)
    }

    constructor (advertised: set<Prefix>, target: set<Prefix>, n: Negotiated, replay: set<Prefix>)
      ensures PlanFor(Value(), advertised, target, n, replay)
    {
      var out := Listing(set p | p in advertised && (p !in target || !Enabled(n, p.v6)));
      var add := Listing(set p | p in target && Enabled(n, p.v6) && (p in replay || p !in advertised));
      out := SortByFamily(out);
      add := SortByFamily(add);
      withdrawals, additions := out, add;
    }

    /** Pop the next batch: at most 200 prefixes of one family, withdrawals first. */
    method Next() returns (r: Option<(bool, seq<Prefix>)>)
      modifies this
      ensures r.None? <==> old(Value()) == EMPTY
      ensures r.None? ==> Value() == EMPTY
      ensures r.Some? ==> NextBatch(old(Value())) == (r.value.0, r.value.1, Value())
    {
      var withdraw := withdrawals != [];
      var queue := if withdraw then withdrawals else additions;
      if queue == [] {
        return None;
      }
      var batch, rest := PopBatch(queue);
      if withdraw {
        withdrawals := rest;
      } else {
        additions := rest;
      }
      return Some((withdraw, batch));
    }
  }

  // ---- Draining a plan -------------------------------------------------------------------------

  function Size(plan: Plan): nat {
    |plan.withdrawals| + |plan.additions|
  }

  /** All batches of a plan that nothing disturbs. */
  function Drain(plan: Plan): seq<(bool, seq<Prefix>)>
    decreases Size(plan)
  {
    if plan == EMPTY then []
    else
      var r := NextBatch(plan);
      [(r.0, r.1)] + Drain(r.2)
  }

  function Chop(q: seq<Prefix>): seq<seq<Prefix>> {
    if q == [] then [] else [q[..BatchSize(q)]] + Chop(q[BatchSize(q)..])
  }

  function Concat(batches: seq<seq<Prefix>>): seq<Prefix> {
    if batches == [] then [] else batches[0] + Concat(batches[1..])
  }

  function Tagged(withdraw: bool, batches: seq<seq<Prefix>>): (r: seq<(bool, seq<Prefix>)>)
    ensures |r| == |batches|
  {
    seq(|batches|, i requires 0 <= i < |batches| => (withdraw, batches[i]))
  }

  function Count(q: seq<Prefix>, v6: bool): nat {
    if q == [] then 0 else (if q[0].v6 == v6 then 1 else 0) + Count(q[1..], v6)
  }

  function BatchesFor(count: nat): nat {
    (count + 199) / 200
  }

  /** Batches needed for a queue: one count per family, rounded up. */
  function Needed(q: seq<Prefix>): nat {
    BatchesFor(Count(q, false)) + BatchesFor(Count(q, true))
  }

  ghost predicate OneFamily(b: seq<Prefix>) {
    forall i :: 0 <= i < |b| ==> b[i].v6 == b[0].v6
  }

  lemma {:induction false} CountSplit(a: seq<Prefix>, b: seq<Prefix>, v6: bool)
    ensures Count(a + b, v6) == Count(a, v6) + Count(b, v6)
  {
    if a == [] {
      assert a + b == b;
    } else {
      assert (a + b)[1..] == a[1..] + b;
      CountSplit(a[1..], b, v6);
    }
  }

  lemma {:induction false} CountUniform(q: seq<Prefix>, v6: bool)
    requires forall i :: 0 <= i < |q| ==> q[i].v6 == v6
    ensures Count(q, v6) == |q| && Count(q, !v6) == 0
  {
    if q != [] {
      CountUniform(q[1..], v6);
    }
  }

  /** In a grouped queue the first batch takes all it can of the leading family. */
  lemma BatchTakes(q: seq<Prefix>)
    requires q != [] && Grouped(q)
    ensures var k, v6 := BatchSize(q), q[0].v6;
            && Count(q[k..], v6) == Count(q, v6) - k && Count(q[k..], !v6) == Count(q, !v6)
            && (k == MAX_UPDATE_PREFIXES || Count(q, v6) == k)
  {
    var k, v6 := BatchSize(q), q[0].v6;
    assert q == q[..k] + q[k..];
    CountSplit(q[..k], q[k..], v6);
    CountSplit(q[..k], q[k..], !v6);
    CountUniform(q[..k], v6);
    if k < MAX_UPDATE_PREFIXES && k < |q| {
      assert forall i :: k <= i < |q| ==> q[i].v6 == !v6;
      CountUniform(q[k..], !v6);
    } else if k == |q| {
      assert q[k..] == [];
    }
  }

  lemma NeededStep(q: seq<Prefix>)
    requires q != [] && Grouped(q)
    ensures Needed(q) == 1 + Needed(q[BatchSize(q)..])
  {
    var k, v6 := BatchSize(q), q[0].v6;
    BatchTakes(q);
    var c := Count(q, v6);
    assert BatchesFor(c) == 1 + BatchesFor(c - k) by {
      if k == MAX_UPDATE_PREFIXES {
        assert c - k >= 0;
      }
    }
  }

  lemma ConcatStep(b: seq<Prefix>, rest: seq<seq<Prefix>>)
    ensures Concat([b] + rest) == b + Concat(rest)
  {
    assert ([b] + rest)[1..] == rest;
  }

  lemma Rejoin(q: seq<Prefix>, k: nat)
    requires k <= |q|
    ensures q[..k] + q[k..] == q
  {
  }

  lemma {:induction false} ConcatOfChop(q: seq<Prefix>)
    ensures Concat(Chop(q)) == q
    decreases |q|
  {
    if q != [] {
      var k := BatchSize(q);
      ConcatOfChop(q[k..]);
      ConcatStep(q[..k], Chop(q[k..]));
      Rejoin(q, k);
    }
  }

  ghost predicate Sendable(b: seq<Prefix>) {
    0 < |b| <= 200 && OneFamily(b)
  }

  lemma FirstBatchSendable(q: seq<Prefix>)
    requires q != []
    ensures Sendable(q[..BatchSize(q)])
  {
  }

  lemma {:induction false} ChopSendable(q: seq<Prefix>)
    ensures forall b <- Chop(q) :: Sendable(b)
    decreases |q|
  {
    if q != [] {
      FirstBatchSendable(q);
      ChopSendable(q[BatchSize(q)..]);
    }
  }

  lemma {:induction false} ChopCount(q: seq<Prefix>)
    requires Grouped(q)
    ensures |Chop(q)| == Needed(q)
    decreases |q|
  {
    if q != [] {
      ChopCount(q[BatchSize(q)..]);
      NeededStep(q);
    }
  }

  /** Cutting a queue loses, repeats and reorders nothing, and uses exactly the batches needed. */
  lemma ChopMeans(q: seq<Prefix>)
    requires Grouped(q)
    ensures Concat(Chop(q)) == q
    ensures forall b <- Chop(q) :: Sendable(b)
    ensures |Chop(q)| == Needed(q)
  {
    ConcatOfChop(q);
    ChopSendable(q);
    ChopCount(q);
  }

  lemma TaggedStep(withdraw: bool, b: seq<Prefix>, rest: seq<seq<Prefix>>)
    ensures Tagged(withdraw, [b] + rest) == [(withdraw, b)] + Tagged(withdraw, rest)
  {
  }

  /** Draining a plan sends every withdrawal before any addition, each queue cut as above. */
  lemma {:induction false} DrainMeans(plan: Plan)
    requires Grouped(plan.withdrawals) && Grouped(plan.additions)
    ensures Drain(plan) == Tagged(true, Chop(plan.withdrawals)) + Tagged(false, Chop(plan.additions))
    ensures |Drain(plan)| == Needed(plan.withdrawals) + Needed(plan.additions)
    decreases Size(plan)
  {
    ChopMeans(plan.withdrawals);
    ChopMeans(plan.additions);
    if plan != EMPTY {
      var r := NextBatch(plan);
      DrainMeans(r.2);
      if r.0 {
        TaggedStep(true, r.1, Chop(r.2.withdrawals));
        Associative([(true, r.1)], Tagged(true, Chop(r.2.withdrawals)), Tagged(false, Chop(plan.additions)));
      } else {
        TaggedStep(false, r.1, Chop(r.2.additions));
        assert Tagged(true, Chop([])) == [];
        EmptyUnit(Drain(plan));
        EmptyUnit(Tagged(false, Chop(r.2.additions)));
      }
    }
  }

  function CountAll(batches: seq<seq<Prefix>>, v6: bool): nat {
    if batches == [] then 0 else Count(batches[0], v6) + CountAll(batches[1..], v6)
  }

  function BatchesOf(batches: seq<seq<Prefix>>, v6: bool): nat {
    if batches == [] then 0
    else (if batches[0] != [] && batches[0][0].v6 == v6 then 1 else 0) + BatchesOf(batches[1..], v6)
  }

  lemma {:induction false} CapacityBound(batches: seq<seq<Prefix>>, v6: bool)
    requires forall b <- batches :: |b| <= 200 && OneFamily(b)
    ensures CountAll(batches, v6) <= 200 * BatchesOf(batches, v6)
    ensures BatchesOf(batches, false) + BatchesOf(batches, true) <= |batches|
  {
    if batches != [] {
      CapacityBound(batches[1..], v6);
      var b := batches[0];
      assert b in batches;
      if b != [] {
        CountUniform(b, b[0].v6);
      }
    }
  }

  /** No other way of sending at least as many prefixes of each family in such batches uses fewer. */
  lemma BatchingIsOptimal(q: seq<Prefix>, batches: seq<seq<Prefix>>)
    requires Grouped(q)
    requires forall b <- batches :: |b| <= 200 && OneFamily(b)
    requires forall v6 :: CountAll(batches, v6) >= Count(q, v6)
    ensures |Chop(q)| <= |batches|
  {
    ChopMeans(q);
    CapacityBound(batches, false);
    CapacityBound(batches, true);
    assert CountAll(batches, false) >= Count(q, false) && CountAll(batches, true) >= Count(q, true);
    assert BatchesFor(Count(q, false)) <= BatchesOf(batches, false);
    assert BatchesFor(Count(q, true)) <= BatchesOf(batches, true);
  }
}
