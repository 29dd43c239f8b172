/** The primal-dual facility-location solver: the moment at which the waiting clients have
    paid for a base, and what the event loop makes of it. */
module PrimalDual {
  import opened Sums
  import opened Sequences

  /** n tensors; `finite(i, j)` says that tensor i can be stored against base j, at `cost(i, j)`. */
  datatype Instance = Instance(n: nat, finite: (int, int) -> bool, cost: (int, int) -> real, open: int -> real)

  ghost predicate Sound(p: Instance) {
    && (forall i, j | 0 <= i < p.n && 0 <= j < p.n && p.finite(i, j) :: 0.0 <= p.cost(i, j))
    && (forall j | 0 <= j < p.n :: p.finite(j, j) && p.cost(j, j) == 0.0 && 0.0 < p.open(j))
  }

  datatype Event = NoEvent | Event(time: real, clients: seq<nat>)

  // ---- payments

  /** The waiting clients in reach of base `b`. */
  ghost predicate Reaches(p: Instance, b: nat, waiting: set<nat>, i: int) {
    0 <= i < p.n && i in waiting && p.finite(i, b)
  }

  /** What client `i` has paid towards base `b` at time `t`. */
  ghost function Paid(p: Instance, b: nat, waiting: set<nat>, t: real): int -> real {
    i => if Reaches(p, b, waiting, i) && p.cost(i, b) < t then t - p.cost(i, b) else 0.0
  }

  ghost function PaidTotal(p: Instance, b: nat, waiting: set<nat>, t: real): real {
    Sum(Paid(p, b, waiting, t), p.n)
  }

  ghost function Costs(p: Instance, b: nat, q: seq<nat>): real {
    if q == [] then 0.0 else Costs(p, b, q[..|q| - 1]) + p.cost(q[|q| - 1], b)
  }

  ghost function Share(p: Instance, b: nat, s: set<nat>, t: real): int -> real {
    i => if i >= 0 && i in s then t - p.cost(i, b) else 0.0
  }

  ghost function Scaled(n: nat, t: real): real {
    n as real * t
  }

  lemma NoShare(p: Instance, b: nat, t: real)
    ensures Sum(Share(p, b, SetOf([]), t), p.n) == 0.0
  {
    SumSame(Share(p, b, SetOf([]), t), i => 0.0, p.n);
    SumZero(p.n);
  }

  lemma ShareSnoc(p: Instance, b: nat, r: seq<nat>, last: nat, t: real)
    requires last < p.n && last !in r
    ensures Sum(Share(p, b, SetOf(r + [last]), t), p.n) == Sum(Share(p, b, SetOf(r), t), p.n) + t - p.cost(last, b)
  {
    SetOfSnoc(r, last);
    SumChange(Share(p, b, SetOf(r), t), Share(p, b, SetOf(r + [last]), t), p.n, last);
  }

  lemma OneMore(n: nat, t: real)
    ensures Scaled(0, t) == 0.0
    ensures Scaled(n + 1, t) == Scaled(n, t) + t
  {
  }

  lemma {:induction false} ShareScaled(p: Instance, b: nat, q: seq<nat>, t: real)
    requires Distinct(q) && forall i | i in q :: i < p.n
    ensures Sum(Share(p, b, SetOf(q), t), p.n) == Scaled(|q|, t) - Costs(p, b, q)
  {
    OneMore(0, t);
    hide Distinct, SetOf, Sum, Share, Scaled;
    if q == [] {
      NoShare(p, b, t);
    } else {
      var r, last := q[..|q| - 1], q[|q| - 1];
      DistinctSplit(q);
      assert last in q && forall i | i in r :: i in q;
      ShareScaled(p, b, r, t);
      ShareSnoc(p, b, r, last, t);
      OneMore(|r|, t);
    }
  }

  /** The shares of a group of clients are its number times `t` minus its costs. */
  lemma ShareTotal(p: Instance, b: nat, q: seq<nat>, t: real)
    requires Distinct(q) && forall i | i in q :: i < p.n
    ensures Sum(Share(p, b, SetOf(q), t), p.n) == |q| as real * t - Costs(p, b, q)
  {
    ShareScaled(p, b, q, t);
    hide Sum, Share, Costs, Distinct, SetOf;
  }

  /** Base `b` is exactly paid for at `time`, by the clients that pay anything. */
  ghost predicate IsEvent(p: Instance, b: nat, waiting: set<nat>, time: real, clients: seq<nat>) {
    && PaidTotal(p, b, waiting, time) == p.open(b)
    && Distinct(clients)
    && (forall i :: i in clients <==> Reaches(p, b, waiting, i) && p.cost(i, b) < time)
    && |clients| as real * time == p.open(b) + Costs(p, b, clients)
  }

  /** No group of waiting clients could share the base and its costs at a lower price each:
      the event time is the least average over all groups. */
  lemma EventIsCheapestShare(p: Instance, b: nat, waiting: set<nat>, time: real, clients: seq<nat>, group: seq<nat>)
    requires IsEvent(p, b, waiting, time, clients)
    requires Distinct(group) && forall i | i in group :: Reaches(p, b, waiting, i)
    ensures |group| as real * time <= p.open(b) + Costs(p, b, group)
  {
    ShareTotal(p, b, group, time);
    SumAtMost(Share(p, b, SetOf(group), time), Paid(p, b, waiting, time), p.n);
  }

  lemma SomePays(p: Instance, b: nat, waiting: set<nat>, t: real) returns (i: nat)
    requires PaidTotal(p, b, waiting, t) > 0.0
    ensures i < p.n && Reaches(p, b, waiting, i) && p.cost(i, b) < t
  {
    if forall j | 0 <= j < p.n :: Paid(p, b, waiting, t)(j) == 0.0 {
      SumSame(Paid(p, b, waiting, t), j => 0.0, p.n);
      SumZero(p.n);
      assert false;
    }
    i :| 0 <= i < p.n && Paid(p, b, waiting, t)(i) != 0.0;
  }

  /** With fewer clients waiting, a base is paid for no earlier. */
  lemma EventsOnlyLater(p: Instance, b: nat, waiting: set<nat>, fewer: set<nat>, t: real, t': real)
    requires p.open(b) > 0.0 && fewer <= waiting
    requires PaidTotal(p, b, waiting, t) == p.open(b) && PaidTotal(p, b, fewer, t') >= p.open(b)
    ensures t <= t'
  {
    if t' < t {
      var i := SomePays(p, b, fewer, t');
      var f, g := Paid(p, b, fewer, t'), Paid(p, b, waiting, t);
      var h: int -> real := j => g(j) - f(j);
      SumPlus(f, h, g, p.n);
      forall j | 0 <= j < p.n ensures h(j) >= 0.0 {
        assert Reaches(p, b, fewer, j) ==> Reaches(p, b, waiting, j);
      }
      SumTermAtMost(h, p.n, i);
    }
  }

  // ---- the sorted edges of a base

  /** The clients that can reach `b`, each once, by increasing cost. */
  ghost predicate IsEdges(p: Instance, b: nat, edges: seq<(real, nat)>) {
    && (forall k | 0 <= k < |edges| ::
      edges[k].1 < p.n && p.finite(edges[k].1, b) && edges[k].0 == p.cost(edges[k].1, b))
    && (forall k, m | 0 <= k < m < |edges| :: edges[k].0 <= edges[m].0 && edges[k].1 != edges[m].1)
    && (forall i | 0 <= i < p.n && p.finite(i, b) :: exists k | 0 <= k < |edges| :: edges[k].1 == i)
  }

  function Before(e: (real, nat), f: (real, nat)): bool {
    e.0 < f.0 || (e.0 == f.0 && e.1 <= f.1)
  }

  ghost predicate Rising(edges: seq<(real, nat)>) {
    forall k, m | 0 <= k < m < |edges| :: edges[k].0 <= edges[m].0 && edges[k].1 != edges[m].1
  }

  /** The edges from the clients before `n`, each once, by increasing cost. */
  ghost predicate EdgesBefore(p: Instance, b: nat, edges: seq<(real, nat)>, n: nat) {
    && (forall k | 0 <= k < |edges| :: edges[k].1 < n && p.finite(edges[k].1, b) && edges[k].0 == p.cost(edges[k].1, b))
    && Rising(edges)
    && (forall i | 0 <= i < n && p.finite(i, b) :: exists k | 0 <= k < |edges| :: edges[k].1 == i)
  }

  lemma InsertedRises(was: seq<(real, nat)>, at: nat, e: (real, nat))
    requires at <= |was| && (at < |was| ==> !Before(was[at], e)) && Rising(was)
    requires forall k | 0 <= k < at :: was[k].0 <= e.0
    requires forall k | 0 <= k < |was| :: was[k].1 != e.1
    ensures Rising(was[..at] + [e] + was[at..])
  {
    var r := was[..at] + [e] + was[at..];
    forall k, m | 0 <= k < m < |r| ensures r[k].0 <= r[m].0 && r[k].1 != r[m].1 {
      assert k < at ==> r[k] == was[k];
      assert k > at ==> r[k] == was[k - 1];
      assert m < at ==> r[m] == was[m];
      assert m > at ==> r[m] == was[m - 1];
      assert at < m ==> was[at].0 <= was[m - 1].0;
    }
  }

  lemma InsertedEdge(p: Instance, b: nat, was: seq<(real, nat)>, i: nat, at: nat, r: seq<(real, nat)>)
    requires EdgesBefore(p, b, was, i) && p.finite(i, b) && at <= |was|
    requires r == was[..at] + [(p.cost(i, b), i)] + was[at..] && Rising(r)
    ensures EdgesBefore(p, b, r, i + 1)
  {
    hide Rising;
    forall k | 0 <= k < |r| ensures r[k].1 < i + 1 && p.finite(r[k].1, b) && r[k].0 == p.cost(r[k].1, b) {
      assert k < at ==> r[k] == was[k];
      assert k > at ==> r[k] == was[k - 1];
    }
    forall j | 0 <= j < i + 1 && p.finite(j, b) ensures exists k | 0 <= k < |r| :: r[k].1 == j {
      if j == i {
        assert r[at].1 == j;
      } else {
        var k :| 0 <= k < |was| && was[k].1 == j;
        assert r[if k < at then k else k + 1].1 == j;
      }
    }
  }

  method InsertEdge(p: Instance, b: nat, edges: seq<(real, nat)>, i: nat) returns (r: seq<(real, nat)>)
    requires EdgesBefore(p, b, edges, i) && p.finite(i, b)
    ensures EdgesBefore(p, b, r, i + 1)
  {
    var e := (p.cost(i, b), i);
    var at := 0;
    while at < |edges| && Before(edges[at], e)
      invariant at <= |edges| && forall k | 0 <= k < at :: edges[k].0 <= e.0
    {
      at := at + 1;
    }
    r := edges[..at] + [e] + edges[at..];
    InsertedRises(edges, at, e);
    InsertedEdge(p, b, edges, i, at, r);
  }

  /** `sort` by cost and index, one edge at a time. */
  method SortedEdges(p: Instance, b: nat) returns (edges: seq<(real, nat)>)
    ensures IsEdges(p, b, edges)
  {
    edges := [];
    for i := 0 to p.n
      invariant EdgesBefore(p, b, edges, i)
    {
      if p.finite(i, b) {
        edges := InsertEdge(p, b, edges, i);
      }
    }
  }

  // ---- compute_event

  /** The waiting clients on the first `pos` edges, in that order, and what they cost. */
  ghost predicate Gathered(p: Instance, b: nat, edges: seq<(real, nat)>, waiting: set<nat>, pos: nat,
                           clients: seq<nat>, sum: real)
    requires pos <= |edges|
  {
    && Distinct(clients) && sum == Costs(p, b, clients)
    && (forall i :: i in clients <==> i in waiting && exists k | 0 <= k < pos :: edges[k].1 == i)
  }

  /** After scanning `pos` edges without an event, the next waiting client, on edge `next`,
      costs less than an equal share of the base among those before it. */
  ghost predicate TooCheap(p: Instance, b: nat, edges: seq<(real, nat)>, waiting: set<nat>, pos: nat,
                           clients: seq<nat>, sum: real, next: nat)
  {
    && pos <= next < |edges| && edges[next].1 in waiting
    && (forall k | pos <= k < next :: edges[k].1 !in waiting)
    && p.open(b) + sum > |clients| as real * edges[next].0
  }

  /** The cost of the next waiting client from edge `pos` on. */
  method NextCost(edges: seq<(real, nat)>, waiting: set<nat>, pos: nat) returns (next: nat)
    requires pos <= |edges|
    ensures pos <= next <= |edges|
    ensures forall k | pos <= k < next :: edges[k].1 !in waiting
    ensures next < |edges| ==> edges[next].1 in waiting
  {
    next := pos;
    while next < |edges| && edges[next].1 !in waiting
      invariant pos <= next <= |edges|
      invariant forall k | pos <= k < next :: edges[k].1 !in waiting
    {
      next := next + 1;
    }
  }

  lemma GatherOne(p: Instance, b: nat, edges: seq<(real, nat)>, waiting: set<nat>, pos: nat, clients: seq<nat>,
                  sum: real)
    requires IsEdges(p, b, edges) && pos < |edges| && Gathered(p, b, edges, waiting, pos, clients, sum)
    ensures edges[pos].1 in waiting ==>
      Gathered(p, b, edges, waiting, pos + 1, clients + [edges[pos].1], sum + edges[pos].0)
    ensures edges[pos].1 !in waiting ==> Gathered(p, b, edges, waiting, pos + 1, clients, sum)
  {
    var c := edges[pos].1;
    assert c !in clients;
    forall i
      ensures i in clients || i == c <==> (i in waiting || i == c) && exists k | 0 <= k < pos + 1 :: edges[k].1 == i
    {
      if i in clients {
        var k :| 0 <= k < pos && edges[k].1 == i;
        assert 0 <= k < pos + 1;
      }
      if k :| 0 <= k < pos + 1 && edges[k].1 == i && i in waiting && i != c {
        assert 0 <= k < pos;
      }
      assert 0 <= pos < pos + 1;
    }
    var more := clients + [c];
    assert more[..|more| - 1] == clients;
    assert forall i :: i in more <==> i in clients || i == c;
  }

  /** Scanning to the next waiting client that costs no less than `time`, all cheaper ones
      are gathered. */
  lemma GatheredAreCheaper(p: Instance, b: nat, edges: seq<(real, nat)>, waiting: set<nat>, pos: nat,
                           clients: seq<nat>, sum: real, next: nat, time: real, i: int)
    requires IsEdges(p, b, edges) && 0 < pos <= next <= |edges| && Gathered(p, b, edges, waiting, pos, clients, sum)
    requires forall k | pos <= k < next :: edges[k].1 !in waiting
    requires edges[pos - 1].0 < time && (next < |edges| ==> time <= edges[next].0)
    ensures i in clients <==> Reaches(p, b, waiting, i) && p.cost(i, b) < time
  {
    assert next < |edges| ==> forall k | next <= k < |edges| :: edges[next].0 <= edges[k].0;
    if i in clients {
      var k :| 0 <= k < pos && edges[k].1 == i;
      assert edges[k].0 <= edges[pos - 1].0;
    }
    if Reaches(p, b, waiting, i) && p.cost(i, b) < time {
      var k :| 0 <= k < |edges| && edges[k].1 == i;
    }
  }

  ghost predicate Pays(count: nat, share: real, total: real) {
    count as real * share == total
  }

  /** A time no earlier than the last gathered cost, no later than the next one, at which the
      gathered clients have paid: that is the event. */
  lemma GatheredIsEvent(p: Instance, b: nat, edges: seq<(real, nat)>, waiting: set<nat>, pos: nat,
                        clients: seq<nat>, sum: real, next: nat, time: real)
    requires IsEdges(p, b, edges) && 0 < pos <= next <= |edges| && Gathered(p, b, edges, waiting, pos, clients, sum)
    requires forall k | pos <= k < next :: edges[k].1 !in waiting
    requires edges[pos - 1].0 < time && (next < |edges| ==> time <= edges[next].0)
    requires Pays(|clients|, time, p.open(b) + sum)
    ensures IsEvent(p, b, waiting, time, clients)
  {
    forall i ensures i in clients <==> Reaches(p, b, waiting, i) && p.cost(i, b) < time {
      GatheredAreCheaper(p, b, edges, waiting, pos, clients, sum, next, time, i);
    }
    hide IsEdges;
    ShareTotal(p, b, clients, time);
    SumSame(Share(p, b, SetOf(clients), time), Paid(p, b, waiting, time), p.n);
  }

  lemma ScaledAtMost(n: real, a: real, b: real)
    requires n >= 0.0 && a <= b
    ensures n * a <= n * b
  {
  }

  function EqualShare(total: real, count: nat): real
    requires count > 0
  {
    total / count as real
  }

  lemma ShareTimesCount(total: real, count: nat, cost: real)
    requires count > 0
    ensures count as real * EqualShare(total, count) == total
    ensures EqualShare(total, count) > cost <==> total > count as real * cost
  {
    var n, share := count as real, EqualShare(total, count);
    assert n * share == total;
    if share > cost {
      assert n * (share - cost) > 0.0;
    } else {
      ScaledAtMost(n, share, cost);
    }
  }

  lemma SharePays(total: real, count: nat)
    requires count > 0
    ensures Pays(count, EqualShare(total, count), total)
  {
    ShareTimesCount(total, count, 0.0);
  }

  /** One more waiting client: since those before it would have waited past its cost, the new
      equal share lies beyond that cost. */
  lemma ShareBeyondCost(p: Instance, b: nat, edges: seq<(real, nat)>, waiting: set<nat>, pos: nat,
                        clients: seq<nat>, sum: real, next: nat)
    requires p.open(b) > 0.0 && pos < |edges| && edges[pos].1 in waiting
    requires if clients == [] then sum == 0.0 else TooCheap(p, b, edges, waiting, pos, clients, sum, next)
    ensures EqualShare(p.open(b) + (sum + edges[pos].0), |clients| + 1) > edges[pos].0
  {
    var cost, n := edges[pos].0, |clients|;
    assert clients != [] ==> next == pos;
    assert (n + 1) as real * cost == n as real * cost + cost;
    ShareTimesCount(p.open(b) + (sum + cost), n + 1, cost);
  }

  lemma StillTooCheap(p: Instance, b: nat, edges: seq<(real, nat)>, waiting: set<nat>, pos: nat,
                      clients: seq<nat>, sum: real, next: nat)
    requires pos < |edges| && edges[pos].1 !in waiting && TooCheap(p, b, edges, waiting, pos, clients, sum, next)
    ensures TooCheap(p, b, edges, waiting, pos + 1, clients, sum, next)
  {
  }

  lemma NowTooCheap(p: Instance, b: nat, edges: seq<(real, nat)>, waiting: set<nat>, pos: nat,
                    clients: seq<nat>, sum: real, next: nat)
    requires clients != [] && pos <= next < |edges| && edges[next].1 in waiting
    requires forall k | pos <= k < next :: edges[k].1 !in waiting
    requires EqualShare(p.open(b) + sum, |clients|) > edges[next].0
    ensures TooCheap(p, b, edges, waiting, pos, clients, sum, next)
  {
    ShareTimesCount(p.open(b) + sum, |clients|, edges[next].0);
  }

  function Greater(x: real, y: real): real {
    if x < y then y else x
  }

  /** The clients on the first `pos + 1` edges are gathered, the last of them waiting: either
      an equal share comes due before the next waiting client would join, or it does not. */
  method Offer(p: Instance, b: nat, edges: seq<(real, nat)>, waiting: set<nat>, pos: nat, clients: seq<nat>, sum: real)
    returns (found: bool, time: real, next: nat)
    requires IsEdges(p, b, edges) && pos < |edges| && clients != []
    requires Gathered(p, b, edges, waiting, pos + 1, clients, sum)
    requires EqualShare(p.open(b) + sum, |clients|) > edges[pos].0
    ensures found ==> IsEvent(p, b, waiting, time, clients)
    ensures !found ==> TooCheap(p, b, edges, waiting, pos + 1, clients, sum, next)
  {
    hide IsEdges, Gathered, IsEvent, TooCheap, EqualShare, Pays;
    var required := EqualShare(p.open(b) + sum, |clients|);
    time := Greater(required, edges[pos].0);
    next := NextCost(edges, waiting, pos + 1);
    found := next == |edges| || time <= edges[next].0;
    if found {
      SharePays(p.open(b) + sum, |clients|);
      GatheredIsEvent(p, b, edges, waiting, pos + 1, clients, sum, next, time);
    } else {
      NowTooCheap(p, b, edges, waiting, pos + 1, clients, sum, next);
    }
  }

  /** The state of the scan. */
  ghost predicate Scanned(p: Instance, b: nat, edges: seq<(real, nat)>, waiting: set<nat>, pos: nat, clients: seq<nat>,
                          sum: real,
                          next: nat)
    requires pos <= |edges|
  {
    && Gathered(p, b, edges, waiting, pos, clients, sum)
    && if clients == [] then sum == 0.0 else TooCheap(p, b, edges, waiting, pos, clients, sum, next)
  }

  lemma StartScan(p: Instance, b: nat, edges: seq<(real, nat)>, waiting: set<nat>)
    ensures Scanned(p, b, edges, waiting, 0, [], 0.0, 0)
  {
  }

  lemma NotPastEnd(p: Instance, b: nat, edges: seq<(real, nat)>, waiting: set<nat>, clients: seq<nat>, sum: real,
                   next: nat)
    ensures !TooCheap(p, b, edges, waiting, |edges|, clients, sum, next)
  {
  }

  lemma HasClient(p: Instance, b: nat, edges: seq<(real, nat)>, waiting: set<nat>, pos: nat)
    requires IsEdges(p, b, edges) && pos < |edges| && edges[pos].1 in waiting
    ensures exists j :: Reaches(p, b, waiting, j)
  {
    assert Reaches(p, b, waiting, edges[pos].1);
  }

  lemma NoneReaches(p: Instance, b: nat, edges: seq<(real, nat)>, waiting: set<nat>, clients: seq<nat>, sum: real)
    requires IsEdges(p, b, edges) && Gathered(p, b, edges, waiting, |edges|, clients, sum) && clients == []
    ensures forall i :: !Reaches(p, b, waiting, i)
  {
  }

  lemma OpenPositive(p: Instance, b: nat)
    requires Sound(p) && b < p.n
    ensures p.open(b) > 0.0
  {
  }

  /** The scan for the first moment at which `b` is paid for. */
  method ComputeEvent(p: Instance, b: nat, edges: seq<(real, nat)>, waiting: set<nat>) returns (event: Event)
    requires Sound(p) && b < p.n && IsEdges(p, b, edges)
    ensures event.Event? ==> IsEvent(p, b, waiting, event.time, event.clients)
    ensures event.NoEvent? <==> forall i :: !Reaches(p, b, waiting, i)
  {
    OpenPositive(p, b);
    hide Sound, IsEdges, Gathered, IsEvent, Reaches, TooCheap, EqualShare, Distinct;
    var clients, sum := [], 0.0;
    var next := 0;
    StartScan(p, b, edges, waiting);
    for pos := 0 to |edges|
      invariant Scanned(p, b, edges, waiting, pos, clients, sum, next)
    {
      var (cost, client) := edges[pos];
      GatherOne(p, b, edges, waiting, pos, clients, sum);
      if client in waiting {
        ShareBeyondCost(p, b, edges, waiting, pos, clients, sum, next);
        clients, sum := clients + [client], sum + cost;
        var found, time;
        found, time, next := Offer(p, b, edges, waiting, pos, clients, sum);
        if found {
          HasClient(p, b, edges, waiting, pos);
          return Event(time, clients);
        }
      } else if clients != [] {
        StillTooCheap(p, b, edges, waiting, pos, clients, sum, next);
      }
    }
    NotPastEnd(p, b, edges, waiting, clients, sum, next);
    NoneReaches(p, b, edges, waiting, clients, sum);
    return NoEvent;
  }

  // ---- the event loop

  /** What connecting the clients of `served` costs under `assignment`. */
  ghost function ConnectShare(p: Instance, assignment: seq<int>, served: set<nat>): int -> real {
    i => if 0 <= i < |assignment| && i in served then p.cost(i, assignment[i]) else 0.0
  }

  /** The times at which clients were served. */
  ghost function TimeShare(at: map<nat, real>): int -> real {
    i => if i >= 0 && i in at then at[i] else 0.0
  }

  /** `b` has not been paid for before time `t`. */
  ghost predicate NotBefore(p: Instance, b: nat, waiting: set<nat>, t: real) {
    forall s :: PaidTotal(p, b, waiting, s) >= p.open(b) ==> t <= s
  }

  lemma EventIsFirst(p: Instance, b: nat, waiting: set<nat>, time: real, clients: seq<nat>)
    requires p.open(b) > 0.0 && IsEvent(p, b, waiting, time, clients)
    ensures NotBefore(p, b, waiting, time)
  {
    forall s | PaidTotal(p, b, waiting, s) >= p.open(b) ensures time <= s {
      EventsOnlyLater(p, b, waiting, waiting, time, s);
    }
  }

  lemma UnreachedIsNever(p: Instance, b: nat, waiting: set<nat>, t: real)
    requires p.open(b) > 0.0 && forall i :: !Reaches(p, b, waiting, i)
    ensures NotBefore(p, b, waiting, t)
  {
    forall s ensures PaidTotal(p, b, waiting, s) == 0.0 {
      SumSame(Paid(p, b, waiting, s), i => 0.0, p.n);
      SumZero(p.n);
    }
  }

  lemma NotBeforeFewer(p: Instance, b: nat, waiting: set<nat>, fewer: set<nat>, t: real)
    requires NotBefore(p, b, waiting, t) && fewer <= waiting
    ensures NotBefore(p, b, fewer, t)
  {
    forall s | PaidTotal(p, b, fewer, s) >= p.open(b) ensures t <= s {
      forall i | 0 <= i < p.n ensures Paid(p, b, fewer, s)(i) <= Paid(p, b, waiting, s)(i) {
        assert Reaches(p, b, fewer, i) ==> Reaches(p, b, waiting, i);
      }
      SumAtMost(Paid(p, b, fewer, s), Paid(p, b, waiting, s), p.n);
      assert PaidTotal(p, b, waiting, s) >= p.open(b);
    }
  }

  /** A waiting client alone can pay for its own base at the price of that base. */
  lemma OwnBaseInTime(p: Instance, i: nat, waiting: set<nat>, t: real)
    requires Sound(p) && i < p.n && i in waiting && NotBefore(p, i, waiting, t)
    ensures t <= p.open(i)
  {
    assert Reaches(p, i, waiting, i);
    SumTermAtMost(Paid(p, i, waiting, p.open(i)), p.n, i);
    assert PaidTotal(p, i, waiting, p.open(i)) >= p.open(i);
  }

  ghost predicate HasEdges(p: Instance, bases: seq<nat>, edges: map<nat, seq<(real, nat)>>) {
    forall b | b in bases :: b < p.n && b in edges && IsEdges(p, b, edges[b])
  }

  lemma NotBeforeEarlier(p: Instance, b: nat, waiting: set<nat>, t: real, earlier: real)
    requires NotBefore(p, b, waiting, t) && earlier <= t
    ensures NotBefore(p, b, waiting, earlier)
  {
  }

  /** The earliest event of the remaining bases, the first such base on ties. */
  method EarliestEvent(p: Instance, remaining: seq<nat>, edges: map<nat, seq<(real, nat)>>, waiting: set<nat>)
    returns (best: Event, base: nat)
    requires Sound(p) && HasEdges(p, remaining, edges)
    ensures best.Event? ==> base in remaining && IsEvent(p, base, waiting, best.time, best.clients)
    ensures best.Event? ==> forall b | b in remaining :: NotBefore(p, b, waiting, best.time)
    ensures best.NoEvent? ==> forall b, i | b in remaining :: !Reaches(p, b, waiting, i)
  {
    hide Sound, NotBefore, IsEvent, IsEdges, Reaches;
    best, base := NoEvent, 0;
    for k := 0 to |remaining|
      invariant best.Event? ==> base in remaining && IsEvent(p, base, waiting, best.time, best.clients)
      invariant best.Event? ==> forall j | 0 <= j < k :: NotBefore(p, remaining[j], waiting, best.time)
      invariant best.NoEvent? ==> forall j, i | 0 <= j < k :: !Reaches(p, remaining[j], waiting, i)
    {
      var b := remaining[k];
      var event := ComputeEvent(p, b, edges[b], waiting);
      OpenPositive(p, b);
      if event.Event? && (best.NoEvent? || event.time < best.time) {
        EventIsFirst(p, b, waiting, event.time, event.clients);
        forall j | 0 <= j < k ensures NotBefore(p, remaining[j], waiting, event.time) {
          assert remaining[j] in remaining;
          OpenPositive(p, remaining[j]);
          if best.NoEvent? {
            UnreachedIsNever(p, remaining[j], waiting, event.time);
          } else {
            NotBeforeEarlier(p, remaining[j], waiting, best.time, event.time);
          }
        }
        best, base := event, b;
      } else if event.Event? {
        EventIsFirst(p, b, waiting, event.time, event.clients);
        NotBeforeEarlier(p, b, waiting, event.time, best.time);
      } else if best.Event? {
        UnreachedIsNever(p, b, waiting, best.time);
      }
    }
    assert forall b | b in remaining :: exists j :: 0 <= j < |remaining| && remaining[j] == b;
  }

  /** Only the clients `q` have moved: they are served from `base` since `time`. */
  ghost predicate Moved(p: Instance, base: nat, time: real, q: seq<nat>, waiting: set<nat>, left: set<nat>,
                        was: seq<int>, now: seq<int>, had: map<nat, real>, at: map<nat, real>)
  {
    && |was| == |now| == p.n
    && left == waiting - SetOf(q)
    && at.Keys == had.Keys + SetOf(q)
    && (forall i | i in at :: at[i] == if i in q then time else had[i])
    && (forall i | 0 <= i < p.n :: now[i] == if i in q then base else was[i])
  }

  ghost predicate Charged(p: Instance, base: nat, time: real, q: seq<nat>,
                          was: seq<int>, now: seq<int>, had: map<nat, real>, at: map<nat, real>)
  {
    && Sum(ConnectShare(p, now, at.Keys), p.n) == Sum(ConnectShare(p, was, had.Keys), p.n) + Costs(p, base, q)
    && Sum(TimeShare(at), p.n) == Sum(TimeShare(had), p.n) + |q| as real * time
  }

  lemma MovedStep(p: Instance, base: nat, time: real, q: seq<nat>, waiting: set<nat>, left: set<nat>,
                  was: seq<int>, now: seq<int>, had: map<nat, real>, at: map<nat, real>, client: nat)
    requires Moved(p, base, time, q, waiting, left, was, now, had, at) && client < p.n
    ensures Moved(p, base, time, q + [client], waiting, left - {client}, was, now[client := base], had,
      at[client := time])
  {
    SetOfSnoc(q, client);
    assert forall i :: i in q + [client] <==> i in q || i == client;
  }

  lemma ServeOne(p: Instance, base: nat, time: real, client: nat, was: seq<int>, had: map<nat, real>, now: seq<int>)
    requires client < p.n == |was| && client !in had && now == was[client := base]
    ensures Sum(ConnectShare(p, now, had[client := time].Keys), p.n)
         == Sum(ConnectShare(p, was, had.Keys), p.n) + p.cost(client, base)
    ensures Sum(TimeShare(had[client := time]), p.n) == Sum(TimeShare(had), p.n) + time
  {
    SumChange(ConnectShare(p, was, had.Keys), ConnectShare(p, now, had[client := time].Keys), p.n, client);
    SumChange(TimeShare(had), TimeShare(had[client := time]), p.n, client);
  }

  lemma ChargedStep(p: Instance, base: nat, time: real, q: seq<nat>,
                    was: seq<int>, now: seq<int>, had: map<nat, real>, at: map<nat, real>, client: nat)
    requires Charged(p, base, time, q, was, now, had, at)
    requires client < p.n == |now| && client !in at
    ensures Charged(p, base, time, q + [client], was, now[client := base], had, at[client := time])
  {
    ServeOne(p, base, time, client, now, at, now[client := base]);
    assert (q + [client])[..|q|] == q;
    assert (|q| + 1) as real * time == |q| as real * time + time;
  }

  lemma StartCharged(p: Instance, base: nat, time: real, was: seq<int>, at: map<nat, real>)
    ensures Charged(p, base, time, [], was, was, at, at)
  {
  }

  /** Serves the clients of an event from its base. */
  method ServeAll(p: Instance, base: nat, time: real, clients: seq<nat>, waiting: set<nat>,
                  assignment: array<int>, ghost at: map<nat, real>)
    returns (left: set<nat>, ghost at': map<nat, real>)
    requires Distinct(clients) && forall i | i in clients :: i < p.n && i !in at
    requires assignment.Length == p.n
    modifies assignment
    ensures Moved(p, base, time, clients, waiting, left, old(assignment[..]), assignment[..], at, at')
    ensures Charged(p, base, time, clients, old(assignment[..]), assignment[..], at, at')
  {
    left, at' := waiting, at;
    assert Moved(p, base, time, clients[..0], waiting, left, old(assignment[..]), assignment[..], at, at');
    hide Charged;
    StartCharged(p, base, time, assignment[..], at);
    for m := 0 to |clients|
      invariant Moved(p, base, time, clients[..m], waiting, left, old(assignment[..]), assignment[..], at, at')
      invariant Charged(p, base, time, clients[..m], old(assignment[..]), assignment[..], at, at')
    {
      var client := clients[m];
      assert client in clients && client !in SetOf(clients[..m]);
      MovedStep(p, base, time, clients[..m], waiting, left, old(assignment[..]), assignment[..], at, at', client);
      ChargedStep(p, base, time, clients[..m], old(assignment[..]), assignment[..], at, at', client);
      assert clients[..m + 1] == clients[..m] + [client];
      ghost var now := assignment[..];
      assignment[client] := base;
      assert assignment[..] == now[client := base];
      left := left - {client};
      at' := at'[client := time];
    }
    assert clients[..|clients|] == clients;
  }

  lemma OpenOne(p: Instance, open: set<nat>, b: nat)
    requires b < p.n && b !in open
    ensures Sum(OnlyAt(p.open, open + {b}), p.n) == Sum(OnlyAt(p.open, open), p.n) + p.open(b)
  {
    SumChange(OnlyAt(p.open, open), OnlyAt(p.open, open + {b}), p.n, b);
  }

  // ---- the trace of a run

  /** A base was opened at a time, for clients that paid for it. */
  datatype Opening = Opening(base: nat, time: real, clients: seq<nat>)

  /** Who still waits after the openings of `trace`, of those who waited at the start. */
  ghost function WaitingAfter(all: set<nat>, trace: seq<Opening>): set<nat> {
    if trace == [] then all
    else WaitingAfter(all, trace[..|trace| - 1]) - SetOf(trace[|trace| - 1].clients)
  }

  ghost function Bases(trace: seq<Opening>): set<nat> {
    if trace == [] then {} else Bases(trace[..|trace| - 1]) + {trace[|trace| - 1].base}
  }

  ghost function ToAll<T>(clients: seq<nat>, value: T): map<nat, T> {
    map i | i in clients :: value
  }

  /** When each client was served. */
  ghost function ServedAt(trace: seq<Opening>): map<nat, real> {
    if trace == [] then map[]
    else
      var last := trace[|trace| - 1];
      ServedAt(trace[..|trace| - 1]) + ToAll(last.clients, last.time)
  }

  /** From which base each client is served. */
  ghost function ServedBy(trace: seq<Opening>): map<nat, nat> {
    if trace == [] then map[]
    else
      var last := trace[|trace| - 1];
      ServedBy(trace[..|trace| - 1]) + ToAll(last.clients, last.base)
  }

  /** Among the allowed bases not open yet, `o` is an earliest event for those who wait. */
  ghost predicate IsOpening(p: Instance, allowed: seq<nat>, open: set<nat>, waiting: set<nat>, o: Opening) {
    && o.base in allowed && o.base !in open
    && IsEvent(p, o.base, waiting, o.time, o.clients)
    && forall b | b in allowed && b !in open :: NotBefore(p, b, waiting, o.time)
  }

  /** Every opening of the trace is the earliest event of its moment. */
  ghost predicate IsTrace(p: Instance, allowed: seq<nat>, all: set<nat>, trace: seq<Opening>) {
    forall k | 0 <= k < |trace| :: IsOpening(p, allowed, Bases(trace[..k]), WaitingAfter(all, trace[..k]), trace[k])
  }

  ghost function Times(trace: seq<Opening>): (times: seq<real>)
    ensures |times| == |trace| && forall k | 0 <= k < |times| :: times[k] == trace[k].time
  {
    seq(|trace|, k requires 0 <= k < |trace| => trace[k].time)
  }

  lemma TraceSnoc(all: set<nat>, trace: seq<Opening>, o: Opening)
    ensures WaitingAfter(all, trace + [o]) == WaitingAfter(all, trace) - SetOf(o.clients)
    ensures Bases(trace + [o]) == Bases(trace) + {o.base}
    ensures ServedAt(trace + [o]) == ServedAt(trace) + ToAll(o.clients, o.time)
    ensures ServedBy(trace + [o]) == ServedBy(trace) + ToAll(o.clients, o.base)
    ensures Times(trace + [o]) == Times(trace) + [o.time]
  {
    assert (trace + [o])[..|trace|] == trace;
  }

  lemma IsTraceSnoc(p: Instance, allowed: seq<nat>, all: set<nat>, trace: seq<Opening>, o: Opening)
    requires IsTrace(p, allowed, all, trace) && IsOpening(p, allowed, Bases(trace), WaitingAfter(all, trace), o)
    ensures IsTrace(p, allowed, all, trace + [o])
  {
    hide IsOpening;
    var more := trace + [o];
    forall k | 0 <= k < |more|
      ensures IsOpening(p, allowed, Bases(more[..k]), WaitingAfter(all, more[..k]), more[k])
    {
      if k < |trace| {
        assert more[..k] == trace[..k];
      } else {
        assert more[..k] == trace;
      }
    }
  }

  // ---- what holds between events

  /** The state is what the trace leads to. */
  ghost predicate Traced(p: Instance, allowed: seq<nat>, first: set<nat>, all: set<nat>, open: set<nat>,
                         waiting: set<nat>,
                         now: seq<int>, trace: seq<Opening>)
  {
    && IsTrace(p, allowed, all, trace)
    && open == first + Bases(trace) && waiting == WaitingAfter(all, trace)
    && ServedBy(trace).Keys == ServedAt(trace).Keys
    && forall i | i in ServedBy(trace) :: i < |now| && now[i] == ServedBy(trace)[i]
  }

  lemma LeftAfter(p: Instance, o: Opening, waiting: set<nat>, left: set<nat>, now: seq<int>, now': seq<int>,
                  at: map<nat, real>, at': map<nat, real>)
    requires Moved(p, o.base, o.time, o.clients, waiting, left, now, now', at, at')
    ensures left == waiting - SetOf(o.clients)
  {
  }

  lemma ServedStep(p: Instance, o: Opening, waiting: set<nat>, left: set<nat>, now: seq<int>, now': seq<int>,
                   at: map<nat, real>, at': map<nat, real>, owner: map<nat, nat>)
    requires (forall i | i in o.clients :: i < p.n) && owner.Keys == at.Keys
    requires forall i | i in owner :: i < |now| && now[i] == owner[i]
    requires Moved(p, o.base, o.time, o.clients, waiting, left, now, now', at, at')
    ensures at' == at + ToAll(o.clients, o.time)
    ensures var owner' := owner + ToAll(o.clients, o.base);
      owner'.Keys == at'.Keys && forall i | i in owner' :: i < |now'| && now'[i] == owner'[i]
  {
    assert forall i :: i in o.clients <==> i in SetOf(o.clients);
    hide SetOf;
  }

  /** Allowed bases are open or remaining, never both. */
  ghost predicate Split(allowed: seq<nat>, first: set<nat>, open: set<nat>, remaining: seq<nat>) {
    && first <= open <= first + SetOf(allowed)
    && Distinct(remaining)
    && forall b :: b in remaining <==> b in allowed && b !in open
  }

  lemma NextIsOpening(p: Instance, allowed: seq<nat>, first: set<nat>, open: set<nat>, waiting: set<nat>,
                      remaining: seq<nat>,
                      chosen: set<nat>, o: Opening)
    requires Split(allowed, first, open, remaining) && first !! SetOf(allowed) && open == first + chosen
    requires o.base in remaining && IsEvent(p, o.base, waiting, o.time, o.clients)
    requires forall b | b in remaining :: NotBefore(p, b, waiting, o.time)
    ensures IsOpening(p, allowed, chosen, waiting, o)
  {
    hide IsEvent, NotBefore;
    assert forall b | b in allowed :: b in SetOf(allowed);
  }

  lemma ClientsKnown(p: Instance, b: nat, waiting: set<nat>, time: real, clients: seq<nat>)
    requires IsEvent(p, b, waiting, time, clients)
    ensures forall i | i in clients :: i < p.n
  {
    hide PaidTotal;
  }

  lemma TracedStep(p: Instance, allowed: seq<nat>, first: set<nat>, all: set<nat>, open: set<nat>, waiting: set<nat>,
                   remaining: seq<nat>, now: seq<int>, now': seq<int>, trace: seq<Opening>, o: Opening,
                   left: set<nat>, at': map<nat, real>)
    requires Traced(p, allowed, first, all, open, waiting, now, trace) && Split(allowed, first, open, remaining)
    requires first !! SetOf(allowed)
    requires o.base in remaining && IsEvent(p, o.base, waiting, o.time, o.clients)
    requires forall b | b in remaining :: NotBefore(p, b, waiting, o.time)
    requires Moved(p, o.base, o.time, o.clients, waiting, left, now, now', ServedAt(trace), at')
    ensures Traced(p, allowed, first, all, open + {o.base}, left, now', trace + [o])
    ensures at' == ServedAt(trace + [o])
  {
    NextIsOpening(p, allowed, first, open, waiting, remaining, Bases(trace), o);
    LeftAfter(p, o, waiting, left, now, now', ServedAt(trace), at');
    hide NotBefore, IsTrace, IsOpening, Split, Bases, WaitingAfter, ServedAt, ServedBy;
    IsTraceSnoc(p, allowed, all, trace, o);
    TraceSnoc(all, trace, o);
    ClientsKnown(p, o.base, waiting, o.time, o.clients);
    hide IsEvent, ToAll, Moved;
    ServedStep(p, o, waiting, left, now, now', ServedAt(trace), at', ServedBy(trace));
  }

  /** Every client served so far is connected to an open base it can be stored against. */
  ghost predicate Connected(p: Instance, open: set<nat>, all: set<nat>, waiting: set<nat>,
                            was: seq<int>, now: seq<int>, at: map<nat, real>)
  {
    && |was| == |now| == p.n
    && waiting <= all && at.Keys == all - waiting
    && (forall i | i in at :: i < p.n && now[i] >= 0 && now[i] in open && p.finite(i, now[i]))
    && (forall i | 0 <= i < p.n && i !in at :: now[i] == was[i])
  }

  /** The bases opened by events and the connections made cost what the served clients have
      paid: the sum of the times at which they were served. */
  ghost predicate Account(p: Instance, first: set<nat>, open: set<nat>, now: seq<int>, at: map<nat, real>) {
    Sum(OnlyAt(p.open, open), p.n) + Sum(ConnectShare(p, now, at.Keys), p.n)
    == Sum(OnlyAt(p.open, first), p.n) + Sum(TimeShare(at), p.n)
  }

  /** The events so far are in order of time and none of the remaining bases was due before
      the last; a client whose own base is allowed waits no longer than that base costs. */
  ghost predicate Clock(p: Instance, allowed: seq<nat>, open: set<nat>, remaining: seq<nat>, waiting: set<nat>,
                        times: seq<real>, at: map<nat, real>)
  {
    && (forall j, k | 0 <= j < k < |times| :: times[j] <= times[k])
    && (times != [] ==> forall b | b in remaining :: NotBefore(p, b, waiting, times[|times| - 1]))
    && (forall i | i in waiting && i in allowed :: i !in open)
    && (forall i | i in at :: at[i] in times)
    && (forall i | i in at && i in allowed :: i < p.n && at[i] <= p.open(i))
  }

  lemma SplitStep(allowed: seq<nat>, first: set<nat>, open: set<nat>, remaining: seq<nat>, base: nat, k: nat)
    requires Split(allowed, first, open, remaining) && k < |remaining| && remaining[k] == base
    ensures Split(allowed, first, open + {base}, remaining[..k] + remaining[k + 1..])
  {
    var r := remaining[..k] + remaining[k + 1..];
    assert forall j | 0 <= j < |r| :: r[j] == remaining[if j < k then j else j + 1];
    forall b ensures b in r <==> b in allowed && b !in open + {base} {
      if b in remaining && b != base {
        var j :| 0 <= j < |remaining| && remaining[j] == b;
        assert j < k ==> r[j] == b;
        assert j > k ==> r[j - 1] == b;
      }
      if b in r {
        var j :| 0 <= j < |r| && r[j] == b;
        assert remaining[if j < k then j else j + 1] == b;
      }
    }
    assert base in SetOf(allowed);
  }

  lemma ConnectedStep(p: Instance, open: set<nat>, all: set<nat>, waiting: set<nat>, left: set<nat>,
                      was: seq<int>, now: seq<int>, now': seq<int>, at: map<nat, real>, at': map<nat, real>,
                      base: nat, time: real, clients: seq<nat>)
    requires Connected(p, open, all, waiting, was, now, at)
    requires Moved(p, base, time, clients, waiting, left, now, now', at, at')
    requires forall i | i in clients :: Reaches(p, base, waiting, i)
    ensures Connected(p, open + {base}, all, left, was, now', at')
  {
    assert at'.Keys == all - left;
    forall i | i in at' ensures i < p.n && now'[i] >= 0 && now'[i] in open + {base} && p.finite(i, now'[i]) {
      if i !in clients {
        assert i in at;
      }
    }
  }

  lemma AccountStep(p: Instance, first: set<nat>, open: set<nat>, now: seq<int>, now': seq<int>,
                    at: map<nat, real>, at': map<nat, real>, waiting: set<nat>, base: nat, time: real,
                    clients: seq<nat>)
    requires Account(p, first, open, now, at) && base < p.n && base !in open
    requires IsEvent(p, base, waiting, time, clients) && Charged(p, base, time, clients, now, now', at, at')
    ensures Account(p, first, open + {base}, now', at')
  {
    OpenOne(p, open, base);
  }

  lemma LaterTime(p: Instance, base: nat, waiting: set<nat>, times: seq<real>, time: real, clients: seq<nat>)
    requires IsEvent(p, base, waiting, time, clients)
    requires times != [] ==> NotBefore(p, base, waiting, times[|times| - 1])
    ensures times != [] ==> times[|times| - 1] <= time
  {
    hide PaidTotal;
  }

  lemma EventPositive(p: Instance, b: nat, waiting: set<nat>, time: real, clients: seq<nat>)
    requires Sound(p) && b < p.n && IsEvent(p, b, waiting, time, clients)
    ensures time > 0.0
  {
    var i := SomePays(p, b, waiting, time);
  }

  lemma BaseIsServed(p: Instance, base: nat, waiting: set<nat>, time: real, clients: seq<nat>)
    requires Sound(p) && base < p.n && IsEvent(p, base, waiting, time, clients)
    ensures base in waiting ==> base in clients
  {
    hide PaidTotal;
    EventPositive(p, base, waiting, time, clients);
    assert base in waiting ==> Reaches(p, base, waiting, base);
  }

  lemma TimesListed(times: seq<real>, time: real, clients: seq<nat>, at: map<nat, real>, at': map<nat, real>)
    requires forall i | i in at :: at[i] in times
    requires forall i | i in at' :: if i in clients then at'[i] == time else i in at && at'[i] == at[i]
    ensures forall i | i in at' :: at'[i] in times + [time]
  {
    var ts := times + [time];
    assert ts[|times|] == time;
  }

  lemma ClockStep(p: Instance, allowed: seq<nat>, open: set<nat>, remaining: seq<nat>, rest: seq<nat>,
                  waiting: set<nat>, left: set<nat>, times: seq<real>, now: seq<int>, now': seq<int>,
                  at: map<nat, real>, at': map<nat, real>, base: nat, time: real, clients: seq<nat>)
    requires Sound(p) && (forall b | b in allowed :: b < p.n) && (forall i | i in waiting :: i < p.n)
    requires Clock(p, allowed, open, remaining, waiting, times, at)
    requires forall b :: b in remaining <==> b in allowed && b !in open
    requires forall b | b in rest :: b in remaining
    requires base in remaining && IsEvent(p, base, waiting, time, clients)
    requires forall b | b in remaining :: NotBefore(p, b, waiting, time)
    requires Moved(p, base, time, clients, waiting, left, now, now', at, at')
    ensures Clock(p, allowed, open + {base}, rest, left, times + [time], at')
  {
    hide PaidTotal, NotBefore;
    LaterTime(p, base, waiting, times, time, clients);
    forall b | b in rest ensures NotBefore(p, b, left, time) {
      NotBeforeFewer(p, b, waiting, left, time);
    }
    BaseIsServed(p, base, waiting, time, clients);
    assert base !in left;
    TimesListed(times, time, clients, at, at');
    forall i | i in at' && i in allowed ensures i < p.n && at'[i] <= p.open(i) {
      if i in clients {
        assert Reaches(p, base, waiting, i) && i in remaining;
        OwnBaseInTime(p, i, waiting, time);
      }
    }
  }

  ghost predicate Sane(p: Instance, allowed: seq<nat>, all: set<nat>) {
    && Sound(p) && Distinct(allowed) && (forall b | b in allowed :: b < p.n) && forall i | i in all :: i < p.n
  }

  ghost predicate LoopState(p: Instance, allowed: seq<nat>, first: set<nat>, all: set<nat>, was: seq<int>,
                            open: set<nat>, waiting: set<nat>, remaining: seq<nat>, now: seq<int>, trace: seq<Opening>)
  {
    && first !! SetOf(allowed)
    && Traced(p, allowed, first, all, open, waiting, now, trace)
    && Split(allowed, first, open, remaining)
    && Connected(p, open, all, waiting, was, now, ServedAt(trace))
    && Account(p, first, open, now, ServedAt(trace))
    && Clock(p, allowed, open, remaining, waiting, Times(trace), ServedAt(trace))
  }

  lemma StartState(p: Instance, allowed: seq<nat>, first: set<nat>, all: set<nat>, was: seq<int>)
    requires Sane(p, allowed, all) && first !! SetOf(allowed) && |was| == p.n
    ensures LoopState(p, allowed, first, all, was, first, all, allowed, was, [])
  {
    var none: map<nat, real> := map[];
    SumSame(ConnectShare(p, was, none.Keys), TimeShare(none), p.n);
    assert forall b | b in allowed :: b in SetOf(allowed);
  }

  lemma SomeClient(p: Instance, b: nat, waiting: set<nat>, time: real, clients: seq<nat>) returns (i: nat)
    requires Sound(p) && b < p.n && IsEvent(p, b, waiting, time, clients)
    ensures i in clients && i in waiting
  {
    i := SomePays(p, b, waiting, time);
  }

  lemma EventStep(p: Instance, allowed: seq<nat>, first: set<nat>, all: set<nat>, was: seq<int>,
                  open: set<nat>, waiting: set<nat>, remaining: seq<nat>, now: seq<int>, trace: seq<Opening>,
                  k: nat, o: Opening, left: set<nat>, now': seq<int>, at': map<nat, real>)
    requires Sane(p, allowed, all)
    requires LoopState(p, allowed, first, all, was, open, waiting, remaining, now, trace)
    requires k < |remaining| && remaining[k] == o.base
    requires IsEvent(p, o.base, waiting, o.time, o.clients)
    requires forall b | b in remaining :: NotBefore(p, b, waiting, o.time)
    requires Moved(p, o.base, o.time, o.clients, waiting, left, now, now', ServedAt(trace), at')
    requires Charged(p, o.base, o.time, o.clients, now, now', ServedAt(trace), at')
    ensures LoopState(p, allowed, first, all, was, open + {o.base}, left, remaining[..k] + remaining[k + 1..],
                      now', trace + [o])
    ensures at' == ServedAt(trace + [o])
    ensures left < waiting
  {
    hide Account, Charged, Clock, NotBefore, PaidTotal, Traced;
    var rest, at := remaining[..k] + remaining[k + 1..], ServedAt(trace);
    assert o.base in remaining;
    TracedStep(p, allowed, first, all, open, waiting, remaining, now, now', trace, o, left, at');
    TraceSnoc(all, trace, o);
    SplitStep(allowed, first, open, remaining, o.base, k);
    ConnectedStep(p, open, all, waiting, left, was, now, now', at, at', o.base, o.time, o.clients);
    AccountStep(p, first, open, now, now', at, at', waiting, o.base, o.time, o.clients);
    ClockStep(p, allowed, open, remaining, rest, waiting, left, Times(trace), now, now', at, at', o.base, o.time,
      o.clients);
    var i := SomeClient(p, o.base, waiting, o.time, o.clients);
    assert i in SetOf(o.clients);
  }

  lemma ClientsAreNew(p: Instance, all: set<nat>, open: set<nat>, was: seq<int>, now: seq<int>, at: map<nat, real>,
                      b: nat, waiting: set<nat>, time: real, clients: seq<nat>)
    requires Connected(p, open, all, waiting, was, now, at) && IsEvent(p, b, waiting, time, clients)
    ensures Distinct(clients) && forall i | i in clients :: i < p.n && i !in at
  {
  }

  method IndexOf(s: seq<nat>, x: nat) returns (k: nat)
    requires x in s
    ensures k < |s| && s[k] == x
  {
    k := 0;
    while s[k] != x
      invariant k < |s| && x in s[k..]
      decreases |s| - k
    {
      k := k + 1;
    }
  }

  lemma SmallerSet(a: set<nat>, b: set<nat>)
    requires a < b
    ensures |a| < |b|
  {
    assert b == a + (b - a);
    assert b - a != {};
  }

  lemma LoopClients(p: Instance, allowed: seq<nat>, first: set<nat>, all: set<nat>, was: seq<int>,
                    open: set<nat>, waiting: set<nat>, remaining: seq<nat>, now: seq<int>, trace: seq<Opening>,
                    base: nat, time: real, clients: seq<nat>)
    requires LoopState(p, allowed, first, all, was, open, waiting, remaining, now, trace)
    requires IsEvent(p, base, waiting, time, clients)
    ensures Distinct(clients) && forall i | i in clients :: i < p.n && i !in ServedAt(trace)
  {
    hide Split, Account, Clock, Traced;
    ClientsAreNew(p, all, open, was, now, ServedAt(trace), base, waiting, time, clients);
  }

  /** Opens bases in the order in which they are paid for, until nobody waits or no remaining
      base can be reached. */
  method EventLoop(p: Instance, allowed: seq<nat>, edges: map<nat, seq<(real, nat)>>, first: set<nat>, all: set<nat>,
                   assignment: array<int>)
    returns (open: set<nat>, waiting: set<nat>, ghost remaining: seq<nat>, ghost trace: seq<Opening>)
    requires Sane(p, allowed, all) && first !! SetOf(allowed) && HasEdges(p, allowed, edges)
    requires assignment.Length == p.n
    modifies assignment
    ensures LoopState(p, allowed, first, all, old(assignment[..]), open, waiting, remaining, assignment[..], trace)
    ensures waiting != {} ==> forall b, i | b in remaining :: !Reaches(p, b, waiting, i)
  {
    hide LoopState, Reaches, IsEvent, NotBefore, IsEdges, Moved, Charged;
    open, waiting, trace := first, all, [];
    var rest := allowed;
    remaining := rest;
    StartState(p, allowed, first, all, assignment[..]);
    while waiting != {} && rest != []
      invariant remaining == rest && forall b | b in rest :: b in allowed
      invariant LoopState(p, allowed, first, all, old(assignment[..]), open, waiting, rest, assignment[..], trace)
      decreases |waiting|
    {
      var best, base := EarliestEvent(p, rest, edges, waiting);
      if best.NoEvent? {
        return;
      }
      ghost var now, was, wasOpen := assignment[..], waiting, open;
      ghost var o, at := Opening(base, best.time, best.clients), ServedAt(trace);
      open := open + {base};
      LoopClients(p, allowed, first, all, old(assignment[..]), wasOpen, waiting, rest, now, trace, base, best.time,
        best.clients);
      waiting, at := ServeAll(p, base, best.time, best.clients, waiting, assignment, at);
      var k := IndexOf(rest, base);
      EventStep(p, allowed, first, all, old(assignment[..]), wasOpen, was, rest, now, trace, k, o, waiting,
        assignment[..], at);
      SmallerSet(waiting, was);
      rest := rest[..k] + rest[k + 1..];
      remaining, trace := rest, trace + [o];
    }
  }

  // ---- the whole solver

  function Clients(n: nat): (s: set<nat>)
    ensures forall i: nat :: i in s <==> i < n
  {
    if n == 0 then {} else Clients(n - 1) + {n - 1}
  }

  /** Every client that does not wait is connected to an open base within its reach. */
  ghost predicate ServedOrWaiting(p: Instance, open: set<nat>, waiting: set<nat>, assignment: seq<int>) {
    && |assignment| == p.n
    && (forall b | b in open :: b < p.n)
    && forall i: nat | i < p.n && i !in waiting ::
      assignment[i] >= 0 && assignment[i] in open && p.finite(i, assignment[i])
  }

  lemma RawServed(p: Instance, forced: set<nat>, open: set<nat>, waiting: set<nat>, was: seq<int>, now: seq<int>)
    requires Sound(p) && forall i | i in forced :: i < p.n
    requires ServedOrWaiting(p, open, waiting, was) && |now| == p.n
    requires forall i | 0 <= i < p.n :: now[i] == if i in forced then i else was[i]
    ensures ServedOrWaiting(p, open + forced, waiting - forced, now)
  {
  }

  /** Opens a base for every client in `forced` and stores it there. */
  method StoreRaw(p: Instance, forced: set<nat>, open: set<nat>, waiting: set<nat>, assignment: array<int>)
    returns (opened': set<nat>, left: set<nat>)
    requires Sound(p) && assignment.Length == p.n && (forall i | i in forced :: i < p.n)
    requires ServedOrWaiting(p, open, waiting, assignment[..]) && forced <= waiting
    modifies assignment
    ensures opened' == open + forced && left == waiting - forced
    ensures ServedOrWaiting(p, opened', left, assignment[..])
    ensures forall i | 0 <= i < p.n :: assignment[i] == if i in forced then i else old(assignment[i])
  {
    for i := 0 to p.n
      invariant forall j | 0 <= j < p.n :: assignment[j] == if j in forced && j < i then j else old(assignment[j])
    {
      if i in forced {
        assignment[i] := i;
      }
    }
    opened', left := open + forced, waiting - forced;
    RawServed(p, forced, open, waiting, old(assignment[..]), assignment[..]);
  }

  /** The open base a client reaches at least cost, if it reaches any. */
  method NearestOpen(p: Instance, open: seq<nat>, i: nat) returns (found: bool, b: nat)
    ensures found <==> exists c | c in open :: p.finite(i, c)
    ensures found ==> b in open && p.finite(i, b)
    ensures found ==> forall c | c in open && p.finite(i, c) :: p.cost(i, b) <= p.cost(i, c)
  {
    found, b := false, 0;
    for k := 0 to |open|
      invariant found <==> exists j | 0 <= j < k :: p.finite(i, open[j])
      invariant found ==> b in open && p.finite(i, b)
      invariant found ==> forall j | 0 <= j < k && p.finite(i, open[j]) :: p.cost(i, b) <= p.cost(i, open[j])
    {
      if p.finite(i, open[k]) && (!found || p.cost(i, open[k]) < p.cost(i, b)) {
        found, b := true, open[k];
      }
    }
  }

  /** A client no event has served: it goes to a cheapest open base within its reach, or else
      becomes a base of its own. */
  ghost predicate Leftover(p: Instance, open: set<nat>, i: nat, b: int) {
    if exists c | c in open :: p.finite(i, c) then
      b >= 0 && b in open && p.finite(i, b) && forall c | c in open && p.finite(i, c) :: p.cost(i, b) <= p.cost(i, c)
    else b == i
  }

  ghost predicate Stranded(p: Instance, open: set<nat>, i: nat) {
    forall c | c in open :: !p.finite(i, c)
  }

  lemma FoundMeans(p: Instance, open: set<nat>, bases: seq<nat>, i: nat, found: bool, b: nat)
    requires forall c :: c in bases <==> c in open
    requires found <==> exists c | c in bases :: p.finite(i, c)
    requires found ==> b in bases && p.finite(i, b)
    requires found ==> forall c | c in bases && p.finite(i, c) :: p.cost(i, b) <= p.cost(i, c)
    ensures found <==> !Stranded(p, open, i)
    ensures found ==> b in open && p.finite(i, b) && Leftover(p, open, i, b)
  {
  }

  /** Connects clients that no event has served to a cheapest of the open bases. */
  method ConnectLeftovers(p: Instance, open: set<nat>, waiting: set<nat>, assignment: array<int>)
    returns (left: set<nat>)
    requires assignment.Length == p.n && (forall i | i in waiting :: i < p.n)
    requires ServedOrWaiting(p, open, waiting, assignment[..])
    modifies assignment
    ensures ServedOrWaiting(p, open, left, assignment[..])
    ensures left <= waiting && forall i | i in waiting :: i in left <==> Stranded(p, open, i)
    ensures forall i | i in waiting && i !in left :: Leftover(p, open, i, assignment[i])
    ensures forall i | 0 <= i < p.n && i !in waiting :: assignment[i] == old(assignment[i])
  {
    hide Leftover, Stranded;
    var bases := Sorted(open);
    assert forall b :: b in bases <==> b in SetOf(bases);
    var list := Sorted(waiting);
    assert forall i :: i in list <==> i in SetOf(list);
    left := waiting;
    for k := 0 to |list|
      invariant left <= waiting && ServedOrWaiting(p, open, left, assignment[..])
      invariant forall j | k <= j < |list| :: list[j] in left
      invariant forall j | 0 <= j < k :: list[j] in left <==> Stranded(p, open, list[j])
      invariant forall i | i in waiting && i !in left :: Leftover(p, open, i, assignment[i])
      invariant forall i | 0 <= i < p.n && i !in waiting :: assignment[i] == old(assignment[i])
    {
      var i := list[k];
      assert i in waiting;
      assert forall j | 0 <= j < |list| && j != k :: list[j] != i;
      var found, b := NearestOpen(p, bases, i);
      FoundMeans(p, open, bases, i, found, b);
      if found {
        assignment[i] := b;
        left := left - {i};
      }
    }
    forall i | i in waiting ensures i in left <==> Stranded(p, open, i) {
      var j :| 0 <= j < |list| && list[j] == i;
    }
  }

  /** What the result costs: every base that is open, every connection. */
  method Totals(p: Instance, open: set<nat>, assignment: seq<int>) returns (connect: real, storage: real)
    requires Sound(p) && ServedOrWaiting(p, open, {}, assignment)
    ensures connect == Sum(ConnectShare(p, assignment, Clients(p.n)), p.n)
    ensures storage == Sum(OnlyAt(p.open, open), p.n)
  {
    connect, storage := 0.0, 0.0;
    for i := 0 to p.n
      invariant connect == Sum(ConnectShare(p, assignment, Clients(p.n)), i)
    {
      if i != assignment[i] && p.finite(i, assignment[i]) {
        connect := connect + p.cost(i, assignment[i]);
      }
    }
    var bases := Sorted(open);
    assert forall b | b in bases :: b in SetOf(bases);
    assert bases[..0] == [];
    for k := 0 to |bases|
      invariant storage == SumAt(p.open, bases[..k])
    {
      assert bases[..k + 1][..k] == bases[..k];
      storage := storage + p.open(bases[k]);
    }
    assert bases[..|bases|] == bases;
    SumAtMembers(p.open, bases, p.n);
  }

  datatype Solution = Solution(open: set<nat>, assignment: seq<int>, connect: real, storage: real)

  lemma OwnBaseRemains(p: Instance, allowed: seq<nat>, all: set<nat>, was: seq<int>, open: set<nat>, waiting: set<nat>,
                       remaining: seq<nat>, now: seq<int>, trace: seq<Opening>)
    requires Sane(p, allowed, all) && forall i | i in all :: i in allowed
    requires LoopState(p, allowed, {}, all, was, open, waiting, remaining, now, trace)
    ensures forall i | i in waiting :: i in remaining && Reaches(p, i, waiting, i)
  {
    hide Account, Traced;
  }

  /** With every base allowed, no client is left waiting: its own base would still remain. */
  lemma NobodyWaits(p: Instance, allowed: seq<nat>, all: set<nat>, was: seq<int>, open: set<nat>, waiting: set<nat>,
                    remaining: seq<nat>, now: seq<int>, trace: seq<Opening>)
    requires Sane(p, allowed, all) && forall i | i in all :: i in allowed
    requires LoopState(p, allowed, {}, all, was, open, waiting, remaining, now, trace)
    requires waiting != {} ==> forall b, i | b in remaining :: !Reaches(p, b, waiting, i)
    ensures waiting == {}
  {
    hide LoopState, Reaches;
    OwnBaseRemains(p, allowed, all, was, open, waiting, remaining, now, trace);
    assert forall i :: i !in waiting;
  }

  lemma NothingOpen(p: Instance)
    ensures Sum(OnlyAt(p.open, {}), p.n) == 0.0
  {
    SumSame(OnlyAt(p.open, {}), i => 0.0, p.n);
    SumZero(p.n);
  }

  lemma EveryoneInTime(p: Instance, allowed: seq<nat>, open: set<nat>, remaining: seq<nat>, times: seq<real>,
                       at: map<nat, real>)
    requires Clock(p, allowed, open, remaining, {}, times, at) && at.Keys == Clients(p.n)
    requires forall i | i in Clients(p.n) :: i in allowed
    ensures forall i | 0 <= i < p.n :: TimeShare(at)(i) <= p.open(i)
  {
    hide NotBefore;
  }

  /** With every base allowed, the objective is the sum of the times at which the clients were
      served, and never exceeds the cost of storing every tensor raw. */
  lemma ObjectiveIsTimes(p: Instance, allowed: seq<nat>, was: seq<int>, open: set<nat>,
                         remaining: seq<nat>, now: seq<int>, trace: seq<Opening>)
    requires Sane(p, allowed, Clients(p.n)) && forall i | i in Clients(p.n) :: i in allowed
    requires LoopState(p, allowed, {}, Clients(p.n), was, open, {}, remaining, now, trace)
    ensures ServedAt(trace).Keys == Clients(p.n)
    ensures Sum(OnlyAt(p.open, open), p.n) + Sum(ConnectShare(p, now, Clients(p.n)), p.n)
      == Sum(TimeShare(ServedAt(trace)), p.n)
    ensures Sum(TimeShare(ServedAt(trace)), p.n) <= Sum(p.open, p.n)
  {
    hide Sum, Clock, Traced;
    NothingOpen(p);
    EveryoneInTime(p, allowed, open, remaining, Times(trace), ServedAt(trace));
    SumAtMost(TimeShare(ServedAt(trace)), p.open, p.n);
  }

  lemma LoopServes(p: Instance, allowed: seq<nat>, first: set<nat>, all: set<nat>, was: seq<int>, open: set<nat>,
                   waiting: set<nat>, remaining: seq<nat>, now: seq<int>, trace: seq<Opening>)
    requires Sane(p, allowed, all) && ServedOrWaiting(p, first, all, was)
    requires LoopState(p, allowed, first, all, was, open, waiting, remaining, now, trace)
    ensures ServedOrWaiting(p, open, waiting, now)
  {
    hide Account, Clock, Traced;
    forall b | b in open ensures b < p.n {
      assert b in first || b in SetOf(allowed);
    }
    forall i: nat | i < p.n && i !in waiting ensures now[i] >= 0 && now[i] in open && p.finite(i, now[i]) {
      assert i in ServedAt(trace) || i !in all;
    }
  }

  /** The clients no allowed base can reach. */
  method Forced(p: Instance, allowed: seq<nat>) returns (forced: set<nat>)
    requires Sound(p)
    ensures forall i: nat :: i in forced <==> i < p.n && forall b | b in allowed :: !p.finite(i, b)
  {
    forced := {};
    for i := 0 to p.n
      invariant forall j: nat :: j in forced <==> j < i && forall b | b in allowed :: !p.finite(j, b)
    {
      var reach, b := NearestOpen(p, allowed, i);
      if !reach {
        forced := forced + {i};
      }
    }
  }

  /** The sorted edges of every allowed base. */
  method FacilityEdges(p: Instance, allowed: seq<nat>) returns (edges: map<nat, seq<(real, nat)>>)
    requires forall b | b in allowed :: b < p.n
    ensures HasEdges(p, allowed, edges)
  {
    hide IsEdges;
    edges := map[];
    for k := 0 to |allowed|
      invariant forall j | 0 <= j < k :: allowed[j] in edges && IsEdges(p, allowed[j], edges[allowed[j]])
    {
      var es := SortedEdges(p, allowed[k]);
      edges := edges[allowed[k] := es];
    }
  }

  /** A solution and what it costs. */
  ghost predicate Feasible(p: Instance, s: Solution) {
    && ServedOrWaiting(p, s.open, {}, s.assignment)
    && s.connect == Sum(ConnectShare(p, s.assignment, Clients(p.n)), p.n)
    && s.storage == Sum(OnlyAt(p.open, s.open), p.n)
  }

  /** The clients some allowed base can serve. */
  ghost function Servable(p: Instance, allowed: seq<nat>): set<nat> {
    set i | i in Clients(p.n) && exists b | b in allowed :: p.finite(i, b)
  }

  /** No base that is still closed could serve anyone who waits. */
  ghost predicate Ended(p: Instance, allowed: seq<nat>, trace: seq<Opening>) {
    var waiting := WaitingAfter(Servable(p, allowed), trace);
    waiting == {} || forall b, i | b in allowed && b !in Bases(trace) :: !Reaches(p, b, waiting, i)
  }

  /** What is open after the events: their bases, and those nobody else can serve. */
  ghost function OpenAfter(p: Instance, allowed: seq<nat>, trace: seq<Opening>): set<nat> {
    (Clients(p.n) - Servable(p, allowed)) + Bases(trace)
  }

  /** The solution is the one the events lead to: a client of an event is served from its base,
      a client no allowed base can serve from itself, anyone else is a leftover. */
  ghost predicate Follows(p: Instance, allowed: seq<nat>, s: Solution, trace: seq<Opening>) {
    var all := Servable(p, allowed);
    var open, waiting := OpenAfter(p, allowed, trace), WaitingAfter(all, trace);
    && |s.assignment| == p.n
    && (forall i: nat | i < p.n && i !in all :: s.assignment[i] == i)
    && (forall i | i in ServedBy(trace) :: i < p.n && s.assignment[i] == ServedBy(trace)[i])
    && ServedBy(trace).Keys == all - waiting
    && (forall i | i in waiting :: i < p.n && Leftover(p, open, i, s.assignment[i]))
    && s.open == open + set i | i in waiting && Stranded(p, open, i)
  }

  /** The run is a trace of earliest events in order of time that ends when nothing more can
      happen, the solution follows from it, and its two totals are its costs. */
  ghost predicate Settled(p: Instance, allowed: seq<nat>, s: Solution, trace: seq<Opening>) {
    && Feasible(p, s)
    && IsTrace(p, allowed, Servable(p, allowed), trace) && Ended(p, allowed, trace)
    && (forall j, k | 0 <= j < k < |trace| :: trace[j].time <= trace[k].time)
    && Follows(p, allowed, s, trace)
  }

  /** The events serve everyone, and the objective is the sum of the times at which they do, at
      most the cost of storing every tensor raw. */
  ghost predicate Everyone(p: Instance, s: Solution, trace: seq<Opening>) {
    && ServedAt(trace).Keys == Clients(p.n) && s.open == Bases(trace)
    && s.storage + s.connect == Sum(TimeShare(ServedAt(trace)), p.n)
    && Sum(TimeShare(ServedAt(trace)), p.n) <= Sum(p.open, p.n)
  }

  lemma SettledMeans(p: Instance, allowed: seq<nat>, s: Solution, trace: seq<Opening>)
    ensures Settled(p, allowed, s, trace) <==>
      && Feasible(p, s) && IsTrace(p, allowed, Servable(p, allowed), trace) && Ended(p, allowed, trace)
      && (forall j, k | 0 <= j < k < |trace| :: trace[j].time <= trace[k].time) && Follows(p, allowed, s, trace)
  {
    hide Feasible, IsTrace, Ended, Follows;
  }

  lemma LoopEnds(p: Instance, allowed: seq<nat>, first: set<nat>, all: set<nat>, was: seq<int>, open: set<nat>,
                 waiting: set<nat>, remaining: seq<nat>, now: seq<int>, trace: seq<Opening>)
    requires LoopState(p, allowed, first, all, was, open, waiting, remaining, now, trace)
    requires all == Servable(p, allowed)
    requires waiting != {} ==> forall b, i | b in remaining :: !Reaches(p, b, waiting, i)
    ensures IsTrace(p, allowed, Servable(p, allowed), trace) && Ended(p, allowed, trace)
  {
    hide Account, Clock, Connected, Reaches, IsTrace, Servable;
    assert forall b | b in allowed :: b in SetOf(allowed);
  }

  lemma LoopFollows(p: Instance, allowed: seq<nat>, first: set<nat>, all: set<nat>, was: seq<int>, open: set<nat>,
                    waiting: set<nat>, remaining: seq<nat>, now: seq<int>, trace: seq<Opening>, s: Solution)
    requires LoopState(p, allowed, first, all, was, open, waiting, remaining, now, trace)
    requires all == Servable(p, allowed) && first == Clients(p.n) - all && |s.assignment| == |now| == p.n
    requires forall i: nat | i < p.n && i !in all :: was[i] == i
    requires forall i | 0 <= i < p.n && i !in waiting :: s.assignment[i] == now[i]
    requires forall i | i in waiting :: i < p.n && Leftover(p, open, i, s.assignment[i])
    requires s.open == open + set i | i in waiting && Stranded(p, open, i)
    ensures Follows(p, allowed, s, trace)
  {
    hide Account, Clock, IsTrace, Leftover, Stranded;
    hide Servable;
  }

  lemma LoopTimes(p: Instance, allowed: seq<nat>, first: set<nat>, all: set<nat>, was: seq<int>, open: set<nat>,
                  waiting: set<nat>, remaining: seq<nat>, now: seq<int>, trace: seq<Opening>)
    requires LoopState(p, allowed, first, all, was, open, waiting, remaining, now, trace)
    ensures forall j, k | 0 <= j < k < |trace| :: trace[j].time <= trace[k].time
    ensures waiting <= all && open == first + Bases(trace)
  {
    hide Account, NotBefore, IsTrace;
    assert forall k | 0 <= k < |trace| :: Times(trace)[k] == trace[k].time;
  }

  lemma LoopSettles(p: Instance, allowed: seq<nat>, first: set<nat>, all: set<nat>, was: seq<int>, open: set<nat>,
                    waiting: set<nat>, remaining: seq<nat>, now: seq<int>, trace: seq<Opening>, s: Solution)
    requires LoopState(p, allowed, first, all, was, open, waiting, remaining, now, trace)
    requires waiting != {} ==> forall b, i | b in remaining :: !Reaches(p, b, waiting, i)
    requires all == Servable(p, allowed) && first == Clients(p.n) - all && |s.assignment| == |now| == p.n
    requires forall i: nat | i < p.n && i !in all :: was[i] == i
    requires forall i | 0 <= i < p.n && i !in waiting :: s.assignment[i] == now[i]
    requires forall i | i in waiting :: i < p.n && Leftover(p, open, i, s.assignment[i])
    requires s.open == open + (set i | i in waiting && Stranded(p, open, i)) && Feasible(p, s)
    ensures Settled(p, allowed, s, trace)
  {
    hide *;
    LoopTimes(p, allowed, first, all, was, open, waiting, remaining, now, trace);
    LoopEnds(p, allowed, first, all, was, open, waiting, remaining, now, trace);
    LoopFollows(p, allowed, first, all, was, open, waiting, remaining, now, trace, s);
    SettledMeans(p, allowed, s, trace);
  }

  lemma FeasibleTotals(p: Instance, s: Solution)
    requires Feasible(p, s)
    ensures s.storage + s.connect
         == Sum(OnlyAt(p.open, s.open), p.n) + Sum(ConnectShare(p, s.assignment, Clients(p.n)), p.n)
  {
  }

  /** With every base allowed, the events serve everyone at the price of their times. */
  lemma AllServed(p: Instance, allowed: seq<nat>, first: set<nat>, all: set<nat>, was: seq<int>, open: set<nat>,
                  waiting: set<nat>, remaining: seq<nat>, now: seq<int>, trace: seq<Opening>, s: Solution)
    requires Sane(p, allowed, all) && all == Clients(p.n) - first && first == {}
    requires forall i: nat | i < p.n :: i in allowed
    requires LoopState(p, allowed, first, all, was, open, waiting, remaining, now, trace)
    requires waiting != {} ==> forall b, i | b in remaining :: !Reaches(p, b, waiting, i)
    requires Feasible(p, s) && |s.assignment| == |now| == p.n && open == first + Bases(trace)
    requires forall i | 0 <= i < p.n && i !in waiting :: s.assignment[i] == now[i]
    requires s.open == open + set i | i in waiting && Stranded(p, open, i)
    ensures Everyone(p, s, trace)
  {
    hide LoopState, Reaches, Sum, Bases, ServedAt, Clients, Feasible;
    assert all == Clients(p.n);
    NobodyWaits(p, allowed, all, was, open, waiting, remaining, now, trace);
    ObjectiveIsTimes(p, allowed, was, open, remaining, now, trace);
    FeasibleTotals(p, s);
    assert s.assignment == now;
    assert s.open == open;
  }

  lemma NoneOpen(p: Instance)
    ensures forall i :: Stranded(p, {}, i)
  {
  }

  lemma StrandedIsLeftover(p: Instance, open: set<nat>, i: nat)
    requires Stranded(p, open, i)
    ensures Leftover(p, open, i, i)
  {
  }

  /** Whoever still waits is connected to what is open, or else stored raw. */
  method Finish(p: Instance, open: set<nat>, waiting: set<nat>, assignment: array<int>) returns (s: Solution)
    requires Sound(p) && assignment.Length == p.n && (forall i | i in waiting :: i < p.n)
    requires ServedOrWaiting(p, open, waiting, assignment[..])
    modifies assignment
    ensures Feasible(p, s) && |s.assignment| == p.n
    ensures s.open == open + set i | i in waiting && Stranded(p, open, i)
    ensures forall i | i in waiting :: Leftover(p, open, i, s.assignment[i])
    ensures forall i | 0 <= i < p.n && i !in waiting :: s.assignment[i] == old(assignment[i])
  {
    hide ServedOrWaiting, Sound, Clients, Sum, Leftover, Stranded;
    var bases, left := open, waiting;
    NoneOpen(p);
    if left != {} && bases != {} {
      left := ConnectLeftovers(p, bases, left, assignment);
    }
    assert forall i | i in left :: Stranded(p, open, i);
    ghost var stranded, connected := left, assignment[..];
    if left != {} {
      bases, left := StoreRaw(p, left, bases, left, assignment);
    }
    forall i | i in stranded ensures Leftover(p, open, i, assignment[i]) {
      StrandedIsLeftover(p, open, i);
    }
    assert left == {};
    var connect, storage := Totals(p, bases, assignment[..]);
    s := Solution(bases, assignment[..], connect, storage);
    forall i | i in waiting ensures Leftover(p, open, i, s.assignment[i]) {
      assert i in stranded || (s.assignment[i] == connected[i] && Leftover(p, open, i, connected[i]));
    }
    assert stranded == set i | i in waiting && Stranded(p, open, i);
  }

  /** The events, then the leftovers and the totals. */
  method Settle(p: Instance, allowed: seq<nat>, edges: map<nat, seq<(real, nat)>>, first: set<nat>, all: set<nat>,
                assignment: array<int>)
    returns (s: Solution, ghost trace: seq<Opening>)
    requires Sound(p) && Sane(p, allowed, all) && first !! SetOf(allowed) && HasEdges(p, allowed, edges)
    requires all == Servable(p, allowed) && first == Clients(p.n) - all && forall i | i in all :: i < p.n
    requires assignment.Length == p.n && ServedOrWaiting(p, first, all, assignment[..])
    requires forall i: nat | i < p.n && i !in all :: assignment[i] == i
    modifies assignment
    ensures Settled(p, allowed, s, trace)
    ensures first == {} && (forall i: nat | i < p.n :: i in allowed) ==> Everyone(p, s, trace)
  {
    hide *;
    ghost var was := assignment[..];
    ghost var remaining;
    var open, waiting;
    open, waiting, remaining, trace := EventLoop(p, allowed, edges, first, all, assignment);
    ghost var now := assignment[..];
    LoopServes(p, allowed, first, all, was, open, waiting, remaining, now, trace);
    LoopTimes(p, allowed, first, all, was, open, waiting, remaining, now, trace);
    s := Finish(p, open, waiting, assignment);
    LoopSettles(p, allowed, first, all, was, open, waiting, remaining, now, trace, s);
    if first == {} && forall i: nat | i < p.n :: i in allowed {
      AllServed(p, allowed, first, all, was, open, waiting, remaining, now, trace, s);
    }
  }

  lemma StartIsSane(p: Instance, allowed: seq<nat>, first: set<nat>, all: set<nat>)
    requires Sound(p) && Distinct(allowed) && (forall b | b in allowed :: b < p.n) && all == Clients(p.n) - first
    ensures Sane(p, allowed, all) && forall i | i in all :: i < p.n
  {
  }

  /** Stores the forced clients raw; everyone else waits. */
  method Start(p: Instance, forced: set<nat>) returns (assignment: array<int>, first: set<nat>, all: set<nat>)
    requires Sound(p) && forall i | i in forced :: i < p.n
    ensures fresh(assignment) && assignment.Length == p.n
    ensures first == forced && all == Clients(p.n) - forced
    ensures ServedOrWaiting(p, first, all, assignment[..])
    ensures forall i | 0 <= i < p.n && i in forced :: assignment[i] == i
  {
    assignment := new int[p.n](_ => -1);
    var everyone := Clients(p.n);
    first, all := StoreRaw(p, forced, {}, everyone, assignment);
  }

  lemma ForcedApart(p: Instance, allowed: seq<nat>, forced: set<nat>)
    requires Sound(p) && forall b | b in allowed :: b < p.n
    requires forall i: nat :: i in forced <==> i < p.n && forall b | b in allowed :: !p.finite(i, b)
    ensures forced !! SetOf(allowed) && Clients(p.n) - forced == Servable(p, allowed)
    ensures forced == Clients(p.n) - Servable(p, allowed)
    ensures (forall i: nat | i < p.n :: i in allowed) ==> forced == {}
  {
    forall i | i in forced ensures i !in SetOf(allowed) {
      assert p.finite(i, i);
    }
    assert forall i | i in forced :: i !in allowed;
  }

  /** `primal_dual_facility_location_ratio`. For any candidates: the run is a trace of earliest
      events in order of time, ended when nothing more can happen, the solution follows from it
      and the two totals are its costs. With all bases as candidates the events serve everyone,
      and the objective is the sum over the clients of the times of their events, at most the
      cost of storing every tensor raw. */
  method Solve(p: Instance, allowed: seq<nat>) returns (s: Solution, ghost trace: seq<Opening>)
    requires Sound(p) && Distinct(allowed) && forall b | b in allowed :: b < p.n
    ensures Settled(p, allowed, s, trace)
    ensures (forall i: nat | i < p.n :: i in allowed) ==> Everyone(p, s, trace)
  {
    hide *;
    var forced := Forced(p, allowed);
    ForcedApart(p, allowed, forced);
    var assignment, first, all := Start(p, forced);
    StartIsSane(p, allowed, first, all);
    var edges := FacilityEdges(p, allowed);
    s, trace := Settle(p, allowed, edges, first, all, assignment);
  }
}
