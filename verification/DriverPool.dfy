/**
  The connection pools of the native PostgreSQL and MySQL drivers, which share one
  algorithm: idle drivers are a stack, waiting clients a queue, and a released
  driver goes straight to the first waiter.
 */
module DriverPool {
  import opened Wrappers

  /** Drivers are numbered in order of creation. */
  type Driver = nat

  /** One acquire call. */
  type Client = nat

  /** The pool's fields, and beside them who holds what and who asked and was served, in order. */
  datatype State = State(
    pool: seq<Driver>,
    activeCount: int,
    queue: seq<Client>,
    created: nat,
    held: map<Client, Driver>,
    requested: seq<Client>,
    served: seq<Client>)

  const INITIAL := State([], 0, [], 0, map[], [], [])

  datatype Action = Acquire(client: Client) | Release(client: Client)

  function Give(s: State, client: Client, driver: Driver): State {
    s.(held := s.held[client := driver], served := s.served + [client])
  }

  function StepAcquire(maxSize: nat, s: State, client: Client): State {
    var asked := s.(requested := s.requested + [client]);
    if |s.pool| > 0 then
      Give(asked.(activeCount := s.activeCount + 1, pool := s.pool[..|s.pool| - 1]), client, s.pool[|s.pool| - 1])
    else if s.activeCount < maxSize then
      Give(asked.(activeCount := s.activeCount + 1, created := s.created + 1), client, s.created)
    else asked.(queue := s.queue + [client])
  }

  function StepRelease(s: State, client: Client): State
    requires client in s.held
  {
    var driver := s.held[client];
    var freed := s.(held := s.held - {client});
    if s.queue != [] then Give(freed.(queue := s.queue[1..]), s.queue[0], driver)
    else freed.(activeCount := s.activeCount - 1, pool := s.pool + [driver])
  }

  /** A client asks once, and releases what it holds. */
  predicate Enabled(s: State, a: Action) {
    match a
    case Acquire(client) => client !in s.requested
    case Release(client) => client in s.held
  }

  function Step(maxSize: nat, s: State, a: Action): State
    requires Enabled(s, a)
  {
    match a
    case Acquire(client) => StepAcquire(maxSize, s, client)
    case Release(client) => StepRelease(s, client)
  }

  // ----- the invariant -----

  predicate Distinct<T(==)>(s: seq<T>) {
    forall i, j :: 0 <= i < j < |s| ==> s[i] != s[j]
  }

  predicate Injective(m: map<Client, Driver>) {
    forall x, y :: x in m && y in m && x != y ==> m[x] != m[y]
  }

  /** Each created driver is idle once or held by exactly one client, never both. */
  predicate Accounted(pool: seq<Driver>, held: map<Client, Driver>, created: nat) {
    && Distinct(pool) && Injective(held)
    && (forall d :: d in pool ==> d < created)
    && (forall x :: x in held ==> held[x] < created && held[x] !in pool)
    && |pool| + |held| == created
  }

  /** Sizes: the counter is the number held, nothing exceeds the limit, waiters only when all is in use. */
  predicate Bounded(maxSize: nat, s: State) {
    && s.activeCount == |s.held|
    && |s.pool| + |s.held| <= maxSize
    && (s.queue != [] ==> s.pool == [] && s.activeCount == maxSize)
  }

  /** Requests are served in the order they came; only served clients hold a driver. */
  predicate InOrder(served: seq<Client>, queue: seq<Client>, requested: seq<Client>, holders: set<Client>) {
    && served + queue == requested
    && Distinct(requested)
    && (forall x :: x in holders ==> x in served)
  }

  predicate Invariant(maxSize: nat, s: State) {
    && Accounted(s.pool, s.held, s.created)
    && Bounded(maxSize, s)
    && InOrder(s.served, s.queue, s.requested, s.held.Keys)
  }

  lemma InitialInvariant(maxSize: nat)
    ensures Invariant(maxSize, INITIAL)
  {
  }

  lemma OneMoreHolder(held: map<Client, Driver>, client: Client, d: Driver)
    requires client !in held
    ensures held[client := d].Keys == held.Keys + {client} && |held[client := d]| == |held| + 1
  {
    assert held[client := d].Keys == held.Keys + {client};
  }

  lemma InjectiveMore(held: map<Client, Driver>, client: Client, d: Driver)
    requires Injective(held) && client !in held && forall x :: x in held ==> held[x] != d
    ensures Injective(held[client := d])
  {
  }

  /** A driver held by nobody and not idle goes to a client that holds none. */
  lemma HoldMore(pool: seq<Driver>, held: map<Client, Driver>, created: nat, client: Client, d: Driver)
    requires Distinct(pool) && Injective(held) && client !in held && d < created && d !in pool
    requires forall e :: e in pool ==> e < created
    requires forall x :: x in held ==> held[x] < created && held[x] !in pool && held[x] != d
    requires |pool| + |held| + 1 == created
    ensures Accounted(pool, held[client := d], created) && |held[client := d]| == |held| + 1
  {
    hide Injective, Distinct;
    OneMoreHolder(held, client, d);
    InjectiveMore(held, client, d);
    var after := held[client := d];
    forall x | x in after
      ensures after[x] < created && after[x] !in pool
    {
      assert x == client || x in held;
    }
  }

  lemma HoldLess(pool: seq<Driver>, held: map<Client, Driver>, created: nat, client: Client)
    requires Accounted(pool, held, created) && client in held
    ensures Injective(held - {client}) && |held - {client}| == |held| - 1
    ensures forall x :: x in held - {client} ==> held[x] != held[client]
  {
    assert (held - {client}).Keys == held.Keys - {client};
  }

  lemma PopIdle(pool: seq<Driver>, held: map<Client, Driver>, created: nat, client: Client)
    requires Accounted(pool, held, created) && pool != [] && client !in held
    ensures Accounted(pool[..|pool| - 1], held[client := pool[|pool| - 1]], created)
    ensures |held[client := pool[|pool| - 1]]| == |held| + 1
  {
    var rest, d := pool[..|pool| - 1], pool[|pool| - 1];
    assert forall e :: e in rest ==> e in pool;
    assert forall i :: 0 <= i < |rest| ==> rest[i] == pool[i] && pool[i] != d;
    assert d in pool;
    HoldMore(rest, held, created, client, d);
  }

  lemma PushIdle(pool: seq<Driver>, held: map<Client, Driver>, created: nat, client: Client)
    requires Accounted(pool, held, created) && client in held
    ensures Accounted(pool + [held[client]], held - {client}, created)
    ensures |held - {client}| == |held| - 1
  {
    HoldLess(pool, held, created, client);
  }

  lemma HandOver(pool: seq<Driver>, held: map<Client, Driver>, created: nat, client: Client, next: Client)
    requires Accounted(pool, held, created) && client in held && next !in held
    ensures Accounted(pool, (held - {client})[next := held[client]], created)
    ensures |(held - {client})[next := held[client]]| == |held|
  {
    HoldLess(pool, held, created, client);
    HoldMore(pool, held - {client}, created, next, held[client]);
  }

  /** Serving a newcomer while nobody waits. */
  lemma ServeNow(served: seq<Client>, requested: seq<Client>, holders: set<Client>, client: Client)
    requires InOrder(served, [], requested, holders) && client !in requested
    ensures InOrder(served + [client], [], requested + [client], holders + {client}) && client !in holders
  {
    assert served == requested;
  }

  lemma ServeLater(served: seq<Client>, queue: seq<Client>, requested: seq<Client>, holders: set<Client>,
      client: Client)
    requires InOrder(served, queue, requested, holders) && client !in requested
    ensures InOrder(served, queue + [client], requested + [client], holders)
  {
    assert served + (queue + [client]) == requested + [client];
  }

  lemma ServeFirst(served: seq<Client>, queue: seq<Client>, requested: seq<Client>, holders: set<Client>,
      left: set<Client>)
    requires InOrder(served, queue, requested, holders) && queue != [] && left <= holders
    ensures InOrder(served + [queue[0]], queue[1..], requested, left + {queue[0]}) && queue[0] !in holders
  {
    assert served + [queue[0]] + queue[1..] == requested;
    assert requested[|served|] == queue[0];
    assert forall i :: 0 <= i < |served| ==> requested[i] == served[i];
  }

  lemma IdleKeeps(maxSize: nat, s: State, client: Client)
    requires Invariant(maxSize, s) && client !in s.requested && |s.pool| > 0
    ensures Invariant(maxSize, StepAcquire(maxSize, s, client))
  {
    hide Accounted, InOrder;
    ServeNow(s.served, s.requested, s.held.Keys, client);
    PopIdle(s.pool, s.held, s.created, client);
    OneMoreHolder(s.held, client, s.pool[|s.pool| - 1]);
  }

  lemma NewKeeps(maxSize: nat, s: State, client: Client)
    requires Invariant(maxSize, s) && client !in s.requested && |s.pool| == 0 && s.activeCount < maxSize
    ensures Invariant(maxSize, StepAcquire(maxSize, s, client))
  {
    hide Accounted, InOrder;
    ServeNow(s.served, s.requested, s.held.Keys, client);
    CreateOne(s.pool, s.held, s.created, client);
    OneMoreHolder(s.held, client, s.created);
  }

  lemma AcquireKeeps(maxSize: nat, s: State, client: Client)
    requires Invariant(maxSize, s) && client !in s.requested
    ensures Invariant(maxSize, StepAcquire(maxSize, s, client))
  {
    hide Accounted, InOrder;
    if |s.pool| > 0 {
      IdleKeeps(maxSize, s, client);
    } else if s.activeCount < maxSize {
      NewKeeps(maxSize, s, client);
    } else {
      ServeLater(s.served, s.queue, s.requested, s.held.Keys, client);
    }
  }

  lemma CreateOne(pool: seq<Driver>, held: map<Client, Driver>, created: nat, client: Client)
    requires Accounted(pool, held, created) && client !in held
    ensures Accounted(pool, held[client := created], created + 1)
    ensures |held[client := created]| == |held| + 1
  {
    HoldMore(pool, held, created + 1, client, created);
  }

  lemma ReleaseKeeps(maxSize: nat, s: State, client: Client)
    requires Invariant(maxSize, s) && client in s.held
    ensures Invariant(maxSize, StepRelease(s, client))
  {
    hide Accounted, InOrder;
    var left := s.held - {client};
    if s.queue != [] {
      ServeFirst(s.served, s.queue, s.requested, s.held.Keys, left.Keys);
      HandOver(s.pool, s.held, s.created, client, s.queue[0]);
      assert left[s.queue[0] := s.held[client]].Keys == left.Keys + {s.queue[0]};
    } else {
      PushIdle(s.pool, s.held, s.created, client);
      FewerHolders(s.served, s.queue, s.requested, s.held.Keys, left.Keys);
    }
  }

  lemma FewerHolders(served: seq<Client>, queue: seq<Client>, requested: seq<Client>, holders: set<Client>,
      left: set<Client>)
    requires InOrder(served, queue, requested, holders) && left <= holders
    ensures InOrder(served, queue, requested, left)
  {
  }

  // ----- whole runs -----

  predicate Possible(maxSize: nat, s: State, steps: seq<Action>)
    decreases |steps|
  {
    steps == [] || (Enabled(s, steps[0]) && Possible(maxSize, Step(maxSize, s, steps[0]), steps[1..]))
  }

  function Run(maxSize: nat, s: State, steps: seq<Action>): State
    requires Possible(maxSize, s, steps)
    decreases |steps|
  {
    if steps == [] then s else Run(maxSize, Step(maxSize, s, steps[0]), steps[1..])
  }

  /** The invariant holds after every possible run from an empty pool, whatever its size limit. */
  lemma {:induction false} RunKeeps(maxSize: nat, s: State, steps: seq<Action>)
    requires Invariant(maxSize, s) && Possible(maxSize, s, steps)
    ensures Invariant(maxSize, Run(maxSize, s, steps))
    decreases |steps|
  {
    hide Invariant;
    if steps != [] {
      match steps[0]
      case Acquire(client) =>
        AcquireKeeps(maxSize, s, client);
        RunKeeps(maxSize, Step(maxSize, s, steps[0]), steps[1..]);
      case Release(client) =>
        ReleaseKeeps(maxSize, s, client);
        RunKeeps(maxSize, Step(maxSize, s, steps[0]), steps[1..]);
    }
  }

  /** No driver is lost: every number below the creation count is idle or held, and by one client only. */
  lemma EveryDriverAccounted(maxSize: nat, s: State, d: Driver)
    requires Invariant(maxSize, s) && d < s.created
    ensures d in s.pool <==> !exists x :: x in s.held && s.held[x] == d
    ensures forall x, y :: x in s.held && y in s.held && s.held[x] == d && s.held[y] == d ==> x == y
  {
    DriverSomewhere(s.pool, s.held, s.created, d);
  }

  lemma DriverSomewhere(pool: seq<Driver>, held: map<Client, Driver>, created: nat, d: Driver)
    requires Accounted(pool, held, created) && d < created
    ensures d in pool || exists x :: x in held && held[x] == d
  {
    hide Members, Taken, Distinct, Injective;
    var idle, taken := Members(pool), Taken(held);
    forall e | e in taken
      ensures e < created && e !in idle
    {
      var x :| x in held && held[x] == e;
    }
    AllCovered(idle, taken, created, d);
  }

  /** Disjoint sets of numbers below n that are n together hold every number below n. */
  lemma AllCovered(idle: set<Driver>, taken: set<Driver>, n: nat, d: Driver)
    requires idle !! taken && |idle| + |taken| == n && d < n
    requires forall e :: e in idle || e in taken ==> e < n
    ensures d in idle || d in taken
  {
    hide Below;
    assert |idle + taken| == |idle| + |taken|;
    SubsetFull(idle + taken, Below(n));
    assert d in idle + taken;
  }

  function Members(pool: seq<Driver>): (r: set<Driver>)
    requires Distinct(pool)
    ensures |r| == |pool| && forall d :: d in r <==> d in pool
    decreases |pool|
  {
    if pool == [] then {} else
      var before := pool[..|pool| - 1];
      assert pool == before + [pool[|pool| - 1]];
      Members(before) + {pool[|pool| - 1]}
  }

  lemma WithoutHolder(held: map<Client, Driver>, x: Client)
    requires x in held
    ensures |held - {x}| == |held| - 1 && forall y :: y in held - {x} <==> y in held && y != x
  {
    assert (held - {x}).Keys == held.Keys - {x};
  }

  ghost function Taken(held: map<Client, Driver>): (r: set<Driver>)
    requires Injective(held)
    ensures |r| == |held| && forall d :: d in r ==> exists x :: x in held && held[x] == d
    decreases |held|
  {
    if |held| == 0 then {} else
      var x :| x in held;
      WithoutHolder(held, x);
      Taken(held - {x}) + {held[x]}
  }

  function Below(n: nat): (r: set<nat>)
    ensures |r| == n && forall d: nat :: d in r <==> d < n
  {
    if n == 0 then {} else Below(n - 1) + {n - 1}
  }

  lemma SubsetFull(a: set<nat>, b: set<nat>)
    requires a <= b && |a| == |b|
    ensures a == b
  {
    assert b == a + (b - a);
    assert |b| == |a| + |b - a|;
  }

  /** Clients are served in the order they asked. */
  lemma ServedInOrder(maxSize: nat, s: State, i: nat, j: nat)
    requires Invariant(maxSize, s) && i < j < |s.requested| && s.requested[j] in s.served
    ensures s.requested[i] in s.served
  {
    var g :| 0 <= g < |s.served| && s.served[g] == s.requested[j];
    assert s.requested[g] == s.served[g];
    assert g == j;
    assert s.served[i] == s.requested[i];
  }

  // ----- the pool itself -----

  class Pool {
    const maxSize: nat
    var pool: seq<Driver>
    var activeCount: int
    var queue: seq<Client>
    ghost var created: nat
    ghost var held: map<Client, Driver>
    ghost var requested: seq<Client>
    ghost var served: seq<Client>

    constructor (maxSize: nat)
      ensures this.maxSize == maxSize && Now() == INITIAL
    {
      this.maxSize := maxSize;
      pool, activeCount, queue, created, held, requested, served := [], 0, [], 0, map[], [], [];
    }

    ghost function Now(): State
      reads this
    {
      State(pool, activeCount, queue, created, held, requested, served)
    }

    /**
      `acquire`, up to its await: a driver at once, or a place in the queue. `newDriver` numbers the driver a
      constructor call would make.
     */
    method TryAcquire(client: Client, newDriver: Driver) returns (r: Option<Driver>)
      requires newDriver == created
      modifies this
      ensures Now() == StepAcquire(maxSize, old(Now()), client)
      ensures r.Some? <==> old(pool) != [] || old(activeCount) < maxSize
      ensures r.Some? ==> client in held && held[client] == r.value
      ensures old(pool) != [] ==>
        r == Some(old(pool)[|old(pool)| - 1]) && pool == old(pool)[..|old(pool)| - 1] && queue == old(queue)
      ensures old(pool) == [] && old(activeCount) < maxSize ==> r == Some(newDriver) && queue == old(queue)
      ensures r.None? ==> queue == old(queue) + [client] && pool == old(pool) && activeCount == old(activeCount)
      ensures r.Some? ==> activeCount == old(activeCount) + 1
    {
      requested := requested + [client];
      if |pool| > 0 {
        activeCount := activeCount + 1;
        var driver := pool[|pool| - 1];
        pool := pool[..|pool| - 1];
        held, served := held[client := driver], served + [client];
        return Some(driver);
      }
      if activeCount < maxSize {
        activeCount := activeCount + 1;
        created := created + 1;
        held, served := held[client := newDriver], served + [client];
        return Some(newDriver);
      }
      queue := queue + [client];
      return None;
    }

    /** `release`: returns the waiter the driver was handed to. */
    method ReleaseDriver(ghost client: Client, driver: Driver) returns (waiter: Option<Client>)
      requires client in held && held[client] == driver
      modifies this
      ensures Now() == StepRelease(old(Now()), client)
      ensures waiter == if old(queue) == [] then None else Some(old(queue)[0])
      ensures waiter.Some? ==> held == (old(held) - {client})[waiter.value := driver] && queue == old(queue)[1..]
      ensures waiter.Some? ==> pool == old(pool) && activeCount == old(activeCount)
      ensures waiter.None? ==> pool == old(pool) + [driver] && activeCount == old(activeCount) - 1
    {
      held := held - {client};
      activeCount := activeCount - 1;
      if |queue| > 0 {
        waiter := Some(queue[0]);
        queue := queue[1..];
        activeCount := activeCount + 1;
        held, served := held[waiter.value := driver], served + [waiter.value];
      } else {
        pool := pool + [driver];
        waiter := None;
      }
    }
  }
}
