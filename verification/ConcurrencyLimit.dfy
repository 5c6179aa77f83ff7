/**
  The keyed concurrency limiter. JavaScript runs each piece of it between two
  awaits without interruption, so a run is a sequence of acquires, releases and
  aborts in any interleaving.
 */
module ConcurrencyLimit {
  import opened Wrappers

  type Key = string

  /** One call passing through the limiter. */
  type Call = nat

  const MAX_SAFE_INTEGER := 0x1F_FFFF_FFFF_FFFF

  datatype Entry = Entry(id: nat, call: Call, hasSignal: bool)

  datatype Bucket = Bucket(active: nat, queue: seq<Entry>)

  datatype Limits = Limits(maxConcurrent: nat, maxQueue: Option<nat>)

  predicate ValidLimits(l: Limits) {
    l.maxConcurrent > 0
  }

  /**
    What became of a key's calls: those holding a slot now, those ever granted one,
    in order, and those let in at all, in order of arrival, less the aborted ones.
   */
  datatype Calls = Calls(holding: set<Call>, granted: seq<Call>, arrived: seq<Call>)

  datatype State = State(buckets: map<Key, Bucket>, nextTicketId: nat, calls: map<Key, Calls>)

  const INITIAL := State(map[], 0, map[])

  datatype Outcome = Granted | Queued | QueueFull | AlreadyAborted

  function BucketOf(s: State, k: Key): Bucket {
    if k in s.buckets then s.buckets[k] else Bucket(0, [])
  }

  function CallsOf(s: State, k: Key): Calls {
    if k in s.calls then s.calls[k] else Calls({}, [], [])
  }

  function Waiting(queue: seq<Entry>): (r: seq<Call>)
    ensures |r| == |queue|
    ensures forall i :: 0 <= i < |queue| ==> r[i] == queue[i].call
  {
    if queue == [] then [] else [queue[0].call] + Waiting(queue[1..])
  }

  // ----- one atomic step -----

  datatype Action =
    | Acquire(key: Key, call: Call, hasSignal: bool, aborted: bool)
    | Release(key: Key, call: Call)
    | Abort(key: Key, call: Call, id: nat)

  /** A key's bucket and calls after a step; an empty bucket is dropped. */
  function Store(s: State, k: Key, b: Bucket, c: Calls): State {
    var buckets := if b.active == 0 && b.queue == [] then s.buckets - {k} else s.buckets[k := b];
    State(buckets, s.nextTicketId, s.calls[k := c])
  }

  function NextTicket(id: nat): nat {
    if id + 1 > MAX_SAFE_INTEGER then 0 else id + 1
  }

  function AcquireOutcome(l: Limits, s: State, a: Action): Outcome
    requires a.Acquire?
  {
    var b := BucketOf(s, a.key);
    if b.active < l.maxConcurrent then Granted
    else if l.maxQueue.Some? && |b.queue| >= l.maxQueue.value then QueueFull
    else if a.hasSignal && a.aborted then AlreadyAborted
    else Queued
  }

  function StepAcquire(l: Limits, s: State, a: Action): State
    requires a.Acquire?
  {
    var b, c := BucketOf(s, a.key), CallsOf(s, a.key);
    match AcquireOutcome(l, s, a)
    case Granted =>
      Store(s, a.key, b.(active := b.active + 1),
            Calls(c.holding + {a.call}, c.granted + [a.call], c.arrived + [a.call]))
    case Queued =>
      Store(s, a.key, b.(queue := b.queue + [Entry(s.nextTicketId, a.call, a.hasSignal)]),
            c.(arrived := c.arrived + [a.call])).(nextTicketId := NextTicket(s.nextTicketId))
    case _ => s
  }

  /** `promoteNext`: hands free slots to the front of the queue. */
  function Promote(l: Limits, b: Bucket, c: Calls): (Bucket, Calls)
    decreases |b.queue|
  {
    if b.active < l.maxConcurrent && b.queue != [] then
      var call := b.queue[0].call;
      Promote(l, Bucket(b.active + 1, b.queue[1..]), Calls(c.holding + {call}, c.granted + [call], c.arrived))
    else (b, c)
  }

  function StepRelease(l: Limits, s: State, k: Key, call: Call): State {
    if k !in s.buckets then s
    else
      var b, c := s.buckets[k], CallsOf(s, k);
      var freed := b.(active := if b.active == 0 then 0 else b.active - 1);
      var after := Promote(l, freed, c.(holding := c.holding - {call}));
      Store(s, k, after.0, after.1)
  }

  /** The index of the entry with a ticket id, from index `i` on. */
  function FindTicket(queue: seq<Entry>, id: nat, i: nat): (r: Option<nat>)
    requires i <= |queue|
    ensures r.Some? ==> i <= r.value < |queue| && queue[r.value].id == id
    ensures r.None? ==> forall j :: i <= j < |queue| ==> queue[j].id != id
    decreases |queue| - i
  {
    if i == |queue| then None
    else if queue[i].id == id then Some(i)
    else FindTicket(queue, id, i + 1)
  }

  function Without<T>(s: seq<T>, i: nat): (r: seq<T>)
    requires i < |s|
    ensures |r| == |s| - 1
  {
    s[..i] + s[i + 1..]
  }

  /** The sequence without its first occurrence of a call. */
  function Minus(s: seq<Call>, call: Call): seq<Call> {
    if s == [] then [] else if s[0] == call then s[1..] else [s[0]] + Minus(s[1..], call)
  }

  /** The abort handler of a call that drew ticket `id`: it removes the first entry with that id. */
  function StepAbort(s: State, k: Key, call: Call, id: nat): State {
    if k !in s.buckets then s
    else
      var b, c := s.buckets[k], CallsOf(s, k);
      match FindTicket(b.queue, id, 0)
      case None => Store(s, k, b, c)
      case Some(i) => Store(s, k, b.(queue := Without(b.queue, i)), c.(arrived := Minus(c.arrived, call)))
  }

  function Step(l: Limits, s: State, a: Action): State {
    match a
    case Acquire(_, _, _, _) => StepAcquire(l, s, a)
    case Release(k, call) => StepRelease(l, s, k, call)
    case Abort(k, call, id) => StepAbort(s, k, call, id)
  }

  /**
    The steps that can happen: a call is new when it acquires, only a call holding a
    slot releases it, and only a call still queued with a signal has its handler installed.
   */
  predicate Enabled(s: State, a: Action) {
    match a
    case Acquire(k, call, _, _) => call !in CallsOf(s, k).arrived
    case Release(k, call) => call in CallsOf(s, k).holding
    case Abort(k, call, id) => Entry(id, call, true) in BucketOf(s, k).queue
  }

  /**
    A call that queues with a signal draws a ticket no one waiting for its key holds: so it is until the
    counter starts again from 0. Without a signal a call never looks for its entry.
   */
  predicate Fresh(l: Limits, s: State, a: Action) {
    a.Acquire? && a.hasSignal && AcquireOutcome(l, s, a) == Queued ==>
      forall i :: 0 <= i < |BucketOf(s, a.key).queue| ==> BucketOf(s, a.key).queue[i].id != s.nextTicketId
  }

  // ----- the invariant -----

  predicate Distinct<T(==)>(s: seq<T>) {
    forall i, j :: 0 <= i < j < |s| ==> s[i] != s[j]
  }

  predicate KeyInvariant(l: Limits, b: Bucket, c: Calls) {
    && b.active == |c.holding| <= l.maxConcurrent
    && (b.queue != [] ==> b.active == l.maxConcurrent)
    && (l.maxQueue.Some? ==> |b.queue| <= l.maxQueue.value)
    && c.granted + Waiting(b.queue) == c.arrived
    && Distinct(c.arrived)
    && (forall x :: x in c.holding ==> x in c.granted)
    && Tickets(b.queue)
  }

  /** No call that could abort waits behind another with its ticket. */
  predicate Tickets(queue: seq<Entry>) {
    forall i, j :: 0 <= i < j < |queue| && queue[j].hasSignal ==> queue[i].id != queue[j].id
  }

  /**
    For every key: the active count is the number of holders and within the limit; a
    queue means all slots are taken; the queue is within its limit; grants so far
    followed by the waiting calls are the arrivals in order. A bucket is stored
    exactly for the keys with a holder or a waiter.
   */
  ghost predicate Invariant(l: Limits, s: State) {
    && (forall k :: KeyInvariant(l, BucketOf(s, k), CallsOf(s, k)))
    && (forall k :: k in s.buckets <==> CallsOf(s, k).holding != {} || BucketOf(s, k).queue != [])
  }

  lemma InitialInvariant(l: Limits)
    ensures Invariant(l, INITIAL)
  {
  }

  lemma DistinctSnoc<T>(s: seq<T>, x: T)
    requires Distinct(s) && x !in s
    ensures Distinct(s + [x])
  {
  }

  lemma {:induction false} WaitingSnoc(queue: seq<Entry>, e: Entry)
    ensures Waiting(queue + [e]) == Waiting(queue) + [e.call]
  {
    if queue != [] {
      assert (queue + [e])[1..] == queue[1..] + [e];
      WaitingSnoc(queue[1..], e);
    }
  }

  /** A new call takes a free slot. */
  lemma TakeSlot(l: Limits, b: Bucket, c: Calls, call: Call)
    requires KeyInvariant(l, b, c) && b.active < l.maxConcurrent && call !in c.arrived
    ensures KeyInvariant(l, b.(active := b.active + 1),
      Calls(c.holding + {call}, c.granted + [call], c.arrived + [call]))
  {
    assert b.queue == [] && c.granted + [] == c.granted == c.arrived;
    assert |c.holding + {call}| == |c.holding| + 1;
    DistinctSnoc(c.arrived, call);
    assert (c.granted + [call]) + Waiting([]) == c.arrived + [call];
  }

  /** A new call joins the queue with a ticket no one else there holds. */
  lemma JoinQueue(l: Limits, b: Bucket, c: Calls, e: Entry)
    requires KeyInvariant(l, b, c) && b.active >= l.maxConcurrent && e.call !in c.arrived
    requires e.hasSignal ==> forall i :: 0 <= i < |b.queue| ==> b.queue[i].id != e.id
    requires l.maxQueue.Some? ==> |b.queue| < l.maxQueue.value
    ensures KeyInvariant(l, b.(queue := b.queue + [e]), c.(arrived := c.arrived + [e.call]))
  {
    WaitingSnoc(b.queue, e);
    DistinctSnoc(c.arrived, e.call);
    assert c.granted + (Waiting(b.queue) + [e.call]) == c.arrived + [e.call];
  }

  /** What a release leaves of a key: its first waiter takes the slot, if there is one. */
  function Released(b: Bucket, c: Calls, call: Call): (Bucket, Calls)
    requires b.active > 0
  {
    if b.queue == [] then (b.(active := b.active - 1), c.(holding := c.holding - {call}))
    else
      var first := b.queue[0].call;
      (b.(queue := b.queue[1..]), Calls(c.holding - {call} + {first}, c.granted + [first], c.arrived))
  }

  lemma PromoteAfterRelease(l: Limits, b: Bucket, c: Calls, call: Call)
    requires KeyInvariant(l, b, c) && call in c.holding
    ensures b.active > 0
    ensures Promote(l, b.(active := b.active - 1), c.(holding := c.holding - {call})) == Released(b, c, call)
  {
  }

  lemma FirstWaiterIsNew(l: Limits, b: Bucket, c: Calls)
    requires KeyInvariant(l, b, c) && b.queue != []
    ensures b.queue[0].call !in c.holding
  {
    assert c.arrived[|c.granted|] == b.queue[0].call;
    forall i | 0 <= i < |c.granted|
      ensures c.granted[i] != b.queue[0].call
    {
      assert c.arrived[i] == c.granted[i];
    }
  }

  lemma ReleaseSlotKeeps(l: Limits, b: Bucket, c: Calls, call: Call)
    requires KeyInvariant(l, b, c) && call in c.holding && b.active > 0
    ensures KeyInvariant(l, Released(b, c, call).0, Released(b, c, call).1)
  {
    var rest := c.holding - {call};
    assert |rest| == |c.holding| - 1;
    if b.queue != [] {
      var first, tail := b.queue[0].call, b.queue[1..];
      FirstWaiterIsNew(l, b, c);
      assert |rest + {first}| == |rest| + 1;
      assert c.granted + [first] + Waiting(tail) == c.granted + ([first] + Waiting(tail));
    }
  }

  lemma {:induction false} WaitingWithout(queue: seq<Entry>, i: nat)
    requires i < |queue|
    ensures Waiting(Without(queue, i)) == Without(Waiting(queue), i)
  {
  }

  lemma WithoutElements<T>(s: seq<T>, i: nat)
    requires i < |s|
    ensures forall x :: 0 <= x < |s| - 1 ==> Without(s, i)[x] == s[if x < i then x else x + 1]
  {
  }

  lemma {:induction false} MinusAt(s: seq<Call>, i: nat)
    requires i < |s| && Distinct(s)
    ensures Minus(s, s[i]) == Without(s, i)
    decreases |s|
  {
    if i > 0 {
      assert s[0] != s[i];
      assert Distinct(s[1..]) by { assert forall j :: 0 <= j < |s[1..]| ==> s[1..][j] == s[j + 1]; }
      MinusAt(s[1..], i - 1);
    }
  }

  /** A waiter leaves the queue. */
  lemma LeaveQueue(l: Limits, b: Bucket, c: Calls, i: nat)
    requires KeyInvariant(l, b, c) && i < |b.queue|
    ensures KeyInvariant(l, b.(queue := Without(b.queue, i)), c.(arrived := Minus(c.arrived, b.queue[i].call)))
  {
    hide Without, Waiting, Tickets, Distinct, Minus;
    WaitingWithout(b.queue, i);
    WithoutSuffix(c.granted, Waiting(b.queue), i);
    WithoutDistinct(c.arrived, |c.granted| + i);
    WithoutTickets(b.queue, i);
    assert c.arrived[|c.granted| + i] == b.queue[i].call;
    MinusAt(c.arrived, |c.granted| + i);
  }

  lemma WithoutDistinct<T>(s: seq<T>, i: nat)
    requires i < |s| && Distinct(s)
    ensures Distinct(Without(s, i))
  {
    WithoutElements(s, i);
  }

  lemma WithoutTickets(queue: seq<Entry>, i: nat)
    requires i < |queue| && Tickets(queue)
    ensures Tickets(Without(queue, i))
  {
    hide Without;
    WithoutElements(queue, i);
  }

  lemma WithoutSuffix<T>(a: seq<T>, b: seq<T>, i: nat)
    requires i < |b|
    ensures Without(a + b, |a| + i) == a + Without(b, i)
  {
  }

  /** A step on one key that leaves its own invariant and stores its bucket rightly keeps the whole. */
  lemma OtherKeys(l: Limits, s: State, t: State, k: Key)
    requires Invariant(l, s) && KeyInvariant(l, BucketOf(t, k), CallsOf(t, k))
    requires k in t.buckets <==> CallsOf(t, k).holding != {} || BucketOf(t, k).queue != []
    requires forall j :: j != k ==> (j in s.buckets <==> j in t.buckets)
    requires forall j :: j != k ==> BucketOf(t, j) == BucketOf(s, j) && CallsOf(t, j) == CallsOf(s, j)
    ensures Invariant(l, t)
  {
    hide KeyInvariant;
    forall j
      ensures KeyInvariant(l, BucketOf(t, j), CallsOf(t, j))
    {
      assert KeyInvariant(l, BucketOf(s, j), CallsOf(s, j));
    }
  }

  lemma HoldersCounted(l: Limits, b: Bucket, c: Calls)
    requires KeyInvariant(l, b, c)
    ensures c.holding != {} <==> b.active != 0
  {
    assert c.holding != {} <==> |c.holding| != 0;
  }

  lemma StoreKeeps(l: Limits, s: State, k: Key, b: Bucket, c: Calls, next: nat)
    requires Invariant(l, s) && KeyInvariant(l, b, c)
    ensures Invariant(l, Store(s, k, b, c).(nextTicketId := next))
  {
    hide KeyInvariant;
    var t := Store(s, k, b, c).(nextTicketId := next);
    assert BucketOf(t, k) == b && CallsOf(t, k) == c;
    HoldersCounted(l, b, c);
    OtherKeys(l, s, t, k);
  }

  lemma AcquireKeeps(l: Limits, s: State, a: Action)
    requires ValidLimits(l) && Invariant(l, s) && a.Acquire? && Enabled(s, a) && Fresh(l, s, a)
    ensures Invariant(l, StepAcquire(l, s, a))
  {
    hide KeyInvariant;
    var k, call, next := a.key, a.call, s.nextTicketId;
    var b, c := BucketOf(s, k), CallsOf(s, k);
    assert KeyInvariant(l, b, c);
    match AcquireOutcome(l, s, a)
    case Granted =>
      TakeSlot(l, b, c, call);
      StoreKeeps(l, s, k, b.(active := b.active + 1),
                 Calls(c.holding + {call}, c.granted + [call], c.arrived + [call]), next);
    case Queued =>
      var e := Entry(next, call, a.hasSignal);
      JoinQueue(l, b, c, e);
      StoreKeeps(l, s, k, b.(queue := b.queue + [e]), c.(arrived := c.arrived + [call]), NextTicket(next));
    case _ =>
  }

  lemma HolderHasBucket(l: Limits, s: State, k: Key, call: Call)
    requires Invariant(l, s) && call in CallsOf(s, k).holding
    ensures k in s.buckets
  {
  }

  lemma ReleaseKeeps(l: Limits, s: State, k: Key, call: Call)
    requires ValidLimits(l) && Invariant(l, s) && Enabled(s, Release(k, call))
    ensures Invariant(l, StepRelease(l, s, k, call))
  {
    hide KeyInvariant, Promote;
    var b, c := BucketOf(s, k), CallsOf(s, k);
    assert KeyInvariant(l, b, c);
    HolderHasBucket(l, s, k, call);
    PromoteAfterRelease(l, b, c, call);
    ReleaseSlotKeeps(l, b, c, call);
    StoreKeeps(l, s, k, Released(b, c, call).0, Released(b, c, call).1, s.nextTicketId);
  }

  lemma AbortKeeps(l: Limits, s: State, k: Key, call: Call, id: nat)
    requires ValidLimits(l) && Invariant(l, s) && Enabled(s, Abort(k, call, id))
    ensures Invariant(l, StepAbort(s, k, call, id))
  {
    hide KeyInvariant;
    var b, c := BucketOf(s, k), CallsOf(s, k);
    assert KeyInvariant(l, b, c);
    OwnTicket(l, b, c, call, id);
    var i := FindTicket(b.queue, id, 0).value;
    LeaveQueue(l, b, c, i);
    StoreKeeps(l, s, k, b.(queue := Without(b.queue, i)), c.(arrived := Minus(c.arrived, call)), s.nextTicketId);
  }

  /** An abort takes its own call, and no other, out of the queue; nothing else changes. */
  lemma AbortRemoves(l: Limits, s: State, k: Key, call: Call, id: nat)
    requires ValidLimits(l) && Invariant(l, s) && Enabled(s, Abort(k, call, id))
    ensures var b, t := BucketOf(s, k), StepAbort(s, k, call, id);
      && BucketOf(t, k).active == b.active && call !in CallsOf(t, k).arrived
      && CallsOf(t, k).holding == CallsOf(s, k).holding && CallsOf(t, k).granted == CallsOf(s, k).granted
      && (exists i :: 0 <= i < |b.queue| && b.queue[i] == Entry(id, call, true)
            && BucketOf(t, k).queue == b.queue[..i] + b.queue[i + 1..])
      && forall other :: other != k ==>
           BucketOf(t, other) == BucketOf(s, other) && CallsOf(t, other) == CallsOf(s, other)
  {
    hide KeyInvariant, Minus;
    var b, c := BucketOf(s, k), CallsOf(s, k);
    assert KeyInvariant(l, b, c);
    OwnTicket(l, b, c, call, id);
    var i := FindTicket(b.queue, id, 0).value;
    var t := StepAbort(s, k, call, id);
    assert BucketOf(t, k).queue == b.queue[..i] + b.queue[i + 1..];
    AbortKeeps(l, s, k, call, id);
    assert KeyInvariant(l, BucketOf(t, k), CallsOf(t, k));
    LeftOut(l, b, c, BucketOf(t, k), CallsOf(t, k), i);
  }

  lemma LeftOut(l: Limits, b: Bucket, c: Calls, after: Bucket, calls: Calls, i: nat)
    requires KeyInvariant(l, b, c) && KeyInvariant(l, after, calls) && i < |b.queue|
    requires after.queue == b.queue[..i] + b.queue[i + 1..] && calls.granted == c.granted
    ensures b.queue[i].call !in calls.arrived
  {
    var call, n := b.queue[i].call, |c.granted|;
    assert c.arrived[n + i] == call;
    forall j | 0 <= j < |calls.arrived|
      ensures calls.arrived[j] != call
    {
      var m := if j < n + i then j else j + 1;
      assert calls.arrived[j] == c.arrived[m];
    }
  }

  /** The entry an abort handler finds is its own call's. */
  lemma OwnTicket(l: Limits, b: Bucket, c: Calls, call: Call, id: nat)
    requires KeyInvariant(l, b, c) && Entry(id, call, true) in b.queue
    ensures FindTicket(b.queue, id, 0).Some? && b.queue[FindTicket(b.queue, id, 0).value] == Entry(id, call, true)
  {
    var j :| 0 <= j < |b.queue| && b.queue[j] == Entry(id, call, true);
    FindIsFirst(b.queue, id, 0, j);
  }

  /** Where the waiting calls stand among the arrivals. */
  lemma ArrivedAt(l: Limits, b: Bucket, c: Calls, j: nat)
    requires KeyInvariant(l, b, c) && j < |b.queue|
    ensures |c.arrived| == |c.granted| + |b.queue| && c.arrived[|c.granted| + j] == b.queue[j].call
    ensures b.queue[j].call !in c.granted
    ensures forall i :: 0 <= i < |b.queue| && i != j ==> b.queue[i] != b.queue[j]
  {
    hide Tickets;
    assert forall i :: 0 <= i < |b.queue| ==> c.arrived[|c.granted| + i] == b.queue[i].call;
    assert forall i :: 0 <= i < |c.granted| ==> c.arrived[i] == c.granted[i];
  }

  lemma FirstHolderLeaves(l: Limits, b: Bucket, c: Calls, j: nat, mine: Entry)
    requires KeyInvariant(l, b, c) && FindTicket(b.queue, mine.id, 0) == Some(j) && mine.call !in c.arrived
    ensures var queue := b.queue + [mine];
      FindTicket(queue, mine.id, 0) == Some(j) && mine in Without(queue, j) && b.queue[j] !in Without(queue, j)
    ensures b.queue[j].call in Minus(c.arrived + [mine.call], mine.call) && b.queue[j].call !in c.granted
  {
    hide KeyInvariant, FindTicket, Minus, Without;
    var queue, at := b.queue + [mine], |c.granted| + j;
    ArrivedAt(l, b, c, j);
    FindInFront(b.queue, mine, 0);
    WithoutElements(queue, j);
    assert Without(queue, j)[|queue| - 2] == mine;
    assert (c.arrived + [mine.call])[at] == b.queue[j].call != mine.call;
    MinusOther(c.arrived + [mine.call], mine.call, at);
  }

  lemma {:induction false} FindInFront(queue: seq<Entry>, last: Entry, i: nat)
    requires i <= |queue|
    ensures FindTicket(queue + [last], last.id, i) ==
      if FindTicket(queue, last.id, i).Some? then FindTicket(queue, last.id, i) else Some(|queue|)
    decreases |queue| - i
  {
    if i < |queue| && queue[i].id != last.id {
      FindInFront(queue, last, i + 1);
    }
  }

  /**
    The condition is needed: a call with a signal that draws a ticket someone already waits with, and then
    aborts, takes the other's place away and stays queued itself.
   */
  lemma ReusedTicketDropsAnother(l: Limits, s: State, k: Key, call: Call)
    requires ValidLimits(l) && Invariant(l, s)
    requires Enabled(s, Acquire(k, call, true, false)) && AcquireOutcome(l, s, Acquire(k, call, true, false)) == Queued
    requires !Fresh(l, s, Acquire(k, call, true, false))
    ensures var t := Step(l, s, Acquire(k, call, true, false));
      var u := Step(l, t, Abort(k, call, s.nextTicketId));
      && Enabled(t, Abort(k, call, s.nextTicketId))
      && Entry(s.nextTicketId, call, true) in BucketOf(u, k).queue
      && exists waiter :: waiter in BucketOf(s, k).queue && waiter !in BucketOf(u, k).queue
           && waiter.call in CallsOf(u, k).arrived && waiter.call !in CallsOf(u, k).granted
  {
    hide KeyInvariant, FindTicket, Minus, Without;
    var b, c := BucketOf(s, k), CallsOf(s, k);
    assert KeyInvariant(l, b, c);
    var j := FindTicket(b.queue, s.nextTicketId, 0).value;
    FirstHolderLeaves(l, b, c, j, Entry(s.nextTicketId, call, true));
    var u := Step(l, Step(l, s, Acquire(k, call, true, false)), Abort(k, call, s.nextTicketId));
    assert b.queue[j] in BucketOf(s, k).queue && b.queue[j] !in BucketOf(u, k).queue;
  }

  lemma {:induction false} FindIsFirst(queue: seq<Entry>, id: nat, i: nat, j: nat)
    requires i <= j < |queue| && queue[j].id == id
    ensures FindTicket(queue, id, i).Some? && FindTicket(queue, id, i).value <= j
    decreases j - i
  {
    if queue[i].id != id {
      FindIsFirst(queue, id, i + 1, j);
    }
  }

  lemma {:induction false} MinusOther(s: seq<Call>, call: Call, i: nat)
    requires i < |s| && s[i] != call
    ensures s[i] in Minus(s, call)
    decreases |s|
  {
    if s[0] == call {
      assert s[1..][i - 1] == s[i];
    } else if i > 0 {
      MinusOther(s[1..], call, i - 1);
    }
  }

  // ----- whole runs -----

  function Run(l: Limits, s: State, steps: seq<Action>): State
    decreases |steps|
  {
    if steps == [] then s else Run(l, Step(l, s, steps[0]), steps[1..])
  }

  predicate Possible(l: Limits, s: State, steps: seq<Action>)
    decreases |steps|
  {
    steps == [] || (Enabled(s, steps[0]) && Possible(l, Step(l, s, steps[0]), steps[1..]))
  }

  /** Every ticket drawn in the run is fresh. */
  predicate FreshTickets(l: Limits, s: State, steps: seq<Action>)
    decreases |steps|
  {
    steps == [] || (Fresh(l, s, steps[0]) && FreshTickets(l, Step(l, s, steps[0]), steps[1..]))
  }

  lemma StepKeeps(l: Limits, s: State, a: Action)
    requires ValidLimits(l) && Invariant(l, s) && Enabled(s, a) && Fresh(l, s, a)
    ensures Invariant(l, Step(l, s, a))
  {
    hide Invariant, Fresh;
    match a
    case Acquire(_, _, _, _) => AcquireKeeps(l, s, a);
    case Release(k, call) => ReleaseKeeps(l, s, k, call);
    case Abort(k, call, id) => AbortKeeps(l, s, k, call, id);
  }

  /** The invariant holds throughout every possible run in which tickets are fresh. */
  lemma {:induction false} RunKeeps(l: Limits, s: State, steps: seq<Action>)
    requires ValidLimits(l) && Invariant(l, s) && Possible(l, s, steps) && FreshTickets(l, s, steps)
    ensures Invariant(l, Run(l, s, steps))
    decreases |steps|
  {
    hide Invariant, Enabled, Fresh;
    if steps != [] {
      StepKeeps(l, s, steps[0]);
      RunKeeps(l, Step(l, s, steps[0]), steps[1..]);
    }
  }

  /** Every ticket held in a queue was drawn already. */
  ghost predicate Drawn(s: State) {
    forall k, i :: 0 <= i < |BucketOf(s, k).queue| ==> BucketOf(s, k).queue[i].id < s.nextTicketId
  }

  lemma {:induction false} PromoteTakesFirst(l: Limits, b: Bucket, c: Calls)
    ensures var left := Promote(l, b, c).0.queue; |left| <= |b.queue| && left == b.queue[|b.queue| - |left|..]
    decreases |b.queue|
  {
    if b.active < l.maxConcurrent && b.queue != [] {
      var call := b.queue[0].call;
      PromoteTakesFirst(l, Bucket(b.active + 1, b.queue[1..]),
                        Calls(c.holding + {call}, c.granted + [call], c.arrived));
    }
  }

  /** Each entry in a queue after a step was there before, or holds the ticket just drawn. */
  lemma StepQueue(l: Limits, s: State, a: Action, k: Key, i: nat)
    requires i < |BucketOf(Step(l, s, a), k).queue|
    ensures var e := BucketOf(Step(l, s, a), k).queue[i];
      || e in BucketOf(s, k).queue
      || (a.Acquire? && AcquireOutcome(l, s, a) == Queued && e.id == s.nextTicketId)
  {
    hide Promote, FindTicket;
    var b, c := BucketOf(s, k), CallsOf(s, k);
    if a.key == k && a.Release? && k in s.buckets {
      PromoteTakesFirst(l, b.(active := if b.active == 0 then 0 else b.active - 1),
                        c.(holding := c.holding - {a.call}));
    } else if a.key == k && a.Abort? && k in s.buckets && FindTicket(b.queue, a.id, 0).Some? {
      WithoutElements(b.queue, FindTicket(b.queue, a.id, 0).value);
    }
  }

  /** Until 2^53 - 1 tickets have been drawn, they are fresh. */
  lemma {:induction false} FreshUntilWrap(l: Limits, s: State, steps: seq<Action>)
    requires Drawn(s) && s.nextTicketId + |steps| <= MAX_SAFE_INTEGER
    ensures FreshTickets(l, s, steps)
    decreases |steps|
  {
    if steps != [] {
      var t := Step(l, s, steps[0]);
      forall k, i | 0 <= i < |BucketOf(t, k).queue|
        ensures BucketOf(t, k).queue[i].id < t.nextTicketId
      {
        StepQueue(l, s, steps[0], k, i);
      }
      FreshUntilWrap(l, t, steps[1..]);
    }
  }

  // ----- when tickets come back -----

  lemma {:induction false} RunConcat(l: Limits, s: State, a: seq<Action>, b: seq<Action>)
    ensures Run(l, s, a + b) == Run(l, Run(l, s, a), b)
    ensures Possible(l, s, a + b) <==> Possible(l, s, a) && Possible(l, Run(l, s, a), b)
    ensures FreshTickets(l, s, a + b) <==> FreshTickets(l, s, a) && FreshTickets(l, Run(l, s, a), b)
    decreases |a|
  {
    hide Step, Enabled, Fresh;
    if a == [] {
      assert a + b == b;
    } else {
      assert (a + b)[0] == a[0] && (a + b)[1..] == a[1..] + b;
      RunConcat(l, Step(l, s, a[0]), a[1..], b);
    }
  }

  /** The calls 0 to n - 1 take free slots. */
  function Fill(k: Key, n: nat): seq<Action> {
    if n == 0 then [] else Fill(k, n - 1) + [Acquire(k, n - 1, false, false)]
  }

  lemma {:induction false} Filled(l: Limits, k: Key, n: nat)
    requires n <= l.maxConcurrent
    ensures Possible(l, INITIAL, Fill(k, n)) && FreshTickets(l, INITIAL, Fill(k, n))
    ensures var s := Run(l, INITIAL, Fill(k, n));
      && BucketOf(s, k) == Bucket(n, []) && s.nextTicketId == 0
      && forall x :: x in CallsOf(s, k).arrived ==> x < n
    decreases n
  {
    hide Run, Possible, FreshTickets;
    if n == 0 {
      NoSteps(l, INITIAL);
    } else {
      Filled(l, k, n - 1);
      var s := Run(l, INITIAL, Fill(k, n - 1));
      RunConcat(l, INITIAL, Fill(k, n - 1), [Acquire(k, n - 1, false, false)]);
      OneStep(l, s, Acquire(k, n - 1, false, false));
    }
  }

  lemma NoSteps(l: Limits, s: State)
    ensures Run(l, s, []) == s && Possible(l, s, []) && FreshTickets(l, s, [])
  {
  }

  lemma OneStep(l: Limits, s: State, a: Action)
    ensures Run(l, s, [a]) == Step(l, s, a)
    ensures Possible(l, s, [a]) <==> Enabled(s, a)
    ensures FreshTickets(l, s, [a]) <==> Fresh(l, s, a)
  {
    hide Step, Enabled, Fresh;
    assert [a][1..] == [];
    NoSteps(l, Step(l, s, a));
  }

  /** A call queues and aborts, n times over; `id` is its first ticket. */
  function Spin(k: Key, call: Call, id: nat, n: nat): seq<Action>
    decreases n
  {
    if n == 0 then [] else [Acquire(k, call, true, false)] + [Abort(k, call, id)] + Spin(k, call, id + 1, n - 1)
  }

  /** All slots are taken, one call waits with ticket 0, and one more may queue. */
  predicate OneWaits(l: Limits, s: State, k: Key, call: Call) {
    && BucketOf(s, k).active == l.maxConcurrent > 0 && |BucketOf(s, k).queue| == 1 && BucketOf(s, k).queue[0].id == 0
    && (l.maxQueue.Some? ==> l.maxQueue.value >= 2) && call !in CallsOf(s, k).arrived
  }

  lemma SpinOnce(l: Limits, s: State, k: Key, call: Call)
    requires OneWaits(l, s, k, call) && s.nextTicketId > 0
    ensures var q, a := Acquire(k, call, true, false), Abort(k, call, s.nextTicketId);
      var t := Step(l, s, q);
      && Enabled(s, q) && Fresh(l, s, q) && Enabled(t, a) && Fresh(l, t, a)
      && OneWaits(l, Step(l, t, a), k, call) && Step(l, t, a).nextTicketId == NextTicket(s.nextTicketId)
  {
    hide Minus;
    var b, c := BucketOf(s, k), CallsOf(s, k);
    var mine := Entry(s.nextTicketId, call, true);
    FindInFront(b.queue, mine, 0);
    assert Without(b.queue + [mine], 1) == b.queue;
    MinusLast(c.arrived, call);
  }

  lemma {:induction false} MinusLast(s: seq<Call>, call: Call)
    requires call !in s
    ensures Minus(s + [call], call) == s
    decreases |s|
  {
    if s != [] {
      assert (s + [call])[1..] == s[1..] + [call];
      MinusLast(s[1..], call);
    }
  }

  lemma {:induction false} Spun(l: Limits, s: State, k: Key, call: Call, n: nat)
    requires OneWaits(l, s, k, call) && 0 < s.nextTicketId && s.nextTicketId + n == MAX_SAFE_INTEGER + 1
    ensures var steps := Spin(k, call, s.nextTicketId, n);
      && Possible(l, s, steps) && FreshTickets(l, s, steps)
      && OneWaits(l, Run(l, s, steps), k, call)
      && Run(l, s, steps).nextTicketId == if n == 0 then MAX_SAFE_INTEGER + 1 else 0
    decreases n
  {
    hide Run, Possible, FreshTickets, Step, Enabled, Fresh, OneWaits;
    if n == 0 {
      NoSteps(l, s);
    } else {
      var q, a := Acquire(k, call, true, false), Abort(k, call, s.nextTicketId);
      var rest := Spin(k, call, s.nextTicketId + 1, n - 1);
      var t := Step(l, s, q);
      var u := Step(l, t, a);
      SpinOnce(l, s, k, call);
      if n > 1 {
        Spun(l, u, k, call, n - 1);
      } else {
        NoSteps(l, u);
      }
      RunConcat(l, s, [q] + [a], rest);
      RunConcat(l, s, [q], [a]);
      OneStep(l, s, q);
      OneStep(l, t, a);
    }
  }

  /** After 2^53 - 1 calls that give up, the counter is back at the ticket of a call that still waits. */
  lemma TicketComesBack(l: Limits, k: Key) returns (steps: seq<Action>, call: Call)
    requires ValidLimits(l) && (l.maxQueue.Some? ==> l.maxQueue.value >= 2)
    ensures Possible(l, INITIAL, steps) && FreshTickets(l, INITIAL, steps)
    ensures var s := Run(l, INITIAL, steps); var a := Acquire(k, call, true, false);
      Enabled(s, a) && AcquireOutcome(l, s, a) == Queued && !Fresh(l, s, a)
  {
    hide Run, Possible, FreshTickets, Step;
    var n := l.maxConcurrent;
    var wait := Acquire(k, n, true, false);
    call := n + 1;
    Filled(l, k, n);
    var full := Run(l, INITIAL, Fill(k, n));
    WaitsAfter(l, full, k, n);
    var s := Step(l, full, wait);
    OneStep(l, full, wait);
    Spun(l, s, k, call, MAX_SAFE_INTEGER);
    RunConcat(l, INITIAL, Fill(k, n), [wait]);
    RunConcat(l, INITIAL, Fill(k, n) + [wait], Spin(k, call, 1, MAX_SAFE_INTEGER));
    steps := Fill(k, n) + [wait] + Spin(k, call, 1, MAX_SAFE_INTEGER);
  }

  lemma WaitsAfter(l: Limits, s: State, k: Key, n: nat)
    requires ValidLimits(l) && n == l.maxConcurrent && (l.maxQueue.Some? ==> l.maxQueue.value >= 2)
    requires BucketOf(s, k) == Bucket(n, []) && s.nextTicketId == 0
    requires forall x :: x in CallsOf(s, k).arrived ==> x < n
    ensures var a := Acquire(k, n, true, false); var t := Step(l, s, a);
      Enabled(s, a) && Fresh(l, s, a) && OneWaits(l, t, k, n + 1) && t.nextTicketId == 1
  {
  }

  /** Where at most one call can wait, tickets need not even differ. */
  lemma {:induction false} ShortQueueFresh(l: Limits, s: State, steps: seq<Action>)
    requires l.maxQueue.Some? && l.maxQueue.value <= 1
    ensures FreshTickets(l, s, steps)
    decreases |steps|
  {
    hide Step;
    if steps != [] {
      ShortQueueFresh(l, Step(l, s, steps[0]), steps[1..]);
    }
  }

  /** Every possible run keeps tickets fresh exactly when at most one call may wait for a key. */
  lemma AlwaysFresh(l: Limits)
    requires ValidLimits(l)
    ensures (forall steps :: Possible(l, INITIAL, steps) ==> FreshTickets(l, INITIAL, steps)) <==>
      l.maxQueue.Some? && l.maxQueue.value <= 1
  {
    hide Possible, FreshTickets, Run, Enabled, Fresh;
    if l.maxQueue.Some? && l.maxQueue.value <= 1 {
      forall steps
        ensures FreshTickets(l, INITIAL, steps)
      {
        ShortQueueFresh(l, INITIAL, steps);
      }
    } else {
      var steps, call := TicketComesBack(l, "");
      var a := Acquire("", call, true, false);
      RunConcat(l, INITIAL, steps, [a]);
      OneStep(l, Run(l, INITIAL, steps), a);
      assert Possible(l, INITIAL, steps + [a]) && !FreshTickets(l, INITIAL, steps + [a]);
    }
  }

  // ----- no overtaking, bounded waiting -----

  /** Calls are granted in the order they arrived: whoever is granted, everyone who arrived earlier was. */
  lemma NoOvertaking(l: Limits, s: State, k: Key, i: nat, j: nat)
    requires Invariant(l, s)
    requires i < j < |CallsOf(s, k).arrived| && CallsOf(s, k).arrived[j] in CallsOf(s, k).granted
    ensures CallsOf(s, k).arrived[i] in CallsOf(s, k).granted
  {
    var c := CallsOf(s, k);
    assert KeyInvariant(l, BucketOf(s, k), c);
    var g :| 0 <= g < |c.granted| && c.granted[g] == c.arrived[j];
    assert c.arrived[g] == c.granted[g];
    assert g == j;
    assert c.granted[i] == c.arrived[i];
  }

  /** The releases of a key in a run. */
  function Releases(steps: seq<Action>, k: Key): nat {
    if steps == [] then 0
    else (if steps[0].Release? && steps[0].key == k then 1 else 0) + Releases(steps[1..], k)
  }

  /** The entry is queued at index `p` of the key's queue. */
  predicate QueuedAt(s: State, k: Key, e: Entry, p: nat) {
    p < |BucketOf(s, k).queue| && BucketOf(s, k).queue[p] == e
  }

  lemma AbortAdvances(b: Bucket, e: Entry, p: nat, id: nat)
    requires p < |b.queue| && b.queue[p] == e && FindTicket(b.queue, id, 0) != Some(p)
    ensures match FindTicket(b.queue, id, 0)
            case None => true
            case Some(i) =>
              var q := Without(b.queue, i);
              if i < p then q[p - 1] == e else p < |q| && q[p] == e
  {
  }

  lemma OtherTicket(l: Limits, b: Bucket, c: Calls, e: Entry, p: nat, call: Call, id: nat)
    requires KeyInvariant(l, b, c) && p < |b.queue| && b.queue[p] == e
    requires Entry(id, call, true) in b.queue && !(call == e.call && id == e.id)
    ensures FindTicket(b.queue, id, 0) != Some(p)
  {
    hide KeyInvariant, FindTicket;
    OwnTicket(l, b, c, call, id);
  }

  lemma StepElsewhere(l: Limits, s: State, a: Action, k: Key)
    requires a.key != k
    ensures BucketOf(Step(l, s, a), k) == BucketOf(s, k) && CallsOf(Step(l, s, a), k) == CallsOf(s, k)
  {
    hide Promote, FindTicket, AcquireOutcome;
  }

  lemma AcquireAdvances(l: Limits, s: State, a: Action, e: Entry, p: nat)
    requires a.Acquire? && QueuedAt(s, a.key, e, p)
    ensures QueuedAt(StepAcquire(l, s, a), a.key, e, p)
  {
    hide AcquireOutcome;
  }

  lemma ReleaseAdvances(l: Limits, s: State, k: Key, call: Call, e: Entry, p: nat)
    requires Invariant(l, s) && call in CallsOf(s, k).holding && QueuedAt(s, k, e, p)
    ensures var t := StepRelease(l, s, k, call);
      if p == 0 then e.call in CallsOf(t, k).granted else QueuedAt(t, k, e, p - 1)
  {
    hide KeyInvariant, Promote;
    var b, c := BucketOf(s, k), CallsOf(s, k);
    assert KeyInvariant(l, b, c);
    HolderHasBucket(l, s, k, call);
    PromoteAfterRelease(l, b, c, call);
  }

  lemma AbortedAdvances(l: Limits, s: State, k: Key, call: Call, id: nat, e: Entry, p: nat)
    requires Invariant(l, s) && Entry(id, call, true) in BucketOf(s, k).queue && QueuedAt(s, k, e, p)
    requires !(call == e.call && id == e.id)
    ensures var t := StepAbort(s, k, call, id); QueuedAt(t, k, e, p) || (p > 0 && QueuedAt(t, k, e, p - 1))
  {
    hide KeyInvariant, FindTicket, Without;
    var b := BucketOf(s, k);
    assert KeyInvariant(l, b, CallsOf(s, k));
    OtherTicket(l, b, CallsOf(s, k), e, p, call, id);
    AbortAdvances(b, e, p, id);
  }

  /** One step either leaves a waiter's place, moves it up, or grants it; a release of its key always advances it. */
  lemma StepAdvances(l: Limits, s: State, a: Action, k: Key, e: Entry, p: nat)
    requires ValidLimits(l) && Invariant(l, s) && Enabled(s, a) && QueuedAt(s, k, e, p)
    requires a != Abort(k, e.call, e.id)
    ensures var t := Step(l, s, a);
            var released := if a.Release? && a.key == k then 1 else 0;
            || e.call in CallsOf(t, k).granted
            || (p >= released && QueuedAt(t, k, e, p - released))
            || (p > released && QueuedAt(t, k, e, p - released - 1))
  {
    hide Invariant, StepAcquire, StepRelease, StepAbort, BucketOf, CallsOf;
    if a.key != k {
      StepElsewhere(l, s, a, k);
    } else {
      match a
      case Acquire(_, _, _, _) => AcquireAdvances(l, s, a, e, p);
      case Release(_, call) => ReleaseAdvances(l, s, k, call, e, p);
      case Abort(_, call, id) => AbortedAdvances(l, s, k, call, id, e, p);
    }
  }

  lemma GrantedStays(l: Limits, s: State, a: Action, k: Key)
    ensures CallsOf(s, k).granted <= CallsOf(Step(l, s, a), k).granted
  {
    if a.Release? && a.key == k && k in s.buckets {
      var b, c := s.buckets[k], CallsOf(s, k);
      PromoteAppends(l, b.(active := if b.active == 0 then 0 else b.active - 1), c.(holding := c.holding - {a.call}));
    }
  }

  lemma {:induction false} PromoteAppends(l: Limits, b: Bucket, c: Calls)
    ensures c.granted <= Promote(l, b, c).1.granted
    decreases |b.queue|
  {
    if b.active < l.maxConcurrent && b.queue != [] {
      var call := b.queue[0].call;
      PromoteAppends(l, Bucket(b.active + 1, b.queue[1..]), Calls(c.holding + {call}, c.granted + [call], c.arrived));
    }
  }

  lemma {:induction false} GrantedForever(l: Limits, s: State, steps: seq<Action>, k: Key)
    ensures CallsOf(s, k).granted <= CallsOf(Run(l, s, steps), k).granted
    decreases |steps|
  {
    if steps != [] {
      GrantedStays(l, s, steps[0], k);
      GrantedForever(l, Step(l, s, steps[0]), steps[1..], k);
    }
  }

  /**
    Bounded waiting: a call queued behind `p` others, and not aborted, has been
    granted a slot by the time its key has seen `p + 1` releases, whatever arrivals,
    aborts and steps of other keys come in between.
   */
  lemma {:induction false} BoundedWaiting(l: Limits, s: State, steps: seq<Action>, k: Key, e: Entry, p: nat)
    requires ValidLimits(l) && Invariant(l, s) && Possible(l, s, steps) && FreshTickets(l, s, steps)
    requires QueuedAt(s, k, e, p) && Abort(k, e.call, e.id) !in steps
    requires Releases(steps, k) >= p + 1
    ensures e.call in CallsOf(Run(l, s, steps), k).granted
    decreases |steps|
  {
    hide Invariant, Step, BucketOf, CallsOf, AcquireOutcome;
    var a, rest := steps[0], steps[1..];
    var t := Step(l, s, a);
    StepKeeps(l, s, a);
    StepAdvances(l, s, a, k, e, p);
    var released := if a.Release? && a.key == k then 1 else 0;
    if e.call in CallsOf(t, k).granted {
      GrantedForever(l, t, rest, k);
    } else if p >= released && QueuedAt(t, k, e, p - released) {
      BoundedWaiting(l, t, rest, k, e, p - released);
    } else {
      BoundedWaiting(l, t, rest, k, e, p - released - 1);
    }
  }

  // ----- the limiter itself -----

  class Limiter {
    const limits: Limits
    var buckets: map<Key, Bucket>
    var nextTicketId: nat
    ghost var calls: map<Key, Calls>

    constructor (limits: Limits)
      requires ValidLimits(limits)
      ensures this.limits == limits && Now() == INITIAL
    {
      this.limits := limits;
      buckets, nextTicketId, calls := map[], 0, map[];
    }

    ghost function Now(): State
      reads this
    {
      State(buckets, nextTicketId, calls)
    }

    /** `cleanupBucketIfEmpty` */
    method CleanupBucketIfEmpty(key: Key)
      modifies this`buckets
      ensures buckets ==
        if key in old(buckets) && old(buckets)[key] == Bucket(0, []) then old(buckets) - {key} else old(buckets)
    {
      if key in buckets {
        var bucket := buckets[key];
        if bucket.active == 0 && |bucket.queue| == 0 {
          buckets := buckets - {key};
        }
      }
    }

    /** `promoteNext`: resolves waiters while slots are free. */
    method PromoteNext(key: Key)
      requires key in buckets && key in calls
      modifies this
      ensures var after := Promote(limits, old(buckets)[key], old(calls)[key]);
              Now() == Store(old(Now()), key, after.0, after.1)
    {
      ghost var start, startCalls := buckets[key], calls[key];
      ghost var first := Now();
      while buckets[key].active < limits.maxConcurrent && |buckets[key].queue| > 0
        invariant key in buckets && key in calls && nextTicketId == first.nextTicketId
        invariant buckets == first.buckets[key := buckets[key]] && calls == first.calls[key := calls[key]]
        invariant Promote(limits, buckets[key], calls[key]) == Promote(limits, start, startCalls)
        decreases |buckets[key].queue|
      {
        var bucket := buckets[key];
        var next := bucket.queue[0];
        ghost var c := calls[key];
        buckets := buckets[key := Bucket(bucket.active + 1, bucket.queue[1..])];
        calls := calls[key := Calls(c.holding + {next.call}, c.granted + [next.call], c.arrived)];
      }
      ghost var last := buckets[key];
      CleanupBucketIfEmpty(key);
      assert first.buckets[key := last] - {key} == first.buckets - {key};
    }

    /** `acquire`, up to its await: granted at once, queued, or refused. */
    method TryAcquire(key: Key, call: Call, hasSignal: bool, aborted: bool) returns (r: Outcome)
      requires ValidLimits(limits)
      modifies this
      ensures r == AcquireOutcome(limits, old(Now()), Acquire(key, call, hasSignal, aborted))
      ensures Now() == Step(limits, old(Now()), Acquire(key, call, hasSignal, aborted))
      ensures var active := if key in old(buckets) then old(buckets)[key].active else 0;
        var waiting := if key in old(buckets) then |old(buckets)[key].queue| else 0;
        && (r == Granted <==> active < limits.maxConcurrent)
        && (r == QueueFull <==>
              active >= limits.maxConcurrent && limits.maxQueue.Some? && waiting >= limits.maxQueue.value)
        && (r == AlreadyAborted ==> hasSignal && aborted) && (r == Queued ==> !(hasSignal && aborted))
    {
      ghost var before := Now();
      ghost var c := CallsOf(before, key);
      if key !in buckets {
        buckets := buckets[key := Bucket(0, [])];
      }
      var bucket := buckets[key];
      if bucket.active < limits.maxConcurrent {
        buckets := buckets[key := bucket.(active := bucket.active + 1)];
        calls := calls[key := Calls(c.holding + {call}, c.granted + [call], c.arrived + [call])];
        assert buckets == before.buckets[key := bucket.(active := bucket.active + 1)];
        return Granted;
      }
      if limits.maxQueue.Some? && |bucket.queue| >= limits.maxQueue.value {
        return QueueFull;
      }
      if hasSignal && aborted {
        return AlreadyAborted;
      }
      var ticketId := nextTicketId;
      nextTicketId := nextTicketId + 1;
      if nextTicketId > MAX_SAFE_INTEGER {
        nextTicketId := 0;
      }
      buckets := buckets[key := bucket.(queue := bucket.queue + [Entry(ticketId, call, hasSignal)])];
      calls := calls[key := c.(arrived := c.arrived + [call])];
      return Queued;
    }

    /** `release` */
    method ReleaseSlot(key: Key, ghost call: Call)
      modifies this
      ensures Now() == Step(limits, old(Now()), Release(key, call))
    {
      if key !in buckets {
        return;
      }
      ghost var before := Now();
      ghost var c := CallsOf(before, key);
      var bucket := buckets[key];
      buckets := buckets[key := bucket.(active := if bucket.active == 0 then 0 else bucket.active - 1)];
      calls := calls[key := c.(holding := c.holding - {call})];
      hide Promote;
      ghost var after := Promote(limits, buckets[key], calls[key]);
      StoreTwice(before, key, buckets[key], calls[key], after.0, after.1);
      PromoteNext(key);
    }

    /** The abort handler installed with ticket `ticketId`. */
    method OnAbort(key: Key, ghost call: Call, ticketId: nat)
      modifies this
      ensures Now() == Step(limits, old(Now()), Abort(key, call, ticketId))
    {
      if key !in buckets {
        return;
      }
      ghost var before := Now();
      ghost var c := CallsOf(before, key);
      var bucket := buckets[key];
      var index := FindTicket(bucket.queue, ticketId, 0);
      if index.Some? {
        var i := index.value;
        buckets := buckets[key := bucket.(queue := bucket.queue[..i] + bucket.queue[i + 1..])];
        c := c.(arrived := Minus(c.arrived, call));
      }
      ghost var last := buckets[key];
      calls := calls[key := c];
      assert buckets == before.buckets[key := last];
      CleanupBucketIfEmpty(key);
      assert before.buckets[key := last] - {key} == before.buckets - {key};
    }
  }

  lemma StoreTwice(s: State, k: Key, b: Bucket, c: Calls, b': Bucket, c': Calls)
    ensures Store(State(s.buckets[k := b], s.nextTicketId, s.calls[k := c]), k, b', c') == Store(s, k, b', c')
  {
    assert s.buckets[k := b] - {k} == s.buckets - {k};
  }
}
