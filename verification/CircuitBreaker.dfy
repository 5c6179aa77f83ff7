/**
  One entry of the circuit breaker. JavaScript runs each stretch between two awaits
  without interruption, so a request is three steps: its admission, the step that
  settles its outcome, and the `finally` clause that clears the probe flag. Any number
  of requests may interleave these steps.
 */
module CircuitBreaker {

  datatype Phase = Closed | Open | HalfOpen

  datatype Entry = Entry(phase: Phase, failureCount: int, successCount: int, openedAt: int, probing: bool)

  datatype Config = Config(failureThreshold: int, successThreshold: int, cooldownMs: int)

  /** What `shouldTrip` makes of a response or error; Ignored is an error that does not count. */
  datatype Outcome = Success | Failure | Ignored

  const FRESH := Entry(Closed, 0, 0, 0, false)

  function Opened(e: Entry, now: int): Entry {
    Entry(Open, 0, 0, now, false)
  }

  function ClosedAgain(e: Entry): Entry {
    Entry(Closed, 0, 0, e.openedAt, false)
  }

  /** Moving to half-open keeps the failure count. */
  function HalfOpened(e: Entry): Entry {
    e.(phase := HalfOpen, successCount := 0, probing := false)
  }

  predicate Admits(c: Config, e: Entry, now: int) {
    match e.phase
    case Closed => true
    case Open => now - e.openedAt >= c.cooldownMs
    case HalfOpen => !e.probing
  }

  function Admitted(e: Entry): Entry {
    match e.phase
    case Closed => e
    case Open => HalfOpened(e).(probing := true)
    case HalfOpen => e.(probing := true)
  }

  function CountFailure(c: Config, e: Entry, now: int): Entry {
    if e.phase == HalfOpen || e.failureCount + 1 >= c.failureThreshold then Opened(e, now)
    else e.(failureCount := e.failureCount + 1)
  }

  function CountSuccess(c: Config, e: Entry): Entry {
    if e.phase != HalfOpen then e.(failureCount := 0)
    else if e.successCount + 1 >= c.successThreshold then ClosedAgain(e)
    else e.(successCount := e.successCount + 1)
  }

  function Settled(c: Config, e: Entry, outcome: Outcome, now: int): Entry {
    match outcome
    case Success => CountSuccess(c, e)
    case Failure => CountFailure(c, e, now)
    case Ignored => e
  }

  function Cleared(e: Entry): Entry {
    if e.phase == HalfOpen then e.(probing := false) else e
  }

  // ----- the entry object -----

  class CircuitEntry {
    const config: Config
    var phase: Phase
    var failureCount: int
    var successCount: int
    var openedAt: int
    var probing: bool

    constructor (config: Config)
      ensures this.config == config && Now() == FRESH
    {
      this.config := config;
      phase, failureCount, successCount, openedAt, probing := Closed, 0, 0, 0, false;
    }

    function Now(): Entry
      reads this
    {
      Entry(phase, failureCount, successCount, openedAt, probing)
    }

    method OpenCircuit(now: int)
      modifies this
      ensures Now() == Opened(old(Now()), now)
    {
      phase, openedAt := Open, now;
      failureCount, successCount := 0, 0;
      probing := false;
    }

    method CloseCircuit()
      modifies this
      ensures Now() == ClosedAgain(old(Now()))
      ensures openedAt == old(openedAt)
    {
      phase := Closed;
      failureCount, successCount := 0, 0;
      probing := false;
    }

    method MoveToHalfOpen()
      modifies this
      ensures Now() == HalfOpened(old(Now()))
    {
      phase := HalfOpen;
      successCount := 0;
      probing := false;
    }

    /** The middleware up to the call of `next`; false is a thrown PureqCircuitOpenError. */
    method Start(now: int) returns (admitted: bool)
      modifies this
      ensures admitted == Admits(config, old(Now()), now)
      ensures Now() == if admitted then Admitted(old(Now())) else old(Now())
      ensures old(phase) == Closed ==> admitted && phase == Closed && probing == old(probing)
      ensures old(phase) == Open ==> (admitted <==> now >= old(openedAt) + config.cooldownMs)
      ensures old(phase) == HalfOpen ==> (admitted <==> !old(probing))
      ensures old(phase) != Closed && admitted ==> phase == HalfOpen && probing
      ensures old(phase) == Open && admitted ==> successCount == 0
      ensures failureCount == old(failureCount) && openedAt == old(openedAt)
    {
      if phase == Open {
        if now - openedAt < config.cooldownMs {
          return false;
        }
        MoveToHalfOpen();
      }
      if phase == HalfOpen {
        if probing {
          return false;
        }
        probing := true;
      }
      return true;
    }

    /** The middleware after `next` settles, up to `store.set`. */
    method Settle(outcome: Outcome, now: int)
      modifies this
      ensures Now() == Settled(config, old(Now()), outcome, now)
      ensures outcome == Ignored ==> Now() == old(Now())
      ensures outcome == Failure && (old(phase) == HalfOpen || old(failureCount) + 1 >= config.failureThreshold) ==>
        phase == Open && openedAt == now && failureCount == 0 && successCount == 0 && !probing
      ensures outcome == Failure && old(phase) != HalfOpen && old(failureCount) + 1 < config.failureThreshold ==>
        phase == old(phase) && openedAt == old(openedAt) && failureCount == old(failureCount) + 1
      ensures outcome == Success && old(phase) == HalfOpen && old(successCount) + 1 >= config.successThreshold ==>
        phase == Closed && failureCount == 0 && successCount == 0 && !probing && openedAt == old(openedAt)
      ensures outcome == Success && old(phase) == HalfOpen && old(successCount) + 1 < config.successThreshold ==>
        phase == HalfOpen && successCount == old(successCount) + 1 && probing == old(probing)
      ensures outcome == Success && old(phase) != HalfOpen ==> phase == old(phase) && failureCount == 0
    {
      match outcome
      case Ignored =>
      case Failure =>
        if phase == HalfOpen {
          OpenCircuit(now);
        } else {
          failureCount := failureCount + 1;
          if failureCount >= config.failureThreshold {
            OpenCircuit(now);
          }
        }
      case Success =>
        if phase == HalfOpen {
          successCount := successCount + 1;
          if successCount >= config.successThreshold {
            CloseCircuit();
          }
        } else {
          failureCount := 0;
        }
    }

    /** The `finally` clause. */
    method Clear()
      modifies this
      ensures Now() == Cleared(old(Now()))
    {
      if phase == HalfOpen {
        probing := false;
      }
    }
  }

  // ----- runs -----

  /** A request between its admission and its `finally`. */
  datatype Ticket = Ticket(probe: bool, settled: bool)

  datatype State = State(entry: Entry, live: map<nat, Ticket>, clock: int)

  /** `read` is when an admission read the clock, which may be before the step itself. */
  datatype Action =
    | Start(id: nat, read: int, at: int)
    | Settle(id: nat, outcome: Outcome, at: int)
    | Clear(id: nat, at: int)

  predicate Enabled(s: State, a: Action) {
    && s.clock <= a.at
    && match a
       case Start(id, read, at) => id !in s.live && read <= at
       case Settle(id, _, _) => id in s.live && !s.live[id].settled
       case Clear(id, _) => id in s.live && s.live[id].settled
  }

  function Step(c: Config, s: State, a: Action): State
    requires Enabled(s, a)
  {
    match a
    case Start(id, read, at) =>
      if Admits(c, s.entry, read) then
        State(Admitted(s.entry), s.live[id := Ticket(s.entry.phase != Closed, false)], at)
      else s.(clock := at)
    case Settle(id, outcome, at) =>
      State(Settled(c, s.entry, outcome, at), s.live[id := s.live[id].(settled := true)], at)
    case Clear(id, at) =>
      State(Cleared(s.entry), s.live - {id}, at)
  }

  predicate Possible(c: Config, s: State, steps: seq<Action>)
    decreases |steps|
  {
    steps == [] || (Enabled(s, steps[0]) && Possible(c, Step(c, s, steps[0]), steps[1..]))
  }

  function Run(c: Config, s: State, steps: seq<Action>): State
    requires Possible(c, s, steps)
    decreases |steps|
  {
    if steps == [] then s else Run(c, Step(c, s, steps[0]), steps[1..])
  }

  predicate Sensible(c: Config) {
    c.failureThreshold >= 1 && c.successThreshold >= 1
  }

  /** Counters stay below their thresholds, and half-open data exist in half-open only. */
  predicate Bounded(c: Config, e: Entry) {
    && 0 <= e.failureCount < c.failureThreshold
    && 0 <= e.successCount < c.successThreshold
    && (e.probing ==> e.phase == HalfOpen)
    && (e.successCount > 0 ==> e.phase == HalfOpen)
  }

  lemma FreshBounded(c: Config)
    requires Sensible(c)
    ensures Bounded(c, FRESH)
  {
  }

  lemma {:induction false} RunBounded(c: Config, s: State, steps: seq<Action>)
    requires Sensible(c) && Bounded(c, s.entry) && Possible(c, s, steps)
    ensures Bounded(c, Run(c, s, steps).entry)
    decreases |steps|
  {
    if steps != [] {
      RunBounded(c, Step(c, s, steps[0]), steps[1..]);
    }
  }

  // ----- cooling down -----

  /** No start in the run is admitted. */
  predicate NothingAdmitted(c: Config, s: State, steps: seq<Action>)
    requires Possible(c, s, steps)
    decreases |steps|
  {
    steps == [] ||
    ((steps[0].Start? ==> !Admits(c, s.entry, steps[0].read)) && NothingAdmitted(c, Step(c, s, steps[0]), steps[1..]))
  }

  /**
    After opening at time t, whatever requests finish late and whatever starts are tried,
    nothing is admitted and the circuit stays open until t + cooldownMs.
   */
  lemma {:induction false} QuietWhileCooling(c: Config, s: State, steps: seq<Action>)
    requires Possible(c, s, steps)
    requires s.entry.phase == Open && s.entry.openedAt <= s.clock
    requires forall i :: 0 <= i < |steps| ==> steps[i].at < s.entry.openedAt + c.cooldownMs
    ensures NothingAdmitted(c, s, steps)
    ensures Run(c, s, steps).entry.phase == Open && Run(c, s, steps).entry.openedAt >= s.entry.openedAt
    decreases |steps|
  {
    if steps != [] {
      var next := Step(c, s, steps[0]);
      assert steps[0].at < s.entry.openedAt + c.cooldownMs;
      forall i | 0 <= i < |steps[1..]|
        ensures steps[1..][i].at < next.entry.openedAt + c.cooldownMs
      {
        assert steps[1..][i] == steps[i + 1];
      }
      QuietWhileCooling(c, next, steps[1..]);
    }
  }

  // ----- one probe at a time -----

  /** This start ends an open phase. */
  predicate BeginsHalfOpen(c: Config, s: State, a: Action) {
    a.Start? && s.entry.phase == Open && Admits(c, s.entry, a.read)
  }

  /** Whenever a half-open phase begins, every earlier request is over, its `finally` included. */
  predicate NoOverlap(c: Config, s: State, steps: seq<Action>)
    requires Possible(c, s, steps)
    decreases |steps|
  {
    steps == [] ||
    ((BeginsHalfOpen(c, s, steps[0]) ==> s.live == map[]) && NoOverlap(c, Step(c, s, steps[0]), steps[1..]))
  }

  /** In half-open at most one request is in flight, and the flag tells whether one is. */
  predicate OneProbe(s: State) {
    s.entry.phase == HalfOpen ==>
      && (s.entry.probing <==> s.live != map[])
      && (forall x, y :: x in s.live && y in s.live ==> x == y)
  }

  lemma {:induction false} ProbeAlone(c: Config, s: State, steps: seq<Action>)
    requires OneProbe(s) && Possible(c, s, steps) && NoOverlap(c, s, steps)
    ensures OneProbe(Run(c, s, steps))
    decreases |steps|
  {
    if steps != [] {
      StepOneProbe(c, s, steps[0]);
      ProbeAlone(c, Step(c, s, steps[0]), steps[1..]);
    }
  }

  lemma StepOneProbe(c: Config, s: State, a: Action)
    requires OneProbe(s) && Enabled(s, a) && (BeginsHalfOpen(c, s, a) ==> s.live == map[])
    ensures OneProbe(Step(c, s, a))
  {
    match a
    case Start(id, _, _) => assert id in s.live[id := Ticket(true, false)];
    case Settle(id, _, _) => assert id in s.live[id := Ticket(true, true)];
    case Clear(id, _) =>
      if s.entry.phase == HalfOpen {
        assert forall x :: x in s.live ==> x == id;
        assert s.live - {id} == map[];
      }
  }

  predicate RunningProbe(s: State, id: nat) {
    id in s.live && s.live[id].probe && !s.live[id].settled
  }

  /**
    The condition is exact: if any earlier request is still outstanding when half-open begins,
    that request's end lets a second probe in beside the first.
   */
  lemma LateFinisherAdmitsSecondProbe(c: Config, s: State, late: nat, first: nat, second: nat, at: int)
    requires s.entry.phase == Open && late in s.live
    requires first !in s.live && second !in s.live && first != second
    requires s.clock <= at && at - s.entry.openedAt >= c.cooldownMs
    ensures exists steps ::
      && Possible(c, s, steps)
      && RunningProbe(Run(c, s, steps), first) && RunningProbe(Run(c, s, steps), second)
  {
    var s1 := Step(c, s, Start(first, at, at));
    if s.live[late].settled {
      var steps := [Start(first, at, at), Clear(late, at), Start(second, at, at)];
      var s2 := Step(c, s1, Clear(late, at));
      var s3 := Step(c, s2, Start(second, at, at));
      assert steps[1..] == [Clear(late, at), Start(second, at, at)];
      assert steps[1..][1..] == [Start(second, at, at)];
      RunThree(c, s, Start(first, at, at), Clear(late, at), Start(second, at, at));
      assert RunningProbe(s3, first) && RunningProbe(s3, second);
      assert Possible(c, s, steps) && Run(c, s, steps) == s3;
    } else {
      var a, b, d, e := Start(first, at, at), Settle(late, Ignored, at), Clear(late, at), Start(second, at, at);
      var steps := [a, b, d, e];
      var s2 := Step(c, s1, b);
      var s3 := Step(c, s2, d);
      var s4 := Step(c, s3, e);
      RunThree(c, s1, b, d, e);
      assert steps[1..] == [b, d, e];
      assert RunningProbe(s4, first) && RunningProbe(s4, second);
      assert Possible(c, s, steps) && Run(c, s, steps) == s4;
    }
  }

  lemma RunThree(c: Config, s: State, a: Action, b: Action, d: Action)
    requires Enabled(s, a) && Enabled(Step(c, s, a), b) && Enabled(Step(c, Step(c, s, a), b), d)
    ensures Possible(c, s, [a, b, d]) && Run(c, s, [a, b, d]) == Step(c, Step(c, Step(c, s, a), b), d)
  {
    var s1 := Step(c, s, a);
    var s2 := Step(c, s1, b);
    var s3 := Step(c, s2, d);
    assert [a, b, d][1..] == [b, d] && [b, d][1..] == [d];
    assert [d][1..] == [];
    assert Possible(c, s3, []) && Run(c, s3, []) == s3;
    assert Possible(c, s2, [d]) && Run(c, s2, [d]) == s3;
    assert Possible(c, s1, [b, d]) && Run(c, s1, [b, d]) == s3;
  }

  // ----- sequential use -----

  /** One request of a sequential history. */
  datatype Request = Request(startedAt: int, outcome: Outcome, finishedAt: int)

  /** The entry after one request that nothing overlaps. */
  function Served(c: Config, e: Entry, r: Request): Entry {
    if Admits(c, e, r.startedAt) then Cleared(Settled(c, Admitted(e), r.outcome, r.finishedAt)) else e
  }

  function ServedAll(c: Config, e: Entry, history: seq<Request>): Entry
    decreases |history|
  {
    if history == [] then e else ServedAll(c, Served(c, e, history[0]), history[1..])
  }

  /** What a sequential caller can tell of a breaker. */
  datatype Abstract = Counting(failures: nat) | Cooling(since: int) | Testing(successes: nat)

  function Tested(c: Config, successes: nat, r: Request): Abstract {
    match r.outcome
    case Success => if successes + 1 >= c.successThreshold then Counting(0) else Testing(successes + 1)
    case Failure => Cooling(r.finishedAt)
    case Ignored => Testing(successes)
  }

  function Next(c: Config, a: Abstract, r: Request): Abstract {
    match a
    case Counting(n) =>
      (match r.outcome
       case Success => Counting(0)
       case Failure => if n + 1 >= c.failureThreshold then Cooling(r.finishedAt) else Counting(n + 1)
       case Ignored => a)
    case Cooling(since) => if r.startedAt < since + c.cooldownMs then a else Tested(c, 0, r)
    case Testing(n) => Tested(c, n, r)
  }

  function Fold(c: Config, a: Abstract, history: seq<Request>): Abstract
    decreases |history|
  {
    if history == [] then a else Fold(c, Next(c, a, history[0]), history[1..])
  }

  predicate Shows(e: Entry, a: Abstract) {
    && !e.probing
    && match a
       case Counting(n) => e.phase == Closed && e.failureCount == n && e.successCount == 0
       case Cooling(since) => e.phase == Open && e.openedAt == since && e.failureCount == 0 && e.successCount == 0
       case Testing(n) => e.phase == HalfOpen && e.failureCount == 0 && e.successCount == n
  }

  /** A sequential run is the fold of its history by the three-state automaton. */
  lemma {:induction false} SequentialIsFold(c: Config, e: Entry, a: Abstract, history: seq<Request>)
    requires Shows(e, a)
    ensures Shows(ServedAll(c, e, history), Fold(c, a, history))
    decreases |history|
  {
    if history != [] {
      SequentialIsFold(c, Served(c, e, history[0]), Next(c, a, history[0]), history[1..]);
    }
  }

  /** The steps of a request that nothing overlaps: three if it is admitted, only the first if it is refused. */
  function StepsOf(c: Config, e: Entry, id: nat, r: Request): seq<Action> {
    if Admits(c, e, r.startedAt) then
      [Start(id, r.startedAt, r.startedAt), Settle(id, r.outcome, r.finishedAt), Clear(id, r.finishedAt)]
    else [Start(id, r.startedAt, r.startedAt)]
  }

  /** The steps of a whole history, one request after the other. */
  function StepsOfAll(c: Config, e: Entry, id: nat, history: seq<Request>): seq<Action>
    decreases |history|
  {
    if history == [] then []
    else StepsOf(c, e, id, history[0]) + StepsOfAll(c, Served(c, e, history[0]), id, history[1..])
  }

  /** Each request begins after the one before it has finished. */
  predicate InTurn(clock: int, history: seq<Request>)
    decreases |history|
  {
    || history == []
    || (clock <= history[0].startedAt <= history[0].finishedAt && InTurn(history[0].finishedAt, history[1..]))
  }

  lemma {:induction false} Later(earlier: int, clock: int, history: seq<Request>)
    requires earlier <= clock && InTurn(clock, history)
    ensures InTurn(earlier, history)
  {
  }

  lemma {:induction false} RunConcat(c: Config, s: State, a: seq<Action>, b: seq<Action>)
    requires Possible(c, s, a) && Possible(c, Run(c, s, a), b)
    ensures Possible(c, s, a + b) && Run(c, s, a + b) == Run(c, Run(c, s, a), b)
    decreases |a|
  {
    hide Step, Enabled;
    if a == [] {
      assert a + b == b;
    } else {
      assert (a + b)[0] == a[0] && (a + b)[1..] == a[1..] + b;
      RunConcat(c, Step(c, s, a[0]), a[1..], b);
    }
  }

  /** A refused request leaves the entry as it is. */
  lemma RefusedIsOneStep(c: Config, s: State, id: nat, r: Request)
    requires id !in s.live && s.clock <= r.startedAt && !Admits(c, s.entry, r.startedAt)
    ensures var steps := StepsOf(c, s.entry, id, r);
      Possible(c, s, steps) && Run(c, s, steps) == State(Served(c, s.entry, r), s.live, r.startedAt)
  {
    var a := Start(id, r.startedAt, r.startedAt);
    assert [a][1..] == [] && Step(c, s, a) == s.(clock := r.startedAt);
    assert Possible(c, Step(c, s, a), []) && Run(c, Step(c, s, a), []) == Step(c, s, a);
  }

  /**
    A whole sequential history, refused requests included, is a run of the breaker, and leaves the entry the
    fold describes.
   */
  lemma {:induction false} SequentialRun(c: Config, s: State, a: Abstract, id: nat, history: seq<Request>)
    requires Shows(s.entry, a) && id !in s.live && InTurn(s.clock, history)
    ensures var steps := StepsOfAll(c, s.entry, id, history);
      && Possible(c, s, steps) && Run(c, s, steps).live == s.live
      && Run(c, s, steps).entry == ServedAll(c, s.entry, history)
      && Shows(Run(c, s, steps).entry, Fold(c, a, history))
    decreases |history|
  {
    hide Step, Enabled, Possible, Run, StepsOf, Admits, Served, Next, Shows;
    if history == [] {
      NoSteps(c, s);
    } else {
      var r, first := history[0], StepsOf(c, s.entry, id, history[0]);
      OneServed(c, s, id, r);
      ShowsNext(c, s.entry, a, r);
      var t := Run(c, s, first);
      Later(t.clock, r.finishedAt, history[1..]);
      SequentialRun(c, t, Next(c, a, r), id, history[1..]);
      RunConcat(c, s, first, StepsOfAll(c, t.entry, id, history[1..]));
    }
  }

  lemma NoSteps(c: Config, s: State)
    ensures Possible(c, s, []) && Run(c, s, []) == s
  {
  }

  lemma OneServed(c: Config, s: State, id: nat, r: Request)
    requires id !in s.live && s.clock <= r.startedAt <= r.finishedAt
    ensures var steps := StepsOf(c, s.entry, id, r);
      && Possible(c, s, steps) && Run(c, s, steps).entry == Served(c, s.entry, r)
      && Run(c, s, steps).live == s.live && Run(c, s, steps).clock <= r.finishedAt
  {
    hide Possible, Run;
    if Admits(c, s.entry, r.startedAt) {
      ServedIsThreeSteps(c, s, id, r);
    } else {
      RefusedIsOneStep(c, s, id, r);
    }
  }

  lemma ShowsNext(c: Config, e: Entry, a: Abstract, r: Request)
    requires Shows(e, a)
    ensures Shows(Served(c, e, r), Next(c, a, r))
  {
  }

  /** A request served alone is its three steps taken without interruption. */
  lemma ServedIsThreeSteps(c: Config, s: State, id: nat, r: Request)
    requires id !in s.live && s.clock <= r.startedAt <= r.finishedAt
    requires Admits(c, s.entry, r.startedAt)
    ensures var steps := [Start(id, r.startedAt, r.startedAt), Settle(id, r.outcome, r.finishedAt),
      Clear(id, r.finishedAt)];
      Possible(c, s, steps) && Run(c, s, steps) == State(Served(c, s.entry, r), s.live, r.finishedAt)
  {
    var a, b, d := Start(id, r.startedAt, r.startedAt), Settle(id, r.outcome, r.finishedAt), Clear(id, r.finishedAt);
    RunThree(c, s, a, b, d);
    assert Step(c, Step(c, Step(c, s, a), b), d).live == s.live;
  }

  /** Counted failures since the last success. */
  function Streak(history: seq<Request>): nat {
    if history == [] then 0 else
      var before := Streak(history[..|history| - 1]);
      match history[|history| - 1].outcome
      case Success => 0
      case Failure => before + 1
      case Ignored => before
  }

  lemma {:induction false} FoldAppend(c: Config, a: Abstract, history: seq<Request>, r: Request)
    ensures Fold(c, a, history + [r]) == Next(c, Fold(c, a, history), r)
    decreases |history|
  {
    if history == [] {
      assert history + [r] == [r] && [r][1..] == [];
    } else {
      assert (history + [r])[1..] == history[1..] + [r];
      FoldAppend(c, Next(c, a, history[0]), history[1..], r);
    }
  }

  /** A fresh breaker opens exactly when the failure streak first reaches the threshold. */
  lemma {:induction false} OpensAtThreshold(c: Config, history: seq<Request>)
    requires Sensible(c)
    requires forall k :: 0 <= k < |history| ==> Streak(history[..k]) < c.failureThreshold
    ensures Fold(c, Counting(0), history) ==
      if Streak(history) < c.failureThreshold then Counting(Streak(history))
      else Cooling(history[|history| - 1].finishedAt)
    decreases |history|
  {
    if history != [] {
      var before, last := history[..|history| - 1], history[|history| - 1];
      assert history == before + [last];
      forall k | 0 <= k < |before|
        ensures Streak(before[..k]) < c.failureThreshold
      {
        assert before[..k] == history[..k];
      }
      OpensAtThreshold(c, before);
      FoldAppend(c, Counting(0), before, last);
    }
  }
}
