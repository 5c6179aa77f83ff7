/**
  The offline queue: requests stored while offline, and the flush that replays them
  in priority order, one at a time or in concurrent batches.
 */
module OfflineQueue {
  import opened Wrappers

  /** The outcome a successful replay resolves to. */
  type Response = nat

  datatype Item = Item(id: nat, payload: nat, priority: Option<int>, queuedAt: int, expiresAt: Option<int>)

  /** Whether replaying an item succeeds, and with what. */
  type Replay = Item -> Option<Response>

  // ----- the replay order -----

  function PriorityOf(x: Item): int {
    if x.priority.Some? then x.priority.value else 0
  }

  /** The sort's comparator. */
  function Compare(a: Item, b: Item): int {
    if PriorityOf(a) != PriorityOf(b) then PriorityOf(b) - PriorityOf(a) else a.queuedAt - b.queuedAt
  }

  predicate SameRank(a: Item, b: Item) {
    Compare(a, b) == 0
  }

  predicate Ordered(s: seq<Item>) {
    forall i, j :: 0 <= i < j < |s| ==> Compare(s[i], s[j]) <= 0
  }

  /** The items of one rank, in their order. */
  function OfRank(s: seq<Item>, like: Item): seq<Item>
    decreases |s|
  {
    if s == [] then []
    else if SameRank(s[0], like) then [s[0]] + OfRank(s[1..], like)
    else OfRank(s[1..], like)
  }

  /** Sorted, and items that compare equal keep their order. */
  ghost predicate IsStableSort(s: seq<Item>, r: seq<Item>) {
    Ordered(r) && forall like :: OfRank(r, like) == OfRank(s, like)
  }

  function Insert(x: Item, s: seq<Item>): seq<Item>
    decreases |s|
  {
    if s == [] || Compare(x, s[0]) <= 0 then [x] + s else [s[0]] + Insert(x, s[1..])
  }

  function Sort(s: seq<Item>): seq<Item>
    decreases |s|
  {
    if s == [] then [] else Insert(s[0], Sort(s[1..]))
  }

  lemma {:induction false} InsertMembers(x: Item, s: seq<Item>)
    ensures multiset(Insert(x, s)) == multiset(s) + multiset{x}
    decreases |s|
  {
    if s == [] || Compare(x, s[0]) <= 0 {
    } else {
      InsertMembers(x, s[1..]);
      assert s == [s[0]] + s[1..];
    }
  }

  lemma CompareChain(a: Item, b: Item, c: Item)
    ensures Compare(a, b) <= 0 && Compare(b, c) <= 0 ==> Compare(a, c) <= 0
    ensures Compare(a, b) > 0 ==> Compare(b, a) <= 0
  {
  }

  lemma OrderedFrom(x: Item, s: seq<Item>)
    requires Ordered(s) && forall y :: y in s ==> Compare(x, y) <= 0
    ensures Ordered([x] + s)
  {
    hide Compare;
    assert forall j :: 0 <= j < |s| ==> s[j] in s;
  }

  lemma {:induction false} InsertOrdered(x: Item, s: seq<Item>)
    requires Ordered(s)
    ensures Ordered(Insert(x, s))
    decreases |s|
  {
    hide Compare;
    if s == [] || Compare(x, s[0]) <= 0 {
      forall y | y in s
        ensures Compare(x, y) <= 0
      {
        CompareChain(x, s[0], y);
      }
      OrderedFrom(x, s);
    } else {
      var rest := Insert(x, s[1..]);
      InsertOrdered(x, s[1..]);
      InsertMembers(x, s[1..]);
      forall y | y in rest
        ensures Compare(s[0], y) <= 0
      {
        CompareChain(x, s[0], x);
        assert y in multiset(rest);
        assert y == x || y in multiset(s[1..]);
      }
      OrderedFrom(s[0], rest);
    }
  }

  lemma {:induction false} InsertOfRank(x: Item, s: seq<Item>, like: Item)
    ensures OfRank(Insert(x, s), like) == (if SameRank(x, like) then [x] else []) + OfRank(s, like)
    decreases |s|
  {
    if s == [] || Compare(x, s[0]) <= 0 {
      assert ([x] + s)[1..] == s;
    } else {
      InsertOfRank(x, s[1..], like);
      assert ([s[0]] + Insert(x, s[1..]))[1..] == Insert(x, s[1..]);
    }
  }

  lemma {:induction false} SortOfRank(s: seq<Item>, like: Item)
    ensures OfRank(Sort(s), like) == OfRank(s, like)
    decreases |s|
  {
    if s != [] {
      SortOfRank(s[1..], like);
      InsertOfRank(s[0], Sort(s[1..]), like);
    }
  }

  lemma {:induction false} SortOrdered(s: seq<Item>)
    ensures Ordered(Sort(s)) && multiset(Sort(s)) == multiset(s)
    decreases |s|
  {
    if s != [] {
      SortOrdered(s[1..]);
      InsertOrdered(s[0], Sort(s[1..]));
      InsertMembers(s[0], Sort(s[1..]));
      assert s == [s[0]] + s[1..];
    }
  }

  /** `a` may be replayed before `b`: its priority, none counting as 0, is higher, or equal and it is no later. */
  predicate NotAfter(a: Item, b: Item) {
    var p := if a.priority.Some? then a.priority.value else 0;
    var q := if b.priority.Some? then b.priority.value else 0;
    p > q || (p == q && a.queuedAt <= b.queuedAt)
  }

  lemma SortIsStable(s: seq<Item>)
    ensures IsStableSort(s, Sort(s)) && multiset(Sort(s)) == multiset(s)
    ensures var r := Sort(s); forall i, j :: 0 <= i < j < |r| ==> NotAfter(r[i], r[j])
  {
    SortOrdered(s);
    var r := Sort(s);
    assert forall i, j :: 0 <= i < j < |r| ==> Compare(r[i], r[j]) <= 0;
    forall like
      ensures OfRank(Sort(s), like) == OfRank(s, like)
    {
      SortOfRank(s, like);
    }
  }

  /** Any two stable sorts of the same items agree, so the result does not depend on the algorithm. */
  lemma {:induction false} StableSortUnique(s: seq<Item>, a: seq<Item>, b: seq<Item>)
    requires IsStableSort(s, a) && IsStableSort(s, b)
    ensures a == b
  {
    OrderedByRanks(a, b);
  }

  lemma {:induction false} OfRankMember(s: seq<Item>, like: Item)
    ensures OfRank(s, like) != [] ==> exists i :: 0 <= i < |s| && SameRank(s[i], like)
    decreases |s|
  {
    if s != [] && !SameRank(s[0], like) {
      OfRankMember(s[1..], like);
      if OfRank(s[1..], like) != [] {
        var i :| 0 <= i < |s[1..]| && SameRank(s[1..][i], like);
        assert s[i + 1] == s[1..][i];
      }
    } else if s != [] {
      assert SameRank(s[0], like);
    }
  }

  lemma {:induction false} OrderedByRanks(a: seq<Item>, b: seq<Item>)
    requires Ordered(a) && Ordered(b) && forall like :: OfRank(a, like) == OfRank(b, like)
    ensures a == b
    decreases |a|
  {
    if a == [] {
      assert b != [] ==> OfRank(b, b[0]) == OfRank(a, b[0]);
    } else {
      FirstsAgree(a, b);
      forall like
        ensures OfRank(a[1..], like) == OfRank(b[1..], like)
      {
        assert OfRank(a, like) == OfRank(b, like);
        if SameRank(a[0], like) {
          assert OfRank(a[1..], like) == OfRank(a, like)[1..];
          assert OfRank(b[1..], like) == OfRank(b, like)[1..];
        }
      }
      OrderedByRanks(a[1..], b[1..]);
      assert a == [a[0]] + a[1..] && b == [b[0]] + b[1..];
    }
  }

  lemma FirstsAgree(a: seq<Item>, b: seq<Item>)
    requires Ordered(a) && Ordered(b) && a != [] && forall like :: OfRank(a, like) == OfRank(b, like)
    ensures b != [] && a[0] == b[0]
  {
    assert OfRank(a, a[0]) == OfRank(b, a[0]);
    OfRankMember(b, a[0]);
    var i :| 0 <= i < |b| && SameRank(b[i], a[0]);
    assert OfRank(a, b[0]) == OfRank(b, b[0]);
    OfRankMember(a, b[0]);
    var j :| 0 <= j < |a| && SameRank(a[j], b[0]);
    assert Compare(a[0], a[j]) <= 0 && Compare(b[0], b[i]) <= 0;
    assert SameRank(a[0], b[0]);
    assert OfRank(a, a[0])[0] == a[0] && OfRank(b, a[0])[0] == b[0];
  }

  // ----- what a flush leaves and returns -----

  predicate Expired(x: Item, now: int) {
    x.expiresAt.Some? && x.expiresAt.value < now
  }

  function Unexpired(s: seq<Item>, now: int): (r: seq<Item>)
    ensures forall x :: x in r <==> x in s && !Expired(x, now)
    decreases |s|
  {
    if s == [] then []
    else if Expired(s[0], now) then Unexpired(s[1..], now)
    else [s[0]] + Unexpired(s[1..], now)
  }

  /** The unexpired items whose replay fails, in stored order. */
  function Remaining(s: seq<Item>, now: int, replay: Replay): seq<Item>
    decreases |s|
  {
    if s == [] then []
    else if Expired(s[0], now) || replay(s[0]).Some? then Remaining(s[1..], now, replay)
    else [s[0]] + Remaining(s[1..], now, replay)
  }

  /** The items replayed, in order. */
  function Pending(s: seq<Item>, now: int): seq<Item> {
    Sort(Unexpired(s, now))
  }

  function Responses(replay: Replay, s: seq<Item>): seq<Response>
    decreases |s|
  {
    if s == [] then []
    else (if replay(s[0]).Some? then [replay(s[0]).value] else []) + Responses(replay, s[1..])
  }

  lemma ResponsesAppend(replay: Replay, a: seq<Item>, x: Item)
    ensures Responses(replay, a + [x]) == Responses(replay, a) + if replay(x).Some? then [replay(x).value] else []
  {
    assert [x][1..] == [];
    ResponsesConcat(replay, a, [x]);
  }

  function Without(s: seq<Item>, ids: set<nat>): (r: seq<Item>)
    ensures forall x :: x in r <==> x in s && x.id !in ids
    decreases |s|
  {
    if s == [] then []
    else if s[0].id in ids then Without(s[1..], ids)
    else [s[0]] + Without(s[1..], ids)
  }

  lemma {:induction false} WithoutBoth(s: seq<Item>, a: set<nat>, b: set<nat>)
    ensures Without(Without(s, a), b) == Without(s, a + b)
    decreases |s|
  {
    if s != [] {
      WithoutBoth(s[1..], a, b);
      if s[0].id !in a {
        assert ([s[0]] + Without(s[1..], a))[1..] == Without(s[1..], a);
      }
    }
  }

  lemma {:induction false} WithoutNone(s: seq<Item>)
    ensures Without(s, {}) == s
    decreases |s|
  {
    if s != [] {
      WithoutNone(s[1..]);
    }
  }

  function ExpiredIds(s: seq<Item>, now: int): set<nat> {
    set x | x in s && Expired(x, now) :: x.id
  }

  function DoneIds(replay: Replay, s: seq<Item>): set<nat> {
    set x | x in s && replay(x).Some? :: x.id
  }

  predicate UniqueIds(s: seq<Item>) {
    forall i, j :: 0 <= i < j < |s| ==> s[i].id != s[j].id
  }

  /** What a flush removes by id. */
  function Removed(s: seq<Item>, now: int, replay: Replay): set<nat> {
    ExpiredIds(s, now) + DoneIds(replay, Pending(s, now))
  }

  /** With unique ids, removing by id leaves exactly the failed items, in their stored order. */
  lemma LeavesExactlyFailed(s: seq<Item>, now: int, replay: Replay)
    requires UniqueIds(s)
    ensures Without(s, Removed(s, now, replay)) == Remaining(s, now, replay)
  {
    SortOrdered(Unexpired(s, now));
    forall i | 0 <= i < |s|
      ensures s[i].id in Removed(s, now, replay) <==> Expired(s[i], now) || replay(s[i]).Some?
    {
      SortKeepsMembers(Unexpired(s, now), s[i]);
      if s[i].id in Removed(s, now, replay) {
        if x :| x in s && Expired(x, now) && x.id == s[i].id {
          assert x == s[i];
        } else {
          var y :| y in Pending(s, now) && replay(y).Some? && y.id == s[i].id;
          SortKeepsMembers(Unexpired(s, now), y);
          assert y == s[i];
        }
      }
    }
    FilterById(s, Removed(s, now, replay), now, replay);
  }

  lemma SortKeepsMembers(s: seq<Item>, x: Item)
    ensures x in Sort(s) <==> x in s
  {
    SortOrdered(s);
    assert x in multiset(Sort(s)) <==> x in multiset(s);
  }

  lemma {:induction false} FilterById(s: seq<Item>, ids: set<nat>, now: int, replay: Replay)
    requires forall i :: 0 <= i < |s| ==> (s[i].id in ids <==> Expired(s[i], now) || replay(s[i]).Some?)
    ensures Without(s, ids) == Remaining(s, now, replay)
    decreases |s|
  {
    if s != [] {
      assert s[0].id in ids <==> Expired(s[0], now) || replay(s[0]).Some?;
      forall i | 0 <= i < |s[1..]|
        ensures s[1..][i].id in ids <==> Expired(s[1..][i], now) || replay(s[1..][i]).Some?
      {
        assert s[1..][i] == s[i + 1];
      }
      FilterById(s[1..], ids, now, replay);
    }
  }

  lemma NothingReplayed(s: seq<Item>, replay: Replay)
    ensures Without(s, DoneIds(replay, [])) == s && Responses(replay, []) == []
  {
    assert DoneIds(replay, []) == {};
    WithoutNone(s);
  }

  lemma ReplayedMore(s: seq<Item>, replay: Replay, a: seq<Item>, b: seq<Item>)
    ensures Without(s, DoneIds(replay, a + b)) == Without(Without(s, DoneIds(replay, a)), DoneIds(replay, b))
    ensures Responses(replay, a + b) == Responses(replay, a) + Responses(replay, b)
  {
    assert DoneIds(replay, a + b) == DoneIds(replay, a) + DoneIds(replay, b);
    WithoutBoth(s, DoneIds(replay, a), DoneIds(replay, b));
    ResponsesConcat(replay, a, b);
  }

  lemma ReplayedOne(s: seq<Item>, replay: Replay, a: seq<Item>, x: Item)
    ensures Without(s, DoneIds(replay, a + [x])) ==
      (if replay(x).Some? then Without(Without(s, DoneIds(replay, a)), {x.id}) else Without(s, DoneIds(replay, a)))
  {
    assert DoneIds(replay, [x]) == if replay(x).Some? then {x.id} else {};
    ReplayedMore(s, replay, a, [x]);
    WithoutNone(Without(s, DoneIds(replay, a)));
  }

  lemma {:induction false} ResponsesConcat(replay: Replay, a: seq<Item>, b: seq<Item>)
    ensures Responses(replay, a + b) == Responses(replay, a) + Responses(replay, b)
    decreases |a|
  {
    if a == [] {
      assert a + b == b;
    } else {
      var first := if replay(a[0]).Some? then [replay(a[0]).value] else [];
      assert (a + b)[0] == a[0] && (a + b)[1..] == a[1..] + b;
      ResponsesConcat(replay, a[1..], b);
      ConcatAssoc(first, Responses(replay, a[1..]), Responses(replay, b));
    }
  }

  lemma ConcatAssoc(a: seq<Response>, b: seq<Response>, d: seq<Response>)
    ensures a + (b + d) == a + b + d
  {
  }

  lemma NothingExpired(s: seq<Item>, now: int)
    ensures Without(s, ExpiredIds([], now)) == s
  {
    assert ExpiredIds([], now) == {};
    WithoutNone(s);
  }

  lemma ExpiredOne(s: seq<Item>, now: int, a: seq<Item>, x: Item)
    ensures Without(s, ExpiredIds(a + [x], now)) ==
      (if Expired(x, now) then Without(Without(s, ExpiredIds(a, now)), {x.id}) else Without(s, ExpiredIds(a, now)))
  {
    assert ExpiredIds(a + [x], now) == if Expired(x, now) then ExpiredIds(a, now) + {x.id} else ExpiredIds(a, now);
    WithoutBoth(s, ExpiredIds(a, now), {x.id});
  }

  function Indices(n: nat): (r: set<nat>)
    ensures forall j: nat :: j in r <==> j < n
  {
    if n == 0 then {} else Indices(n - 1) + {n - 1}
  }

  // ----- the replay order, said of the stored items' own fields -----

  /** Not expired: no expiry, or one that is not past. */
  predicate Live(x: Item, now: int) {
    x.expiresAt.None? || x.expiresAt.value >= now
  }

  /**
    The item stored at `a` goes before that at `b`: it has the higher priority, none counting as 0; or the same
    and was queued earlier; or the same again and is stored first.
   */
  predicate Precedes(s: seq<Item>, a: nat, b: nat)
    requires a < |s| && b < |s|
  {
    var p := if s[a].priority.Some? then s[a].priority.value else 0;
    var q := if s[b].priority.Some? then s[b].priority.value else 0;
    if p != q then p > q
    else if s[a].queuedAt != s[b].queuedAt then s[a].queuedAt < s[b].queuedAt
    else a < b
  }

  /** These items of `s` come in the order of their precedence, each once. */
  ghost predicate ByPrecedence(s: seq<Item>, items: seq<Item>) {
    forall k, l, a, b :: 0 <= k < l < |items| && 0 <= a < |s| && 0 <= b < |s| && items[k] == s[a] && items[l] == s[b]
      ==> Precedes(s, a, b)
  }

  /** These items of `s` come in their stored order, each once. */
  ghost predicate InStoredOrder(s: seq<Item>, items: seq<Item>) {
    forall k, l, a, b :: 0 <= k < l < |items| && 0 <= a < |s| && 0 <= b < |s| && items[k] == s[a] && items[l] == s[b]
      ==> a < b
  }

  /** An `x` comes before a `y`. */
  predicate Comes(s: seq<Item>, x: Item, y: Item)
    decreases |s|
  {
    s != [] && ((s[0] == x && y in s[1..]) || Comes(s[1..], x, y))
  }

  lemma {:induction false} ComesAt(s: seq<Item>, i: nat, j: nat)
    requires i < j < |s|
    ensures Comes(s, s[i], s[j])
    decreases i
  {
    assert s[1..][j - 1] == s[j];
    if i > 0 {
      ComesAt(s[1..], i - 1, j - 1);
    }
  }

  lemma {:induction false} OneOrder(s: seq<Item>, x: Item, y: Item)
    requires UniqueIds(s) && Comes(s, x, y)
    ensures !Comes(s, y, x)
    decreases |s|
  {
    forall i | 0 <= i < |s[1..]|
      ensures s[1..][i] != s[0]
    {
      assert s[1..][i] == s[i + 1];
    }
    assert UniqueIds(s[1..]) by {
      assert forall i :: 0 <= i < |s[1..]| ==> s[1..][i] == s[i + 1];
    }
    ComeIn(s[1..], x, y);
    ComeIn(s[1..], y, x);
    if Comes(s[1..], x, y) {
      OneOrder(s[1..], x, y);
    }
  }

  lemma {:induction false} ComeIn(s: seq<Item>, x: Item, y: Item)
    ensures Comes(s, x, y) ==> x in s && y in s
    decreases |s|
  {
    if s != [] {
      ComeIn(s[1..], x, y);
    }
  }

  lemma {:induction false} UnexpiredComes(s: seq<Item>, now: int, x: Item, y: Item)
    requires Comes(s, x, y) && !Expired(x, now) && !Expired(y, now)
    ensures Comes(Unexpired(s, now), x, y)
    decreases |s|
  {
    var rest := Unexpired(s[1..], now);
    assert ([s[0]] + rest)[1..] == rest;
    if Comes(s[1..], x, y) {
      UnexpiredComes(s[1..], now, x, y);
    }
  }

  lemma {:induction false} UnexpiredUnique(s: seq<Item>, now: int)
    requires UniqueIds(s)
    ensures UniqueIds(Unexpired(s, now))
    decreases |s|
  {
    if s != [] {
      assert forall i :: 0 <= i < |s[1..]| ==> s[1..][i] == s[i + 1];
      UnexpiredUnique(s[1..], now);
      assert forall x :: x in s[1..] ==> x.id != s[0].id;
    }
  }

  lemma {:induction false} OfRankMembers(s: seq<Item>, like: Item, x: Item)
    ensures x in OfRank(s, like) <==> x in s && SameRank(x, like)
    decreases |s|
  {
    if s != [] {
      OfRankMembers(s[1..], like, x);
    }
  }

  lemma {:induction false} OfRankComes(s: seq<Item>, like: Item, x: Item, y: Item)
    requires Comes(s, x, y) && SameRank(x, like) && SameRank(y, like)
    ensures Comes(OfRank(s, like), x, y)
    decreases |s|
  {
    hide SameRank;
    var rest := OfRank(s[1..], like);
    assert ([s[0]] + rest)[1..] == rest;
    OfRankMembers(s[1..], like, y);
    if Comes(s[1..], x, y) {
      OfRankComes(s[1..], like, x, y);
    }
  }

  lemma {:induction false} OfRankUnique(s: seq<Item>, like: Item)
    requires UniqueIds(s)
    ensures UniqueIds(OfRank(s, like))
    decreases |s|
  {
    hide SameRank;
    if s != [] {
      assert forall i :: 0 <= i < |s[1..]| ==> s[1..][i] == s[i + 1];
      OfRankUnique(s[1..], like);
      forall x | x in OfRank(s[1..], like)
        ensures x.id != s[0].id
      {
        OfRankMembers(s[1..], like, x);
      }
    }
  }

  /** Of two items of one rank the sort takes first the one stored first. */
  lemma TiesKept(s: seq<Item>, now: int, k: nat, l: nat, a: nat, b: nat)
    requires UniqueIds(s) && k < l < |Pending(s, now)| && a < |s| && b < |s|
    requires Pending(s, now)[k] == s[a] && Pending(s, now)[l] == s[b] && SameRank(s[a], s[b])
    ensures a < b
  {
    hide Sort, OfRank, Comes, UniqueIds;
    var live, like := Unexpired(s, now), s[b];
    SortKeepsMembers(live, s[a]);
    SortKeepsMembers(live, like);
    ComesAt(Sort(live), k, l);
    OfRankComes(Sort(live), like, s[a], like);
    SortOfRank(live, like);
    UnexpiredUnique(s, now);
    OfRankUnique(live, like);
    OneOrder(OfRank(live, like), s[a], like);
    if b < a {
      ComesAt(s, b, a);
      UnexpiredComes(s, now, like, s[a]);
      OfRankComes(live, like, like, s[a]);
    }
  }

  /** The items replayed are the live ones, by precedence. */
  lemma PendingOrder(s: seq<Item>, now: int)
    requires UniqueIds(s)
    ensures ByPrecedence(s, Pending(s, now))
    ensures forall x :: x in Pending(s, now) <==> x in s && Live(x, now)
  {
    hide Sort, Unexpired;
    SortOrdered(Unexpired(s, now));
    forall x
      ensures x in Pending(s, now) <==> x in s && Live(x, now)
    {
      SortKeepsMembers(Unexpired(s, now), x);
    }
    var items := Pending(s, now);
    forall k, l, a, b | 0 <= k < l < |items| && 0 <= a < |s| && 0 <= b < |s| && items[k] == s[a] && items[l] == s[b]
      ensures Precedes(s, a, b)
    {
      assert Compare(items[k], items[l]) <= 0;
      if SameRank(s[a], s[b]) {
        TiesKept(s, now, k, l, a, b);
      }
    }
  }

  /** How many of the first `n` replays succeed. */
  ghost function Successes(replay: Replay, s: seq<Item>, n: nat): nat
    requires n <= |s|
  {
    |set i | 0 <= i < n && replay(s[i]).Some?|
  }

  /** There is one response for each success, and they come in the order of the replays. */
  ghost predicate InOrderOfCalls(replay: Replay, calls: seq<Item>, responses: seq<Response>) {
    && |responses| == Successes(replay, calls, |calls|)
    && forall k :: 0 <= k < |calls| && replay(calls[k]).Some? ==>
        var n := Successes(replay, calls, k);
        n < |responses| && responses[n] == replay(calls[k]).value
  }

  lemma OneMoreSuccess(replay: Replay, s: seq<Item>, n: nat)
    requires n < |s|
    ensures Successes(replay, s, n + 1) == Successes(replay, s, n) + if replay(s[n]).Some? then 1 else 0
  {
    var before := set i | 0 <= i < n && replay(s[i]).Some?;
    var after := set i | 0 <= i < n + 1 && replay(s[i]).Some?;
    assert after == if replay(s[n]).Some? then before + {n} else before;
  }

  lemma {:induction false} ResponsesInOrder(replay: Replay, s: seq<Item>, n: nat)
    requires n <= |s|
    ensures |Responses(replay, s[..n])| == Successes(replay, s, n)
    ensures forall k :: 0 <= k < n && replay(s[k]).Some? ==>
      var m := Successes(replay, s, k);
      m < |Responses(replay, s[..n])| && Responses(replay, s[..n])[m] == replay(s[k]).value
    decreases n
  {
    hide Responses, Successes;
    if n == 0 {
      NothingReplayed(s, replay);
      NoSuccess(replay, s);
    } else {
      ResponsesInOrder(replay, s, n - 1);
      assert s[..n] == s[..n - 1] + [s[n - 1]];
      ResponsesAppend(replay, s[..n - 1], s[n - 1]);
      OneMoreSuccess(replay, s, n - 1);
    }
  }

  lemma NoSuccess(replay: Replay, s: seq<Item>)
    ensures Successes(replay, s, 0) == 0
  {
  }

  lemma AllResponses(replay: Replay, s: seq<Item>)
    ensures InOrderOfCalls(replay, s, Responses(replay, s))
  {
    hide Responses, Successes;
    assert s[..|s|] == s;
    ResponsesInOrder(replay, s, |s|);
  }

  /** What stays are the live items whose replay fails, in stored order. */
  lemma RemainingOrder(s: seq<Item>, now: int, replay: Replay)
    requires UniqueIds(s)
    ensures InStoredOrder(s, Remaining(s, now, replay))
    ensures forall x :: x in Remaining(s, now, replay) <==> x in s && Live(x, now) && replay(x).None?
  {
    hide Remaining, Comes, UniqueIds;
    var items := Remaining(s, now, replay);
    forall x
      ensures x in items <==> x in s && Live(x, now) && replay(x).None?
    {
      RemainingMembers(s, now, replay, x);
    }
    forall k, l, a, b | 0 <= k < l < |items| && 0 <= a < |s| && 0 <= b < |s| && items[k] == s[a] && items[l] == s[b]
      ensures a < b
    {
      ComesAt(items, k, l);
      RemainingComes(s, now, replay, s[a], s[b]);
      OneOrder(s, s[a], s[b]);
      if b < a {
        ComesAt(s, b, a);
      }
    }
  }

  lemma {:induction false} RemainingMembers(s: seq<Item>, now: int, replay: Replay, x: Item)
    ensures x in Remaining(s, now, replay) <==> x in s && Live(x, now) && replay(x).None?
    decreases |s|
  {
    if s != [] {
      RemainingMembers(s[1..], now, replay, x);
    }
  }

  lemma {:induction false} RemainingComes(s: seq<Item>, now: int, replay: Replay, x: Item, y: Item)
    requires Comes(Remaining(s, now, replay), x, y)
    ensures Comes(s, x, y)
    decreases |s|
  {
    if s != [] {
      var rest := Remaining(s[1..], now, replay);
      assert ([s[0]] + rest)[1..] == rest;
      RemainingMembers(s[1..], now, replay, y);
      if Comes(rest, x, y) {
        RemainingComes(s[1..], now, replay, x, y);
      }
    }
  }

  // ----- runs of flushes that may overlap -----

  function Ids(s: seq<Item>): set<nat> {
    set x | x in s :: x.id
  }

  /**
    The storage and the next id; per flush the items it has read and not yet settled; the items sent, in
    order, and those dropped as expired.
   */
  datatype State = State(queue: seq<Item>, nextId: nat, flights: map<nat, set<nat>>, sent: seq<nat>, dropped: set<nat>)

  const INITIAL := State([], 1, map[], [], {})

  /** A request is queued; a flush reads the storage; one of its replays settles, in whatever order. */
  datatype Action =
    | Queue(payload: nat, priority: Option<int>, now: int, expiresAt: Option<int>)
    | Begin(flush: nat, now: int)
    | Settle(flush: nat, id: nat, ok: bool)

  predicate Enabled(s: State, a: Action) {
    match a
    case Queue(_, _, _, _) => true
    case Begin(flush, _) => flush !in s.flights
    case Settle(flush, id, _) => flush in s.flights && id in s.flights[flush]
  }

  function Step(s: State, a: Action): State
    requires Enabled(s, a)
  {
    match a
    case Queue(payload, priority, now, expiresAt) =>
      s.(queue := s.queue + [Item(s.nextId, payload, priority, now, expiresAt)], nextId := s.nextId + 1)
    case Begin(flush, now) =>
      var expired := ExpiredIds(s.queue, now);
      s.(queue := Without(s.queue, expired), flights := s.flights[flush := Ids(Pending(s.queue, now))],
         dropped := s.dropped + expired)
    case Settle(flush, id, ok) =>
      var settled := s.(flights := s.flights[flush := s.flights[flush] - {id}]);
      if ok then settled.(queue := Without(s.queue, {id}), sent := s.sent + [id]) else settled
  }

  predicate Possible(s: State, steps: seq<Action>)
    decreases |steps|
  {
    steps == [] || (Enabled(s, steps[0]) && Possible(Step(s, steps[0]), steps[1..]))
  }

  function Run(s: State, steps: seq<Action>): State
    requires Possible(s, steps)
    decreases |steps|
  {
    if steps == [] then s else Run(Step(s, steps[0]), steps[1..])
  }

  predicate Idle(s: State) {
    forall f :: f in s.flights ==> s.flights[f] == {}
  }

  /** With a lock, a flush begins only when no other is under way. */
  predicate Locked(s: State, steps: seq<Action>)
    requires Possible(s, steps)
    decreases |steps|
  {
    steps == [] || ((steps[0].Begin? ==> Idle(s)) && Locked(Step(s, steps[0]), steps[1..]))
  }

  predicate Once(sent: seq<nat>) {
    forall i, j :: 0 <= i < j < |sent| ==> sent[i] != sent[j]
  }

  /** Whatever overlaps: every id handed out is stored, sent or dropped, and no other is anywhere. */
  ghost predicate Kept(s: State) {
    && s.nextId >= 1
    && (forall id :: 0 < id < s.nextId <==> id in Ids(s.queue) || id in s.sent || id in s.dropped)
    && (forall f, id :: f in s.flights && id in s.flights[f] ==> 0 < id < s.nextId)
  }

  /** Nothing stored or still to be replayed was sent already, and no two flushes are about to replay one item. */
  ghost predicate Exclusive(s: State) {
    && Once(s.sent)
    && (forall id :: id in Ids(s.queue) ==> id !in s.sent)
    && (forall f, id :: f in s.flights && id in s.flights[f] ==> id !in s.sent)
    && (forall f, g, id :: f in s.flights && g in s.flights && f != g && id in s.flights[f] ==> id !in s.flights[g])
  }

  lemma WithoutIds(s: seq<Item>, ids: set<nat>)
    ensures Ids(Without(s, ids)) == Ids(s) - ids
  {
    forall id | id in Ids(s) - ids
      ensures id in Ids(Without(s, ids))
    {
      var x :| x in s && x.id == id;
      assert x in Without(s, ids);
    }
  }

  lemma PendingIds(s: seq<Item>, now: int)
    ensures Ids(Pending(s, now)) <= Ids(s)
  {
    forall id | id in Ids(Pending(s, now))
      ensures id in Ids(s)
    {
      var x :| x in Pending(s, now) && x.id == id;
      SortKeepsMembers(Unexpired(s, now), x);
    }
  }

  lemma ExpiredIdsStored(s: seq<Item>, now: int)
    ensures ExpiredIds(s, now) <= Ids(s)
  {
  }

  lemma IdsAppend(s: seq<Item>, x: Item)
    ensures Ids(s + [x]) == Ids(s) + {x.id}
  {
    assert (s + [x])[|s|] == x;
    assert forall y :: y in s ==> y in s + [x];
  }

  lemma StepKeeps(s: State, a: Action)
    requires Kept(s) && Enabled(s, a)
    ensures Kept(Step(s, a))
  {
    hide Without, Pending, Ids, ExpiredIds;
    match a
    case Queue(payload, priority, now, expiresAt) =>
      IdsAppend(s.queue, Item(s.nextId, payload, priority, now, expiresAt));
    case Begin(_, now) =>
      WithoutIds(s.queue, ExpiredIds(s.queue, now));
      PendingIds(s.queue, now);
      ExpiredIdsStored(s.queue, now);
    case Settle(_, id, _) => WithoutIds(s.queue, {id});
  }

  lemma StepExclusive(s: State, a: Action)
    requires Kept(s) && Exclusive(s) && Enabled(s, a) && (a.Begin? ==> Idle(s))
    ensures Exclusive(Step(s, a))
  {
    hide Without, Pending, Ids, ExpiredIds;
    match a
    case Queue(payload, priority, now, expiresAt) =>
      IdsAppend(s.queue, Item(s.nextId, payload, priority, now, expiresAt));
      assert s.nextId !in s.sent;
    case Begin(_, now) =>
      WithoutIds(s.queue, ExpiredIds(s.queue, now));
      PendingIds(s.queue, now);
    case Settle(flush, id, ok) => SettleExclusive(s, flush, id, ok);
  }

  lemma SettleExclusive(s: State, flush: nat, id: nat, ok: bool)
    requires Exclusive(s) && Enabled(s, Settle(flush, id, ok))
    ensures Exclusive(Step(s, Settle(flush, id, ok)))
  {
    hide Without, Ids;
    WithoutIds(s.queue, {id});
    var t := Step(s, Settle(flush, id, ok));
    forall f, x | f in t.flights && x in t.flights[f]
      ensures x in s.flights[f] && x !in t.sent
    {
      assert f != flush ==> id !in s.flights[f];
    }
    forall f, g, x | f in t.flights && g in t.flights && f != g && x in t.flights[f]
      ensures x !in t.flights[g]
    {
      assert x in s.flights[f] && x !in s.flights[g];
    }
    assert id !in s.sent && Once(s.sent + [id]);
    assert ok ==> forall x :: x in Ids(t.queue) ==> x in Ids(s.queue) && x != id;
  }

  /** No run loses an item: what was queued is stored still, was sent, or had expired. */
  lemma {:induction false} NothingLost(s: State, steps: seq<Action>)
    requires Kept(s) && Possible(s, steps)
    ensures Kept(Run(s, steps))
    decreases |steps|
  {
    hide Kept, Step, Enabled;
    if steps != [] {
      StepKeeps(s, steps[0]);
      NothingLost(Step(s, steps[0]), steps[1..]);
    }
  }

  /** Under a lock every item is sent at most once, whatever is queued meanwhile and however replays settle. */
  lemma {:induction false} SentOnce(s: State, steps: seq<Action>)
    requires Kept(s) && Exclusive(s) && Possible(s, steps) && Locked(s, steps)
    ensures Exclusive(Run(s, steps))
    decreases |steps|
  {
    hide Kept, Exclusive, Step, Enabled, Idle;
    if steps != [] {
      StepKeeps(s, steps[0]);
      StepExclusive(s, steps[0]);
      SentOnce(Step(s, steps[0]), steps[1..]);
    }
  }

  lemma InitialKept()
    ensures Kept(INITIAL) && Exclusive(INITIAL) && Idle(INITIAL)
  {
  }

  /** Without one, two flushes that both read a stored item before either sent it send it twice. */
  lemma SentTwice(s: State, x: Item, f: nat, g: nat, now: int)
    requires x in s.queue && !Expired(x, now) && UniqueIds(s.queue) && f != g && f !in s.flights && g !in s.flights
    ensures var steps := [Begin(f, now), Begin(g, now), Settle(f, x.id, true), Settle(g, x.id, true)];
      && Possible(s, steps) && Run(s, steps).sent == s.sent + [x.id, x.id]
      && (Idle(s) ==> !Locked(s, steps))
  {
    hide Without, Pending, Ids, ExpiredIds, Possible, Run, Locked;
    StillPending(s.queue, x, now);
    var a, b, d, e := Begin(f, now), Begin(g, now), Settle(f, x.id, true), Settle(g, x.id, true);
    var s1 := Step(s, a);
    StillPending(s1.queue, x, now);
    var s2 := Step(s1, b);
    var s3 := Step(s2, d);
    assert [a, b, d, e][1..] == [b, d, e] && [b, d, e][1..] == [d, e] && [d, e][1..] == [e] && [e][1..] == [];
    NoSteps(Step(s3, e));
    FirstStep(s3, [e]);
    FirstStep(s2, [d, e]);
    FirstStep(s1, [b, d, e]);
    FirstStep(s, [a, b, d, e]);
    assert s.sent + [x.id] + [x.id] == s.sent + [x.id, x.id];
    assert x.id in s1.flights[f];
  }

  lemma NoSteps(s: State)
    ensures Possible(s, []) && Run(s, []) == s
  {
  }

  lemma FirstStep(s: State, steps: seq<Action>)
    requires steps != [] && Enabled(s, steps[0]) && Possible(Step(s, steps[0]), steps[1..])
    ensures Possible(s, steps) && Run(s, steps) == Run(Step(s, steps[0]), steps[1..])
    ensures Locked(s, steps) <==> (steps[0].Begin? ==> Idle(s)) && Locked(Step(s, steps[0]), steps[1..])
  {
    hide Enabled, Step, Idle;
  }

  lemma StillPending(s: seq<Item>, x: Item, now: int)
    requires x in s && !Expired(x, now) && UniqueIds(s)
    ensures x.id in Ids(Pending(s, now))
    ensures var left := Without(s, ExpiredIds(s, now)); x in left && UniqueIds(left)
  {
    SortKeepsMembers(Unexpired(s, now), x);
    assert forall y :: y in s && y.id == x.id ==> y == x;
    WithoutUnique(s, ExpiredIds(s, now));
  }

  lemma {:induction false} WithoutUnique(s: seq<Item>, ids: set<nat>)
    requires UniqueIds(s)
    ensures UniqueIds(Without(s, ids))
    decreases |s|
  {
    if s != [] {
      assert forall i :: 0 <= i < |s[1..]| ==> s[1..][i] == s[i + 1];
      WithoutUnique(s[1..], ids);
      assert forall x :: x in s[1..] ==> x.id != s[0].id;
    }
  }

  // ----- storage -----

  class InMemoryStorage {
    var queue: seq<Item>

    constructor ()
      ensures queue == []
    {
      queue := [];
    }

    method Push(x: Item)
      modifies this
      ensures queue == old(queue) + [x]
    {
      queue := queue + [x];
    }

    method GetAll() returns (items: seq<Item>)
      ensures items == queue
    {
      items := queue;
    }

    method Remove(id: nat)
      modifies this
      ensures queue == Without(old(queue), {id})
    {
      queue := Without(queue, {id});
    }

    method Clear()
      modifies this
      ensures queue == []
    {
      queue := [];
    }

    method Size() returns (n: nat)
      ensures n == |queue|
    {
      n := |queue|;
    }
  }

  // ----- the controller -----

  class Controller {
    const storage: InMemoryStorage
    const maxQueueSize: int
    const ttlMs: Option<int>
    var nextId: nat

    constructor (storage: InMemoryStorage, maxQueueSize: int, ttlMs: Option<int>)
      requires storage.queue == []
      ensures this.storage == storage && this.maxQueueSize == maxQueueSize && this.ttlMs == ttlMs && Valid()
    {
      this.storage, this.maxQueueSize, this.ttlMs, this.nextId := storage, maxQueueSize, ttlMs, 1;
    }

    /** Stored ids are unique and already handed out. */
    ghost predicate Valid()
      reads this, storage
    {
      UniqueIds(storage.queue) && forall x :: x in storage.queue ==> x.id < nextId
    }

    function ExpiryOf(now: int): Option<int> {
      if ttlMs.Some? then Some(now + ttlMs.value) else None
    }

    /** The middleware's offline branch, with the default id counter; None is the queue-full error. */
    method Enqueue(payload: nat, priority: Option<int>, now: int) returns (id: Option<nat>)
      requires Valid()
      modifies this, storage
      ensures Valid()
      ensures id == if |old(storage.queue)| >= maxQueueSize then None else Some(old(nextId))
      ensures id.None? ==> storage.queue == old(storage.queue)
      ensures id.Some? ==> storage.queue == old(storage.queue) + [Item(id.value, payload, priority, now, ExpiryOf(now))]
    {
      var size := storage.Size();
      if size >= maxQueueSize {
        return None;
      }
      id := Some(nextId);
      nextId := nextId + 1;
      storage.Push(Item(id.value, payload, priority, now, ExpiryOf(now)));
    }

    /** Removes what has expired; returns what has not, in stored order. */
    method DropExpired(now: int) returns (live: seq<Item>)
      modifies storage
      ensures live == Unexpired(old(storage.queue), now)
      ensures storage.queue == Without(old(storage.queue), ExpiredIds(old(storage.queue), now))
    {
      hide Without, ExpiredIds;
      var all := storage.GetAll();
      live := Unexpired(all, now);
      var i := 0;
      NothingExpired(all, now);
      while i < |all|
        invariant 0 <= i <= |all|
        invariant storage.queue == Without(all, ExpiredIds(all[..i], now))
      {
        assert all[..i + 1] == all[..i] + [all[i]];
        ExpiredOne(all, now, all[..i], all[i]);
        if Expired(all[i], now) {
          storage.Remove(all[i].id);
        }
        i := i + 1;
      }
      assert all[..i] == all;
    }

    /** Replay one at a time. */
    method ReplaySequentially(pending: seq<Item>, replay: Replay) returns (responses: seq<Response>, calls: seq<Item>)
      modifies storage
      ensures responses == Responses(replay, pending) && calls == pending
      ensures storage.queue == Without(old(storage.queue), DoneIds(replay, pending))
    {
      hide Without, Responses, DoneIds;
      responses, calls := [], [];
      var i := 0;
      ghost var start := storage.queue;
      NothingReplayed(start, replay);
      while i < |pending|
        invariant 0 <= i <= |pending|
        invariant responses == Responses(replay, pending[..i]) && calls == pending[..i]
        invariant storage.queue == Without(start, DoneIds(replay, pending[..i]))
      {
        var item := pending[i];
        assert pending[..i + 1] == pending[..i] + [item];
        ResponsesAppend(replay, pending[..i], item);
        ReplayedOne(start, replay, pending[..i], item);
        calls := calls + [item];
        var result := replay(item);
        if result.Some? {
          responses := responses + [result.value];
          storage.Remove(item.id);
        }
        i := i + 1;
      }
      assert pending[..i] == pending;
    }

    /** Replay a batch at once: the replays settle in any order, the results keep the batch's. */
    method SettleBatch(batch: seq<Item>, replay: Replay) returns (results: seq<Option<Response>>)
      modifies storage
      ensures |results| == |batch| && forall j :: 0 <= j < |batch| ==> results[j] == replay(batch[j])
      ensures storage.queue == Without(old(storage.queue), DoneIds(replay, batch))
    {
      results := seq(|batch|, j requires 0 <= j < |batch| => replay(batch[j]));
      var unsettled := Indices(|batch|);
      ghost var start, done: set<nat> := storage.queue, {};
      WithoutNone(start);
      while unsettled != {}
        invariant unsettled <= Indices(|batch|)
        invariant storage.queue == Without(start, done)
        invariant done == set j | 0 <= j < |batch| && j !in unsettled && replay(batch[j]).Some? :: batch[j].id
        decreases |unsettled|
      {
        var j :| j in unsettled;
        unsettled := unsettled - {j};
        if results[j].Some? {
          WithoutBoth(start, done, {batch[j].id});
          storage.Remove(batch[j].id);
          done := done + {batch[j].id};
        }
      }
      assert done == DoneIds(replay, batch);
    }

    /** The fulfilled results, in order. */
    method Collect(batch: seq<Item>, results: seq<Option<Response>>, replay: Replay, before: seq<Response>)
      returns (responses: seq<Response>)
      requires |results| == |batch| && forall j :: 0 <= j < |batch| ==> results[j] == replay(batch[j])
      ensures responses == before + Responses(replay, batch)
    {
      responses := before;
      var j := 0;
      while j < |results|
        invariant 0 <= j <= |results|
        invariant responses == before + Responses(replay, batch[..j])
      {
        assert batch[..j + 1] == batch[..j] + [batch[j]];
        ResponsesAppend(replay, batch[..j], batch[j]);
        if results[j].Some? {
          responses := responses + [results[j].value];
        }
        j := j + 1;
      }
      assert batch[..j] == batch;
    }

    method ReplayInBatches(pending: seq<Item>, replay: Replay, concurrency: int)
      returns (responses: seq<Response>, calls: seq<Item>)
      requires concurrency > 1
      modifies storage
      ensures responses == Responses(replay, pending) && calls == pending
      ensures storage.queue == Without(old(storage.queue), DoneIds(replay, pending))
    {
      hide Without, Responses, DoneIds;
      responses, calls := [], [];
      var i := 0;
      ghost var start := storage.queue;
      NothingReplayed(start, replay);
      while i < |pending|
        invariant 0 <= i <= |pending|
        invariant responses == Responses(replay, pending[..i]) && calls == pending[..i]
        invariant storage.queue == Without(start, DoneIds(replay, pending[..i]))
      {
        var end := if i + concurrency <= |pending| then i + concurrency else |pending|;
        var batch := pending[i..end];
        assert pending[..end] == pending[..i] + batch;
        calls := calls + batch;
        var results := SettleBatch(batch, replay);
        responses := Collect(batch, results, replay, responses);
        ReplayedMore(start, replay, pending[..i], batch);
        i := end;
      }
      assert pending[..i] == pending;
    }

    /**
      Whatever the concurrency: each unexpired item is replayed once in priority order, the responses
      come in that order, and exactly the failed items stay, in their stored order.
     */
    method Flush(replay: Replay, now: int, concurrency: int) returns (responses: seq<Response>, calls: seq<Item>)
      requires Valid()
      modifies storage
      ensures Valid()
      ensures calls == Pending(old(storage.queue), now)
      ensures responses == Responses(replay, calls)
      ensures storage.queue == Remaining(old(storage.queue), now, replay)
      ensures ByPrecedence(old(storage.queue), calls)
      ensures forall x :: x in calls <==> x in old(storage.queue) && Live(x, now)
      ensures InOrderOfCalls(replay, calls, responses)
      ensures InStoredOrder(old(storage.queue), storage.queue)
      ensures forall x :: x in storage.queue <==> x in old(storage.queue) && Live(x, now) && replay(x).None?
    {
      ghost var all := storage.queue;
      var live := DropExpired(now);
      var pending := Sort(live);
      if concurrency <= 1 {
        responses, calls := ReplaySequentially(pending, replay);
      } else {
        responses, calls := ReplayInBatches(pending, replay, concurrency);
      }
      WithoutBoth(all, ExpiredIds(all, now), DoneIds(replay, pending));
      LeavesExactlyFailed(all, now, replay);
      RemainingUnique(all, now, replay);
      PendingOrder(all, now);
      AllResponses(replay, pending);
      RemainingOrder(all, now, replay);
    }
  }

  lemma {:induction false} RemainingUnique(s: seq<Item>, now: int, replay: Replay)
    requires UniqueIds(s)
    ensures UniqueIds(Remaining(s, now, replay))
    ensures forall x :: x in Remaining(s, now, replay) ==> x in s
    decreases |s|
  {
    if s != [] {
      assert UniqueIds(s[1..]) by {
        assert forall i :: 0 <= i < |s[1..]| ==> s[1..][i] == s[i + 1];
      }
      RemainingUnique(s[1..], now, replay);
      assert forall x :: x in s[1..] ==> x.id != s[0].id;
    }
  }
}
