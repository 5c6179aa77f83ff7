/**
  The message loop of a PostgreSQL query, and the queries of one connection: when each of
  them reads its own reply.
 */
module PgQueries {
  import opened Bytes
  import opened Wrappers
  import opened HyperCodec
  import opened PgRows
  import opened ByteStreams
  import opened WireFraming

  const DATA_ROW: Byte := 68  // 'D'
  const ERROR_RESPONSE: Byte := 69  // 'E'
  const ROW_DESCRIPTION: Byte := 84  // 'T'
  const READY: Byte := 90  // 'Z'

  // ----- row descriptions -----

  /** The first zero byte from `pos` on, or the end. */
  function NulAt(data: Data, pos: nat): (r: nat)
    requires pos <= |data|
    ensures pos <= r <= |data|
    decreases |data| - pos
  {
    if pos == |data| || data[pos] == 0 then pos else NulAt(data, pos + 1)
  }

  /** The described columns from `pos` on, after those in `done`; None when reading them throws. */
  function Described(data: Data, pos: nat, count: nat, done: seq<FieldDescription>): Option<seq<FieldDescription>>
    decreases count
  {
    if count == 0 then Some(done)
    else if pos >= |data| then None
    else
      var nul := NulAt(data, pos);
      if nul + 19 > |data| then None
      else Described(data, nul + 19, count - 1, done + [DescribedAt(data, pos, nul)])
  }

  function DescribedAt(data: Data, pos: nat, nul: nat): FieldDescription
    requires pos <= nul && nul + 19 <= |data|
  {
    FieldDescription(FastDecode(data[pos..nul]), Signed32(ReadBE32(data, nul + 7)), ReadBE16(data, nul + 17))
  }

  function Description(data: Data): Option<seq<FieldDescription>> {
    if |data| < 2 then None else Described(data, 2, ReadBE16(data, 0), [])
  }

  /** `parseRowDescription`, up to the metadata nothing here uses. */
  method ParseRowDescription(data: Data) returns (r: Option<seq<FieldDescription>>)
    ensures r == Description(data)
  {
    hide FastDecode, ReadBE16, ReadBE32, NulAt;
    if |data| < 2 {
      return None;
    }
    var fieldCount := ReadBE16(data, 0);
    var fields: seq<FieldDescription> := [];
    var offset := 2;
    var i := 0;
    while i < fieldCount
      invariant 0 <= i <= fieldCount && offset >= 0
      invariant Described(data, offset, fieldCount - i, fields) == Description(data)
    {
      if offset >= |data| {
        return None;
      }
      var nullIndex := FindNul(data, offset);
      if nullIndex >= |data| {
        return None;
      }
      if nullIndex + 1 + 18 > |data| {
        return None;
      }
      fields := fields + [DescribedAt(data, offset, nullIndex)];
      offset := nullIndex + 19;
      i := i + 1;
    }
    return Some(fields);
  }

  method FindNul(data: Data, pos: nat) returns (at: nat)
    requires pos <= |data|
    ensures at == NulAt(data, pos)
  {
    at := pos;
    while at < |data| && data[at] != 0
      invariant pos <= at <= |data| && NulAt(data, at) == NulAt(data, pos)
    {
      at := at + 1;
    }
  }

  // ----- one query -----

  /** What a query comes to: its rows, an exception, or the stream's failure. */
  datatype QueryResult = Rows(rows: seq<seq<Field>>) | Thrown | Broken(error: StreamError)

  /** A message that makes the query throw: an error, or a description or a row its parser rejects. */
  predicate Fails(p: Protocol, fields: seq<FieldDescription>, m: PgMessage) {
    || m.kind == ERROR_RESPONSE
    || (m.kind == ROW_DESCRIPTION && Description(m.data).None?)
    || (m.kind == DATA_ROW && ParsedPairs(p, m.data, fields).Failure?)
  }

  predicate Ends(p: Protocol, fields: seq<FieldDescription>, m: PgMessage) {
    m.kind == READY || Fails(p, fields, m)
  }

  /** The columns the rows after a message have. */
  function FieldsAfter(fields: seq<FieldDescription>, m: PgMessage): seq<FieldDescription> {
    if m.kind == ROW_DESCRIPTION && Description(m.data).Some? then Description(m.data).value else fields
  }

  function RowsAfter(p: Protocol, fields: seq<FieldDescription>, rows: seq<seq<Field>>, m: PgMessage): seq<seq<Field>> {
    if m.kind == DATA_ROW && ParsedPairs(p, m.data, fields).Success? then
      rows + [AssignAll(ParsedPairs(p, m.data, fields).value)]
    else rows
  }

  /** What the message loop makes of a stream, and what it leaves of it. */
  function Answered(p: Protocol, flat: Data, fields: seq<FieldDescription>, rows: seq<seq<Field>>): (QueryResult, Data)
    decreases |flat|
  {
    match NextMessage(flat)
    case Failure(e) => (Broken(e), flat)
    case Success((m, rest)) =>
      if Fails(p, fields, m) then (Thrown, rest)
      else if m.kind == READY then (Rows(rows), rest)
      else Answered(p, rest, FieldsAfter(fields, m), RowsAfter(p, fields, rows, m))
  }

  /** The message loop of `executeExtendedQuery`. */
  method ReadAnswer(p: Protocol, reader: StreamReader) returns (r: QueryResult)
    requires reader.Valid()
    modifies reader
    ensures reader.Valid()
    ensures r == Answered(p, old(reader.Flat()), [], []).0
    ensures !r.Broken? ==> reader.Flat() == Answered(p, old(reader.Flat()), [], []).1
  {
    hide NextMessage, Description, ParsedPairs, AssignAll, Answered;
    var fields: seq<FieldDescription> := [];
    var rows: seq<seq<Field>> := [];
    while true
      invariant reader.Valid()
      invariant Answered(p, reader.Flat(), fields, rows) == Answered(p, old(reader.Flat()), [], [])
      decreases |reader.Flat()|
    {
      AnsweredStep(p, reader.Flat(), fields, rows);
      var next := ReadMessage(reader);
      if next.Failure? {
        return Broken(next.error);
      }
      var m := next.value;
      if m.kind == ROW_DESCRIPTION {
        var described := ParseRowDescription(m.data);
        if described.None? {
          return Thrown;
        }
        fields := described.value;
      }
      if m.kind == DATA_ROW {
        var row := ParseDataRow(p, m.data, fields);
        if row.Failure? {
          return Thrown;
        }
        rows := rows + [row.value];
      }
      if m.kind == READY {
        return Rows(rows);
      }
      if m.kind == ERROR_RESPONSE {
        return Thrown;
      }
    }
  }

  lemma AnsweredStep(p: Protocol, flat: Data, fields: seq<FieldDescription>, rows: seq<seq<Field>>)
    ensures var next := NextMessage(flat);
      Answered(p, flat, fields, rows) ==
        if next.Failure? then (Broken(next.error), flat)
        else
          var m, rest := next.value.0, next.value.1;
          if Fails(p, fields, m) then (Thrown, rest)
          else if m.kind == READY then (Rows(rows), rest)
          else Answered(p, rest, FieldsAfter(fields, m), RowsAfter(p, fields, rows, m))
  {
    hide NextMessage, Fails, FieldsAfter, RowsAfter;
  }

  // ----- what a query reads of the messages sent -----

  predicate AllFrameable(ms: seq<PgMessage>) {
    forall i :: 0 <= i < |ms| ==> Frameable(ms[i])
  }

  /** How many of the messages a query reads: those up to the first that ends it. */
  function OwnPart(p: Protocol, fields: seq<FieldDescription>, ms: seq<PgMessage>): (n: nat)
    ensures n <= |ms| && (ms != [] ==> n > 0)
    decreases |ms|
  {
    if ms == [] then 0
    else if Ends(p, fields, ms[0]) then 1
    else 1 + OwnPart(p, FieldsAfter(fields, ms[0]), ms[1..])
  }

  /** Some message ends the query. */
  predicate Ending(p: Protocol, fields: seq<FieldDescription>, ms: seq<PgMessage>)
    decreases |ms|
  {
    ms != [] && (Ends(p, fields, ms[0]) || Ending(p, FieldsAfter(fields, ms[0]), ms[1..]))
  }

  /** What a query returns that is sent these messages. */
  function ResultOf(p: Protocol, fields: seq<FieldDescription>, rows: seq<seq<Field>>, ms: seq<PgMessage>): QueryResult
    decreases |ms|
  {
    if ms == [] then Broken(StreamClosed)
    else if Fails(p, fields, ms[0]) then Thrown
    else if ms[0].kind == READY then Rows(rows)
    else ResultOf(p, FieldsAfter(fields, ms[0]), RowsAfter(p, fields, rows, ms[0]), ms[1..])
  }

  function Result(p: Protocol, ms: seq<PgMessage>): QueryResult {
    ResultOf(p, [], [], ms)
  }

  /** Off the frames of some messages a query reads its part, returns what they say and leaves all the others. */
  lemma {:induction false} ReplyRoundTrip(p: Protocol, fields: seq<FieldDescription>, rows: seq<seq<Field>>,
      ms: seq<PgMessage>, tail: Data)
    requires AllFrameable(ms) && Ending(p, fields, ms)
    ensures Answered(p, PgFrames(ms) + tail, fields, rows) ==
      (ResultOf(p, fields, rows, ms), PgFrames(ms[OwnPart(p, fields, ms)..]) + tail)
    decreases |ms|
  {
    hide NextMessage, PgFrame, Fails, FieldsAfter, RowsAfter, Frameable;
    var m, rest := ms[0], ms[1..];
    ConcatAssoc(PgFrame(m), PgFrames(rest), tail);
    NextFrame(m, PgFrames(rest) + tail);
    AnsweredStep(p, PgFrames(ms) + tail, fields, rows);
    if !Ends(p, fields, m) {
      var after := FieldsAfter(fields, m);
      ReplyRoundTrip(p, after, RowsAfter(p, fields, rows, m), rest, tail);
      assert rest[OwnPart(p, after, rest)..] == ms[OwnPart(p, fields, ms)..];
    }
  }

  /** Any two ways of cutting the same messages into chunks, empty ones included, give the same result. */
  method ReadChunkedReply(p: Protocol, ms: seq<PgMessage>, ghost tail: Data, chunks: seq<Data>) returns (r: QueryResult)
    requires AllFrameable(ms) && Ending(p, [], ms) && Concat(chunks) == PgFrames(ms) + tail
    ensures r == Result(p, ms)
  {
    var reader := new StreamReader(chunks);
    assert reader.Flat() == Concat(chunks);
    ReplyRoundTrip(p, [], [], ms, tail);
    r := ReadAnswer(p, reader);
  }

  // ----- the queries of one connection -----

  /** What a server sends for one query: messages up to ready-for-query, an error message being no end. */
  predicate ServerReply(ms: seq<PgMessage>) {
    && ms != [] && AllFrameable(ms)
    && (forall i :: 0 <= i < |ms| - 1 ==> ms[i].kind != READY)
    && ms[|ms| - 1].kind == READY
  }

  /** A message of the reply makes its query throw. */
  predicate HoldsFailure(p: Protocol, fields: seq<FieldDescription>, ms: seq<PgMessage>)
    decreases |ms|
  {
    ms != [] && (Fails(p, fields, ms[0]) || HoldsFailure(p, FieldsAfter(fields, ms[0]), ms[1..]))
  }

  lemma ReadyOrLater(ms: seq<PgMessage>)
    requires ServerReply(ms)
    ensures ms != [] && (ms[0].kind == READY <==> |ms| == 1)
    ensures |ms| > 1 ==> ServerReply(ms[1..])
  {
    if |ms| > 1 {
      var rest := ms[1..];
      assert rest[|rest| - 1] == ms[|ms| - 1];
      assert forall i :: 0 <= i < |rest| ==> rest[i] == ms[i + 1];
    }
  }

  /** A query reads its whole reply exactly when no message of it fails; otherwise a reply's end is left. */
  lemma {:induction false} OwnPartFits(p: Protocol, fields: seq<FieldDescription>, ms: seq<PgMessage>)
    requires ServerReply(ms)
    ensures Ending(p, fields, ms)
    ensures var n := OwnPart(p, fields, ms);
      && (!HoldsFailure(p, fields, ms) ==> n == |ms|) && (HoldsFailure(p, fields, ms) ==> n < |ms|)
      && (n < |ms| ==> ServerReply(ms[n..]))
    decreases |ms|
  {
    hide Fails, FieldsAfter, ServerReply;
    ReadyOrLater(ms);
    ReadyPasses(p, fields, ms[0]);
    NothingFails(p, FieldsAfter(fields, ms[0]));
    if |ms| > 1 && !Fails(p, fields, ms[0]) {
      var after := FieldsAfter(fields, ms[0]);
      OwnPartFits(p, after, ms[1..]);
      assert ms[1..][OwnPart(p, after, ms[1..])..] == ms[OwnPart(p, fields, ms)..];
    } else {
      assert |ms| == 1 ==> ms[1..] == [];
    }
  }

  lemma ReadyPasses(p: Protocol, fields: seq<FieldDescription>, m: PgMessage)
    ensures m.kind == READY ==> !Fails(p, fields, m)
  {
  }

  lemma NothingFails(p: Protocol, fields: seq<FieldDescription>)
    ensures !HoldsFailure(p, fields, [])
  {
  }

  function Flatten(replies: seq<seq<PgMessage>>): seq<PgMessage>
    decreases |replies|
  {
    if replies == [] then [] else replies[0] + Flatten(replies[1..])
  }

  /** What n queries in a row return on a connection, and what is left for the next. */
  function Queries(p: Protocol, flat: Data, n: nat): (seq<QueryResult>, Data)
    decreases n
  {
    if n == 0 then ([], flat)
    else
      var first := Answered(p, flat, [], []);
      var rest := Queries(p, first.1, n - 1);
      ([first.0] + rest.0, rest.1)
  }

  /** What the queries would return that read these replies, each its own. */
  function Results(p: Protocol, replies: seq<seq<PgMessage>>): seq<QueryResult>
    decreases |replies|
  {
    if replies == [] then [] else [Result(p, replies[0])] + Results(p, replies[1..])
  }

  predicate AllReplies(replies: seq<seq<PgMessage>>) {
    forall i :: 0 <= i < |replies| ==> ServerReply(replies[i])
  }

  /** No reply before the k-th holds a message that fails. */
  predicate CleanBefore(p: Protocol, replies: seq<seq<PgMessage>>, k: nat)
    requires k <= |replies|
  {
    forall i :: 0 <= i < k ==> !HoldsFailure(p, [], replies[i])
  }

  /** The bytes a connection still has to deliver for these replies. */
  function Pending(replies: seq<seq<PgMessage>>, tail: Data): Data {
    PgFrames(Flatten(replies)) + tail
  }

  lemma PendingFirst(ms: seq<PgMessage>, later: seq<seq<PgMessage>>, tail: Data)
    ensures Pending([ms] + later, tail) == PgFrames(ms) + Pending(later, tail)
  {
    hide PgFrames;
    assert ([ms] + later)[1..] == later;
    FramesConcat(ms, Flatten(later));
    ConcatAssoc(PgFrames(ms), PgFrames(Flatten(later)), tail);
  }

  lemma PendingMore(ms: seq<PgMessage>, later: seq<seq<PgMessage>>, tail: Data)
    requires ms != []
    ensures |Pending([ms] + later, tail)| > |Pending(later, tail)|
  {
    PendingFirst(ms, later, tail);
    assert |PgFrames(ms)| >= |PgFrame(ms[0])|;
  }

  /** The first query reads its own part of the first reply, and leaves the rest of it. */
  lemma FirstQuery(p: Protocol, ms: seq<PgMessage>, later: seq<seq<PgMessage>>, tail: Data)
    requires ServerReply(ms)
    ensures var own := OwnPart(p, [], ms);
      Answered(p, Pending([ms] + later, tail), [], []) ==
        (Result(p, ms), Pending(if own == |ms| then later else [ms[own..]] + later, tail))
  {
    hide Answered, OwnPart, ResultOf, PgFrames, Flatten, HoldsFailure, Ending;
    var own := OwnPart(p, [], ms);
    OwnPartFits(p, [], ms);
    PendingFirst(ms, later, tail);
    PendingFirst(ms[own..], later, tail);
    ReplyRoundTrip(p, [], [], ms, Pending(later, tail));
    if own == |ms| {
      assert ms[own..] == [];
      NoFrames(Pending(later, tail));
    }
  }

  lemma NoFrames(tail: Data)
    ensures PgFrames([]) + tail == tail
  {
  }

  /**
    Query k starts reading at its own reply exactly when no message of an earlier reply failed; otherwise it
    starts inside an earlier one. Up to the first failure, its own query included, the queries return what
    their replies say.
   */
  predicate InStep(p: Protocol, replies: seq<seq<PgMessage>>, k: nat, tail: Data)
    requires k <= |replies|
  {
    var r := Queries(p, Pending(replies, tail), k);
    && (r.1 == Pending(replies[k..], tail) <==> CleanBefore(p, replies, k))
    && (!CleanBefore(p, replies, k) ==> |r.1| > |Pending(replies[k..], tail)|)
    && (k == 0 || CleanBefore(p, replies, k - 1) ==> r.0 == Results(p, replies[..k]))
  }

  lemma {:induction false} RepliesInStep(p: Protocol, replies: seq<seq<PgMessage>>, k: nat, tail: Data)
    requires AllReplies(replies) && k <= |replies|
    ensures InStep(p, replies, k, tail)
    decreases k
  {
    hide InStep, ServerReply, HoldsFailure, OwnPart;
    if k == 0 {
      NoneAsked(p, replies, tail);
    } else {
      var ms, later := replies[0], replies[1..];
      assert replies == [ms] + later;
      OwnPartFits(p, [], ms);
      if HoldsFailure(p, [], ms) {
        RepliesInStep(p, [ms[OwnPart(p, [], ms)..]] + later, k - 1, tail);
        FailedFirst(p, ms, later, k, tail);
      } else {
        RepliesInStep(p, later, k - 1, tail);
        CleanFirst(p, ms, later, k, tail);
      }
    }
  }

  lemma NoneAsked(p: Protocol, replies: seq<seq<PgMessage>>, tail: Data)
    ensures InStep(p, replies, 0, tail)
  {
    hide Pending, HoldsFailure;
    assert replies[0..] == replies && replies[..0] == [];
  }

  lemma CleanFirst(p: Protocol, ms: seq<PgMessage>, later: seq<seq<PgMessage>>, k: nat, tail: Data)
    requires ServerReply(ms) && !HoldsFailure(p, [], ms) && 0 < k <= |later| + 1 && InStep(p, later, k - 1, tail)
    ensures InStep(p, [ms] + later, k, tail)
  {
    hide Answered, Pending, ServerReply, HoldsFailure, OwnPart, Result, Queries, Results, CleanBefore;
    var replies := [ms] + later;
    assert later[k - 1..] == replies[k..] && replies[1..] == later;
    OwnPartFits(p, [], ms);
    FirstQuery(p, ms, later, tail);
    FirstThenRest(p, Pending(replies, tail), k);
    FirstResult(p, ms, later, k);
    CleanLater(p, replies, k);
    if k > 1 {
      CleanLater(p, replies, k - 1);
    }
  }

  lemma FailedFirst(p: Protocol, ms: seq<PgMessage>, later: seq<seq<PgMessage>>, k: nat, tail: Data)
    requires ServerReply(ms) && HoldsFailure(p, [], ms) && AllReplies(later) && 0 < k <= |later| + 1
    requires InStep(p, [ms[OwnPart(p, [], ms)..]] + later, k - 1, tail)
    ensures InStep(p, [ms] + later, k, tail)
  {
    hide Answered, Pending, ServerReply, HoldsFailure, OwnPart, Result, Queries, Results;
    var replies, behind := [ms] + later, [ms[OwnPart(p, [], ms)..]] + later;
    OwnPartFits(p, [], ms);
    FirstQuery(p, ms, later, tail);
    FirstThenRest(p, Pending(replies, tail), k);
    assert replies[0] == ms && !CleanBefore(p, replies, k) && (k > 1 ==> !CleanBefore(p, replies, k - 1));
    assert behind[k - 1..] == [behind[k - 1]] + replies[k..];
    NotEmpty(behind, k - 1);
    PendingMore(behind[k - 1], replies[k..], tail);
    if k == 1 {
      NoQueries(p, Pending(behind, tail));
      FirstResult(p, ms, later, 1);
      NoQueries(p, []);
      assert later[..0] == [];
    }
  }

  lemma NoQueries(p: Protocol, flat: Data)
    ensures Queries(p, flat, 0) == ([], flat) && Results(p, []) == []
  {
  }

  lemma FirstThenRest(p: Protocol, flat: Data, n: nat)
    requires n > 0
    ensures var first := Answered(p, flat, [], []); var rest := Queries(p, first.1, n - 1);
      Queries(p, flat, n) == ([first.0] + rest.0, rest.1)
  {
    hide Answered;
  }

  lemma FirstResult(p: Protocol, ms: seq<PgMessage>, later: seq<seq<PgMessage>>, k: nat)
    requires 0 < k <= |later| + 1
    ensures Results(p, ([ms] + later)[..k]) == [Result(p, ms)] + Results(p, later[..k - 1])
  {
    hide Result;
    assert ([ms] + later)[..k][1..] == later[..k - 1];
  }

  lemma CleanLater(p: Protocol, replies: seq<seq<PgMessage>>, k: nat)
    requires 0 < k <= |replies| && !HoldsFailure(p, [], replies[0])
    ensures CleanBefore(p, replies, k) <==> CleanBefore(p, replies[1..], k - 1)
  {
    hide HoldsFailure;
    var later := replies[1..];
    assert forall i :: 0 < i < k ==> replies[i] == later[i - 1];
    assert forall i :: 0 <= i < k - 1 ==> later[i] == replies[i + 1];
  }

  lemma NotEmpty(replies: seq<seq<PgMessage>>, i: nat)
    requires AllReplies(replies) && i < |replies|
    ensures replies[i] != []
  {
  }

  /**
    After one reply with a failure every query returns what another's reply says: the next one takes what is
    left of that reply for its own, and so on for as long as the connection is used.
   */
  lemma RepliesLateByOne(p: Protocol, first: seq<PgMessage>, later: seq<seq<PgMessage>>, tail: Data)
    requires ServerReply(first) && HoldsFailure(p, [], first)
    requires !HoldsFailure(p, [], first[OwnPart(p, [], first)..])
    requires AllReplies(later) && CleanBefore(p, later, |later|)
    ensures Queries(p, Pending([first] + later, tail), |later| + 2) ==
      ([Thrown, Result(p, first[OwnPart(p, [], first)..])] + Results(p, later), tail)
  {
    hide Answered, Pending, ServerReply, HoldsFailure, OwnPart, ResultOf, AllReplies, CleanBefore, Queries, Results;
    var left := first[OwnPart(p, [], first)..];
    OwnPartFits(p, [], first);
    OwnPartFits(p, [], left);
    FirstQuery(p, first, later, tail);
    FirstQuery(p, left, later, tail);
    FailureThrows(p, [], [], first);
    RepliesInStep(p, later, |later|, tail);
    LaterResults(p, later, tail);
    TwoMore(p, Pending([first] + later, tail), |later|);
    assert [Thrown] + ([Result(p, left)] + Results(p, later)) == [Thrown, Result(p, left)] + Results(p, later);
  }

  lemma LaterResults(p: Protocol, later: seq<seq<PgMessage>>, tail: Data)
    requires AllReplies(later) && CleanBefore(p, later, |later|)
    ensures Queries(p, Pending(later, tail), |later|) == (Results(p, later), tail)
  {
    hide Answered, ServerReply, HoldsFailure, OwnPart, Result;
    RepliesInStep(p, later, |later|, tail);
    assert later[|later|..] == [] && later[..|later|] == later;
    NoFrames(tail);
  }

  lemma TwoMore(p: Protocol, flat: Data, n: nat)
    ensures var one := Answered(p, flat, [], []); var two := Answered(p, one.1, [], []);
      var rest := Queries(p, two.1, n);
      Queries(p, flat, n + 2) == ([one.0] + ([two.0] + rest.0), rest.1)
  {
    hide Answered;
  }

  lemma {:induction false} FailureThrows(p: Protocol, fields: seq<FieldDescription>, rows: seq<seq<Field>>,
      ms: seq<PgMessage>)
    requires ServerReply(ms) && HoldsFailure(p, fields, ms)
    ensures ResultOf(p, fields, rows, ms) == Thrown
    decreases |ms|
  {
    hide Fails, FieldsAfter, RowsAfter, ServerReply;
    ReadyOrLater(ms);
    ReadyPasses(p, fields, ms[0]);
    NothingFails(p, FieldsAfter(fields, ms[0]));
    if !Fails(p, fields, ms[0]) {
      FailureThrows(p, FieldsAfter(fields, ms[0]), RowsAfter(p, fields, rows, ms[0]), ms[1..]);
    }
  }

  /** An error message followed by ready-for-query: the next query returns no rows at all. */
  lemma {:induction false} ErrorPart(p: Protocol, fields: seq<FieldDescription>, before: seq<PgMessage>,
      error: PgMessage, ready: PgMessage)
    requires ServerReply(before + [error, ready]) && error.kind == ERROR_RESPONSE && !HoldsFailure(p, fields, before)
    ensures var ms := before + [error, ready];
      HoldsFailure(p, fields, ms) && OwnPart(p, fields, ms) == |before| + 1 && ms[|before| + 1..] == [ready]
    ensures Result(p, [ready]) == Rows([]) && !HoldsFailure(p, [], [ready])
    decreases |before|
  {
    hide FieldsAfter, Description, ParsedPairs;
    var ms := before + [error, ready];
    ReadyOrLater(ms);
    assert ms[|ms| - 1] == ready && ms[|before|] == error;
    NothingFails(p, FieldsAfter([], ready));
    if before != [] {
      assert ms[0] == before[0] && ms[1..] == before[1..] + [error, ready];
      ErrorPart(p, FieldsAfter(fields, ms[0]), before[1..], error, ready);
    }
  }
}
