# Verified model of pureq's protocols

This project models the parts of pureq whose correctness spans several functions or
whole runs, and proves what they are for. One Dafny module stands for one component:

- **RPC binary path.** `HyperCodec` (the tagged binary codec, with the growing slab and
  the bounds-checked decoder as classes), `HyperFormat` (its format in numbers and bytes),
  `Transcoder` (PostgreSQL rows copied column by column into codec bytes), `RpcSigning`
  (request signing on both sides).
- **Database wire path.** `ByteStreams` (two chunk queues), `WireFraming` (message and
  packet framing on top of them), `PgQueries` and `MysqlQueries` (what the queries of a
  connection read), `PgReplies` and `MysqlReplies` (what they return, said of the bytes the
  server sends), `PgRows` and `PgLazyRow`, `MysqlLazyRow` (eager and memoising row
  readers), `PgBind`, `MysqlValues` and `MysqlExecute` (encoders that size a buffer first
  and fill it afterwards). `Bytes` and `Buffers` hold the byte words and buffer fills they
  share.
- **Admission protocols.** `ConcurrencyLimit`, `DriverPool`, `CircuitBreaker` and
  `OfflineQueue`. JavaScript runs each stretch between two awaits without interruption, so
  each such stretch is one step, and the theorems are about all sequences of steps.
- **Policies.** `JsonPointer` (sections 3 and 4 of RFC 6901), `PolicyParse` (schema
  parsing that flattens policies into a map), `PolicyFaults` (what a failed parse reports),
  `PolicyMap` (what that map holds), `PolicyRender` (rendering through the map against a
  direct walk), `PolicyEffects` (what that does to a field at any depth).
- **SQL.** `SqlCompiler`, `SqlParser` (a reader that undoes it), `SqlMeaning`
  (three-valued logic), `SqlStatements` and `SqlReader` (whole statements), `SqlSafety`
  (what can get into a text), `QueryBuilder` (conditions and row filters).

Mutable objects of the source are classes whose methods are proved against functions on
values; the lemmas are about those functions.

Facts about the code that the proofs brought out, each stated by a lemma with its exact
condition:

- The decoder's `TextDecoder` drops a leading byte order mark, so a string that starts
  with one does not survive the codec (`HyperCodec.RoundTrip`).
- An untampered request does not always pass the signature check. It passes exactly when
  its query id and its parameters hold no string that starts with a byte order mark and
  nothing beyond the decoder's limits, as long as the code tells the signed message from
  the shorter one the server checks otherwise (`RpcSigning.HonestCallExact`); one marked
  string, at any depth, is enough for a refusal (`RpcSigning.MarkedStringAltered`).
- Nothing separates query id and parameters in a signed message, so one signature can stand
  for two calls (`RpcSigning.TwoCallsOneMessage`); for ids without control bytes below 10 it
  stands for one (`RpcSigning.SignatureBinds`).
- A query that throws in its message loop stops reading there and leaves the end of its
  reply behind. A PostgreSQL connection stays in step exactly until the first reply with an
  error message or with a row or description its parser rejects
  (`PgQueries.RepliesInStep`); from then on every query gets another's reply
  (`PgQueries.RepliesLateByOne`). A MySQL query uses up its reply exactly when every row of
  it is accepted (`MysqlQueries.StreamLeft`).
- Without `lockName`, overlapping flushes of the offline queue can send an item twice
  (`OfflineQueue.SentTwice`); with flushes kept apart each is sent at most once
  (`OfflineQueue.SentOnce`).
- `createPacket` loses the length of payloads of 2^24 bytes and more
  (`WireFraming.PacketRoundTrip`), and `writeLenEnc` that of lengths from 2^32 on.
- `encodeStmtExecute` writes the new-parameters flag even without parameters, where the
  layout ends before it (`MysqlExecute.ExecuteRoundTrip`).
- A request that outlives the phase it was admitted in clears the breaker's probe flag and
  lets a second probe in (`CircuitBreaker.LateFinisherAdmitsSecondProbe`).
- A policy under a schema key that ends in white space is filed under another pointer and
  is not applied, and the empty key of the root takes the root's place: for a key at any
  depth under good ones both conditions are needed (`PolicyRender.GoodKeysNeeded`). Below
  the root an empty key is harmless unless an array is below it: the path rendering builds
  for an item is the stored pointer exactly when no key on the way is empty
  (`PolicyRender.IndexPathEncodes`), and an item hidden by its policy is shown otherwise
  (`PolicyRender.EmptyKeyAboveArray`).
- The limiter's ticket counter starts again from 0 after 2^53 - 1. A ticket still held is
  then drawn again in some run exactly when two calls can wait for a key
  (`ConcurrencyLimit.AlwaysFresh`), and the new call's abort removes the old one's entry
  (`ConcurrencyLimit.ReusedTicketDropsAnother`).
- JSON_EXTRACT is documented by its error message to take exactly two arguments. The code
  accepts more, compiles them and drops their text and parameters
  (`SqlMeaning.ExtraArgsDropped`), so the text means what the expression means exactly when
  there are no extra ones (`SqlMeaning.ExtractExact` for a call, `SqlMeaning.ExtraArgsLost`
  for any expression without AND, OR and empty lists, which can hide the difference).

## Model

| member | source | states |
|---|---|---|
| HyperCodec.Encode | packages/rpc/src/runtime/shared/codec.ts:11-107 | When `encode` does not throw, its bytes are a function of the value alone, whatever the initial slab's size or contents; it cannot throw for a value that fits the slab or half the 128 MiB limit, and must throw for one above the slab and the whole limit. |
| HyperCodec.Encoder.Ensure | packages/rpc/src/runtime/shared/codec.ts:15-26 | Growing the slab keeps everything written, at least doubles, and fails only past the limit. |
| HyperCodec.Encoder.Write | packages/rpc/src/runtime/shared/codec.ts:28-103 | `write` appends exactly the value's encoding to what was written before, for every nested value, or hits the size limit. |
| HyperCodec.Decoder.ReadValue | packages/rpc/src/runtime/shared/codec.ts:117-184 | `read` started at any offset of any bytes does what the decoding function says: same value, same next offset, same exception, an object key that cannot be made a string included. |
| HyperCodec.Decode | packages/rpc/src/runtime/shared/codec.ts:109-186 | `decode` answers with the first value of the buffer and ignores what follows it. |
| HyperCodec.DecodeEncoded | packages/rpc/src/runtime/shared/codec.ts:28-184 | Wherever an encoding stands in a buffer, decoding there stops exactly at its end with the received value (strings without a leading byte order mark), unless a string or count exceeds the decoder's limits, and then it throws. |
| HyperCodec.RoundTrip | packages/rpc/src/runtime/shared/codec.ts:11-186 | Decoding `encode(v)` followed by any bytes returns v and consumes exactly `encode(v)` if and only if every string and count in v is one the decoder preserves. |
| HyperCodec.UniquelyDecodable | packages/rpc/src/runtime/shared/codec.ts:28-103 | No encoding is a prefix of another and equal encodings come from equal values, for every value that can be written, those the decoder alters or rejects included. |
| HyperCodec.ReceivedUnchanged | packages/rpc/src/runtime/shared/codec.ts:135-144 | A value without marked strings is received unchanged. |
| HyperCodec.ReceivedNotLonger | packages/rpc/src/runtime/shared/codec.ts:135-172 | For every value the decoder accepts: what is received encodes in no more bytes than what was sent, and in as many if and only if every string survives. |
| HyperCodec.SurvivingText | packages/rpc/src/runtime/shared/codec.ts:117-184 | In a value that survives, every string, error message and property name at any depth does. |
| HyperCodec.AssignDistinct | packages/rpc/src/runtime/shared/codec.ts:161-172 | Assigning distinct keys one by one builds exactly that list of properties. |
| HyperCodec.AssignKeepsAll | packages/rpc/src/runtime/shared/codec.ts:161-172 | An object with as many properties as there were assignments lost none of them. |
| HyperFormat.LeafWritten | packages/rpc/src/runtime/shared/codec.ts:28-103 | The bytes of values without parts: tag 0 for null, 1 and the truth, 2 and the number in four bytes with the lowest first, 3 and 5 before the eight bytes of floats and dates. |
| HyperFormat.TextWritten | packages/rpc/src/runtime/shared/codec.ts:28-103 | Strings and buffers are tag 4 or 8, the length in four bytes with the lowest first, and the bytes; an error is tag 9 and its message as a string. |
| HyperFormat.ListWritten | packages/rpc/src/runtime/shared/codec.ts:28-103 | Arrays and objects are tag 7 or 6, the count in four bytes, and every item, or every key as a string and its value, in order. |
| HyperFormat.RefusedRead | packages/rpc/src/runtime/shared/codec.ts:117-184 | Which exception reading throws at the start of any bytes, whatever follows: truncated numbers and contents, tags above 9, strings over 16 MiB, more than a million items or properties. |
| HyperFormat.LeafRead | packages/rpc/src/runtime/shared/codec.ts:117-184 | What reading makes of any bytes under the tags of null, boolean, float and date; a boolean is true for the byte 1 only. |
| HyperFormat.WordRead | packages/rpc/src/runtime/shared/codec.ts:117-184 | What it makes of any bytes under the tags of numbers, strings and buffers. |
| HyperFormat.AssignedLast | packages/rpc/src/runtime/shared/codec.ts:161-172 | Of properties assigned one by one every key has the value it was given last and the place it was given first. |
| PgRows.FastDecodeIsDecode | packages/db/src/protocol/pg-wire.ts:95-112 | The ASCII fast path returns what the decoder returns. |
| PgRows.ParseDataRow | packages/db/src/protocol/pg-wire.ts:397-449 | The eager parser's loop is the column-by-column reading of the row, with the same exception for the same malformed row. |
| PgRows.AcceptedColumn | packages/db/src/protocol/pg-wire.ts:403-447 | A row the eager parser accepts holds, for each described column, what that column alone decodes to. |
| PgRows.AcceptedLength | packages/db/src/protocol/pg-wire.ts:403-422 | An accepted row yields one pair per described column; columns without a description are skipped. |
| PgLazyRow.CellsAgree | packages/db/src/drivers/native/postgres/lazy-row.ts:58-66 | On the columns both readers support, the lazy decoding of a column is the eager one. |
| PgLazyRow.LazyRow.EnsureOffsets | packages/db/src/drivers/native/postgres/lazy-row.ts:26-36 | The offset table, once filled, holds every column's start and length. |
| PgLazyRow.LazyRow.Get | packages/db/src/drivers/native/postgres/lazy-row.ts:38-67 | Whatever properties were read before, reading one answers as the eagerly parsed row does, memo or not, and undefined for an unknown name. |
| PgLazyRow.LazyRow.LazyIsEager | packages/db/src/drivers/native/postgres/lazy-row.ts:49-66 | On a readable row the lazy decoding never throws and equals the eager value. |
| PgLazyRow.EagerLookup | packages/db/src/protocol/pg-wire.ts:403-447 | With distinct names, the eager row's property of a name is that name's column. |
| Transcoder.TranscodePgRow | packages/rpc/src/runtime/server/transcoder.ts:14-54 | The slab holds exactly the transcoded pairs from the given offset, the returned offset is their end, and every other byte of the slab is untouched. |
| Transcoder.TranscodedDecodes | packages/rpc/src/runtime/server/transcoder.ts:14-89 | Decoding the transcoded bytes of any row the eager parser accepts, wherever they stand, gives exactly that parsed row restricted to the whitelist; the header count is the number of pairs. |
| Transcoder.DecodeTranscodedValue | packages/rpc/src/runtime/server/transcoder.ts:68-89 | A transcoded INT4, BOOL, text or NULL column is read by the client as the eager parser reads it. |
| Transcoder.PairsCounted | packages/rpc/src/runtime/server/transcoder.ts:24-29 | The pairs written are as many as the whitelisted columns. |
| Transcoder.RestrictAssigned | packages/rpc/src/runtime/server/transcoder.ts:31-53 | Restricting to a whitelist commutes with building the object, repeated names included. |
| Transcoder.NonInterference | packages/rpc/src/runtime/server/transcoder.ts:31-53 | Rows that agree on the whitelisted columns give identical bytes, whatever the lengths and contents of the others. |
| RpcSigning.TimingSafeEqual | packages/rpc/src/runtime/shared/crypto.ts:55-71 | The accumulating comparison is true exactly on equal strings. |
| RpcSigning.SendRequest | packages/rpc/src/runtime/client/proxy.ts:20-25 | The client sends the encoding of the honestly signed request although one slab serves both encodings, and sends nothing under an empty secret. |
| RpcSigning.HandleRequest | packages/rpc/src/runtime/server/handler.ts:24-77 | The server's reply, slab reuse and exceptions included, is the verdict on the decoded body, whatever the body decodes to; past the slab limit it is a refusal. |
| RpcSigning.BodyJudged | packages/rpc/src/runtime/server/handler.ts:24-77 | Any body that decodes, honest or not, with a string or no id: too large by its length or its announced length, answered with the encoding of the procedure's result exactly when the signature is the code of the id's and the parameters' bytes under a secret that is not empty, forbidden otherwise. |
| RpcSigning.UnreadableRefused | packages/rpc/src/runtime/server/handler.ts:28-40 | A body that does not decode is refused, after its size is looked at. |
| RpcSigning.RequestReceived | packages/rpc/src/runtime/server/handler.ts:38-40 | The server decodes an honest request to the same three properties, each as received, or rejects it when the id or the parameters exceed the decoder's limits. |
| RpcSigning.HonestVerdict | packages/rpc/src/runtime/server/handler.ts:24-77 | Every honest request, oversized and undecodable ones included, is answered if the secret is not empty and the code of the re-encoded message is that of the signed one, and forbidden otherwise. |
| RpcSigning.MessagesCompared | packages/rpc/src/runtime/server/handler.ts:51-56 | The message the server checks is the signed one when the id and the parameters survive, and shorter in every other case. |
| RpcSigning.HonestCallAnswered | packages/rpc/src/runtime/server/handler.ts:38-71 | Under a secret that is not empty, an honest call whose id and parameters the codec preserves passes every check: the re-encoded parameters are the signed bytes, and the handler runs on the client's parameters. |
| RpcSigning.AlteredCall | packages/rpc/src/runtime/server/handler.ts:51-56 | Any other honest call gets a response only if two messages of different lengths have the same code, although the request was not tampered with. |
| RpcSigning.HonestCallExact | packages/rpc/src/runtime/server/handler.ts:38-71 | Exactly which honest requests are answered, when the secret is not empty and the code tells the signed message from the one the server checks: those whose query id and parameters hold only unmarked strings and counts within the decoder's limits; the others are forbidden. |
| RpcSigning.MarkedStringAltered | packages/rpc/src/runtime/shared/codec.ts:135-144 | Under the same condition, parameters that hold, at any depth, a string starting with a byte order mark get no response to an honest request. |
| RpcSigning.TwoCallsOneMessage | packages/rpc/src/runtime/shared/crypto.ts:14-30 | For every query id and all parameters there is a longer id and a call with a string parameter that have one message to sign: nothing separates id and parameters. |
| RpcSigning.SignatureBinds | packages/rpc/src/runtime/shared/crypto.ts:14-30 | For query ids without bytes below 10, whatever the parameters, messages are equal exactly when the calls are, and so are signatures whose codes differ with the messages. |
| RpcSigning.HonestEncodingsFit | packages/rpc/src/runtime/server/handler.ts:51-71 | On an honest request that fits half the slab limit, re-encoding the parameters cannot meet it. |
| RpcSigning.Call | packages/rpc/src/runtime/client/proxy.ts:15-27 | Client and server composed, over the handler table: under a secret that is not empty a call whose id and parameters survive gets the encoding of what the named procedure returns for the client's own parameters, and is forbidden if none is offered or it throws; and, when the code tells the two messages apart, a call that gets a response had such an id and parameters. |
| RpcSigning.AnswerSaid | packages/rpc/src/runtime/server/handler.ts:58-71 | An honest call that survives is answered with the encoding of what the named procedure returns, and forbidden if it is not offered or throws. |
| RpcSigning.ResponseRead | packages/rpc/src/runtime/shared/codec.ts:109-186 | Decoding a response gives the handler's result as received, and the result itself if everything in it survives. |
| RpcSigning.RequestSaid | packages/rpc/src/runtime/client/proxy.ts:20-25 | An honest request is the id, the code of the id's bytes followed by the parameters' bytes, and the parameters, in this order. |
| RpcSigning.HexRead | packages/rpc/src/runtime/shared/crypto.ts:27-30 | Each byte of a code is two hexadecimal digits in lower case, the higher first. |
| RpcSigning.HexInjective | packages/rpc/src/runtime/shared/crypto.ts:27-30 | Different codes have different hexadecimal signatures. |
| ByteStreams.StreamReader.Read | packages/connectivity/src/index.ts:36-46 | `read` returns the next bytes of the flat stream however it is chunked, or throws and loses none of them. |
| ByteStreams.StreamReader.Consume | packages/connectivity/src/index.ts:70-89 | Consuming across chunks returns the next buffered bytes and leaves the rest. |
| ByteStreams.StreamReader.Peek | packages/connectivity/src/index.ts:48-68 | `peek` returns the bytes the following `read` would, changing nothing, and null while too few are buffered. |
| ByteStreams.IOBuffer.Append | packages/db/src/drivers/native/common/io.ts:23-26 | Appending a chunk appends its bytes to the flat contents. |
| ByteStreams.IOBuffer.Consume | packages/db/src/drivers/native/common/io.ts:30-51 | The second queue refines the same flat contents: next bytes out, or underflow with nothing changed. |
| WireFraming.ReadMessage | packages/db/src/drivers/native/postgres/pg-connection.ts:61-67 | Reading a message off the stream is taking the first frame of the flat stream, whatever the chunks, errors included. |
| WireFraming.DecodeMessageAgrees | packages/db/src/protocol/pg-wire.ts:317-328 | On a buffer that starts with a whole frame, `decodeMessage` agrees with the stream reader and consumes the frame. |
| WireFraming.FrameLayout | packages/db/src/protocol/pg-wire.ts:317-328 | A frame is the type, how many bytes follow it in four bytes with the highest first, and the data. |
| WireFraming.CreatePacket | packages/db/src/protocol/mysql-wire.ts:85-93 | The filled buffer is the packet's header and payload. |
| WireFraming.PacketRoundTrip | packages/db/src/protocol/mysql-wire.ts:85-103 | A packet comes back whole exactly when its length fits three bytes and its sequence id one. |
| WireFraming.PacketLayout | packages/db/src/protocol/mysql-wire.ts:85-93 | A packet is three bytes of length with the lowest first, the sequence number and the payload. |
| WireFraming.ReadPacket | packages/db/src/drivers/native/mysql/mysql-connection.ts:54-60 | `readPacket` off the stream is `parsePacket` of the flat stream. |
| PgQueries.ParseRowDescription | packages/db/src/protocol/pg-wire.ts:366-394 | The loop over a row description computes the names, types and formats of its columns, or throws on the same malformed ones. |
| PgQueries.ReadAnswer | packages/db/src/drivers/native/postgres/pg-connection.ts:81-97 | The message loop of a query, row parsing and exceptions included, computes its rows and what it leaves of the stream. |
| PgQueries.ReplyRoundTrip | packages/db/src/drivers/native/postgres/pg-connection.ts:81-97 | Off the frames of any messages of which one ends it, a query returns what they say and leaves exactly those after the one that ended it. |
| PgQueries.ReadChunkedReply | packages/db/src/drivers/native/postgres/pg-connection.ts:61-97 | Any cut of those frames into chunks, empty ones included, gives the same result. |
| PgQueries.OwnPartFits | packages/db/src/drivers/native/postgres/pg-connection.ts:84-96 | A query reads the whole of its reply if and only if no message of it is an error, a description or a row that is rejected; otherwise the end of a reply is left. |
| PgQueries.RepliesInStep | packages/db/src/drivers/native/postgres/pg-connection.ts:69-98 | Over any list of server replies on one connection, query k starts reading at its own reply exactly when no earlier reply holds such a message; up to the first one the queries return what their replies say. |
| PgQueries.RepliesLateByOne | packages/db/src/drivers/native/postgres/pg-connection.ts:84-96 | After a reply with such a message the next query returns what the left-over end of it says, and every later query what the reply before its own says. |
| PgQueries.ErrorPart | packages/db/src/drivers/native/postgres/pg-connection.ts:94-95 | After an error message that end is the ready-for-query message, and the query that reads it returns no rows. |
| PgReplies.DescriptionRead | packages/db/src/protocol/pg-wire.ts:366-394 | A description laid out as names, table ids, attribute numbers, type ids, sizes, modifiers and formats is read as exactly the names, type ids and formats, whatever follows it. |
| PgReplies.RowRead | packages/db/src/protocol/pg-wire.ts:397-449 | A row laid out as a count and, for each column, a length and its bytes or -1, is read as each described column's value under its name: numbers, booleans, text and null as their bytes say. |
| PgReplies.RowsReturned | packages/db/src/drivers/native/postgres/pg-connection.ts:81-97 | A query sent a description, rows, a completion and ready-for-query returns an object for each row, or throws when a column cannot be decoded. |
| PgReplies.ReadRows | packages/db/src/drivers/native/postgres/pg-connection.ts:61-97 | It does so off any chunks the frames of that reply are cut into. |
| MysqlQueries.ReadAnswer | packages/db/src/drivers/native/mysql/mysql-connection.ts:80-88 | The row loop of a query, row parsing and exceptions included, computes its rows and what it leaves of the stream. |
| MysqlQueries.RowsRoundTrip | packages/db/src/drivers/native/mysql/mysql-connection.ts:80-88 | Off the packets of a row reply a query returns what they say and leaves exactly those after the one that ended it. |
| MysqlQueries.ReadChunkedRows | packages/db/src/drivers/native/mysql/mysql-connection.ts:54-88 | Any cut of a row reply into chunks gives the same result. |
| MysqlQueries.StreamLeft | packages/db/src/drivers/native/mysql/mysql-connection.ts:80-88 | The next query starts after this one's reply if and only if the parser accepts every row of it. |
| MysqlReplies.BitSays | packages/db/src/protocol/mysql-wire.ts:361-368 | Bit k of a byte of a null bitmap is the digit worth 2^k. |
| MysqlReplies.RowRead | packages/db/src/protocol/mysql-wire.ts:351-426 | A row laid out as a zero byte, a null bitmap from its third bit on and the other columns, of their type's size or with a length in front, is read as each column's value. |
| MysqlReplies.RowsReturned | packages/db/src/drivers/native/mysql/mysql-connection.ts:80-88 | A query sent rows and an end packet returns each row's values; sent an error packet, or a column whose JSON does not parse, it throws. |
| MysqlReplies.ReadRows | packages/db/src/drivers/native/mysql/mysql-connection.ts:54-88 | It does so off any chunks the packets are cut into. |
| PgBind.EncodeBind | packages/db/src/protocol/pg-wire.ts:231-284 | The two passes agree: exactly the sized number of bytes is written, and they are the Bind message. |
| PgBind.BindRoundTrip | packages/db/src/protocol/pg-wire.ts:231-284 | Parsing the message by the Bind layout of the PostgreSQL 3.0 protocol gives back names, parameters, the one parameter format text, and the result formats, one that is binary when none is given, if and only if names have no NUL, counts and format codes fit 16 bits, and parameter lengths and the whole length 31 bits. |
| PgBind.ParsedIsCarriable | packages/db/src/protocol/pg-wire.ts:231-284 | Whatever parses as a Bind message satisfies that condition. |
| MysqlValues.LenEncRoundTrip | packages/db/src/protocol/mysql-wire.ts:428-466 | A length-encoded integer followed by that much data reads back exactly if and only if it is below 2^32. |
| MysqlValues.LenEncLayout | packages/db/src/protocol/mysql-wire.ts:428-466 | A length below 251 is one byte, others a prefix and two, three or eight bytes with the lowest first, of which the last four are zero. |
| MysqlExecute.Measure | packages/db/src/protocol/mysql-wire.ts:244-268 | The first pass computes the exact size of the values and the null bitmap. |
| MysqlExecute.NullBit | packages/db/src/protocol/mysql-wire.ts:253-259 | Bit i of the bitmap is set exactly for a null parameter i. |
| MysqlExecute.EncodeStmtExecute | packages/db/src/protocol/mysql-wire.ts:244-298 | The payload is exactly as long as sized and holds the parts in order. |
| MysqlExecute.ReadBackWasShort | packages/db/src/protocol/mysql-wire.ts:262-294 | A packet that reads back as what was encoded had a 32-bit id and short parameters: the converse half. |
| MysqlExecute.ExecuteRoundTrip | packages/db/src/protocol/mysql-wire.ts:244-298 | Parsing it by the COM_STMT_EXECUTE layout, every parameter typed as a string, returns the statement id and every parameter if and only if the id and every length are below 2^32; nothing is left over with parameters, and the flag byte is left over without. |
| MysqlLazyRow.ParseBinaryRow | packages/db/src/protocol/mysql-wire.ts:351-426 | The eager loop with its running offset is the reading of each column at its start. |
| MysqlLazyRow.DecodeStringIsDecode | packages/db/src/protocol/mysql-wire.ts:55-67 | The ASCII fast path returns what the decoder returns. |
| MysqlLazyRow.ValuesAgree | packages/db/src/drivers/native/mysql/lazy-row.ts:78-91 | For every type with its own eager case the lazy value of a column is the eager one. |
| MysqlLazyRow.AcceptedColumn | packages/db/src/protocol/mysql-wire.ts:361-424 | An accepted row holds every column's value and every column fits. |
| MysqlLazyRow.FillOffsets | packages/db/src/drivers/native/mysql/lazy-row.ts:14-57 | The one-pass offset table holds every column's start, -1 for a null. |
| MysqlLazyRow.LazyRow.Get | packages/db/src/drivers/native/mysql/lazy-row.ts:59-95 | Whatever was read before, a property reads as the first column of that name, and undefined for an unknown name. |
| MysqlLazyRow.LazyRow.AnswerIsEager | packages/db/src/drivers/native/mysql/lazy-row.ts:59-95 | That answer is the eagerly parsed value, NULL included. |
| ConcurrencyLimit.Limiter.TryAcquire | packages/pureq/src/middleware/concurrencyLimit.ts:93-147 | `acquire` up to its await is the acquire step: granted below the limit, else refused by a full queue, else by an aborted signal, else queued. |
| ConcurrencyLimit.Limiter.PromoteNext | packages/pureq/src/middleware/concurrencyLimit.ts:70-91 | The promotion loop hands free slots to the front of the queue and drops an empty bucket. |
| ConcurrencyLimit.Limiter.ReleaseSlot | packages/pureq/src/middleware/concurrencyLimit.ts:149-157 | `release` is the release step. |
| ConcurrencyLimit.Limiter.OnAbort | packages/pureq/src/middleware/concurrencyLimit.ts:118-132 | The abort handler is the abort step: it removes its own entry only. |
| ConcurrencyLimit.AcquireKeeps | packages/pureq/src/middleware/concurrencyLimit.ts:93-147 | Acquiring keeps the invariant for every key. |
| ConcurrencyLimit.ReleaseKeeps | packages/pureq/src/middleware/concurrencyLimit.ts:149-157 | Releasing keeps it. |
| ConcurrencyLimit.AbortKeeps | packages/pureq/src/middleware/concurrencyLimit.ts:118-132 | Aborting keeps it. |
| ConcurrencyLimit.AbortRemoves | packages/pureq/src/middleware/concurrencyLimit.ts:118-132 | An abort takes its own call out of the queue, leaves the others in order, and changes nothing else of any key. |
| ConcurrencyLimit.RunKeeps | packages/pureq/src/middleware/concurrencyLimit.ts:48-157 | Over every run of acquires, releases and aborts on any keys in which no call with a signal draws a ticket still held in its queue: active is the number of holders and at most maxConcurrent, a queue means all slots are taken, the queue stays within maxQueue, a bucket exists exactly when it has a holder or waiter, and grants followed by the waiting calls are the arrivals in order. |
| ConcurrencyLimit.FreshUntilWrap | packages/pureq/src/middleware/concurrencyLimit.ts:110-114 | That condition holds in every run until the ticket counter has passed 2^53 - 1 and starts again from 0. |
| ConcurrencyLimit.ReusedTicketDropsAnother | packages/pureq/src/middleware/concurrencyLimit.ts:118-132 | The condition is needed: a call with a signal that draws a ticket someone still waits with and then aborts takes another's place away and stays queued itself. |
| ConcurrencyLimit.TicketComesBack | packages/pureq/src/middleware/concurrencyLimit.ts:109-114 | If two calls may wait for a key, a possible run with fresh tickets reaches a state in which the next call to queue draws the ticket of one that still waits. |
| ConcurrencyLimit.AlwaysFresh | packages/pureq/src/middleware/concurrencyLimit.ts:98-114 | Every possible run keeps tickets fresh if and only if the queue limit is 0 or 1. |
| ConcurrencyLimit.NoOvertaking | packages/pureq/src/middleware/concurrencyLimit.ts:70-157 | Grants of a key follow arrival order. |
| ConcurrencyLimit.StepAdvances | packages/pureq/src/middleware/concurrencyLimit.ts:70-157 | One step leaves a waiter's place, moves it up or grants it; a release of its key always advances it. |
| ConcurrencyLimit.BoundedWaiting | packages/pureq/src/middleware/concurrencyLimit.ts:70-157 | A call waiting behind p others and not aborted has been granted a slot once its key has seen p + 1 releases, whatever else interleaves. |
| ConcurrencyLimit.GrantedForever | packages/pureq/src/middleware/concurrencyLimit.ts:70-157 | The list of granted calls of a key only grows. |
| DriverPool.Pool.TryAcquire | packages/db/src/drivers/native/postgres/pool.ts:60-75 | `acquire` up to its await is the acquire step: the idle driver returned last, a new one below the limit, or the last place in the queue. |
| DriverPool.Pool.ReleaseDriver | packages/db/src/drivers/native/mysql/pool.ts:54-63 | `release` is the release step: the driver goes to the first waiter or back to the pool. |
| DriverPool.AcquireKeeps | packages/db/src/drivers/native/mysql/pool.ts:37-52 | Acquiring keeps the pool's invariant. |
| DriverPool.ReleaseKeeps | packages/db/src/drivers/native/postgres/pool.ts:77-86 | Releasing keeps it. |
| DriverPool.RunKeeps | packages/db/src/drivers/native/postgres/pool.ts:60-86 | Over every run: activeCount is the number of drivers held, idle plus held is the number created and at most maxSize, waiters exist only when none is idle and all are held, and served plus waiting clients are the requests in order. |
| DriverPool.EveryDriverAccounted | packages/db/src/drivers/native/postgres/pool.ts:60-86 | Each created driver is idle or held, never both, and held by one client only. |
| DriverPool.ServedInOrder | packages/db/src/drivers/native/mysql/pool.ts:37-63 | Whoever is served, everyone who asked earlier was. |
| CircuitBreaker.CircuitEntry.Start | packages/pureq/src/middleware/circuitBreaker.ts:271-283 | The admission step: admitted exactly when closed, when open and cooled down, or when half-open without a probe, with the entry it leaves. |
| CircuitBreaker.CircuitEntry.Settle | packages/pureq/src/middleware/circuitBreaker.ts:285-328 | The step after `next` settles, for a counted failure, a success and an ignored error in each phase. |
| CircuitBreaker.CircuitEntry.Clear | packages/pureq/src/middleware/circuitBreaker.ts:329-335 | The `finally` step. |
| CircuitBreaker.RunBounded | packages/pureq/src/middleware/circuitBreaker.ts:223-336 | Over every interleaving: failureCount and successCount stay below their thresholds, and the probe flag and a success count exist in half-open only. |
| CircuitBreaker.QuietWhileCooling | packages/pureq/src/middleware/circuitBreaker.ts:223-276 | After opening at t, whatever finishes late, nothing is admitted and the circuit stays open before t + cooldownMs. |
| CircuitBreaker.ProbeAlone | packages/pureq/src/middleware/circuitBreaker.ts:271-335 | At most one request is in flight in half-open, in every run in which half-open begins with no earlier request outstanding. |
| CircuitBreaker.LateFinisherAdmitsSecondProbe | packages/pureq/src/middleware/circuitBreaker.ts:329-332 | The condition is exact: from any state with an outstanding request when half-open begins, some run has two probes in flight. |
| CircuitBreaker.SequentialIsFold | packages/pureq/src/middleware/circuitBreaker.ts:265-336 | A sequential run is the fold of its history by a three-state automaton. |
| CircuitBreaker.SequentialRun | packages/pureq/src/middleware/circuitBreaker.ts:265-336 | A whole sequential history, refused requests included, is a run of the breaker's steps, and leaves the entry that fold describes. |
| CircuitBreaker.ServedIsThreeSteps | packages/pureq/src/middleware/circuitBreaker.ts:265-336 | A request nothing overlaps is its three steps in a row. |
| CircuitBreaker.OpensAtThreshold | packages/pureq/src/middleware/circuitBreaker.ts:289-297 | A fresh breaker opens exactly when the streak of counted failures first reaches the threshold. |
| OfflineQueue.Controller.Enqueue | packages/pureq/src/middleware/offlineQueue.ts:149-170 | Queueing appends one item with a new id, or refuses at the size limit; ids stay unique. |
| OfflineQueue.Controller.DropExpired | packages/pureq/src/middleware/offlineQueue.ts:200-210 | Exactly the expired items leave the storage; the others are returned in stored order. |
| OfflineQueue.SortIsStable | packages/pureq/src/middleware/offlineQueue.ts:212-220 | The replay order is a permutation sorted by priority descending, none counting as 0, then queuedAt ascending, and keeps the stored order of items the comparator ranks alike. |
| OfflineQueue.StableSortUnique | packages/pureq/src/middleware/offlineQueue.ts:212-220 | Any two stable sorts agree, so the order does not depend on the sorting algorithm. |
| OfflineQueue.PendingOrder | packages/pureq/src/middleware/offlineQueue.ts:200-220 | The items to replay are the live ones, in that order of priorities, times and places. |
| OfflineQueue.AllResponses | packages/pureq/src/middleware/offlineQueue.ts:225-286 | There are as many responses as successes, and the one after n successes is that of the replay after n successful ones. |
| OfflineQueue.RemainingOrder | packages/pureq/src/middleware/offlineQueue.ts:197-248 | What stays are the live items whose replay fails, in stored order. |
| OfflineQueue.LeavesExactlyFailed | packages/pureq/src/middleware/offlineQueue.ts:197-248 | With unique ids, removing by id leaves exactly the unexpired items whose replay fails, in stored order. |
| OfflineQueue.Controller.ReplaySequentially | packages/pureq/src/middleware/offlineQueue.ts:225-248 | Each pending item is replayed once in order, responses follow that order, successes leave the storage. |
| OfflineQueue.Controller.SettleBatch | packages/pureq/src/middleware/offlineQueue.ts:253-266 | Whatever order a batch's replays settle in, the results are in batch order and exactly the successes leave the storage. |
| OfflineQueue.Controller.ReplayInBatches | packages/pureq/src/middleware/offlineQueue.ts:249-286 | For every integer concurrency above 1, calls, responses and storage end as in the sequential replay. |
| OfflineQueue.Controller.Flush | packages/pureq/src/middleware/offlineQueue.ts:193-289 | At any concurrency, a flush replays exactly the stored items without an expiry or with one not past, each once: the higher priority first, none counting as 0, then the earlier queued, then the first stored; there is one response for each success, in that order, and exactly the live items that fail stay, in stored order. |
| OfflineQueue.NothingLost | packages/pureq/src/middleware/offlineQueue.ts:143-289 | In every run of requests being queued and of flushes that may overlap, every id handed out is stored, was sent, or had expired. |
| OfflineQueue.SentOnce | packages/pureq/src/middleware/offlineQueue.ts:291-303 | When a lock keeps flushes apart, every run sends each item at most once, whatever is queued meanwhile and in whatever order replays settle. |
| OfflineQueue.SentTwice | packages/pureq/src/middleware/offlineQueue.ts:193-289 | Without one, from any state with a stored item, two flushes that both read it before either has sent it send it twice. |
| JsonPointer.UnescapeEscape | packages/validation/src/policy/json-pointer.ts:1-7 | unescape(escape(t)) = t for every token. |
| JsonPointer.EscapeSays | packages/validation/src/policy/json-pointer.ts:1-7 | Escaping writes a tilde as ~0, a slash as ~1 and every other character as it is, wherever it stands (section 3 of RFC 6901). |
| JsonPointer.SplitJoin | packages/validation/src/policy/json-pointer.ts:9-28 | Splitting what was joined from slash-free tokens gives them back. |
| JsonPointer.DecodeEncode | packages/validation/src/policy/json-pointer.ts:9-28 | decode(encode(ts)) = ts if and only if ts is not the one empty token. |
| JsonPointer.EncodeInjective | packages/validation/src/policy/json-pointer.ts:9-15 | Two token lists share a pointer only if they are equal, or are the root and its empty key. |
| JsonPointer.NormalizeIdempotent | packages/validation/src/policy/json-pointer.ts:42-58 | Normalising twice is normalising once, for every string. |
| JsonPointer.PositionKept | packages/validation/src/policy/json-pointer.ts:42-58 | A position survives encoding and normalising exactly when it is not the root's empty key and its last key does not end in white space. |
| PolicyParse.ParseValue | packages/validation/src/schema/composite/object.ts:58-128 | `parse` with its loops and its shared ancestor set computes the parse function and leaves the set as it found it on every path. |
| PolicyParse.ParseElements | packages/validation/src/schema/composite/array.ts:88-108 | The array loop, errors included. |
| PolicyParse.ParseAccepts | packages/validation/src/schema/composite/object.ts:58-128 | Parsing succeeds exactly when every part has its type, nesting stays below the limit, no object is its own ancestor and no key is forbidden, wherever the value sits; the data returned are the part of the value the schema asks for. |
| PolicyFaults.FaultReported | packages/validation/src/schema/composite/object.ts:58-128 | A parse that fails reports the first fault in document order, at its own pointer: nested too deep, of another type and which, a format it has not, one of its own ancestors, or a forbidden key. |
| PolicyMap.ParseSound | packages/validation/src/schema/composite/object.ts:81-127 | At any position whose keys do not end in white space, the root's not being empty, a successful parse returns data of the schema's shape whose positions, all of them and no other, are the keys of the map, each with its own schema's policy. |
| PolicyMap.OneEntryPerPosition | packages/validation/src/schema/composite/array.ts:75-108 | From the root, the policy map has exactly as many entries as the data have positions, so nothing is overwritten, for distinct keys that do not end in white space, the root's not being empty. |
| PolicyMap.PointersCount | packages/validation/src/policy/json-pointer.ts:9-15 | Different positions of a tree with such keys have different pointers. |
| PolicyRender.RenderValue | packages/validation/src/stringify/stringify.ts:50-128 | `renderValue` with its loops computes the render function. |
| PolicyRender.KeyPathEncodes | packages/validation/src/stringify/stringify.ts:112 | The path rendering rebuilds for an object key is the pointer parsing stored. |
| PolicyRender.IndexPathEncodes | packages/validation/src/stringify/stringify.ts:80 | The path rendering rebuilds for an array item, collapsed double slashes included, is the stored pointer if and only if no key on the way is empty. |
| PolicyRender.RenderIsDirect | packages/validation/src/stringify/stringify.ts:50-128 | With a map that agrees with the schema, rendering through pointer strings equals the direct walk of schema, data and scopes. |
| PolicyRender.Stringify | packages/validation/src/stringify/stringify.ts:130-174 | `stringify` is parse, render and print. |
| PolicyRender.StringifyIsDirect | packages/validation/src/stringify/stringify.ts:130-163 | `stringify` prints the direct walk for every schema with no key ending in white space, no empty key at the root and no array below an empty key. |
| PolicyRender.ShownUnlessConcealed | packages/validation/src/stringify/stringify.ts:29-74 | A value is shown exactly when its policy asks for no scope or for one that is granted, and it is not personal data to be redacted. |
| PolicyEffects.PositionRendered | packages/validation/src/stringify/stringify.ts:50-74 | A value whose policy asks for scopes none of which is granted is left out if the policy says drop and refused with its pointer if it says error; a permitted one that is personal is left out or replaced by [REDACTED] as its policy says; any other is shown. |
| PolicyEffects.FieldAtDepth | packages/validation/src/stringify/stringify.ts:50-128 | In what is rendered, that holds of every field and item at any depth below visible ones: found under its key or at its place among the items present, with no other keys or items beside them. |
| PolicyEffects.FirstRefusal | packages/validation/src/stringify/stringify.ts:58-64 | What fails is denied at some position below visible ones by a policy that says error; the error has the pointer of the first such position in document order. |
| PolicyEffects.RefusalFails | packages/validation/src/stringify/stringify.ts:58-64 | One such position makes the whole fail. |
| PolicyEffects.StringifyPolicies | packages/validation/src/stringify/stringify.ts:130-174 | `stringify` fails exactly when there is such a position, with the pointer of the first, and otherwise prints what has every position below visible ones as its policy says. |
| PolicyRender.NonInterference | packages/validation/src/stringify/stringify.ts:56-74 | Values whose data differ only inside what the policies hide, mask or deny print the same text or fail alike: an optional value present in one and absent in the other included, when its two policies conceal it alike, and arrays of different lengths, when the items one has more are dropped. |
| PolicyRender.GoodKeysNeeded | packages/validation/src/schema/composite/object.ts:109-117 | For a key at any depth under good ones, a hidden field is rendered as the direct walk says if and only if the schema meets that condition, that is, the key does not end in white space and is not the root's empty key; filed under a pointer off the way to it, the policy of a blank-ended key shows the hidden value. |
| PolicyRender.EmptyKeyAboveArray | packages/validation/src/stringify/stringify.ts:80 | Under any good key of the root, an array under an empty key shows the items its policy hides: the part of the condition about arrays is needed too. |
| SqlCompiler.CompileExpression | packages/db/src/builder/compiler.ts:162-253 | The imperative compiler, with its errors in their order, computes the compilation function. |
| SqlCompiler.CompileFlattened | packages/db/src/builder/compiler.ts:164-189 | The explicit stack for AND and OR chains gives the text of the recursive reading of the chain. |
| SqlSafety.ExpressionSafe | packages/db/src/builder/compiler.ts:162-253 | Whatever the expression, the compiled text holds only identifiers of letters, digits and underscores, words of fixed lists and punctuation, and as many placeholders as there are parameters. |
| SqlParser.ParseCompiled | packages/db/src/builder/compiler.ts:162-253 | For every expression that compiles, reading its tokens and parameters (AND and OR to the left, the i-th placeholder bound to the i-th parameter) returns its normal form and leaves exactly what follows. |
| SqlParser.ReadBack | packages/db/src/builder/compiler.ts:162-253 | The text alone reads back with every parameter used. |
| SqlParser.SameTextSameExpression | packages/db/src/builder/compiler.ts:162-253 | Expressions with the same text and parameters have the same normal form. |
| SqlMeaning.NormKeepsMeaning | packages/db/src/builder/compiler.ts:201-242 | The normal form keeps the three-valued meaning: expanded lists, empty lists as constants even of NULL, JSON_EXTRACT of two arguments as an operator, for expressions without JSON_EXTRACT of more. |
| SqlMeaning.CompileKeepsMeaning | packages/db/src/builder/compiler.ts:162-253 | What the database reads in the compiled text means what the syntax tree means, in every row and database, unless a JSON_EXTRACT has more than two arguments. |
| SqlMeaning.ExtraArgsDropped | packages/db/src/builder/compiler.ts:222-241 | JSON_EXTRACT with more than two arguments compiles to the text and parameters of its first two, or to the first error in any of them. |
| SqlMeaning.ExtractExact | packages/db/src/builder/compiler.ts:222-241 | A call of JSON_EXTRACT with at least two arguments, whose own calls have no extra ones, keeps its meaning in every database if and only if it has exactly two. |
| SqlMeaning.ExtraArgsLost | packages/db/src/builder/compiler.ts:162-253 | An expression without AND, OR and empty lists keeps its meaning in every database if and only if no JSON_EXTRACT in it has more than two arguments. |
| SqlMeaning.ExtraArgsAbsorbed | packages/db/src/builder/compiler.ts:201-209 | An OR with an empty NOT IN is true in text and tree whatever the other part, so with connectives extra arguments need not show. |
| SqlMeaning.AndMeans | packages/db/src/builder/expressions.ts:72-81 | `and` holds exactly when every part does and fails exactly when one does. |
| SqlMeaning.OrMeans | packages/db/src/builder/expressions.ts:83-92 | `or` fails exactly when every part does and holds exactly when one does. |
| SqlMeaning.InMeans | packages/db/src/builder/compiler.ts:200-215 | IN holds exactly when the value equals some value of the list and fails exactly when it equals none, comparisons with NULL being neither; NOT IN the reverse. |
| SqlStatements.BuildSelect | packages/db/src/builder/compiler.ts:25-102 | The clause-by-clause concatenation and pushing of parameters computes the compiled SELECT, with the same first error. |
| SqlStatements.BuildUpdate | packages/db/src/builder/compiler.ts:128-145 | The same for UPDATE. |
| SqlStatements.BuildDelete | packages/db/src/builder/compiler.ts:147-160 | The same for DELETE. |
| SqlStatements.AliasSays | packages/db/src/builder/compiler.ts:38-42 | Only a column that names its table has an alias, and only with joins: the two names behind double underscores. |
| SqlSafety.SelectSafe | packages/db/src/builder/compiler.ts:25-115 | The same of every clause of a SELECT. |
| SqlSafety.UpdateSafe | packages/db/src/builder/compiler.ts:128-145 | The same of an UPDATE, its assigned values being placeholders. |
| SqlSafety.DeleteSafe | packages/db/src/builder/compiler.ts:147-160 | The same of a DELETE. |
| SqlReader.SelectReadBack | packages/db/src/builder/compiler.ts:25-115 | The text of a SELECT reads back as the statement (columns with aliases, joins, filters, grouping, order, limits), every parameter at its placeholder. |
| SqlReader.UpdateReadBack | packages/db/src/builder/compiler.ts:128-145 | The same for UPDATE: assigned values first, then the condition's parameters. |
| SqlReader.DeleteReadBack | packages/db/src/builder/compiler.ts:147-160 | The same for DELETE. |
| QueryBuilder.AcceptedCompiles | packages/db/src/builder/utils.ts:61-94 | An expression the builders accept compiles if and only if every JSON_EXTRACT compiled has at least two arguments, and fails with that error only. |
| QueryBuilder.ObjectionSays | packages/db/src/builder/utils.ts:61-94 | The builders object exactly to expressions that hold an invalid identifier, operator or function, and name one. |
| QueryBuilder.AddWhereClause | packages/db/src/builder/builder.ts:82-93 | One more condition is conjoined on the right, in place. |
| QueryBuilder.ApplyRls | packages/db/src/builder/builder.ts:41-80 | The table's filter, from its policy or from the user id, is conjoined to the statement it is given. |
| QueryBuilder.Builder.Where | packages/db/src/builder/builder.ts:200-237 | `where` adds exactly the checked condition, or objects and changes nothing. |
| QueryBuilder.WhereRejected | packages/db/src/builder/builder.ts:200-237 | When a `where` call is rejected, and with which error. |
| QueryBuilder.WhereColumn | packages/db/src/builder/builder.ts:200-237 | A condition on a column holds of a row exactly when the column compares so with the value, or is in or not in the list. |
| QueryBuilder.WhereExpression | packages/db/src/builder/builder.ts:200-237 | An expression is added as it is, or, by a SELECT given an operator, compared with the value. |
| QueryBuilder.Builder.Execute | packages/db/src/builder/builder.ts:376-399 | Executing compiles the filtered copy and changes no existing object, so the builder's own statement is as before. |
| QueryBuilder.ExecutedReadBack | packages/db/src/builder/builder.ts:376-399 | The text of an executed statement reads back as the builder's own table, secured columns, grouping, order, limits and assigned values. |
| QueryBuilder.ExecutedSafe | packages/db/src/builder/builder.ts:376-399 | It holds only plain identifiers, fixed words and a placeholder for each parameter. |
| QueryBuilder.DirectionRead | packages/db/src/builder/compiler.ts:83-90 | The order read is descending exactly when the direction given spells DESC in any case. |
| QueryBuilder.ConditionReadBack | packages/db/src/builder/builder.ts:552-558 | The condition the database reads in an executed statement is the normal form of the one compiled. |
| QueryBuilder.ExecutedReads | packages/db/src/builder/builder.ts:41-93 | With no such exception: the compiled WHERE admits a row exactly when the text of every condition and of the row filter is read as true of it. |
| QueryBuilder.OwnRowsOnly | packages/db/src/builder/builder.ts:52-61 | Without a policy of its own, a table with a user id column shows a user exactly the rows the conditions admit whose id equals the context's. |
| QueryBuilder.ExecutedAdmits | packages/db/src/builder/builder.ts:41-93 | For SELECT, UPDATE and DELETE on one table, the compiled WHERE admits a row exactly when every `where` condition and the row filter are true of it under three-valued logic, unless one of them has a JSON_EXTRACT with extra arguments. |
| QueryBuilder.RowsAdmitted | packages/db/src/builder/builder.ts:41-93 | A row passes exactly when every condition holds of it and: the filter of the table's own policy holds, if the policy gives one; the row is the user's own, if there is no policy but a user id and a column for it; nothing more otherwise, a policy that gives no filter or a missing context included. |

## Left out

- UTF-8, HMAC-SHA-256, IEEE 754 numbers, Date, JSON, parseInt and the non-scalar PostgreSQL conversions are opaque: strings of the codec are their UTF-8 bytes, a float or date is its eight bytes, and the rest are function parameters. -0 is identified with 0, a float is never an integer in the int32 range, and lone surrogates do not occur.
- Codec values that write nothing (functions, symbols, big integers) and the key `__proto__`; objects are ordered lists of distinct keys, without inherited properties.
- The depth of the JavaScript call stack, as a limit on nested values, expressions and schemas.
- HyperCodec.Decoder.ReadValue: ill-formed UTF-8, which `TextDecoder` replaces by U+FFFD, is kept as it is; integer-like property names come first in a JavaScript object, so where a byte order mark is lost from a name before digits the order of the received properties differs from the code's (their number and their encoded length do not).
- RpcSigning.HandleRequest: a body with ill-formed UTF-8, or with a FLOAT-tagged integer of the int32 range, is re-encoded differently by the code; the encoder writes neither.
- RpcSigning.HandleRequest and Call: the router's manifest and handler and the session secret are parameters; the network, the response cache and rate limits are not modelled.
- Rows that the eager parsers reject: nothing is claimed of the lazy readers on them, nor on PostgreSQL rows with 32768 columns or more, whose count the lazy reader takes as negative.
- PgBind.EncodeBind: turning parameter values into their bytes (JSON for what is neither text nor bytes) happens before it; MysqlExecute.EncodeStmtExecute likewise takes each parameter's text.
- Multi-dimensional PostgreSQL arrays, column metadata beyond name, type and format, MySQL's `parseField` and statement preparation, the count of affected rows, authentication, and the older drivers that discard the rest of a chunk.
- ConcurrencyLimit: the building of keys, and the request made while a slot is held.
- DriverPool: closing a pool, listening, and what a driver does while held.
- CircuitBreaker: eviction, time to live, resets, custom stores and the time stamps only they use; the lookup of the entry is taken as done, so a key's first two requests do not race to create it.
- OfflineQueue: clearing the storage, custom storage and id generators, hooks; a lock is modelled by what it ensures, that flushes do not overlap; priorities and times are integers, and concurrency is an integer.
- PolicyParse: guard schemas, guardrails, error details beyond path and expectation; policies are taken as already normalised, and a cyclic input is its unrolling down to the first repeated ancestor.
- JsonPointer.NormalizeIdempotent: the regular expressions that cut up a loose path are a parameter; only that its tokens come out trimmed and non-empty is used.
- PolicyRender.Stringify: JSON.stringify is a parameter, and an unexpected exception is not modelled.
- SqlCompiler: `toUpperCase` is modelled on ASCII letters only, so operators spelt with other letters that upper-case to ASCII are not; the layout of a token's text (quotes, spaces) is left to the tokens; INSERT has neither conditions nor expressions.
- SqlStatements: LIMIT and OFFSET are integers.
- QueryBuilder: joins in row filters and in column security; what column security does to the selected columns is a parameter; bound values are finite trees, so the check for circular ones (which also rejects a shared reference) never objects.
- Sockets, storage back ends, timers, the authentication packages and the user interface hooks.
