# CopperDB cores

A model of the parts of CopperDB whose correctness is a theorem rather than a glance: the operator
expressions of its Cypher parser, the Bolt wire format from PackStream values to cut byte streams, the
query cache, the bounded breadth-first walk of `apoc.path.subgraphNodes`, the keyword scanner, the Bolt
session with its frame loop and counters, the audit chain, the offline import, the CSV codec of exports, JSON
over the wire, and the duration printer.

Every part has a specification in functions and predicates. Code that works in place is a class or a method
with the code's own loops, proved to compute what the specification says, and the properties are proved of
the specification for all inputs, all runs or all states that can be reached. The specifications are in turn proved equal
to definitions that share nothing with them, written with the characters, bytes and numbers themselves. `dafny verify dfyconfig.toml`
verifies the whole project.

| files | part |
|---|---|
| `Wrappers`, `Bytes`, `PackStream`, `PackStreamProofs`, `PackStreamCodec` | PackStream version 1: specification, theorems, encoder and decoder |
| `PackStreamFormat`, `Utf8Format` | the format by its bytes |
| `Chunks` | Bolt chunking and the whole wire |
| `CypherTokens`, `CypherParser`, `CypherPrinter` | tokens, the parser as functions, the printer |
| `CypherGrammar`, `CypherDerivation` | the grammar by its spellings; the parser finds exactly its derivations |
| `CypherRoundTrip`, `CypherPrintParse` | printer and parser undo each other |
| `CypherParseContext` | the cursor and the descent methods |
| `Lru`, `LruHistory`, `QueryCaches` | the cache as a list; what it answers, by the calls before; map and deque, write-through |
| `Subgraph`, `SubgraphConfig`, `SubgraphExact`, `SubgraphCap` | the walk; its numbers; what it emits; when the cap ends it |
| `KeywordScan`, `KeywordMeaning`, `KeywordIndex`, `KeywordCase` | lex-then-search; the same by characters; the one-pass scan; letter case |
| `Session`, `SessionRuns`, `SessionHistory` | one message; whole runs; calls and replies by the messages before |
| `SessionCursors`, `SessionAccess` | cursors; whom calls and rows are for |
| `BoltSessions`, `BoltServers`, `FramePump` | the session object; the shared counter; the frame loop |
| `Audit`, `AuditChain` | the log; when its chain verifies |
| `Import`, `ImportOffline`, `ImportResult` | rows to records in chunks; the whole import; what it promotes, row by row |
| `Text`, `Numerals` | text; decimal numbers |
| `CsvCodec`, `CsvCells`, `CsvForm`, `CsvWriting` | headers and cells; how they read and what an export writes, by characters |
| `Duration`, `DurationForm` | durations; their texts by characters |
| `Json`, `JsonCodec`, `JsonMeaning` | JSON trees and records; which values stand for which JSON |

What the outside world decides is a parameter: the clock of the cache; the sink's answer; the answers of the
authentication provider and the executor; when frames arrive and connections break (events of a state machine); the
store's outcome of a write and its order of records; the hash function; the text of floats and of RFC 3339 dates; the
JSON text of an import id.

Some things that the code does and a reader may not expect; the model follows the code:

- A failed pattern attempt restores the cursor, but not where the tokens run out inside the attempt: there
  the cursor stays at the end (crates/cypher/src/expression_parser.rs:401-475).
- A RESET with signature 0x15 is dispatched as RESET, but only 0x0F pre-empts (crates/bolt/src/dispatch.rs:17-24,
  crates/bolt/src/server.rs:855-857).
- An unreadable frame or a failed TCP write leaves the session function before its final rollback
  (crates/bolt/src/server.rs:866, 891, 1037).
- A store that fails after it has stored an audit event (crates/storage/src/lib.rs:3314-3316 flushes after committing)
  leaves the log behind the store, and the next event repeats the sequence number.
- LOGON and HELLO replace the principal of a session and leave its transaction open, so the next principal queries and
  commits in it (crates/bolt/src/server.rs:1497-1565).
- PULL and DISCARD do not ask for a login and LOGOFF keeps the cursors, so rows left are served after it
  (crates/bolt/src/server.rs:1566-1575, 1764-1810).
- The walk looks at its cap before it looks whether a node is new, so with 100 000 nodes visited any further
  relationship fails the request (crates/apoc/src/lib.rs:635-639).
- A requested `limit` of 0 is no limit, and a requested `maxLevel` of 0 is the default 3 (crates/apoc/src/lib.rs:656-674).
- A write-through sink that stores a value and then reports an error leaves the cache with the old one
  (crates/cache/src/lib.rs:349-365).

## Model

| member | source | states |
|---|---|---|
| CypherDerivation.ParsesIffDerives | crates/cypher/src/expression_parser.rs:12-475 | The parser returns an expression and the tokens left if and only if the tokens derive them, by grammar rules with literal spellings: `<>` and `!=` are one operator, `-x` is 0 - x, a name with dots is cut at the last one, and all forms of a pattern are named |
| CypherDerivation.FailsIffNothingDerives | crates/cypher/src/expression_parser.rs:12-475 | It fails if and only if the tokens derive nothing, and no tokens derive two expressions |
| CypherPrintParse.ParsePrint | crates/cypher/src/expression_parser.rs:12-200 | Parsing the tokens that the printer writes for any printable expression, with parentheses only where an operand's level asks for them, gives exactly that expression and uses every token |
| CypherPrintParse.ParserImage | crates/cypher/src/expression_parser.rs:12-475 | An expression is printable if and only if the parser returns it for some tokens, so the round trip covers everything the parser can produce |
| CypherPrintParse.ParsePrintParse | crates/cypher/src/expression_parser.rs:12-475 | Printing what was parsed and parsing it again gives the same expression, whatever parentheses the first text had |
| CypherPrintParse.Exact | crates/cypher/src/expression_parser.rs:12-192 | At each of the eight levels, in front of any tokens that do not continue the expression, parsing undoes printing and leaves those tokens |
| CypherPrintParse.Spine | crates/cypher/src/expression_parser.rs:16-44 | The loops of a left-associative level take up the printed operands one by one, in front of further operators of the same level |
| CypherPrintParse.ParsedIsCanonical | crates/cypher/src/expression_parser.rs:12-475 | What a level returns can stand at that level, for any tokens |
| CypherRoundTrip.NoPattern | crates/cypher/src/expression_parser.rs:401-475 | The pattern attempt fails, and gives its tokens back, on every parenthesised expression that the printer writes |
| CypherRoundTrip.PatternExact | crates/cypher/src/expression_parser.rs:401-475 | A printed pattern predicate is taken as that predicate |
| CypherTokens.KindIsSpelling | crates/cypher/src/parse_context.rs:17-19 | Comparing a token with a spelling ignoring ASCII case is the same as asking for its kind |
| CypherParseContext.ParseContext.PeekIs | crates/cypher/src/parse_context.rs:17-19 | Whether the next token is of a kind, without moving |
| CypherParseContext.ParseContext.Advance | crates/cypher/src/parse_context.rs:28-34 | Takes one token, or none at the end |
| CypherParseContext.ParseContext.Expect | crates/cypher/src/parse_context.rs:36-48 | Succeeds exactly if the next token is the expected one; an error takes the token too, if there is one |
| CypherParseContext.ParseContext.AdvanceIdentifier | crates/cypher/src/parse_context.rs:56-64 | Takes a token as an identifier, without its backticks |
| CypherParseContext.ParseContext.ParseExpression | crates/cypher/src/expression_parser.rs:12-14 | The whole descent: the method moves the cursor and returns what the recursive specification of the rule says |
| CypherParseContext.ParseContext.ParseOr | crates/cypher/src/expression_parser.rs:16-24 | OR: the method moves the cursor and returns what the recursive specification of the rule says |
| CypherParseContext.ParseContext.ParseAnd | crates/cypher/src/expression_parser.rs:26-34 | AND: the method moves the cursor and returns what the recursive specification of the rule says |
| CypherParseContext.ParseContext.ParseXor | crates/cypher/src/expression_parser.rs:36-44 | XOR, which binds tighter than AND: the method moves the cursor and returns what the recursive specification of the rule says |
| CypherParseContext.ParseContext.ParseNot | crates/cypher/src/expression_parser.rs:46-53 | NOT: the method moves the cursor and returns what the recursive specification of the rule says |
| CypherParseContext.ParseContext.ParseComparison | crates/cypher/src/expression_parser.rs:55-141 | IS NULL, IN, BETWEEN, CONTAINS, STARTS WITH, ENDS WITH and the comparisons, which do not associate: the method moves the cursor and returns what the recursive specification of the rule says |
| CypherParseContext.ParseContext.ParseAddition | crates/cypher/src/expression_parser.rs:143-159 | + and -: the method moves the cursor and returns what the recursive specification of the rule says |
| CypherParseContext.ParseContext.ParseMultiplication | crates/cypher/src/expression_parser.rs:161-192 | *, / and %: the method moves the cursor and returns what the recursive specification of the rule says |
| CypherParseContext.ParseContext.ParsePrimary | crates/cypher/src/expression_parser.rs:194-200 | The pattern attempt on an opening parenthesis, then an atom: the method moves the cursor and returns what the recursive specification of the rule says |
| CypherParseContext.ParseContext.ParseAtom | crates/cypher/src/expression_parser.rs:200-399 | Unary minus, literals, parameters, parentheses, names and properties: the method moves the cursor and returns what the recursive specification of the rule says |
| CypherParseContext.ParseContext.TryParsePatternPredicate | crates/cypher/src/expression_parser.rs:401-475 | The pattern attempt with its backtracking: on failure the cursor is back at the start, or at the end of input where the code leaves it: the method moves the cursor and returns what the recursive specification of the rule says |
| PackStreamFormat.DecodesIffBegins | crates/bolt/src/packstream.rs:190-491 | Decoding gives a value and a number of bytes if and only if so many bytes in front stand for the value, by the marker bytes, the order of bytes and the signatures written out: 0x49 and 0x46 are date-times, 0x64 local ones |
| PackStreamFormat.EncodeIsShortestForm | crates/bolt/src/packstream.rs:58-165 | What is written for a value whose lengths fit, and whose structs spell no date-times, stands for it, nothing shorter does, and date-times are written as B3 49 and B2 64 |
| Utf8Format.ValidIffSpelled | crates/bolt/src/packstream.rs:404-415 | A string is accepted exactly if its bytes spell Unicode scalar values |
| PackStreamProofs.RoundTrip | crates/bolt/src/packstream.rs:190-551 | Decoding an encoded value, with any bytes behind it, gives the normal form of the value and consumes exactly its encoding |
| PackStreamProofs.ExactRoundTrip | crates/bolt/src/packstream.rs:476-551 | The value itself comes back if and only if no struct in it spells a date-time; normalising twice is normalising once |
| PackStreamProofs.NormFixpoint | crates/bolt/src/packstream.rs:476-491 | Normalisation is the identity exactly on values without such structs |
| PackStreamProofs.NormIsNormal | crates/bolt/src/packstream.rs:476-491 | A normal form holds no struct that spells a date-time |
| PackStreamProofs.DecodeIsLocal | crates/bolt/src/packstream.rs:190-474 | Decoding depends only on the bytes it consumes |
| PackStreamProofs.StrictPrefixFails | crates/bolt/src/packstream.rs:190-474 | Every strict prefix of a decoded encoding fails to decode |
| PackStreamProofs.EncodeIsMinimal | crates/bolt/src/packstream.rs:58-161 | Encoding what was decoded is never longer than the bytes it was decoded from |
| PackStreamProofs.Reencode | crates/bolt/src/packstream.rs:190-551 | Encoding what was decoded decodes to the same value |
| PackStreamCodec.EncodeIntInto | crates/bolt/src/packstream.rs:58-75 | Appends the shortest of the five integer forms |
| PackStreamCodec.EncodeStringInto | crates/bolt/src/packstream.rs:77-94 | Appends a string behind its length |
| PackStreamCodec.EncodeBytesInto | crates/bolt/src/packstream.rs:102-116 | Appends bytes behind their length |
| PackStreamCodec.EncodeTinyLengthInto | crates/bolt/src/packstream.rs:118-148 | Appends a list or map header |
| PackStreamCodec.EncodeStructHeaderInto | crates/bolt/src/packstream.rs:150-165 | Appends a struct header |
| PackStreamCodec.EncodeValueInto | crates/bolt/src/packstream.rs:501-538 | Appends the encoding of a value and nothing else |
| PackStreamCodec.DecodeValue | crates/bolt/src/packstream.rs:190-388 | The decoder computes the specified outcome, errors included, on all bytes |
| PackStreamCodec.DecodeListBody | crates/bolt/src/packstream.rs:417-430 | The list loop computes the specified outcome |
| PackStreamCodec.DecodeMapBody | crates/bolt/src/packstream.rs:432-455 | The map loop computes the specified outcome; a key that is not a string is an error |
| PackStreamCodec.DecodeStructBody | crates/bolt/src/packstream.rs:457-474 | The struct loop computes the specified outcome, date-times included |
| Chunks.BoltChunkDecoder.Push | crates/bolt/src/wsconn.rs:18-46 | A push delivers every message completed and keeps the rest |
| Chunks.ChunksAreDelivered | crates/bolt/src/wsconn.rs:18-46 | However a message is cut into chunks, each with its size in two bytes, the decoder delivers what they hold together at the zero chunk |
| Chunks.ChunkedIsMessage | crates/bolt/src/wsconn.rs:139-152 | The encoder writes such chunks, and fills every one but the last to 65535 bytes |
| Chunks.IncompleteWaits | crates/bolt/src/wsconn.rs:18-46 | A chunk that is not complete waits |
| Chunks.DrainAppend | crates/bolt/src/wsconn.rs:18-46 | Pushing a and then b gives the same messages and the same state as pushing both at once |
| Chunks.CutsDoNotMatter | crates/bolt/src/wsconn.rs:18-46 | Any cutting of a byte stream into pushes gives the same messages and the same state |
| Chunks.EncodeBoltChunksInto | crates/bolt/src/wsconn.rs:139-152 | Appends the chunks of a message, each at most 65535 bytes, and the terminator to whatever the buffer holds |
| Chunks.EncodeBoltChunks | crates/bolt/src/wsconn.rs:133-137 | The chunks of one message alone |
| Chunks.ChunkedRoundTrip | crates/bolt/src/wsconn.rs:126-152 | The decoder gives back a chunked message whole, however long, and is then idle |
| Chunks.MessagesSurviveCuts | crates/bolt/src/wsconn.rs:18-46 | A sequence of messages survives chunking and any cuts exactly if none of them is empty |
| Chunks.ReceiveAll | crates/bolt/src/wsconn.rs:18-46 | A receiver that pushes piece after piece gets what one push of everything gives |
| Chunks.WireRoundTrip | crates/bolt/src/wsconn.rs:18-152 | PackStream values, encoded, chunked and cut anywhere, arrive in order and decode to their normal forms |
| LruHistory.AnswersAreLastPuts | crates/cache/src/lib.rs:73-149 | Over any run of a new cache a lookup answers only with the value of the last put of its key, if nothing dropped the key since and the time to live is not over |
| LruHistory.NewHolds | crates/cache/src/lib.rs:51-71 | A new cache is empty and enabled, and holds 1000 entries unless it is told how many |
| LruHistory.AcceptedRunIsRun | crates/cache/src/lib.rs:345-365 | Behind a sink that takes every write the cache goes through the same calls |
| LruHistory.HitsAreAnswers | crates/cache/src/lib.rs:73-100 | Over any run the hits counted are the lookups answered, and the misses the others |
| LruHistory.HitsWhileThereIsRoom | crates/cache/src/lib.rs:73-125 | It does answer, with nothing dropped, the policy unchanged and the time not over, if since some use of the key fewer other keys were used than the cache holds; a use is a put or a lookup that answers |
| LruHistory.HitsExactlyWhileThereIsRoom | crates/cache/src/lib.rs:73-125 | Without a time to live, over gets and puts, it answers if and only if fewer other keys were used since the key's last use than the cache holds |
| LruHistory.ShrinkingKeepsRecent | crates/cache/src/lib.rs:152-169 | Setting a smaller capacity keeps exactly the keys used last |
| LruHistory.SinkHoldsLastPut | crates/cache/src/lib.rs:349-365 | The sink holds a key exactly if the last stored write of the key put it, with that value |
| Lru.Inclusion | crates/cache/src/lib.rs:73-149 | Of two caches under the same calls and clock, every hit of the smaller one is the same hit of the larger one, and its recency order stays a subsequence |
| Lru.NewCachesIncluded | crates/cache/src/lib.rs:51-71 | Two new caches start out so, whenever the first is not larger |
| Lru.RunWellFormed | crates/cache/src/lib.rs:73-169 | Over every run the entries have distinct keys and are no more than the capacity, or one |
| Lru.CapacityZeroHoldsOne | crates/cache/src/lib.rs:102-169 | Capacity 0, reached by a policy change and then enabling, still holds one entry |
| Lru.CountersAddUp | crates/cache/src/lib.rs:73-169 | Hits and misses add up to the gets; new keys add up to resident, evicted and dropped ones |
| Lru.RunCoherentIff | crates/cache/src/lib.rs:337-365 | Over any run every cached entry equals the value in the sink throughout, if and only if the sink never stored, and reported as failed, a write that changes the value of a cached key |
| Lru.RunCoherent | crates/cache/src/lib.rs:349-365 | In particular it does over any run in which the sink takes or refuses every write cleanly |
| Lru.CoherentStep | crates/cache/src/lib.rs:345-365 | One call keeps that exactly if it is no such write |
| QueryCaches.QueryCache.Get | crates/cache/src/lib.rs:73-100 | A hit moves the entry to the front; an expired entry is dropped and counted: map and deque stay the representation of the list model |
| QueryCaches.QueryCache.Put | crates/cache/src/lib.rs:102-125 | Replaces or inserts at the front, evicting the last entry of a full cache: map and deque stay the representation of the list model |
| QueryCaches.QueryCache.Remove | crates/cache/src/lib.rs:127-133 | Drops the entry of a key: map and deque stay the representation of the list model |
| QueryCaches.QueryCache.Clear | crates/cache/src/lib.rs:135-140 | Drops all entries and keeps the counters: map and deque stay the representation of the list model |
| QueryCaches.QueryCache.SetEnabled | crates/cache/src/lib.rs:142-149 | Disabling clears: map and deque stay the representation of the list model |
| QueryCaches.QueryCache.SetPolicy | crates/cache/src/lib.rs:152-169 | A smaller capacity evicts from the back; capacity 0 disables and clears: map and deque stay the representation of the list model |
| QueryCaches.WriteThroughQueryCache.Get | crates/cache/src/lib.rs:345-347 | While cache and sink are in step a cached read returns the value of the sink |
| QueryCaches.WriteThroughQueryCache.Put | crates/cache/src/lib.rs:349-353 | The sink first; on its error the cache is unchanged, and stays in step exactly unless the sink stored a change to a cached key all the same |
| QueryCaches.WriteThroughQueryCache.Remove | crates/cache/src/lib.rs:355-359 | The sink first; on its error the cache is unchanged, and stays in step exactly unless the sink stored a change to a cached key all the same |
| QueryCaches.WriteThroughQueryCache.Clear | crates/cache/src/lib.rs:361-365 | The sink first; on its error the cache is unchanged, and stays in step exactly unless the sink stored a change to a cached key all the same |
| SubgraphExact.NextIdsAre | crates/apoc/src/lib.rs:620-632 | The neighbours are the far ends of relationships that start here, unless only incoming ones are asked for, and of those that end here, unless only outgoing ones are |
| SubgraphExact.WalkIsExact | crates/apoc/src/lib.rs:591-646 | An unlimited walk that succeeds emits each node at most once, in order of shortest distance, and emits exactly the included nodes whose distance lies in the level window |
| SubgraphExact.LimitIsPrefix | crates/apoc/src/lib.rs:603-608 | A walk with a limit, which is at least 1, emits the first rows of the unlimited walk |
| SubgraphConfig.RequestedLimit | crates/apoc/src/lib.rs:649-695 | A request for n rows, n at least 1 and given as a number or in quotes, gets the first n rows of the request without a limit; one for 0 rows, or for nothing that is a number, gets them all |
| SubgraphConfig.RequestedLevels | crates/apoc/src/lib.rs:649-674 | Requested levels, as numbers or in quotes, are read up to 64; the first level is 0 and the last 3 if none is requested, or 0 for the last |
| SubgraphCap.CapIsExact | crates/apoc/src/lib.rs:635-643 | Any walk, whatever its limit, cancellation and read errors, ends as it would without the cap, except that it fails with the cap's error if and only if without the cap it would look at a relationship when 100 000 nodes have been seen, whether that relationship leads to a new node or not |
| SubgraphCap.WalkSucceedsIff | crates/apoc/src/lib.rs:591-646 | An unlimited walk that is not cancelled succeeds if and only if every node within the last level, and the relationships of every node that the walk goes on from, can be read, and the cap is not reached in the sense above |
| SubgraphExact.WalkSucceeds | crates/apoc/src/lib.rs:591-646 | In particular, with any limit, it succeeds if fewer nodes than the cap lie within the last level and the graph can be read there |
| SubgraphExact.NearIsVisited | crates/apoc/src/lib.rs:609-644 | Every node nearer than the head of the queue has been visited |
| Subgraph.SubgraphNodes | crates/apoc/src/lib.rs:591-646 | The loop over the queue computes the specified walk, errors included |
| Subgraph.VisitAll | crates/apoc/src/lib.rs:617-643 | The loop over relationships enqueues unseen neighbours, or reports the cap |
| KeywordMeaning.LeastHitStandsFirst | crates/cypher/src/keyword_scan.rs:85-373 | That the answer is the first position at which the keyword stands: its letters in any case and its blanks in any number, with no letter, digit, underscore, colon or byte beyond ASCII beside it, or with blanks alone where those bound it, outside comments, strings, quoted names and open brackets, all by their characters |
| KeywordMeaning.HitsStand | crates/cypher/src/keyword_scan.rs:265-373 | A position is a hit of the specification if and only if the keyword stands there |
| KeywordIndex.KeywordIndexFrom | crates/cypher/src/keyword_scan.rs:85-263 | The one-pass scan returns the least position that lexing first and searching afterwards would find, and none if there is none |
| KeywordIndex.KeywordIndex | crates/cypher/src/keyword_scan.rs:59-61 | The scan from the start that skips everything but braces |
| KeywordIndex.TopLevelKeywordIndex | crates/cypher/src/keyword_scan.rs:67-73 | The scan from the start that skips braces too |
| KeywordIndex.KeywordMatchAt | crates/cypher/src/keyword_scan.rs:292-323 | Finds the one end at which the text folds to the keyword, if there is one |
| KeywordScan.MatchEndIsFold | crates/cypher/src/keyword_scan.rs:292-323 | The matcher stops at an end if and only if the text up to there equals the keyword up to letter case and runs of white space |
| KeywordIndex.CandidateMatch | crates/cypher/src/keyword_scan.rs:233-257 | Nesting, first letter, boundaries and match together decide a hit |
| KeywordIndex.TrimWsStart | crates/cypher/src/keyword_scan.rs:358-364 | The end of leading white space |
| KeywordIndex.TrimWsEnd | crates/cypher/src/keyword_scan.rs:367-373 | The start of trailing white space |
| KeywordCase.CaseDoesNotMatter | crates/cypher/src/keyword_scan.rs:377-394 | The answer is the same for the upper-cased query and keyword |
| KeywordCase.LeastHitUnique | crates/cypher/src/keyword_scan.rs:85-263 | The specification determines the answer |
| KeywordCase.SkippingMoreFindsLater | crates/cypher/src/keyword_scan.rs:59-73 | Skipping more kinds of brackets finds nothing new and nothing earlier |
| SessionRuns.TransactionsNeverOverlap | crates/bolt/src/server.rs:1497-1917 | Over every run the executor sees transactions one after the other: each query, commit and rollback in a transaction falls between its begin and its end, and the one left open is the one the session holds |
| SessionRuns.RunAccepted | crates/bolt/src/server.rs:1497-1917 | From any state, the calls of a run lead from the transaction held before to the one held after |
| SessionRuns.StepKeepsWell | crates/bolt/src/server.rs:1217-1228 | With authentication on, authenticated holds exactly when a principal is set; the counter guard is held exactly while a transaction is |
| SessionRuns.EveryCallIsAttributed | crates/bolt/src/server.rs:1581-1656 | With authentication on, every begin and every query of any run is made for a principal |
| SessionRuns.CallsNeedLogin | crates/bolt/src/server.rs:1370-1372 | With authentication on, a message makes a call other than a rollback only in an authenticated session |
| SessionHistory.CommittedExactlyByCommit | crates/bolt/src/server.rs:1842-1870 | Over any run a transaction is committed exactly by a COMMIT handled while it is open in the executor's log and the session is logged in or needs no login |
| SessionHistory.RolledBackExactly | crates/bolt/src/server.rs:1566-1892 | It is rolled back exactly by RESET and LOGOFF, and in a logged-in session by ROLLBACK and a query in its database that fails, while it is open |
| SessionHistory.ToldExactlyWhenCommitted | crates/bolt/src/server.rs:1858-1868 | The client is told of a commit with a bookmark if and only if the same message made the call and the executor answered with that bookmark |
| SessionHistory.CallsInTransaction | crates/bolt/src/server.rs:1475-1917 | All calls of a message with a transaction open, by the messages before it |
| SessionHistory.CallsOutsideTransaction | crates/bolt/src/server.rs:1475-1917 | And with none open: a query goes to the database it names, otherwise to the one asked for last, otherwise to `copperdb` |
| SessionHistory.RepliesAre | crates/bolt/src/server.rs:1475-1917 | The replies to each of the first 2^63 messages that asks for no rows, failure codes written out; query ids count the queries |
| SessionHistory.PageIs | crates/bolt/src/server.rs:1764-1810 | PULL n answers with the next n rows, or all that are left if n is negative or too large, and says whether there are more; DISCARD skips them |
| SessionHistory.QueryOpens | crates/bolt/src/server.rs:1697-1716 | A query that is answered opens a cursor on its rows, which is then the last one; the oldest of 64 makes room |
| SessionHistory.BookmarkIs | crates/bolt/src/server.rs:1858-1862 | The session remembers the bookmark of the last commit that the client was told of |
| SessionAccess.OwnersAreServedIff | crates/bolt/src/server.rs:1497-1565 | At every point of any run every query and commit that the next message could make in the transaction held is made for the principal that began it, if and only if no HELLO or LOGON of the run logs another principal in while a transaction is held |
| SessionAccess.LogKeepsOwners | crates/bolt/src/server.rs:1576-1656 | Then every query in the executor's log was made for the principal of the begin before it |
| SessionAccess.TakeoverHappens | crates/bolt/src/server.rs:1534-1565 | LOGON as a, BEGIN, LOGON as b, RUN: the query runs for b in the transaction of a |
| SessionAccess.UsersAreServedIff | crates/bolt/src/server.rs:1566-1575 | With authentication on, rows are answered only to an authenticated session at every point of any run, if no LOGOFF or HELLO gives the login up while a cursor has rows left; until query ids wrap around, only if |
| SessionAccess.NewSessionServesUsersIff | crates/bolt/src/server.rs:1764-1810 | So it is an equivalence over every run of fewer than 2^63 messages of a new session |
| SessionAccess.AbandonedRowsAreServed | crates/bolt/src/server.rs:1764-1810 | LOGON, RUN, LOGOFF, PULL: the rows are answered to nobody logged in |
| SessionCursors.RowsAreServedOnce | crates/bolt/src/server.rs:1697-1810 | Under any interleaving each cursor starts once, the slices taken from it are consecutive, and they are all of its rows once it is finished |
| SessionCursors.TableIsKept | crates/bolt/src/server.rs:1701-1716 | For fewer than 2^63 messages: at most 64 cursors, ids below the next one, and the last id is the largest live one |
| SessionCursors.WrappingBreaksTheTable | crates/bolt/src/server.rs:1706-1716 | Once query ids wrap around the last cursor is not the one with the largest id |
| SessionCursors.CursorsLeaveForAReason | crates/bolt/src/server.rs:1701-1801 | A cursor goes only by RESET, by serving its last row, or as the oldest of 64 when a query succeeds |
| SessionCursors.PullAnswersWithTheSlice | crates/bolt/src/server.rs:1764-1810 | PULL answers with exactly the rows taken; DISCARD takes the same rows silently |
| BoltSessions.BoltSession.ProcessMessage | crates/bolt/src/server.rs:1475-1917 | Handles any message as specified, and moves the counter of active transactions with the session's own share of it |
| BoltSessions.BoltSession.ProcessHello | crates/bolt/src/server.rs:1497-1533 | HELLO |
| BoltSessions.BoltSession.ProcessLogon | crates/bolt/src/server.rs:1534-1565 | LOGON |
| BoltSessions.BoltSession.ProcessRun | crates/bolt/src/server.rs:1576-1763 | RUN, with its rollback on a failed query |
| BoltSessions.BoltSession.ProcessPage | crates/bolt/src/server.rs:1764-1810 | PULL and DISCARD |
| BoltSessions.BoltSession.ProcessBegin | crates/bolt/src/server.rs:1811-1841 | BEGIN |
| BoltSessions.BoltSession.ProcessCommit | crates/bolt/src/server.rs:1842-1870 | COMMIT |
| BoltSessions.BoltSession.ProcessRollback | crates/bolt/src/server.rs:1871-1892 | ROLLBACK |
| BoltSessions.BoltSession.StoreCursor | crates/bolt/src/server.rs:1701-1716 | Stores a new cursor, evicting the oldest of 64 |
| BoltSessions.BoltSession.SetTransaction | crates/bolt/src/server.rs:1217-1223 | Takes a transaction and a guard |
| BoltSessions.BoltSession.TakeTransaction | crates/bolt/src/server.rs:1225-1228 | Gives the transaction and the guard up |
| BoltSessions.BoltSession.RollbackActiveTransaction | crates/bolt/src/server.rs:1374-1380 | Rolls back what is open |
| BoltSessions.BoltSession.AuthenticateSession | crates/bolt/src/server.rs:1329-1341 | Sets the principal only on success |
| BoltServers.BoltServer.Handle | crates/bolt/src/server.rs:438-492 | Whatever a session does, the counter of active transactions is the number of sessions that hold one |
| BoltServers.BoltServer.Disconnect | crates/bolt/src/server.rs:486-492 | So it is when a session goes away, rolled back or not |
| BoltServers.BoltServer.Connect | crates/bolt/src/server.rs:1189-1215 | So it is when a session starts |
| FramePump.ResetPreempts | crates/bolt/src/server.rs:843-869 | A frame with signature 0x0F among those that arrive pre-empts the frame being processed, everything pending and what arrived before it; otherwise the frames wait |
| FramePump.StartedQueriesCall | crates/bolt/src/server.rs:843-869 | Of a message that is not finished, the call of a query is in the log if it was handed to the executor, and nothing else |
| FramePump.FrameIsHandled | crates/bolt/src/server.rs:866-894 | Bytes that are not exactly one value end the session, a value that is no message changes nothing, and a message is handled |
| FramePump.LostConnectionRollsBack | crates/bolt/src/server.rs:893-896 | A lost connection rolls the open transaction back |
| FramePump.PumpIsGood | crates/bolt/src/server.rs:816-894 | Over every run of events: messages are handled in the order received and each once, whatever was not processed has a RESET behind it, and the calls stay in order |
| FramePump.DroppedMeansReset | crates/bolt/src/server.rs:843-869 | When everything received is dealt with and the connection is open, every frame not processed has a processed RESET behind it, which left no transaction and no cursor |
| FramePump.OpenMeansHeld | crates/bolt/src/server.rs:816-895 | At every point of any run the executor has a transaction open exactly while the session holds one |
| FramePump.TransactionsAtTheEnd | crates/bolt/src/server.rs:866-895 | An event that ends the session leaves no transaction open at the executor if and only if the loop broke, or none was held when the event came; the calls are in order |
| FramePump.AbortLeavesTheTransactionOpen | crates/bolt/src/server.rs:843-866 | The frames B1 11 A0 and C1, a BEGIN and a float without its bytes, end a session with the transaction open, since this exit skips the rollback |
| FramePump.LegacyResetDoesNotPreempt | crates/bolt/src/server.rs:855-863 | Over any run, a frame without a frame of signature 0x0F behind it is never dropped, whatever RESETs with signature 0x15 follow; a processed one of those leaves a clean session all the same |
| FramePump.HappenIsGood | crates/bolt/src/server.rs:831-894 | Every event keeps all of this |
| AuditChain.ChainVerifiesIff | crates/audit/src/lib.rs:209-282 | After any run of one enabled log, for any order the store returns, the chain verifies if and only if no write stored a second event under the number of one whose write failed after storing |
| AuditChain.CleanFailuresKeepTheChain | crates/audit/src/lib.rs:223-282 | In particular it always verifies when failed writes store nothing |
| AuditChain.FailedFlushSpoils | crates/audit/src/lib.rs:239-242 | A write that fails after storing, then another event, and the chain no longer verifies |
| AuditChain.AcknowledgedIsKept | crates/audit/src/lib.rs:223-282 | Over any run of one log, restarts and failing writes included: the event that a successful write sealed is in the store at the end, unchanged |
| AuditChain.LoadIsTheLog | crates/audit/src/lib.rs:410-422 | The records of a verified chain load in its order, however they are returned |
| Audit.SameHashSameChain | crates/audit/src/lib.rs:162-166 | With a collision-free hash, two verified non-empty chains with the same last hash are equal event by event |
| Audit.VerifiesIsInPlace | crates/audit/src/lib.rs:424-455 | A chain verifies exactly if its events are numbered from 1, the first has no hash before it and every other one the hash of the event before it, and each the hash of everything it says |
| Audit.VerifyEvents | crates/audit/src/lib.rs:424-455 | Valid exactly for chains; otherwise the first event that does not link, and why |
| Audit.AuditLog.Record | crates/audit/src/lib.rs:223-249 | Seals and stores one event: an id and a time if it has none, the next number, the hash before it and its own; the chain moves on only without any error |
| Audit.AuditLog.CommitTransactionWithEvent | crates/audit/src/lib.rs:252-282 | Stores the staged data and the event together or not at all |
| Audit.AuditLog.Open | crates/audit/src/lib.rs:209-221 | Goes on behind the last event loaded; if loading fails there is no log |
| ImportOffline.RunImport | crates/adminimport/src/lib.rs:1033-1063 | For every chunk size but 0 success and the promoted graph are the same function of the rows; without node sources, with a failing check, or cancelled before the last check the import fails, and any failure leaves the target as it was; imported and bad relationships add up to the rows |
| ImportOffline.ChunkSizeDoesNotMatter | crates/adminimport/src/lib.rs:1124-1312 | Whether the rows import is the same for any two chunk sizes |
| Import.Staging.StreamNodeRecordBatches | crates/adminimport/src/lib.rs:1124-1210 | Succeeds exactly if every row is read and no id comes twice anywhere; stores every record under an id that depends on its own row and position only |
| Import.Staging.StreamRelationshipRecordBatches | crates/adminimport/src/lib.rs:1212-1312 | Succeeds exactly if no row is fatal, the bad ones are tolerated and no id comes twice; stores the good ones |
| Import.Staging.WriteNodeBatch | crates/adminimport/src/lib.rs:1091-1103 | All of a chunk, or nothing if an id is taken |
| Import.Staging.WriteRelationshipBatch | crates/adminimport/src/lib.rs:1105-1117 | All of a chunk, or nothing if an id is taken |
| Import.EveryRowCounts | crates/adminimport/src/lib.rs:1271-1302 | Good and bad relationships together are the rows |
| ImportResult.SucceedsIff | crates/adminimport/src/lib.rs:1033-1312 | The rows import if and only if the checks pass, every node row gives a node, every relationship row can be read, bad ones are skipped or no more than tolerated, and no two rows give one id |
| ImportResult.PromotedNodes | crates/adminimport/src/lib.rs:1468-1538 | A node is promoted under an id exactly if some row gives it: its one value, the JSON of its values behind the prefix, or `_anon_` and the number of earlier rows without ids |
| ImportResult.PromotedEdges | crates/adminimport/src/lib.rs:1352-1436 | A relationship is promoted exactly if some row gives it: from the node its start columns name to the node its end columns name, with its type, under its own id or `rel_` and its position |
| ImportResult.NodeRowsInOrder | crates/adminimport/src/lib.rs:1136-1200 | The node rows are those of the sources, one source after the other; NoOtherRows says that there are no others |
| ImportResult.RelationshipRowsInOrder | crates/adminimport/src/lib.rs:1226-1302 | So are the relationship rows |
| ImportOffline.PromotedEdgesJoinPromotedNodes | crates/adminimport/src/lib.rs:1394-1411 | Both ends of every promoted relationship are promoted nodes |
| ImportOffline.EveryNodeIsPromoted | crates/adminimport/src/lib.rs:1181-1199 | Every node row is in the promoted graph under its own id |
| ImportOffline.SameIdSameParts | crates/adminimport/src/lib.rs:1438-1466 | Two rows get one id only for the same values in the same id spaces, unless a plain value looks like a made id |
| ImportOffline.AnonymousNodesNeverClash | crates/adminimport/src/lib.rs:1530-1538 | Readable sources without id columns always import |
| CsvForm.ColumnIsDescribed | crates/convert/src/lib.rs:177-290 | Reading a header gives a column if and only if the header describes it: name, colon, keyword, argument in parentheses, options in braces, and the keywords that a leading colon reserves, `START_ID` for the start and `END_ID` for the end |
| CsvForm.CellIsRead | crates/convert/src/lib.rs:103-175 | Reading a cell gives a value if and only if the cell is that value under its column's type, all names of types written out |
| CsvWriting.HeaderAnnounces | crates/adminimport/src/lib.rs:567-615 | An export writes exactly the header that announces the column |
| CsvWriting.ShapeIs | crates/adminimport/src/lib.rs:758-819 | A value has a shape exactly if its items share the type; lists of doubles are vectors of their length |
| CsvWriting.CellShows | crates/adminimport/src/lib.rs:965-1021 | An export writes exactly the text that shows the value, and nothing for a value that is not there |
| CsvCodec.HeaderRoundTrip | crates/adminimport/src/lib.rs:590-609 | Reading an exported header gives name, type and dimensions back if and only if the property name is not empty and has no colon, or the embedding name has no opening brace |
| CsvCells.CellRoundTrip | crates/adminimport/src/lib.rs:758-1007 | Reading an exported cell gives the value back if and only if no number is over the signed range, no item holds the delimiter, and an empty cell is not read as null |
| CsvCells.ListBack | crates/convert/src/lib.rs:117-138 | The items of a list come back exactly if each does and none holds the delimiter |
| CsvCells.ScalarBack | crates/convert/src/lib.rs:142-175 | A scalar comes back exactly if it is not a number over the signed range |
| Text.SplitJoin | crates/convert/src/lib.rs:117-123 | Splitting undoes joining exactly for a non-empty list without the delimiter inside |
| DurationForm.FormatIsWhatStands | crates/config/src/lib.rs:1470-1515 | The printer writes the one text that stands for the duration: hours, minutes under 60 and seconds under 60 from a second on, the first that is not zero in front, otherwise one unit; no zero in front of a number or behind a fraction |
| Duration.DurationIsLossless | crates/config/src/lib.rs:1470-1515 | Go's reader gets every printed 64-bit duration back to the nanosecond, negative ones included, so distinct durations print differently |
| Duration.FormatGoDuration | crates/config/src/lib.rs:1470-1502 | The printer writes the specified text for every 64-bit number |
| Duration.FractionValue | crates/config/src/lib.rs:1504-1515 | The zero-trimmed fraction stands for exactly the remainder |
| Duration.FractionFitsDoubles | crates/config/src/lib.rs:1504-1515 | For a printed fraction the unit is a multiple of the fraction's scale, and all numbers that Go's reader multiplies are whole and below 2^53, so its doubles are exact |
| JsonMeaning.JsonOnTheWire | crates/bolt/src/dispatch.rs:372-404 | The bytes written for a JSON tree with lengths below 2^32 stand for a value if and only if the value carries the tree |
| JsonMeaning.RecordOnTheWire | crates/bolt/src/dispatch.rs:313-322 | Those written for a record stand for a struct with signature 0x71 and one list that carries the row's fields |
| JsonMeaning.ToJsonIs | crates/bolt/src/dispatch.rs:245-282 | What a value is converted to is the JSON it stands for: of equal keys the last one counts, bytes and structs are lists, and what cannot be written is null |
| Json.JsonOverTheWire | crates/bolt/src/dispatch.rs:245-282 | A JSON tree comes back from the wire as the same tree if and only if it has no number over the signed range and every RFC 3339 string is in the form it would be written in |
| JsonCodec.EncodeJsonValueInto | crates/bolt/src/dispatch.rs:372-404 | Appends the encoding of a JSON value |
| JsonCodec.EncodeRecord | crates/bolt/src/dispatch.rs:313-322 | The record of a row |
| JsonCodec.EncodeRecordMapInto | crates/bolt/src/dispatch.rs:348-362 | Whatever the shared buffer held, it then holds the record of the looked-up-or-null row |
| JsonCodec.EncodeRecordMaps | crates/bolt/src/dispatch.rs:334-346 | Row by row the same records as one at a time |
| JsonCodec.RecordOverTheWire | crates/bolt/src/dispatch.rs:313-322 | A decoded record has the row's fields, under the same condition |

## Left out

- CypherParseContext.ParseContext.ParseMultiplication: bracket access `e[key]` ends in the error value `OutsideFragment`.
- CypherParseContext.ParseContext.ParseAtom: lists, maps, CASE, reduce, comprehensions and function calls end in that
  error value too.
- The tokenizer, clauses and whole-query parsing of Cypher are not modelled.
- Floats of the Cypher parser are kept as their digits, and `IsF64Text` says which texts Rust reads as one.
- Sockets, WebSocket frames, TLS, timeouts, telemetry, localisation, causal bookmarks and request cancellation of the Bolt
  server: only arrival, completion and loss of the connection remain, as events.
- The frame loop is a state machine over values and not a loop over futures; replies to the client and their batching
  are not modelled, and an interrupted query is logged when it is handed to the executor, not when the executor runs it.
- Bolt messages are decoded by a parameter, constrained only on RESET; the summary metadata, statistics
  and notifications of replies are not modelled, and neither are the session's language and current query.
- SessionCursors.TableIsKept: for fewer than 2^63 messages, because query ids wrap around after that; WrappingBreaksTheTable
  says what then happens.
- SessionAccess.UsersAreServedIff: the converse is for fewer than 2^63 messages, because a cursor with id -1, which only
  exists after query ids have wrapped around, cannot be asked for by its id.
- Lru.Inclusion: for caches whose policy does not change during the run, as two capacities are compared.
- QueryCaches.WriteThroughQueryCache.Put: for calls one after the other; concurrent calls on one cache are not modelled.
- The cache key's hash and the list of cacheable queries would only add easy members.
- Subgraph.SubgraphNodes: reading the filters and the start node from procedure arguments is not modelled, and rows are
  node ids.
- SubgraphExact.WalkSucceeds: one way only, since it bounds the nodes by any set that holds them;
  SubgraphCap.WalkSucceedsIff is the exact condition.
- KeywordIndex.KeywordIndexFrom: nesting depths are unbounded, where the code counts in 32 bits.
- Audit: sequence numbers are unbounded, alerts are left out, and the log is the only writer to its store.
- ImportOffline.RunImport: of the preflight checks only the one for missing node sources is modelled; the outcome of the
  others, of reading and applying the schema, and of the last check for cancellation are parameters.
- Import: CSV, gzip and zip reading; a row that cannot be read is one kind of row.
- Import.Staging.StreamNodeRecordBatches: says when an import fails and not which error comes first, since that does
  depend on the chunk size.
- CypherDerivation.FailsIffNothingDerives: says when parsing fails; which error it fails with is only in the functions that
  the methods are proved against, as it is for PackStream.
- JsonMeaning.ToJsonIs: says nothing about the order of an object's members.
- CsvCells.CellRoundTrip: for properties; the cells of named embeddings are 32-bit floats and left out, and so is the
  text of a cell inside the CSV file. White space that `Trim` drops is ASCII.
- Duration.DurationIsLossless: fractions are read exactly, which Go does through a double; FractionFitsDoubles is why
  that makes no difference for the texts printed here.
- Json.JsonOverTheWire: for lengths below 2^32, because longer ones do not fit the wire format. Whether a string is an RFC 3339
  date-time, how one is written, and rounding to a double are parameters.
- Per-database settings, byte sizes, authentication providers, compliance, storage and the user interface are not modelled.
