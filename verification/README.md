# A verified model of a graph engine inside PostgreSQL

The engine keeps a typed property graph in PostgreSQL tables, compiles Cypher to
SQL, and is reached over two gateways, one speaking the PostgreSQL protocol and
one speaking Bolt. This project models its most intricate parts in Dafny 4.11
and proves what they promise.

`dafny verify dfyconfig.toml` verifies everything.

## What is modelled

- **Type hierarchy** (`TypeHierarchy`, `IntervalLabels`, `LabelSpacing`,
  `Labeling`, `DenseHierarchy`, `LabelSets`, `EditDistance`). A depth-first walk over a multiple-inheritance
  hierarchy hands out one interval per root path; subtype questions become range
  comparisons. The walk is modelled twice: as a function, about which the
  theorems are, and as the object with its shared cursor, path counter, output
  and stack, which computes that function.
- **Online schema change** (`SchemaPhases`, `TypeChange`, `TypeChangeResults`,
  `TypeChangeJob`, `RequiredChange`, `UniqueChange`). Planned, expanded,
  migrating, validated, contracted or aborted, with the application writing
  between any two steps. A run is any list of calls and writes; what is refused
  changes nothing. What a value casts to and what its JSON form is are
  parameters, so the results hold for every pair of column types.
- **PostgreSQL relay** (`GatewayProtocol`, `GatewaySafety`, `Gateway`,
  `GatewayScripts`, `GatewayLosses`, `GatewayClients`, `GatewayTexts`,
  `GatewayTraffic`, `DollarQuote`). The two threads, the state behind their
  mutex, the queues between them and a server that answers in order, as a
  transition system: every interleaving is a run. The server follows the
  "Message Flow" chapter of the PostgreSQL Frontend/Backend Protocol 3.0, with
  the skipping after a failed batch and with copy-in mode, in which Flush and
  Sync are ignored and any other message that is no copy data breaks the COPY
  off, and with the unnamed prepared statement, which a simple Query destroys. A
  script is the list of messages a client sends; what is promised to a client is
  stated over scripts. What the gateway utters, and what becomes of every message
  of the server, is stated over runs.
- **Bolt** (`Utf8`, `Utf8Scalars`, `PackStream`, `PackStreamRoundTrip`,
  `PackStreamResults`, `PackStreamDecoding`, `PackStreamCodec`, `BoltChunking`,
  `BoltSession`, `BoltStatements`, `BoltServer`). The value
  encoding with every width and the cut of a structure's field count to four
  bits, the decoder over buffer, position and depth, chunking, and the session
  with the transaction behind it and a log of the statements it sends. What the
  database answers to each statement is an arbitrary list.
- **Variable-length hops** (`Traversal`, `ReachabilityRewrite`, `CypherAst`,
  `CypherAccepted`, `CypherSemantics`, `CypherProjection`, `HopRewrite`). Enumerating trails,
  searching with a visited set, and the compiler's test for when the second may
  replace the first.
- **Adjacency segments** (`Adjacency`). Chunked aligned arrays that stand for a
  plain list of edges.

`Options` and `Sequences` hold what the modules share.

## What the proofs found

Each of these is a property that does not hold as it might be expected to; each
has a concrete input in a lemma, and the exact condition where there is one.

- An undirected hop `*1..k` compiled as reachability can return its start node
  over the one edge it left by, which no trail does
  (`ReachabilityRewrite.UndirectedFails`). The guard in the compiler is
  `min <= 1`; the exact one also asks, of an undirected hop, for a minimum of 0
  or a maximum below 2 (`RewriteSafeIsExact`).
- `RETURN DISTINCT count(b)`, `count(DISTINCT)` without an argument, and an
  aggregate inside a list comprehension are taken for insensitive to duplicates
  and are not (`CypherProjection.DistinctCountCounts`, `BareCountCounts`,
  `HiddenCollectCounts`; exactly when: `AnswerBySetIff`).
- A label set can resolve to nothing although a common subtype of its labels
  exists (`LabelSets.NothingIsWrong`); it never does where the types above each
  type form a line, and only there (`NothingIffSingleLine`).
- An acyclic hierarchy is reported as a cycle when roots plus edges exceed 64
  times the types (`Labeling.LabellableIffAcyclic`): with a parent row for every
  pair of types, from 129 types on (`DenseHierarchy.DenseLabellable`).
- The gateway counts one ReadyForQuery for every Query, Sync and FunctionCall it
  forwards. The server does not always send it: a Query inside a failed batch is
  discarded (`GatewayClients.RudeLoses`), and a Sync that follows the Execute of
  a `COPY … FROM STDIN` at once, as client libraries send it, is ignored
  (`CopySyncLoses`). The request stays counted, so the gateway can never ask its
  own question on that connection again (`Gateway.LostBlocksAsking`). Which
  scripts lose nothing is exact (`PoliteExactly`); without COPY they are those
  in which no Query and no FunctionCall comes between a batch message and the
  next Sync (`NoCopyExactly`).
- The gateway puts a statement into its own SQL between dollar quotes, with a tag
  that does not occur in the statement. That is to make any text safe, and it is
  not enough: where the statement ends with the tag short of its last dollar, as
  `RETURN $ogq` does, the first dollar of the closing tag completes it, the
  server cuts the statement off there, and what is left of the tag is no SQL
  (`DollarQuote.ParameterIsCutOff`; exactly when: `ReadBackExactly`).
- The gateway's question is a simple Query of its own, so it destroys the
  client's unnamed prepared statement. Asked about a Query, or about a Parse of
  the unnamed statement, that changes nothing; asked about a named Parse it takes
  away what the client prepared (`GatewayClients.StatementTaken`). Which scripts
  keep their statement in every run is exact (`UnrobbedExactly`, and
  `ConsiderateExactly` in plain terms).
- A value whose JSON form is null passes the dual-write trigger with nothing
  stored. Written after validation it is gone after contract
  (`TypeChangeResults.BlankIsLost`); validation is stable exactly if there is no
  such value (`StableExactly`).
- A type change is to leave every row with the cast of its old value. It does in
  every run exactly if three things hold of the pair of types: the trigger stores
  something for every value it lets through, what it stores is the cast, and
  values with equal JSON forms have equal casts (`KeepsDataExactly`). The backfill
  casts a value's text and the trigger the text of its JSON form, so of two rows
  with one timestamp, one rewritten and one written meanwhile, the new texts
  differ (`TwoConversions`). The trigger leaves the new column alone when the old
  and the new value are equal as JSON, so `1.0` replaced by `1.00` keeps the text
  of `1.0` (`StaleConversion`), and a JSON null that the backfill turned into text
  keeps that text when the application puts NULL in its place (`TextBesideNull`).
- After the backfill a validation reports exactly the rows that do not cast only
  under a condition on the two casts (`DoneExactly`).
- `add_unique` checks a value over all tables of the type and enforces it on
  each table by itself; nothing guards the column in between
  (`UniqueChange.UniqueExactly`).
- A second HELLO inside a transaction leaves the session believing in a
  transaction that is gone (`BoltSession.StepAgrees`,
  `HelloForgetsTransaction`).
- A structure of 16 fields or more encodes with a wrong count
  (`PackStreamResults.RoundTripsExactly`).

The comments at `engine/src/storage/traverse.rs` say that `og_reach` reports each
node once at the depth it was first reached; the code also reports the start
when the search comes back to it. The model follows the code.

## Model

| member | source | states |
|---|---|---|
| Labeling.Labeler.Assign | engine/src/catalog/labeling.rs:78-109 | the recursion with its shared cursor, path counter, output and stack gives exactly the visits of the walk, or reports a cycle exactly when the walk meets one; on success the stack is as before |
| Labeling.FindReachable | engine/src/catalog/labeling.rs:127-138 | the queue loop ends on every parent relation; the guard trips exactly when roots plus parent rows below a root exceed 64 times the types, and otherwise exactly the types below a root were found |
| Labeling.LabelTable.Relabel | engine/src/catalog/labeling.rs:117-170 | relabelling succeeds exactly when every type is below a root, no type is above itself and the guard holds; then the table is the walk's, and on an error it is untouched |
| IntervalLabels.ForestIffAcyclic | engine/src/catalog/labeling.rs:87-109 | where every type is below a root, the walk ends without meeting itself exactly when the hierarchy is acyclic |
| IntervalLabels.ForestLaminar | engine/src/catalog/labeling.rs:90-103 | all label intervals are pairwise nested or disjoint |
| LabelSpacing.ForestRoomy | engine/src/catalog/labeling.rs:21-23 | any two bounds handed out, of one interval or of two, are at least 1024 apart |
| IntervalLabels.NestedIffPrefix | engine/src/catalog/labeling.rs:73-77 | one interval lies in another exactly when its root path extends the other's |
| IntervalLabels.RootPathVisited | engine/src/catalog/labeling.rs:73-77 | every root path of a labelled hierarchy has its interval |
| IntervalLabels.VisitIsRootPath | engine/src/catalog/labeling.rs:73-77 | every interval belongs to a root path |
| Labeling.LabelIsRootPath | engine/src/catalog/labeling.rs:104-107 | a label row names the type its path ends in, at the depth of that path |
| Labeling.LabelsArePathsApart | engine/src/catalog/labeling.rs:104-107 | no two label rows stand for the same path, and no two of a type share a path number |
| Labeling.LabelsKeyed | engine/src/catalog/labeling.rs:104-107 | type and path number together are a key of the label rows |
| Labeling.SubtypeSound | engine/src/catalog/labeling.rs:235-246 | whatever `og_is_subtype` answers yes to is reachable by parent edges |
| Labeling.SubtypeComplete | engine/src/catalog/labeling.rs:235-246 | every type below another, over any of its parents, is found by range comparison |
| Labeling.SubtypeIsReachability | engine/src/catalog/labeling.rs:235-246 | for every hierarchy that can be labelled, `og_is_subtype(x, y)` holds exactly when y is x or reachable from x by parent edges |
| Labeling.QuerySetsAreReachability | engine/src/catalog/labeling.rs:195-229 | `og_subtypes` and `og_supertypes` are exactly the types below and above |
| Labeling.LabellableIffAcyclic | engine/src/catalog/labeling.rs:123-152 | with every parent row inside the graph, relabelling succeeds exactly when the hierarchy is acyclic and roots plus edges stay within 64 times the types |
| DenseHierarchy.DenseLabellable | engine/src/catalog/labeling.rs:127-138 | the hierarchy with a parent row for every pair of `n` types is acyclic and closed, and is labelled exactly up to `n` = 128 |
| LabelSets.RelabelledTableIndexes | engine/src/catalog/types.rs:185-192 | the table a relabelling leaves behind answers every subtype question of the resolution by reachability |
| LabelSets.ResolveLabelSet | engine/src/catalog/types.rs:160-197 | the loop over the labels and the search for a most specific one compute the resolution that the next rows give a meaning to |
| LabelSets.ResolveExactly | engine/src/catalog/types.rs:160-197 | a label set resolves to `Any` exactly if it is empty, and to a type exactly if every label is known and one of them carries all the others |
| LabelSets.AnyIsRight | engine/src/catalog/types.rs:160-164 | where the answer is `Any`, every type satisfies the label set |
| LabelSets.UnknownIsNothing | engine/src/catalog/types.rs:165-183 | one label that names no type makes the answer `Nothing`, and no type satisfies the set, in any hierarchy |
| LabelSets.TypeMatchIsExact | engine/src/catalog/types.rs:185-192 | when a label set resolves to a type, the types satisfying every label are exactly its subtypes, in any hierarchy |
| LabelSets.NothingIsRight | engine/src/catalog/types.rs:193-196 | in a hierarchy where the types above any type form a line, a set resolved to nothing matches nothing |
| LabelSets.NothingIsWrong | engine/src/catalog/types.rs:193-196 | two unrelated labels with a common subtype resolve to nothing although that subtype satisfies both |
| LabelSets.NothingIffSingleLine | engine/src/catalog/types.rs:193-196 | `Nothing` is right for all label sets exactly in those hierarchies |
| LabelSets.SingleInheritanceIsSingleLine | engine/src/catalog/types.rs:160-197 | with at most one parent per type the types above any type form a line |
| LabelSets.DiamondResolvesToNothing | engine/src/catalog/types.rs:193-196 | a three-type hierarchy where `Nothing` is wrong |
| EditDistance.EditDistance | engine/src/catalog/types.rs:272-292 | the two row buffers, filled and swapped, end in the recursive Levenshtein distance |
| EditDistance.FillRow | engine/src/catalog/types.rs:282-289 | one pass of the inner loop turns a row of the distance matrix into the next |
| EditDistance.DistanceSymmetric | engine/src/catalog/types.rs:272-292 | the distance is symmetric |
| EditDistance.DistanceZero | engine/src/catalog/types.rs:272-292 | it is zero only between equal strings |
| EditDistance.Triangle | engine/src/catalog/types.rs:272-292 | it satisfies the triangle inequality |
| EditDistance.EditsBoundDistance | engine/src/catalog/types.rs:272-292 | any chain of single edits is at least as long as the distance |
| EditDistance.DistanceReached | engine/src/catalog/types.rs:272-292 | a chain of exactly that many edits exists |
| TypeChange.RunKeeps | engine/sql/access.sql:378-390 | every run of calls and writes keeps the invariant: what stands in the new column is a conversion of a value with the JSON form of the old one, rows up to the cursor are settled, and a validated table has no violation but one written since by a value of form null |
| TypeChangeResults.RunKeepsTheData | engine/src/catalog/evolution.rs:893-935 | whatever the application writes and however the calls fall: an aborted table is the application's own; a contracted one has the application's rows, each with the cast of its own value where the trigger stores exactly the casts and values of one JSON form cast alike, and otherwise with a conversion of a value of that form, missing only beside NULL or a value of form null |
| TypeChangeResults.KeepsDataExactly | engine/src/catalog/evolution.rs:727-730 | every contracted run leaves each row with the cast of its own value, and NULL where it is NULL, exactly if no value has the form null, values of equal JSON form cast alike, and whatever the trigger stores is the cast |
| TypeChangeResults.TwoConversions | engine/sql/access.sql:387-388 | a run that leaves two rows of one value with what the backfill and what the trigger make of it |
| TypeChangeResults.TextBesideNull | engine/sql/access.sql:384-386 | a run after which the application's NULL reads the text of the JSON null that stood there before |
| TypeChangeResults.StaleConversion | engine/sql/access.sql:384-386 | for any two values of equal JSON form and a conversion of the first that is not the cast of the second: a run after which the row of the second holds it |
| TypeChangeResults.StableExactly | engine/src/catalog/evolution.rs:269-282 | once a validation found nothing, no run makes a later one find something, exactly if the trigger stores a value for every value it lets through |
| TypeChangeResults.ValidatedIsClean | engine/src/catalog/evolution.rs:287-293 | then contract never drops a column over a row that has no new value |
| TypeChangeResults.BlankIsLost | engine/sql/access.sql:378-390 | a value whose JSON form is null, written after validation, is accepted by the trigger and gone after contract |
| TypeChangeResults.PhasesInOrder | engine/src/catalog/evolution.rs:103-116 | validated and contracted are reached only through a validation that found no violation; contracted and aborted are final |
| TypeChangeResults.AbortRestores | engine/src/catalog/evolution.rs:1060-1075 | after any run that ends planned, expanded, migrating or validated, an abort ends the change: the phase is aborted, every old column is the application's own, and no row has a new value |
| TypeChangeResults.CallsMovePhase | engine/src/catalog/evolution.rs:240-306 | where each call leads from each phase, phase by phase; validate moves exactly if no row has an old and no new value |
| TypeChangeResults.WritesAccepted | engine/sql/access.sql:378-390 | which writes the database accepts in each phase: while the change is open, those whose value the trigger converts, stores nothing for, or leaves alone |
| TypeChangeResults.PageSize | engine/src/catalog/evolution.rs:783-794 | a call of migrate takes `batch` rows of each table, at least one, or all that are left |
| TypeChangeResults.BackfillRises | engine/src/catalog/evolution.rs:783-794 | over any run, with any batch sizes and stops, the backfill rewrites rows in id order and none twice |
| TypeChangeResults.BackfillReaches | engine/src/catalog/evolution.rs:253-264 | when nothing is left to move, every row that had a value throughout has been rewritten |
| TypeChangeResults.DoneLeaves | engine/src/catalog/evolution.rs:796-813 | after the backfill is done, a row a validation reports has a value of form null or shares its form with a value that does not cast |
| TypeChangeResults.DoneExactly | engine/src/catalog/evolution.rs:796-813 | a validation after the backfill reports exactly the rows whose value does not cast, in every run, exactly if casting is the same for values of equal form, values of form null do not cast, and what the trigger stores casts |
| TypeChangeJob.Job.Write | engine/sql/access.sql:378-390 | a write of the application goes through the trigger exactly between expand and contract or abort; one that leaves the JSON form alone leaves the new column alone, and one it rejects changes nothing |
| TypeChangeJob.Job.Migrate | engine/src/catalog/evolution.rs:721-755 | the loop over the tables moves one page of each, advances each cursor to its last row and counts the rows moved |
| TypeChangeJob.Job.Validate | engine/src/catalog/evolution.rs:796-813 | the loop counts the rows with an old and no new value, and only zero moves the phase |
| TypeChangeJob.Job.Contract | engine/src/catalog/evolution.rs:893-935 | the loop swaps the columns of every table, from `validated` only |
| TypeChangeJob.Job.Abort | engine/src/catalog/evolution.rs:1060-1075 | the loop drops the new column of every table, from any phase that is not final |
| TypeChangeJob.Job.ApplyAll | engine/src/catalog/evolution.rs:313-336 | all phases in one transaction end; they succeed exactly if every value casts, then every row has its cast, and otherwise nothing changed |
| RequiredChange.ValidatedStays | engine/src/catalog/evolution.rs:702-713 | for `set_required`: once a validation found no null none comes back, so NOT NULL never fails |
| RequiredChange.NullsShrink | engine/src/catalog/evolution.rs:702-713 | while the NOT VALID check stands no step of anyone adds a null |
| RequiredChange.OnlyNullsAreFilled | engine/src/catalog/evolution.rs:756-777 | in whatever phase a run ends, every row has the value the application gave it, or the default where it gave none |
| RequiredChange.PageSize | engine/src/catalog/evolution.rs:756-777 | a call of migrate fills `batch` nulls of each table, at least one, or all that are left |
| RequiredChange.AbortEnds | engine/src/catalog/evolution.rs:1076-1082 | after any run short of contract an abort ends the change and leaves every row as it stands |
| RequiredChange.CallsMovePhase | engine/src/catalog/evolution.rs:240-306 | where each call leads from each phase; validate moves exactly if no table has a null |
| RequiredChange.WritesAccepted | engine/src/catalog/evolution.rs:702-713 | from expand on, through contract, no row inserted, changed or touched may be without a value; before and after an abort it may |
| RequiredChange.EndsAreFinal | engine/src/catalog/evolution.rs:103-116 | contracted and aborted are final |
| RequiredChange.Job.Migrate | engine/src/catalog/evolution.rs:756-777 | the rows moved are the nulls gone, and none is moved exactly when there is no default or no null |
| RequiredChange.Job.ApplyAll | engine/src/catalog/evolution.rs:313-336 | all phases in one transaction end and succeed exactly if there is a default or no null; otherwise nothing changed |
| UniqueChange.UniqueExactly | engine/src/catalog/evolution.rs:958-971 | for `add_unique`: a contracted change means no value twice over the type exactly when the type has at most one table |
| UniqueChange.Spoiled | engine/src/catalog/evolution.rs:275-282 | a duplicate written after validation is found by the next validation, which leaves the phase `validated`, and contract goes through |
| UniqueChange.TablesStayUnique | engine/src/catalog/evolution.rs:958-971 | what contract does give: every table by itself stays free of duplicates |
| UniqueChange.CallsMovePhase | engine/src/catalog/evolution.rs:240-306 | where each call leads from each phase: validated by no value twice over all tables, contracted by none twice within one |
| UniqueChange.AbortEnds | engine/src/catalog/evolution.rs:298-306 | after any run short of contract an abort ends the change and leaves every row as it stands |
| Gateway.Shared.Received | sql-gateway/src/main.rs:228-255 | the server thread's critical section: what is captured, what is forwarded and what is counted |
| Gateway.ClientThread.Read | sql-gateway/src/main.rs:319-395 | one message of the client, with the local `unsynced` flag and the counter |
| Gateway.ClientThread.Ask | sql-gateway/src/main.rs:281-291 | its wait over, `ask` begins to ask, or gives up exactly if the connection is closed |
| Gateway.ClientThread.Act | sql-gateway/src/main.rs:331-362 | what follows an answer: the translation sent on, the refusal written, or the refusing statement sent |
| Gateway.ClientThread.Take | sql-gateway/src/main.rs:293-308 | the second wait over, the answer is taken and read if there is one, closed or not; otherwise `ask` gives up |
| GatewaySafety.StepKeeps | sql-gateway/src/main.rs:220-395 | every step of either thread or the server, one that skips a batch or reads a COPY included, keeps the invariant of the relay |
| GatewaySafety.RunKeeps | sql-gateway/src/main.rs:220-395 | every run keeps it |
| Gateway.AskingIsAlone | sql-gateway/src/main.rs:280-292 | while the gateway asks, the server has no request of the client before it and every reply on its way belongs to the question |
| Gateway.AnswersStayApart | sql-gateway/src/main.rs:232-244 | no part of an answer reaches the client, and nothing owed to the client is captured |
| Gateway.AwaitingCounts | sql-gateway/src/main.rs:245-248 | the counter is the number of ReadyForQuery messages under way plus the requests the server discarded or ignored, and its subtraction never saturates |
| Gateway.RepliesInOrder | sql-gateway/src/main.rs:245-253 | the client sees the ReadyForQuery messages of its requests in request order, one each, forwarded, translated or refused; drained, it has them all but those of requests the server discarded or ignored |
| Gateway.RefusalInTurn | sql-gateway/src/main.rs:338-344 | a refusal is written only after every earlier reply was, and it is the next one owed |
| Gateway.RefusalStatus | sql-gateway/src/main.rs:300-303 | the status sent with a refusal is the one that ended the answer |
| GatewayTexts.TextsAreCalledFor | sql-gateway/src/main.rs:311-395 | over every run, the requests the gateway sends and the replies it writes itself, in order, are what the messages read and the answers taken call for: a statement not of the engine goes up as it came, one inside a batch in the fallback, any other is asked about and then goes up as its translation, is refused, or is asked about again |
| GatewayTexts.AnswerIsRead | sql-gateway/src/main.rs:300-308 | an answer means refusal with its first error and its last status if it has an error anywhere, else its first row, else nothing |
| GatewayTexts.TranslationGoesUp | sql-gateway/src/main.rs:331-335 | an answer without an error sends its first row up, as a Query or in the Parse, and nothing else happens |
| GatewayTexts.RefusalGoesDown | sql-gateway/src/main.rs:336-342 | an answer with an error to a Query sends nothing up; the client gets the first error and the answer's last status |
| GatewayTexts.RefusalIsAskedAgain | sql-gateway/src/main.rs:352-360 | an answer with an error to a Parse sends the question up in the Parse |
| GatewayTexts.NoAnswerEnds | sql-gateway/src/main.rs:305 | an answer with neither ends the session and sends nothing |
| GatewayTexts.EngineGetsStatement | sql-gateway/src/main.rs:292 | the engine is asked about the statement itself, and the fallback runs it, exactly if the quoting does not cut it off |
| GatewayTraffic.TrafficArrives | sql-gateway/src/main.rs:223-253 | over every run, what the server says to the client reaches it unchanged and in order, up to what is still under way, and the answers read are, put together, all that the server says to the gateway's questions |
| DollarQuote.Quote | sql-gateway/src/main.rs:115-124 | the search for a tag ends, and the tag chosen does not occur in the text |
| DollarQuote.ReadBackExactly | sql-gateway/src/main.rs:114-124 | the server reads a quoted text back whole unless it ends with the tag short of its last dollar; then it loses that end |
| DollarQuote.ParameterIsCutOff | sql-gateway/src/main.rs:114-124 | `RETURN $ogq` is read back as `RETURN ` with the rest of the tag left over |
| Gateway.LostBlocksAsking | sql-gateway/src/main.rs:283-288 | once the server has discarded or ignored a counted request, the gateway never asks again |
| GatewayClients.RudeLoses | sql-gateway/src/main.rs:323-346 | a run in which a Query inside a failed batch is discarded and still awaited |
| GatewayClients.CopySyncLoses | sql-gateway/src/main.rs:373-377 | a run in which the Sync after the Execute of a COPY is ignored: two ReadyForQuery for a counter of three |
| GatewayScripts.PoliteLosesNothing | sql-gateway/src/main.rs:311-395 | no interleaving of a polite script loses a request, whatever the server makes of its messages |
| GatewayClients.PoliteExactly | sql-gateway/src/main.rs:311-395 | all runs of a script lose nothing exactly if it is polite: no Query, FunctionCall or Sync where a COPY may be reading, and no Query or FunctionCall, the fallback for a statement of the engine included, where a batch may have failed |
| GatewayClients.NoCopyExactly | sql-gateway/src/main.rs:326-330 | for a script without COPY that is: no Query and no FunctionCall between a batch message and the next Sync |
| GatewayClients.PoliteGetsEverything | sql-gateway/src/main.rs:245-253 | then the counter is the number of ReadyForQuery messages under way, and drained the client has one for every request |
| GatewayScripts.UnrobbedKeepsStatements | sql-gateway/src/main.rs:292 | no interleaving of an unrobbed script has a question take away the unnamed prepared statement for a Parse that leaves it alone |
| GatewayClients.UnrobbedExactly | sql-gateway/src/main.rs:347-354 | all runs of a script keep the statement so exactly if it is unrobbed: where the gateway asks about a named Parse the session can have no unnamed statement |
| GatewayClients.ConsiderateExactly | sql-gateway/src/main.rs:347-354 | for a client that waits for its Syncs, without COPY and Close, that is: no named Parse of a statement of the engine, between batches, after an unnamed Parse and before the next Query |
| GatewayClients.StatementTaken | sql-gateway/src/main.rs:292 | an unnamed Parse, its Sync and a named Parse of the engine's: whatever follows, some run takes the first statement away |
| PackStreamCodec.Writer.Encode | bolt/src/packstream.rs:56-94 | appends the encoding of the value, members in order |
| PackStreamCodec.Reader.ReadValue | bolt/src/packstream.rs:208-254 | reads what the bytes at `pos` say; on success `pos` is at its end and `depth` as before; it never reads past the buffer and always ends |
| PackStreamCodec.Reader.ReadMany | bolt/src/packstream.rs:261-269 | the member loop; room is never reserved beyond the bytes left, and is enough whenever the members are there |
| PackStreamCodec.Reader.ReadPairs | bolt/src/packstream.rs:271-287 | the entry loop inserts entry by entry, ends at a key that is no string, and agrees with the decoding the next rows describe |
| PackStreamCodec.Reader.Reserve | bolt/src/packstream.rs:177-179 | never more than claimed or than bytes remain, and the claim itself where the bytes allow it |
| PackStreamDecoding.AnyOrderReads | bolt/src/packstream.rs:271-287 | entries in any order, repeats included, decode to a sorted dictionary that holds exactly the last one sent under each key |
| PackStreamDecoding.KeysAreKept | bolt/src/packstream.rs:271-287 | its keys are exactly the keys sent, each once |
| PackStreamDecoding.KeyRefused | bolt/src/packstream.rs:275-283 | a dictionary ends in an error at the first key that is no string, whatever came before it |
| PackStreamDecoding.UnknownExactly | bolt/src/packstream.rs:246-252 | the bytes that start no value, and the error they give |
| PackStreamDecoding.CutOffIsShort | bolt/src/packstream.rs:181-198 | good input cut off anywhere before its end is a short read, and nothing after its end is looked at |
| PackStreamDecoding.AnyBytesRead | bolt/src/packstream.rs:256-259 | a string of any bytes reads as their lossy conversion |
| PackStreamDecoding.AnyWidthReads | bolt/src/packstream.rs:200-206 | a length may come in one, two or four bytes, however small it is |
| PackStreamRoundTrip.MarkedReads | bolt/src/packstream.rs:215-218 | an integer may come in any width that holds it, with its sign |
| PackStreamRoundTrip.DecEnc | bolt/src/packstream.rs:208-254 | decoding an encoding gives the value and stops at its end, whatever bytes follow, or says that it nests too deep |
| PackStreamResults.RoundTripsExactly | bolt/src/packstream.rs:81-90 | a value of its types comes back exactly if no structure in it has more than 15 fields and it nests at most 64 deep |
| PackStreamResults.PrefixFree | bolt/src/packstream.rs:56-132 | no encoding is the start of another |
| PackStreamResults.DecodedIsSound | bolt/src/packstream.rs:208-288 | whatever decodes is a value of its types: integers in 64 bits, strings of UTF-8, dictionaries with one entry per key in order, at most 15 fields, nested at most 64 deep |
| PackStreamResults.DecodedRoundTrips | bolt/src/packstream.rs:208-288 | whatever was read can be written and read back |
| Utf8.LossyKeepsValid | bolt/src/packstream.rs:256-259 | a string survives `from_utf8_lossy` |
| Utf8.LossyIsValid | bolt/src/packstream.rs:256-259 | any bytes become a string, at most three times as long |
| Utf8Scalars.ValidExactly | bolt/src/packstream.rs:256-259 | the byte tables accept exactly the encodings of lists of Unicode scalar values |
| Utf8Scalars.LossyExactly | bolt/src/packstream.rs:256-259 | a character stays; where none stands, the longest run of bytes that begins one, or else one byte, becomes one replacement character |
| BoltChunking.Reassembled | bolt/src/packstream.rs:323-354 | any split of a body into non-empty chunks is reassembled exactly if at most 1024 empty chunks precede it and it has at most 16 MiB; otherwise the error is the matching one |
| BoltChunking.CutOffIsEof | bolt/src/packstream.rs:323-354 | a stream that ends inside a good message ends in an error wherever it is cut, and one that ends behind it changes nothing |
| BoltChunking.ConversationRead | bolt/src/packstream.rs:323-354 | any framing of any sequence of messages is read back one by one, in order, with nothing left over |
| BoltChunking.WrittenIsRead | bolt/src/packstream.rs:295-304 | what `write_message` wrote is what `read_message` reads |
| BoltChunking.Output.WriteMessage | bolt/src/packstream.rs:295-304 | chunks of at most 65535 bytes that join to the encoding, then the end marker |
| BoltChunking.Input.ReadMessage | bolt/src/packstream.rs:323-354 | the reassembly loop and the decoder behind it |
| BoltSession.StepAgrees | bolt/src/session.rs:240-278 | outside `Failed`, on a living connection, the session is in a transaction exactly if the server is, and an open one is never forgotten; the one message that breaks this is a successful HELLO inside a transaction |
| BoltSession.SessionAgrees | bolt/src/session.rs:156-176 | so it holds in every run without such a HELLO |
| BoltSession.HelloForgetsTransaction | bolt/src/session.rs:213-238 | a run with such a HELLO: ready, believing in a transaction that is gone |
| BoltSession.ResetAgrees | bolt/src/session.rs:240-251 | RESET leaves no transaction and no result, whatever the ROLLBACK says |
| BoltSession.ExecuteKeeps | bolt/src/session.rs:350-381 | a query that brings settings runs in a transaction of its own that no outcome leaves open, and one inside a transaction leaves that open |
| BoltSession.ApplyKeeps | bolt/src/session.rs:264-271 | settings are only applied inside a transaction |
| BoltSession.OneSummary | bolt/src/session.rs:165-206 | every message gets exactly one summary, after its records; FAILURE exactly when the session fails; after that everything but RESET is ignored and changes nothing |
| BoltSession.SummaryEach | bolt/src/session.rs:156-176 | a session answers every message before GOODBYE once |
| BoltSession.StepTracks | bolt/src/session.rs:415-466 | PULL and DISCARD of any n take the next records of the open result, in order, none twice; the last summary comes when all are taken; PULL delivers what it takes |
| BoltSession.ResultInOrder | bolt/src/session.rs:415-466 | over any messages between a RUN and the next one that opens a result: what PULL and DISCARD take, put together, is the start of the result, and all of it exactly once a summary says that nothing is left; without DISCARD these are the records the client gets |
| BoltSession.RecordsArePulled | bolt/src/session.rs:431-436 | over any run, the records the client gets are what its PULL messages take, in order |
| BoltStatements.AnswerIsTheDatabases | bolt/src/session.rs:301-411 | on a living connection RUN, BEGIN, COMMIT and ROLLBACK succeed exactly if the database answers Done to every statement they call for; all are sent then, in order, otherwise those up to the one that failed, and a ROLLBACK if that was a setting or the query of a transaction the RUN opened itself |
| BoltStatements.AnswerMovesSession | bolt/src/session.rs:253-278 | a BEGIN the database took is a transaction, a COMMIT or ROLLBACK it refused ends none, a RUN that succeeds opens its rows; and which graph each leaves selected |
| BoltStatements.NoConnectionNoSuccess | bolt/src/session.rs:493-505 | without a living connection all four are FAILURE |
| BoltStatements.OthersSend | bolt/src/session.rs:177-206 | what every other message sends and is answered: RESET in a transaction a ROLLBACK, the last PULL or DISCARD of a write a question for its counts, a query that does not parse its check, and nothing else anything |
| BoltStatements.OthersMoveSession | bolt/src/session.rs:213-251 | only RESET ends the session's transaction without asking, only HELLO gives it a connection, and no other message selects a graph |
| BoltStatements.TransactionKeepsGraph | bolt/src/session.rs:281-299 | over any messages within a transaction that name no graph, every query is on the graph the transaction is on |
| BoltStatements.CountsAskedOnce | bolt/src/session.rs:449-459 | the counts of a write are asked for once, with the summary that says nothing is left of its result, and those of a read never |
| BoltServer.Connection.HandleRun | bolt/src/session.rs:301-411 | the handler of RUN over the session's fields |
| BoltServer.Connection.ExecuteQuery | bolt/src/session.rs:350-381 | BEGIN, settings, query and COMMIT or ROLLBACK over the session's fields, in agreement with the function whose answers `AnswerIsTheDatabases` ties to the database's |
| BoltServer.Connection.HandlePull | bolt/src/session.rs:415-466 | the record loop and the summary |
| BoltServer.Connection.Serve | bolt/src/session.rs:156-176 | the message loop: the session and the replies of every run |
| Traversal.OgReach | engine/src/storage/traverse.rs:80-161 | the level loop returns exactly the nodes at their least depth in range, and the start where the search comes back to it; no node twice |
| Traversal.Expand | engine/src/storage/traverse.rs:80-161 | one level: new nodes, the next frontier and the start met again |
| Traversal.TrailIsRow | engine/sql/access.sql:138-156 | every edge-distinct trail is a row of `og_vlp` |
| Traversal.RowIsTrail | engine/sql/access.sql:138-156 | every row of `og_vlp` is an edge-distinct trail |
| ReachabilityRewrite.ReachIsWalks | engine/src/cypher/compile.rs:1055-1063 | with a minimum of at most 1, `og_reach` returns exactly the ends of walks whose length is in range |
| ReachabilityRewrite.ShortenToTrail | engine/src/cypher/compile.rs:1050-1063 | a walk can be shortened to a trail with the same end |
| ReachabilityRewrite.SafeRewriteAgrees | engine/src/cypher/compile.rs:1064-1075 | where it is safe, both functions return the same nodes on every graph |
| ReachabilityRewrite.RewriteSafeIsExact | engine/src/cypher/compile.rs:1064-1075 | exactly the hops on which they agree on every graph: a minimum of at most 1, and for an undirected hop a minimum of 0 or a maximum below 2 |
| ReachabilityRewrite.LongMinimumFails | engine/src/cypher/compile.rs:1055-1063 | for every minimum from 2 on a graph where the rewrite loses a node |
| ReachabilityRewrite.UndirectedFails | engine/src/cypher/compile.rs:1064-1067 | an undirected hop `*1..k` over one edge: the rewrite returns the start, which no trail reaches |
| ReachabilityRewrite.UndirectedDiffersOnlyAtStart | engine/src/cypher/compile.rs:1064-1067 | the start is the only node such a rewrite adds |
| CypherProjection.AnswerBySet | engine/src/cypher/compile.rs:343-353 | an accepted projection whose columns count nothing answers any two bags with the same rows alike |
| CypherProjection.AnswerBySetIff | engine/src/cypher/compile.rs:343-353 | among accepted projections these are exactly the ones that do |
| CypherProjection.AcceptedPlainIsInsensitive | engine/src/cypher/compile.rs:82-100 | a projection accepted without DISTINCT, with no aggregate where the test does not look, counts nothing |
| CypherAccepted.BlindExactly | engine/src/cypher/compile.rs:82-100 | an expression is accepted exactly if every aggregate seen in it is a minimum, a maximum, or a count or collection of distinct values, and none stands in a CASE or in the arguments of another function |
| CypherAccepted.AggregateExactly | engine/src/cypher/ast.rs:218-237 | `is_aggregate` finds exactly the aggregate calls outside properties, comprehensions, list predicates and map projections |
| CypherProjection.DistinctCountCounts | engine/src/cypher/compile.rs:348-350 | `RETURN DISTINCT count(b)` is accepted, and with SQL's count answers 1 for a row and 2 for the same row twice |
| CypherProjection.BareCountCounts | engine/src/cypher/compile.rs:82-100 | `count(DISTINCT)` without an argument is accepted, becomes `count(*)`, and answers 1 and 2 on the same two bags |
| CypherProjection.HiddenCollectCounts | engine/src/cypher/ast.rs:218-237 | an aggregate inside a list comprehension is not seen, the projection is accepted, and the collected list is as long as the bag |
| CypherSemantics.GroupBySet | engine/src/cypher/compile.rs:521-544 | an expression without counting calls has the same value over any two groups with the same rows |
| HopRewrite.RewritePreservesAnswer | engine/src/cypher/compile.rs:1040-1079 | compiling a safe hop as reachability preserves the answer of the whole query |
| Adjacency.AdjacencyTable.AppendEdge | engine/src/storage/adjacency.rs:19-44 | the edge list of the key grows by one edge at its end; other keys are untouched |
| Adjacency.AdjacencyTable.RemoveEdge | engine/src/storage/adjacency.rs:48-72 | the edge is gone from the list of the key and the others keep their order |
| Adjacency.AdjacencyTable.DegreeOf | engine/src/storage/adjacency.rs:76-85 | the sum of the counts is the number of live edges |
| Adjacency.AppendRefines | engine/src/storage/adjacency.rs:19-44 | filling the tail or opening a new segment appends to the plain list; segments stay numbered, aligned, non-empty and within 256 |
| Adjacency.RemoveRefines | engine/src/storage/adjacency.rs:48-72 | splicing both arrays and dropping an emptied segment removes from the plain list |
| Adjacency.RunRefines | engine/src/storage/adjacency.rs:19-72 | over every sequence of appends and removes with distinct live ids, the segments in order are the insertion-ordered list |
| Adjacency.AppendsPack | engine/src/storage/adjacency.rs:13-15 | edges that are only added fill one segment of 256 after the other |

## Left out

- Labeling.LabelTable.Relabel: label positions are unbounded integers; a 64-bit cursor would need about 2^53 root paths to overflow.
- LabelSets.ResolveLabelSet: the spelling hints for unknown labels are not modelled, only the distance behind them.
- TypeChange.RunKeeps: history tables, which have no key to page on and are rewritten whole on each call, are not modelled; their rows also count as moved and as violations; what a value casts to and its JSON form are parameters.
- TypeChangeJob.Job.Contract: indexes, views, grants and the catalog rows that change with a column are not modelled, and application writes end with the run at contract because the column then has another type.
- RequiredChange.Job.Migrate: which null rows a page takes is the database's choice and a parameter here; that the default's literal casts to the column type is taken for granted.
- UniqueChange.UniqueExactly: values are integers and are compared as such, not through their text.
- Changes to the hierarchy while a schema change is open: the list of tables is fixed for a run.
- The kinds `add_property`, `drop_property`, `rename_property`, `rename_type`, `alter_role`, `add_parent` and `remove_parent`: catalog edits without a backfill; `alter_role` is unguarded between validation and contract in the way `add_unique` is.
- Gateway.ClientThread.Read: whether a statement is the engine's (`is_fabric`) is a verdict that comes with the message; that Terminate is forwarded before the session ends is not modelled.
- DollarQuote.ReadBackExactly: the server's side is the rule of section 4.1.2.4 of the PostgreSQL manual, that a dollar-quoted constant ends where its tag occurs again.
- GatewayClients.PoliteExactly: how many statements of a Query or Execute are a COPY FROM STDIN comes with the message, statements the gateway writes itself have none, and a message that breaks a COPY off is taken to be used up by it, as the protocol's error for it is; that a server may close the connection instead is not modelled.
- GatewayClients.UnrobbedExactly: is about the unnamed prepared statement; the unnamed portal, which a question destroys as well where a transaction kept it open over a Sync, is not modelled.
- GatewaySafety.RunKeeps: bytes, TLS, cancel requests and the startup exchange before the first ReadyForQuery are not modelled; the server starts out owing that one.
- Gateway.RepliesInOrder: is about the ReadyForQuery messages; that rows and notices arrive too, and in the server's order, is `GatewayTraffic.TrafficArrives`, and where the gateway's own refusals fall between notices is not stated.
- BoltStatements.AnswerIsTheDatabases: a statement given to a connection already lost is in the log, though it goes nowhere; how `tx_metadata` becomes a list of settings is not modelled.
- BoltSession.StepAgrees: a connection that dies between two statements is noticed with the next statement, as in the code; a transaction the server ends by itself in between is not modelled.
- BoltServer.Connection.HandleRun: the query text, its parameters, column names and the JSON of its rows are not modelled; records are opaque, and whether the query parses and writes comes with the message.
- The Bolt handshake, authentication, ROUTE's table and the shape of nodes and relationships: no state behind them.
- PackStreamCodec.Writer.Encode: floats are eight opaque bytes, and lengths from 2^32 on, which the four-byte header cuts, are outside `Plain`.
- HopRewrite.RewritePreservesAnswer: `RewriteSafe` and `ColumnsInsensitive` are asked for because the compiler's own tests are too weak, as found above; the estimate that decides whether the rewrite pays (`prefer_reachability`) and temporal relationship types are not modelled.
- CypherProjection.AnswerBySet: `min` and `max` are functions of the set of values, and aggregates inside comprehensions are evaluated over the enclosing group; SQL text, casts and functions are one interpretation among all.
- OPTIONAL MATCH and the placement of joins: a chain of LEFT JOINs is not Cypher's rule, so no equivalence of whole queries is claimed.
- Traversal.OgReach: one list of adjacency entries stands for the scan of a level; relation-type filters select from it beforehand.
- Adjacency.AdjacencyTable.DegreeOf: the total over all relation types (`og_degree_all`) is not modelled.
- Property names and columns, the compiled-plan cache, identifiers, statistics, privileges, RDF, the portal and the agents: plumbing, heuristics or user interface.
