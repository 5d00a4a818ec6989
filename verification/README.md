# Watershed, proved

A Dafny model of the parts of Watershed that have to keep a promise over whole histories, with proofs
that they do. Each module models one component; code that changes state is a class or a method proved
against a specification function, and the promises are proved about that specification.

- **Sort keys** (`SortKey`, `Order`, `Listing`, `Dates`): fractional indexing, digit by digit. A key
  always fits between two neighbours, and a place among siblings becomes a key that puts an object
  exactly there if the keys leave room. Dates are days, and compare as days.
- **Databases** (`DatabaseModel`, `DatabaseOutcomes`, `DatabaseIndex`, `DatabaseWindow`, `DatabaseSorting`,
  `DatabaseOrder`, `DatabaseShown`, `DatabaseInvariants`, `DatabasePage`): a document of fields, rows and
  cells with tombstones, the row index kept beside it, and the row windows answered from it. The document
  alone says which mutations are accepted and what a window shows: which rows, in which order, with which
  cells. After any history of mutations, refusals, failing writes and stores, and reloads, the kept index
  answers every query as one read anew.
- **Pages** (`Pages`): the loop over a stack that lists an area's Page tree, for any parent map,
  cycles included.
- **Policy** (`Policy`, `PolicyCompile`, `PolicyArtifact`, `PolicyCanonical`): the two depth-first
  searches with shared visited sets, the scope validation and the canonical order.
- **Streaming** (`LiveStream`, `Tail`, `Coalesce`): the consumer that chases a producer's committed
  watermark, the polling tail, and the batching of streamed text.
- **Executor** (`Lifecycle`, `Protocol`, `Diagnostic`): the cleanup deadlines, the handshake and the
  readiness line.
- **Store** (`Store`): appended and compacted chunks, and the paged History.
- **Session records** (`Checkpoints`, `Timing`): what the pi extension records of turns and requests.
- **Bridge** (`Codec`, `Bridge`, `Wire`, `Utf8`): the wire format between Rust and Dart, as round trips and
  byte by byte.

Two promises turned out to hold only under a condition, and each has its exact condition and concrete
inputs that fail it.

- An object placed among siblings stands exactly at its place if and only if the keys on both sides of
  the place leave room (`Listing.PlacedExactly`). Two valid keys do if and only if they differ. A key that
  is not valid is passed over, so the new key comes from the other one alone, or is `a0`; there is room if
  and only if what is passed over stands on its side of that new key. Two siblings with one key leave no
  room (`Listing.EqualKeysMisplace`). Next to a key that is not valid the new object can stand before the
  sibling it is to follow (`Listing.InvalidKeyMisplaces`) or after the one it is to precede
  (`Listing.InvalidNextMisplaces`). No history of one device makes such keys
  (`DatabaseInvariants.NewDatabaseStaysWellKept`).
- Decoding undoes encoding if and only if every list and text is shorter than 2^31
  (`Codec.RoundTripsExactly`; `Codec.LongListIsLost` and `Codec.LongTextIsLost`).

A third holds under a condition that is enough for it. Rows sorted by a select field stand in the order of
the field's options if no other field has an option with the same identity (`DatabaseOrder.SortedByValue`).
Options are numbered across all fields, so a shared one takes its later place
(`DatabaseOrder.SharedOptionMisplaces`). No history that draws new identities shares one
(`DatabaseOrder.RunKeepsApart`).

The handlers of `Timing.Extension`, `TailObservation.Record` and `CleanupController.BeginOutputDrain` do
in place what one step of their specification says; the rows below name the lemmas about those steps.

Where a thing is a parameter: the key function is any function that meets the contract proved of
`SortKey.Between`, which stands for it at the end; lower-casing is any function on texts; the acceptance
of a single command policy, the Executor's parsers, encoders and backend, what a pipe answers and what
the core answers are arbitrary functions or values; clocks and waits are explicit times. New
identities, which the code draws from 128 random bits, differ from the ones in use.

## Model

| member | source | states |
|---|---|---|
| SortKey.Integer | liquid/liquid-core/src/sort_key.rs:72-85 | a valid key splits into an integer part and a proper fraction, and lies after the smallest integer |
| SortKey.AddOneLoop | liquid/liquid-core/src/sort_key.rs:87-97 | the digit loop with its carry adds one |
| SortKey.IncrementIsAfter | liquid/liquid-core/src/sort_key.rs:87-110 | the next integer part is a valid key after every key with this integer part, whatever its fraction |
| SortKey.DecrementIsBefore | liquid/liquid-core/src/sort_key.rs:112-135 | the previous integer part, with any fraction, is before this integer; only the smallest has none |
| SortKey.MidpointIsBetween | liquid/liquid-core/src/sort_key.rs:137-165 | the midpoint is a fraction that does not end in 0, strictly between the two given |
| SortKey.KeyBeforeFits | liquid/liquid-core/src/sort_key.rs:33-47 | a valid key before any valid key |
| SortKey.KeyAfterFits | liquid/liquid-core/src/sort_key.rs:48-51 | a valid key after any valid key, also after the largest integer |
| SortKey.KeyInsideFits | liquid/liquid-core/src/sort_key.rs:52-68 | a valid key strictly between any two valid keys in order |
| SortKey.BetweenFits | liquid/liquid-core/src/sort_key.rs:15-28 | for any neighbours, valid or not: a valid key, after the one before if that is valid, and before the one after exactly if the valid neighbours are in order |
| SortKey.BetweenIgnoresInvalid | liquid/liquid-core/src/sort_key.rs:15-28 | a neighbour that is not valid has no say: the key is drawn from the other one alone, or is the first key |
| SortKey.IncrementCounts | liquid/liquid-core/src/sort_key.rs:87-110 | increment moves to the next place in the count of integer parts |
| SortKey.LargestCounts | liquid/liquid-core/src/sort_key.rs:100-107 | only the last integer part has no successor |
| SortKey.AppendedKeysStayShort | liquid/liquid-core/src/sort_key.rs:4-6 | the n-th appended key is the n-th integer part, with as many digits as n needs |
| SortKey.DecrementCounts | liquid/liquid-core/src/sort_key.rs:112-135 | decrement moves one place back in the count before `a0` |
| SortKey.PrependedKeysStayShort | liquid/liquid-core/src/sort_key.rs:4-6 | the n-th prepended key is n places before the first, with as many digits as n needs |
| Order.SortIsStable | liquid/liquid-core/src/database.rs:558-571 | sorting gives a sorted rearrangement that keeps ties in their order |
| Order.StableSortUnique | liquid/liquid-core/src/database.rs:558-571 | there is only one such rearrangement, so any stable sort computes it |
| Dates.ValidDatesAreDays | liquid/liquid-core/src/database.rs:450-475 | exactly the days of the calendar, written `YYYY-MM-DD` as in section 5.6 of RFC 3339 with the day limits of its section 5.7, are valid |
| Dates.RealDays | liquid/liquid-core/src/database.rs:466-475 | a day is real exactly if its month is one of twelve and it is not after the last day that section 5.7 of RFC 3339 gives the month |
| Dates.YearHasDays | liquid/liquid-core/src/database.rs:466-473 | a year has 365 days, or 366 by the leap rule |
| Dates.CalendarRepeats | liquid/liquid-core/src/database.rs:466-475 | the calendar repeats every 400 years, which have 146097 days |
| Dates.DaysFollow | liquid/liquid-core/src/database.rs:466-475 | the day after a real day has the next number, also over the ends of months and years |
| Dates.FormatIsValid | liquid/liquid-core/src/database.rs:450-475 | every day, written out, is valid |
| Dates.DatesCompareAsDays | liquid/liquid-core/src/database.rs:646-652 | valid dates compare as text as their days do in time, and are equal exactly if the days are |
| Listing.ListedHolds | liquid/liquid-core/src/model.rs:201-231 | the listing holds exactly the live objects, ascending by key and then identity |
| Listing.ListedByKeys | liquid/liquid-core/src/model.rs:230-231 | of two listed objects the first has the smaller key, or the same key and the smaller identity |
| Listing.ListedUnique | liquid/liquid-core/src/model.rs:230-231 | an ascending list is determined by what it holds |
| Listing.InsertListed | liquid/liquid-core/src/database.rs:192-198 | inserting at the point that splits the order gives the listing with the new object |
| Listing.RemoveListed | liquid/liquid-core/src/database.rs:200-204 | removing a listed object gives the listing without it |
| Listing.BetweenIsSuitable | liquid/liquid-core/src/sort_key.rs:15-28 | the key function in use meets the contract the placement proofs rest on |
| Listing.PlacedExactly | liquid/liquid-core/src/model.rs:244-261 | whatever keys its siblings have, an object gets a valid key, and is listed exactly at its place if and only if the two keys there leave room |
| Listing.EqualKeysMisplace | liquid/liquid-core/src/model.rs:244-261 | between two siblings with one key nothing can be placed: a concrete case |
| Listing.InvalidKeyMisplaces | liquid/liquid-core/src/sort_key.rs:15-28 | a sibling whose key is not valid counts as the start, and what is placed after it stands before it: a concrete case |
| Listing.InvalidNextMisplaces | liquid/liquid-core/src/sort_key.rs:15-28 | a next sibling whose key is not valid counts as the end, and what is placed before it stands after it: a concrete case |
| Listing.InsertedWhere | liquid/liquid-core/src/model.rs:244-261 | a place means first, last or directly after the sibling named; it means nothing exactly if no sibling has the name |
| Listing.PlacedAmongDistinct | liquid/liquid-core/src/model.rs:244-261 | distinct valid keys always leave room, and stay distinct and valid |
| DatabaseIndex.ReadAgrees | liquid/liquid-core/src/database.rs:154-172 | an index read from the document agrees with it |
| DatabaseIndex.PartitionPointSplits | liquid/liquid-core/src/database.rs:192-198 | the insertion point found is where the row belongs by key and identity |
| DatabaseIndex.InsertKeepsAgreement | liquid/liquid-core/src/database.rs:374-388 | the index after adding a row agrees with the document after adding it |
| DatabaseIndex.RemoveKeepsAgreement | liquid/liquid-core/src/database.rs:394-404 | so after removing a row |
| DatabaseIndex.EncodeDecode | liquid/liquid-core/src/database.rs:406-448 | what is stored for a cell decodes to what the index keeps for it, -0 as 0 |
| DatabaseIndex.SetKeepsAgreement | liquid/liquid-core/src/database.rs:406-448 | so after setting or clearing a cell |
| DatabaseIndex.FieldsKeepAgreement | liquid/liquid-core/src/database.rs:337-345 | fields come, go and gain options without touching the index, though it keeps a removed field's cells |
| DatabaseIndex.CompleteKeepsAgreement | liquid/liquid-core/src/database.rs:274-448 | every mutation that completes, or is refused before it writes, leaves document and index in agreement |
| DatabaseIndex.FailedKeepsIndex | liquid/liquid-core/src/database.rs:375-448 | a mutation whose k-th document write fails, for any k, has not touched the index |
| DatabaseIndex.WriteKeepsAgreement | liquid/liquid-core/src/workspace.rs:118-130 | whichever document write fails, rolling the document back brings it and the index in agreement again; without a failure they are |
| DatabaseIndex.FailedRowDisagrees | liquid/liquid-core/src/database.rs:384-387 | rolling back is needed: a row whose last write failed is live in the document and not in the index |
| DatabaseIndex.NoChangeKeepsIndex | liquid/liquid-core/src/workspace.rs:131-142 | a mutation that stores what is stored already leaves the index unchanged, too |
| DatabaseIndex.OthersChange | liquid/liquid-core/src/workspace.rs:131-142 | only setting a cell can be such a mutation |
| DatabaseIndex.RefusedChangesNothing | liquid/liquid-core/src/workspace.rs:116-160 | a refused mutation leaves the document and a loaded index as they were, whatever it had written before |
| DatabaseIndex.StepKeepsConsistency | liquid/liquid-core/src/workspace.rs:116-160 | each mutation, with any failing document write or store, and each query and reload keeps the index in agreement |
| DatabaseIndex.RunKeepsConsistency | liquid/liquid-core/src/workspace.rs:249-263 | so does every history |
| DatabaseIndex.StepRefinesRebuilding | liquid/liquid-core/src/workspace.rs:249-263 | a mutation does and answers what it would with an index read anew |
| DatabaseIndex.RunRefinesRebuilding | liquid/liquid-core/src/workspace.rs:249-263 | no history writes another document because the index is kept |
| DatabaseOutcomes.Outcome | liquid/liquid-core/src/database.rs:274-448 | for every mutation, whether it is accepted, and else which error it gets, from the document alone: what must be live, what each kind holds, 500 fields and options; then failing writes, values already there and a failing store |
| DatabaseOutcomes.HeldIsEncoded | liquid/liquid-core/src/database.rs:415-438 | exactly the values of a field's kind are stored: finite numbers, days that exist, live options |
| DatabaseOutcomes.CellIsSet | liquid/liquid-core/src/database.rs:406-448 | an accepted value is read back from its cell, -0 as 0, and nothing else changes |
| DatabaseOutcomes.RowIsAdded | liquid/liquid-core/src/database.rs:374-388 | a new row is live and has no cells; all other rows stay |
| DatabaseOutcomes.RowIsRemoved | liquid/liquid-core/src/database.rs:394-404 | a removed row is not live; all others keep keys and cells |
| DatabaseOutcomes.FieldIsAdded | liquid/liquid-core/src/database.rs:274-319 | a new field has its kind, no options and no cells; all others stay |
| DatabaseOutcomes.FieldIsRemoved | liquid/liquid-core/src/database.rs:337-345 | a removed field shows no cells; all others stay |
| DatabaseOutcomes.OptionIsAdded | liquid/liquid-core/src/database.rs:347-372 | a new option is live in its field; all cells and other options stay |
| DatabaseOutcomes.BlockIsRemoved | liquid/liquid-core/src/workspace.rs:560-578 | after a Block was removed every mutation of it is refused |
| DatabaseWindow.ShownFieldsHold | liquid/liquid-core/src/database.rs:478-518 | a window shows exactly the live fields of a known kind |
| DatabaseWindow.HasPartSomewhere | liquid/liquid-core/src/database.rs:639-641 | a text contains a part if and only if the part stands at some position in it |
| DatabaseWindow.AgreeingIndexesShowTheSame | liquid/liquid-core/src/database.rs:525-601 | indexes that agree with a document show one window for every query, whatever stale cells they keep |
| DatabaseWindow.KeptIndexAnswersAsRebuilt | liquid/liquid-core/src/database.rs:525-601 | after every history every query is answered as by a document that was always read anew |
| DatabaseSorting.CompareTotal | liquid/liquid-core/src/database.rs:647-659 | on one field's cells the comparison is total, and swapping the cells reverses it |
| DatabaseSorting.CompareTransitive | liquid/liquid-core/src/database.rs:647-659 | and transitive |
| DatabaseSorting.CellsOfOneKind | liquid/liquid-core/src/database.rs:603-630 | every cell shown of a field is of the field's kind |
| DatabaseSorting.RowOrderingIsPreorder | liquid/liquid-core/src/database.rs:550-572 | the order on rows, ascending or descending, is a total preorder |
| DatabaseSorting.MatchingRowsOrdered | liquid/liquid-core/src/database.rs:542-572 | so on the matching rows of any agreeing index and any query |
| DatabaseSorting.WindowIsCutOfStableSort | liquid/liquid-core/src/database.rs:525-581 | a sorted window is the slice of whatever stable sort of the matching rows there is, and counts them all |
| DatabaseSorting.StableSortExists | liquid/liquid-core/src/database.rs:550-572 | there is one |
| DatabaseSorting.EmptyCellsLast | liquid/liquid-core/src/database.rs:559-571 | rows with an empty cell come last in both directions |
| DatabaseSorting.DatesSortAsDays | liquid/liquid-core/src/database.rs:647-659 | two valid date cells compare as their days in time |
| DatabaseSorting.DateCellIsDay | liquid/liquid-core/src/database.rs:603-630 | every cell shown of a date field names a day that exists |
| DatabaseSorting.SortedDatesInTime | liquid/liquid-core/src/database.rs:550-572 | rows sorted by a date field stand in the order of their days, or against it if descending |
| DatabaseSorting.HistoryKeepsDays | liquid/liquid-core/src/database.rs:253-448 | every history of a new Database keeps what that needs: days that exist and an index in agreement |
| DatabaseSorting.PlainWindow | liquid/liquid-core/src/database.rs:534-581 | the fast path without filter and sort answers as the general path |
| DatabaseSorting.WindowsTile | liquid/liquid-core/src/database.rs:573-580 | consecutive windows of any positive size give all rows, none twice, in order |
| DatabaseOrder.CompareMeans | liquid/liquid-core/src/database.rs:645-659 | comparing two cells of a field means: lower-cased texts as texts, numbers on the line, dates as days, a box by whether it is ticked, an option by its place in the field |
| DatabaseOrder.SortedByValue | liquid/liquid-core/src/database.rs:550-572 | sorted rows stand in that order of their stored cells, or against it if descending, with empty cells last either way |
| DatabaseOrder.SharedOptionMisplaces | liquid/liquid-core/src/database.rs:551-557 | an option identity shared by two fields stands at its later place: a concrete case |
| DatabaseOrder.RunKeepsApart | liquid/liquid-core/src/database.rs:347-448 | every history that draws new identities keeps options apart and select cells in their own field's |
| DatabaseShown.MatchesPasses | liquid/liquid-core/src/database.rs:632-644 | a filter means: the cell is empty, or not, or equals a value, numbers by value, or holds a part of text without case |
| DatabaseShown.MatchingIsPassing | liquid/liquid-core/src/database.rs:542-549 | a filter keeps exactly the live rows whose stored cell it means, in row order |
| DatabaseShown.ArrangedInOrder | liquid/liquid-core/src/database.rs:550-572 | of any two rows the first has the value that comes first, and by key and identity where values tie |
| DatabaseShown.RowIsShown | liquid/liquid-core/src/database.rs:583-594 | a shown row has exactly its stored cells of shown fields, each once, by field |
| DatabaseShown.WindowShows | liquid/liquid-core/src/database.rs:520-581 | a window counts exactly the rows that pass and shows the ones asked for, in this order and with these cells; none of a removed Block |
| DatabaseShown.HistoryShows | liquid/liquid-core/src/workspace.rs:249-263 | so does every answer of a new Database after any history |
| DatabaseInvariants.PlacedKeepsRoom | liquid/liquid-core/src/model.rs:244-261 | an object placed among distinct valid keys stands at its place and leaves room again |
| DatabaseInvariants.RunKeepsWellKept | liquid/liquid-core/src/database.rs:274-448 | every history keeps live keys valid and strictly increasing, at every level, and date cells days that exist |
| DatabaseInvariants.NewDocIsWellKept | liquid/liquid-core/src/database.rs:253-272 | a new Database starts so |
| DatabaseInvariants.NewDatabaseStaysWellKept | liquid/liquid-core/src/database.rs:253-448 | so a new Database stays so, with the key function in use |
| DatabaseInvariants.RowLandsAtItsPlace | liquid/liquid-core/src/database.rs:374-388 | an added row stands first, last or directly after the row named, as asked, and the other rows keep their order |
| DatabaseInvariants.FieldLandsAtItsPlace | liquid/liquid-core/src/database.rs:274-319 | so does an added field, with its kind |
| DatabaseInvariants.OptionLandsLast | liquid/liquid-core/src/database.rs:347-372 | an added option joins its field's others at their end |
| DatabasePage.Index.constructor | liquid/liquid-core/src/database.rs:154-172 | a new index agrees with the document |
| DatabasePage.Index.KeyAt | liquid/liquid-core/src/database.rs:179-190 | the key of a place among the rows; none exactly if it names a row that is not there |
| DatabasePage.Index.Insert | liquid/liquid-core/src/database.rs:192-198 | binary search inserts where the specification's linear search does |
| DatabasePage.Index.Remove | liquid/liquid-core/src/database.rs:200-204 | keeps the index in agreement with a document that drops the row |
| DatabasePage.Index.Set | liquid/liquid-core/src/database.rs:206-215 | keeps the index in agreement with a document that stores the cell |
| DatabasePage.Page.NeedIndex | liquid/liquid-core/src/workspace.rs:249-263 | reads the index once, when it is first needed |
| DatabasePage.Page.InsertRow | liquid/liquid-core/src/model.rs:123-136 | four writes, in place, make the new row; a failing one leaves exactly the writes before it |
| DatabasePage.Page.InsertField | liquid/liquid-core/src/database.rs:292-298 | six writes make the new field, likewise |
| DatabasePage.Page.InsertOption | liquid/liquid-core/src/model.rs:123-136 | five writes make the new option, likewise |
| DatabasePage.Page.StoreCell | liquid/liquid-core/src/database.rs:415-446 | puts or deletes a stored cell, and writes nothing to clear an empty one |
| DatabasePage.Page.AddRow | liquid/liquid-core/src/database.rs:374-388 | document and index in place do what the specification does, the index last, and agree unless a document write failed |
| DatabasePage.Page.RemoveRow | liquid/liquid-core/src/database.rs:394-404 | likewise |
| DatabasePage.Page.SetCell | liquid/liquid-core/src/database.rs:406-448 | likewise |
| DatabasePage.Page.AddField | liquid/liquid-core/src/database.rs:274-319 | likewise, with the limit and the place, and the index untouched |
| DatabasePage.Page.RemoveField | liquid/liquid-core/src/database.rs:337-345 | likewise |
| DatabasePage.Page.AddOption | liquid/liquid-core/src/database.rs:347-372 | likewise |
| DatabasePage.Page.RemoveBlock | liquid/liquid-core/src/workspace.rs:560-578 | likewise, after the View was marked |
| DatabasePage.Page.Apply | liquid/liquid-core/src/workspace.rs:116-160 | the pipeline with its rollback and its dropped documents does what the specification does; after any refusal the document is as it was and agrees with the index |
| Pages.Gather | liquid/liquid-core/src/model.rs:275-281 | one pass gathers each parent's children in sibling order |
| Pages.ListPages | liquid/liquid-core/src/model.rs:275-296 | for any parent map the loop ends, lists the recursive sorted preorder and lists no Page twice |
| Pages.ListedIffRooted | liquid/liquid-core/src/model.rs:275-296 | a live Page is listed, with its own title and parent, if and only if its live parents lead to a root; cycles and Pages under removed ones are hidden |
| Pages.TreeIsBelow | liquid/liquid-core/src/model.rs:275-296 | a listed Page's tree is exactly what is below it |
| Pages.DescendantsFollow | liquid/liquid-core/src/model.rs:275-296 | a listed Page is followed at once by everything below it, in one block |
| Pages.SiblingsInOrder | liquid/liquid-core/src/model.rs:275-296 | listed Pages of one parent stand in the order of their sort keys, then identities |
| PolicyCompile.Collector.CollectPhase | core/core-policy/src/compile.rs:131-157 | for any graph the search ends; what it newly visits is reachable, and all children of that are visited |
| PolicyCompile.Collector.CollectTools | core/core-policy/src/compile.rs:142-149 | a visited phase is recorded with exactly its own tools |
| PolicyCompile.Collector.CollectFlowPhases | core/core-policy/src/compile.rs:109-114 | all phases of a flow are visited, and only what they reach |
| PolicyCompile.Collector.CollectFlow | core/core-policy/src/compile.rs:97-129 | so for a flow with its subflows, flows still being visited included |
| PolicyCompile.Collector.Scopes | core/core-policy/src/compile.rs:73-79 | the recorded phases in identity order, each with its tools in order |
| PolicyCompile.VisitedIsScope | core/core-policy/src/compile.rs:50-61 | what such a search visits from nothing is exactly what reachability defines |
| PolicyCompile.CommandCarries | core/core-policy/src/compile.rs:159-205 | a tool has a command exactly if it names one of three trusted commands or is a script; the command carries its parameters, kind, identity and arguments, the registry's executable or the shell runner, and no environment |
| PolicyCompile.EntriesAreScope | core/core-policy/src/compile.rs:73-79 | the scope lists the reachable phases once and in order, each with exactly its tools in order |
| PolicyCompile.BuildCommands | core/core-policy/src/compile.rs:63-69 | the commands are those of the collected tools, in order; none if a tool has none |
| PolicyCompile.AcceptAll | core/core-policy/src/artifact.rs:36-38 | succeeds exactly if every command is accepted |
| PolicyCompile.Compile | core/core-policy/src/compile.rs:43-95 | succeeds exactly if the flow exists, every tool in its scope can be run and what it would run with is accepted; the artifact then has exactly these commands and scopes, the version, the timeout and the flow |
| PolicyArtifact.FindDuplicate | core/core-policy/src/artifact.rs:45-53 | finds an identity twice there, or that there is none |
| PolicyArtifact.CheckPhase | core/core-policy/src/artifact.rs:64-79 | a phase passes exactly if its tools are known and distinct; an error names a real fault |
| PolicyArtifact.ValidatePhaseScope | core/core-policy/src/artifact.rs:44-91 | succeeds if and only if commands and phases are distinct, no phase repeats a tool and the phases' tools are the commands |
| PolicyArtifact.CompiledScopeIsValid | core/core-policy/src/compile.rs:63-93 | every compiled artifact is valid so |
| PolicyArtifact.ReferenceOrderIrrelevant | core/core-policy/src/compile.rs:50-157 | the order and repetition of references decide nothing but the timeout |
| PolicyCanonical.CanonicalOrder | core/core-policy/src/artifact.rs:207-224 | sorting in place gives the specified canonical order at every level |
| PolicyCanonical.CanonicalAscends | core/core-policy/src/artifact.rs:207-224 | commands ascend by tool, parameters by name, phases by identity, and texts as texts |
| PolicyCanonical.CanonicalSameButOrder | core/core-policy/src/artifact.rs:207-224 | canonical order keeps the elements at every level |
| PolicyCanonical.CanonicalIdempotent | core/core-policy/src/artifact.rs:207-224 | and is final |
| PolicyCanonical.CanonicalIsUnique | core/core-policy/src/artifact.rs:207-224 | valid artifacts with unique parameter names that differ in order only have one canonical form |
| PolicyCanonical.CanonicalKeepsValidity | core/core-policy/src/artifact.rs:207-224 | an artifact is valid exactly if its canonical form is |
| LiveStream.WriteEvents | flow-agent/flow-agent-cli/src/streaming.rs:151-190 | writes the visited events in order up to a broken pipe or a failure, and moves the cursor past what it visited |
| LiveStream.ChannelKept | flow-agent/flow-agent-core/src/runtime/live_events.rs:81-147 | a wake-up in flight names a committed event below the watermark, and the first one sent is the first one received |
| LiveStream.WakeKept | flow-agent/flow-agent-core/src/runtime/live_events.rs:100-112 | no wake-up is lost: with none queued, a waiting consumer has drained everything a wake-up was sent for |
| LiveStream.StepKeepsInvariant | flow-agent/flow-agent-cli/src/streaming.rs:58-149 | every step of producer and consumer keeps what was written and what is pending in order |
| LiveStream.BehaviorKeepsInvariant | flow-agent/flow-agent-cli/src/streaming.rs:58-149 | so does every schedule of them |
| LiveStream.NothingPending | flow-agent/flow-agent-cli/src/streaming.rs:58-149 | at any time, a consumer that waits with no wake-up queued has written every event, from the first one named, that a notification was sent for |
| LiveStream.ExactlyOnceInOrder | flow-agent/flow-agent-cli/src/streaming.rs:58-149 | when the stream has ended, every committed event from the first one named through the watermark was written once and in order; with a broken pipe, a beginning of that |
| Tail.ObserveAllFlags | flow-agent/flow-agent-cli/src/tail.rs:122-147 | the failed flag says whether a failure was observed, the terminal flag whether an end was |
| Tail.LastOnesTell | flow-agent/flow-agent-cli/src/tail.rs:122-147 | the reason is the last failure's, and each error code has its last message |
| Tail.AfterPrefix | flow-agent/flow-agent-cli/src/tail.rs:94-112 | a read after the last event seen visits exactly what was added |
| Tail.Visit | flow-agent/flow-agent-cli/src/tail.rs:94-112 | writes while the output is open and observes every event, also once it is closed |
| Tail.Poll | flow-agent/flow-agent-cli/src/tail.rs:51-61 | one read catches up with the log, in output, cursor and observation |
| Tail.Nap | flow-agent/flow-agent-cli/src/tail.rs:86-90 | a nap lasts its interval or until the time is up, and longer only by what the clock takes before and after the wait |
| Tail.Finish | flow-agent/flow-agent-cli/src/tail.rs:69-84 | the last read verifies the whole log and decides the flag |
| Tail.CursorMoves | flow-agent/flow-agent-cli/src/tail.rs:59-61 | the cursor moves exactly if a read finds new events |
| Tail.Read | flow-agent/flow-agent-cli/src/tail.rs:51-61 | the interval after a read is the first one if it found new events, else the one due |
| Tail.Interval | flow-agent/flow-agent-cli/src/tail.rs:15-16 | every interval is between 25 ms and 1 s |
| Tail.QuietReadsDouble | flow-agent/flow-agent-cli/src/tail.rs:90-90 | while nothing new comes, the k-th interval is the first doubled k times, up to 1 s |
| Tail.Round | flow-agent/flow-agent-cli/src/tail.rs:50-91 | one round ends with the verdict or naps exactly the interval its reads give |
| Tail.Follow | flow-agent/flow-agent-cli/src/tail.rs:50-91 | a round of the loop ends with everything the command promises, or keeps what the loop knows of output, cursor, observation, time and naps |
| Tail.TailCommand | flow-agent/flow-agent-cli/src/tail.rs:36-92 | the failure flag says whether the verified log holds a failure, however it came in and whether or not the output broke; a timeout bounds the polls; every nap has exactly the interval that the reads before it give |
| Coalesce.Batch.Push | liquid/liquid-bridge/src/stream.rs:10-21 | a batch with one event per maximal run of what was pushed, and exactly its text, stays one |
| Coalesce.Batch.Gather | liquid/liquid-bridge/src/stream.rs:29-52 | takes a beginning of the channel: deltas, and at most one other event at its end; stops only at such an event, the window or the channel's end; the batch stays one event per maximal run |
| Coalesce.RunsAreMaximal | liquid/liquid-bridge/src/stream.rs:8-9 | the specification splits any events into maximal runs of one text |
| Coalesce.CoalescedIsRuns | liquid/liquid-bridge/src/stream.rs:8-21 | a batch is one event per maximal run with exactly its text, all other events as they came |
| Coalesce.TwoCoalesce | liquid/liquid-bridge/src/stream.rs:10-21 | two events become one exactly if both are content of one item, or of none, with text; it is the first with both texts |
| Coalesce.CoalescedTwice | liquid/liquid-bridge/src/stream.rs:10-21 | what was coalesced once does not change any more |
| Coalesce.SplitAnywhere | liquid/liquid-bridge/src/stream.rs:10-21 | splitting the events anywhere and pushing the second part's batch onto the first gives the same batch |
| Store.DocumentStores | liquid/liquid-core/src/workspace.rs:624-633 | a commit adds exactly its change to what the chunks replay, as one more chunk or, from 1000 chunks on, as the only one, and memory goes along |
| Store.CommitKeeps | liquid/liquid-core/src/workspace.rs:613-635 | committing any touched documents keeps memory in agreement with the store |
| Store.CommitStores | liquid/liquid-core/src/workspace.rs:613-635 | each touched document with pending writes gains its change once, others nothing |
| Store.DroppedKeeps | liquid/liquid-core/src/workspace.rs:636-641 | dropping the touched documents after a failed commit is enough to agree with the store again |
| Store.StepKeeps | liquid/liquid-core/src/workspace.rs:265-281 | loading, writing, rolling back and recording keep that agreement |
| Store.RunReplays | liquid/liquid-core/src/store.rs:17-33 | after every history, replaying a document's chunks gives all its committed changes in order, from at most 1000 chunks: compaction refines append-only storage |
| Store.EditIsStored | liquid/liquid-core/src/workspace.rs:590-643 | a change to a document that exists is stored after all earlier ones when an Action that touches it is recorded, and the Action with it |
| Store.NewIsStored | liquid/liquid-core/src/workspace.rs:590-643 | a new document is stored with its first change |
| Store.FailureStoresNothing | liquid/liquid-core/src/workspace.rs:636-641 | if the store fails nothing is recorded, and the document is read again as it is stored |
| Store.RolledBackIsForgotten | liquid/liquid-core/src/workspace.rs:581-585 | a change that is rolled back is not stored |
| Store.ActionsAreRecorded | liquid/liquid-core/src/store.rs:61-77 | after every history the Actions are those whose recording did not fail, in order |
| Store.MemoryStore.Commit | liquid/liquid-core/src/store.rs:61-77 | applies all writes in order and records the Action last |
| Store.Workspace.Doc | liquid/liquid-core/src/workspace.rs:265-281 | loads a document once; one never stored is not found |
| Store.Workspace.RecordAction | liquid/liquid-core/src/workspace.rs:590-643 | commits, compacts, writes and, on failure, drops as the specification says |
| Store.PageIsKnown | liquid/liquid-core/src/store.rs:79-87 | a page can be had exactly if the Action it is to start before is known |
| Store.NextPage | liquid/liquid-core/src/store.rs:79-94 | a page has as many Actions as the limit allows and there are, the ones recorded last; its last Action starts the next page just below it |
| Store.PagingListsAll | liquid/liquid-core/src/store.rs:79-94 | paging with any positive limit lists every Action once, newest first |
| Store.PageStays | liquid/liquid-core/src/store.rs:79-94 | a page before a known Action stays the same, whatever is recorded later |
| Store.PagingListsAllThere | liquid/liquid-core/src/store.rs:79-94 | paging lists every Action there at the first page once, newest first, however many are recorded between pages |
| Lifecycle.CleanupController.Advance | flow-agent/flow-agent-executor/src/lifecycle.rs:31-66 | up to the first terminal action, each answer is exactly the one that the polls so far deserve |
| Lifecycle.StateTells | flow-agent/flow-agent-executor/src/lifecycle.rs:12-21 | phase and deadline say what was seen so far: no cleanup, grace over, or cleanup first seen |
| Lifecycle.ActionsExactly | flow-agent/flow-agent-executor/src/lifecycle.rs:31-66 | so in every run: exactly when each action comes, in terms of the polls alone |
| Lifecycle.KilledAtMostOnce | flow-agent/flow-agent-executor/src/lifecycle.rs:37-44 | at most one force-kill, never before the grace is over |
| Lifecycle.EndsInTime | flow-agent/flow-agent-executor/src/lifecycle.rs:24-66 | with polls at most d apart a terminal action comes within the three deadlines and 3d |
| Protocol.TakeLine | flow-agent/flow-agent-executor/src/protocol.rs:166-182 | takes the first line if it is within the limit, else one byte more than the limit; no byte is lost |
| Protocol.TakeAll | flow-agent/flow-agent-executor/src/protocol.rs:184-195 | takes everything within the limit, else one byte more; no byte is lost |
| Protocol.Session.ReadDocument | flow-agent/flow-agent-executor/src/protocol.rs:166-182 | succeeds exactly if the line ends within the limit before the input fails, and leaves what follows it |
| Protocol.Session.ReadToEnd | flow-agent/flow-agent-executor/src/protocol.rs:184-195 | succeeds exactly if the input ends, within the limit |
| Protocol.Session.Send | flow-agent/flow-agent-executor/src/protocol.rs:149-164 | a document is written and flushed as far as that goes, and succeeds exactly if both did |
| Protocol.Session.WritePreflight | flow-agent/flow-agent-executor/src/protocol.rs:156-164 | so is a preflight document, and nothing if it could not be made |
| Protocol.Session.RunTool | flow-agent/flow-agent-executor/src/protocol.rs:146-153 | the tool runs once, and exactly its response follows, written and flushed as far as that goes |
| Protocol.Session.CompletePreflight | flow-agent/flow-agent-executor/src/protocol.rs:131-154 | the tool runs if and only if Ready was written and flushed and the rest is one accepted Start within its limit; it runs once, after them, and only its response follows; else only Ready was written |
| Protocol.Session.Answer | flow-agent/flow-agent-executor/src/protocol.rs:106-119 | a refused request gets exactly its refusal, a ready one Ready and what Start brings, one whose preflight failed nothing |
| Protocol.Session.ExecuteRequest | flow-agent/flow-agent-executor/src/protocol.rs:106-119 | for any input and any failures: one dispatch, of the first line's request, exactly under these conditions; otherwise none, and every byte is read or left; exactly what is written in each case; success exactly if the refusal or the response was written and flushed |
| Diagnostic.NormalisedIsTidy | flow-agent/flow-agent-executor/src/protocol.rs:77-96 | the normalised reason has no leading, trailing or doubled space, no other blank, and keeps every other character in order |
| Diagnostic.TidyUnchanged | flow-agent/flow-agent-executor/src/protocol.rs:77-96 | a text like that is left alone |
| Diagnostic.BlankSeparates | flow-agent/flow-agent-executor/src/protocol.rs:77-96 | a blank of any kind between two texts becomes one space between their words |
| Diagnostic.BytesAreUtf8 | flow-agent/flow-agent-executor/src/protocol.rs:86-90 | what is counted are the bytes in UTF-8 |
| Diagnostic.Content | flow-agent/flow-agent-executor/src/protocol.rs:77-96 | the content is the longest beginning of the normalised reason that fits and does not end in a space |
| Diagnostic.ReadinessDiagnostic | flow-agent/flow-agent-executor/src/protocol.rs:77-104 | one line of at most 1024 bytes with the longest content that such a line can have, or "unavailable" exactly if the reason is blank |
| Codec.IntRoundTrip | liquid/liquid-bridge/src/frb_generated.rs:10596-10608 | a two's complement number of any width comes back, in either byte order |
| Codec.ReadInRange | liquid/liquid-bridge/src/frb_generated.rs:5524-5536 | what is read of k bytes is a number of k bytes |
| Utf8.ValidExactly | liquid/liquid-bridge/src/frb_generated.rs:3733-3739 | exactly the bytes of texts, by section 3 of RFC 3629, are read as text |
| Wire.IntBytes | liquid/liquid-bridge/src/frb_generated.rs:10596-10608 | a number is its digits to the base 256, also below zero, lowest first or last |
| Wire.LengthBytes | liquid/liquid-bridge/src/frb_generated.rs:10890-10897 | a length is four such bytes |
| Wire.VariantBytes | liquid/liquid-bridge/src/frb_generated.rs:9889-9919 | a variant is its number in four bytes |
| Wire.MutationKindsNumbered | liquid/liquid-bridge/src/frb_generated.rs:9889-9919 | mutation kinds are numbered from 0 in the order of their declaration, on both sides |
| Wire.VariantsNumbered | liquid/liquid-bridge/src/frb_generated.rs:10371-10388 | so are styles, field and cell kinds, matches, query and entry kinds |
| Wire.TagsRead | liquid/liquid-bridge/src/frb_generated.rs:3741-3746 | any byte but 0 is read as a set flag or tag, and a number no variant has is not read |
| Wire.ListBytes | liquid/liquid-bridge/src/frb_generated.rs:10610-10618 | a list is its length and then its items, one after the other |
| Wire.StructBytes | liquid/liquid-bridge/src/frb_generated.rs:9864-9887 | a struct is its parts, one after the other |
| Codec.TextRoundTrip | liquid/liquid-bridge/src/frb_generated.rs:9254-9259 | a text shorter than 2^31 bytes comes back with exactly what follows |
| Codec.ItemsRoundTrip | liquid/liquid-bridge/src/frb_generated.rs:10610-10618 | so do a list's items |
| Codec.PartsRoundTrip | liquid/liquid-bridge/src/frb_generated.rs:9864-9887 | so do a struct's parts |
| Codec.RoundTrip | liquid/liquid-bridge/src/frb_generated.rs:9254-10908 | so does every value of every type made of them |
| Codec.DecodedIsShort | liquid/liquid-bridge/src/frb_generated.rs:3733-5937 | whatever is decoded is a value of the type with lists and texts shorter than 2^31 |
| Codec.RoundTripsExactly | liquid/liquid-bridge/src/frb_generated.rs:10610-10618 | a value comes back if and only if all its lists and texts are shorter than 2^31 |
| Codec.LongListIsLost | liquid/liquid-bridge/src/frb_generated.rs:10610-10618 | a list of 2^31 texts does not come back: a concrete case |
| Codec.LongTextIsLost | liquid/liquid-bridge/src/frb_generated.rs:9254-9259 | neither does a text of 2^31 letters, or of any more |
| Codec.Serializer.Write | liquid/liquid-bridge/src/frb_generated.rs:9864-9887 | the cursor's bytes grow by exactly the encoding |
| Codec.Serializer.WritePrimitive | liquid/liquid-bridge/src/frb_generated.rs:9254-9266 | so they do for flags, numbers, texts and variants |
| Codec.Serializer.WriteItems | liquid/liquid-bridge/src/frb_generated.rs:10610-10618 | so they do for a list's items |
| Codec.Serializer.WriteParts | liquid/liquid-bridge/src/frb_generated.rs:9864-9887 | and for a struct's parts |
| Codec.Deserializer.Read | liquid/liquid-bridge/src/frb_generated.rs:4509-4553 | the cursor reads what decoding defines, and stops right after it |
| Codec.Deserializer.ReadPrimitive | liquid/liquid-bridge/src/frb_generated.rs:3733-3746 | likewise for flags, numbers, texts and variants, which fail on unknown numbers and bad UTF-8 |
| Codec.Deserializer.ReadList | liquid/liquid-bridge/src/frb_generated.rs:5538-5548 | likewise for lists |
| Codec.Deserializer.ReadItems | liquid/liquid-bridge/src/frb_generated.rs:5538-5548 | likewise for their items, until one cannot be read |
| Codec.Deserializer.ReadStruct | liquid/liquid-bridge/src/frb_generated.rs:4509-4553 | likewise for structs |
| Bridge.MutationRoundTrip | liquid/liquid-bridge/src/frb_generated.rs:9864-9919 | a mutation comes back with all its eighteen parts, and exactly the bytes that follow |
| Bridge.QueryRoundTrip | liquid/liquid-bridge/src/frb_generated.rs:10100-10131 | so does a query |
| Bridge.TreeNodeRoundTrip | liquid/liquid-bridge/src/frb_generated.rs:10437-10448 | so does a tree node |
| Wire.CellIs | liquid/liquid-bridge/src/frb_generated.rs:9369-9377 | the bytes of a cell: kind, optional text, number and flag |
| Wire.MutationBytes | liquid/liquid-bridge/src/frb_generated.rs:9864-9887 | the bytes of a mutation: its eighteen parts in the order of its fields |
| Wire.QueryBytes | liquid/liquid-bridge/src/frb_generated.rs:10100-10112 | the bytes of a query: its eight parts in order |
| Wire.TreeNodeBytes | liquid/liquid-bridge/src/frb_generated.rs:10437-10448 | the bytes of a tree node: its seven parts in order |
| Checkpoints.Extension.Checkpoint | meta-harness/pi-extension/watershed.ts:87-113 | stores what the core answered for the running turn, and says whether it may run |
| Checkpoints.Extension.OnBeforeAgentStart | meta-harness/pi-extension/watershed.ts:114-131 | a turn runs exactly if the core allows it, else it is aborted with the reason |
| Checkpoints.Extension.OnAgentSettled | meta-harness/pi-extension/watershed.ts:132-137 | stores the end and forgets the turn, unless the dialog fails |
| Checkpoints.TraceKeeps | meta-harness/pi-extension/watershed.ts:84-137 | in every trace a turn has at most one start and one end entry, in this order and of one session; a start entry exactly if the core answered, an end entry only if it allowed the run |
| Checkpoints.EntriesAnswered | meta-harness/pi-extension/watershed.ts:87-113 | in every trace each entry has the error, or else the counts, that the core answered to one event |
| Checkpoints.TurnIsRecorded | meta-harness/pi-extension/watershed.ts:84-137 | a turn that starts and settles stores exactly its two entries with what was answered, one that may not run its start and an abort with the reason |
| Checkpoints.FailureRecordsNothing | meta-harness/pi-extension/watershed.ts:114-137 | a failing dialog records nothing: it aborts the start with its message, and leaves an ending turn running |
| Timing.FirstDeltaIsFirst | meta-harness/pi-extension/watershed.ts:155-160 | the first content is the first update that carries some, however many follow |
| Timing.TimesInOrder | meta-harness/pi-extension/watershed.ts:144-172 | in every trace under a monotone clock, 0 <= first-token time <= duration |
| Timing.RequestIsTimed | meta-harness/pi-extension/watershed.ts:144-172 | a response stores one entry: the whole milliseconds nearest to the time from its turn's start, or its own without one, to its first content, if any, and to its end |
| Timing.OthersStoreNothing | meta-harness/pi-extension/watershed.ts:144-172 | no other event stores an entry, and messages that are no response change nothing |

## Left out

- Automerge: merging, change encoding and concurrent devices; the model is one replica, whose documents
  are maps with tombstones and whose changes are numbered.
- Live objects without a sort key: the model's live objects have the key they were written with.
- Names, colours and renaming of Databases, fields and options: they would only add easy members.
- The View order of a Page and the Text Block mutations.
- Unicode case folding (a function parameter) and the bit patterns of floating-point cells: they hold a
  real number, a signed zero, an infinity or the one value that is not a number.
- `CommandPolicy::validate` (a predicate parameter) and error message texts of the policy compiler.
- JSON of artifacts, events and protocol documents: the model has the values or the bytes.
- The session event reader: visiting is reading the committed log after a cursor through a watermark.
- The tail's human-readable status and its exit texts.
- Executor backends, argument handling and the probe document; running a tool is one event.
- The live channel's session names: the model has one run's channel.
- The bridge's handles, stream sinks, generated wire functions and enums with fields.
- Approvals, `writesTo` and branching in the pi extension.
- Floating-point rounding of times: the model's times are real numbers.
- DatabaseOrder.SortedByValue: requires that the sorted field's options are no other field's; which shared
  identities still sort in order is not stated.
- Coalesce.Batch.Gather: the window is how many events arrive before it passes, not a length of time.
