# Verified core of the trading tools

Dafny models of the parts of the repository where a subtle mistake would go unnoticed: the
hand-written JSON scanner and the dashboard's JSON and event-stream printers, the bounded ring of
dashboard events and the readers that poll it, the ledger that follows chain reorganisations, the
chunked block backfill, the raw-log format with its capture step and its validator, and the stream
summaries that stand in for something simpler (slowest packets, order-flow window, order-book
cache, time-decayed basis, hash chain, best-decision choice).

Imperative code is modelled by methods with loops and by classes that update their fields; each is
proved against a function or a predicate, and the theorems are about those, for every input or
every run. `dafny verify dfyconfig.toml` checks everything.

| file | what it models |
|---|---|
| `JsonGrammar`, `JsonParser`, `EventSchemas`, `TextScanner`, `ScannerLoops`, `PayloadScanner`, `EventInspector`, `PrintedEvents` | the relaxed JSON grammar as trees, a reference parser that is sound and complete for it, the meaning of an event report, the scanner methods that agree with the parser on every text, and the reports on messages from their text |
| `JsonPrinter`, `PrintedNumbers`, `Dashboard`, `SnapshotReader`, `HeldSnapshots` | the JSON printers, the dashboard snapshot, a client that reads a printed snapshot back by name, and what the text tells about the doubles the program holds |
| `EventStream`, `DashboardFeed` | the stream's frames read by section 9.2 of the WHATWG HTML Living Standard, and the whole way from published snapshots to a polling reader's events |
| `EventRing` | the event ring, and posts and polls in any interleaving |
| `FlowLedger` | buy and sell totals under confirmations and removals |
| `Backfill` | block ranges in 64-bit arithmetic, hexadecimal quantities |
| `RawPacket`, `RawLog` | the bytes of raw packets, reader and writer, the capture step and the validator |
| `Fnv`, `DecisionHash`, `HashCollisions`, `HashLayout` | the 64-bit FNV-1a chain, the layout of the bytes it mixes, and what they can tell apart |
| `SlowestPackets`, `BestDecision` | bounded top ten, best-decision loops |
| `OrderFlow`, `PolyBook`, `Basis` | the research recorder's order flow, books and basis |
| `Words`, `Options`, `Sequences` | shared helpers |

Conventions: a C++ `char` is a Dafny `char` and a byte string a `string` in the JSON modules, and a
sequence of numbers below 256 in the hash and raw-log modules; unsigned 64-bit values are bounded
and wrap where the code lets them; floats are reals, with `None` for a value that is not finite; a
printed double is a token with the shape the stream gives it, and how held doubles become tokens is
a parameter. Clocks, remote answers, the checksum and the exponential are parameters.

What the proofs found besides confirming the intended laws:

- The inspector's `has_type` flag depends on member order although the announced type does not; it is
  order-free exactly when `type` and `event_type` are not both given as strings
  (`EventSchemas.HasTypeOrderFreeExactly`).
- The scanner accepts more than JSON; an accepted text is RFC 8259 exactly when the tree found and the
  blanks around it are (`JsonParser.RfcDocumentExactly`).
- A printed snapshot is RFC 8259 text exactly when its metrics are finite and its order strings hold
  no control character other than newline, carriage return and tab (`Dashboard.SnapshotIsRfcExactly`).
- The text of a snapshot tells all of it but the digits of its doubles that the stream drops: it tells held
  snapshots apart exactly as far as the doubles are shown differently (`HeldSnapshots.SameTextExactly`,
  `HeldSnapshots.TextTellsExactly`), and six significant digits do not (`HeldSnapshots.SeventhDigitIsLost`).
- A snapshot without a number is stored under a number its printed id does not show, except when the
  counter wraps to zero (`DashboardFeed.PrintedIdIsStored`).
- Confirming an active fill again breaks the totals; with positive sizes that is the only way to
  break them (`FlowLedger.TotalsMatchExactly`).
- The chunk loop asks for an inverted range when the end of its last chunk does not fit in 64 bits
  (`Backfill.WrappingAsksInverted`), never ends if moreover the chunk divides 2^64
  (`Backfill.WrappingNeverEnds`), and partitions the interval in every other case
  (`Backfill.PartitionsExactlyWhenFits`).
- A pruned order-flow sum can be wrong exactly for queries more than 9.5 s (500 ms sum) or 9.9 s (100 ms
  sum) before the newest message
  (`OrderFlow.MisreportsExactlyWhenEarlier`).
- When a change carries no price for a side, its cached best price goes stale exactly when the edit
  removes that price or beats it (`PolyBook.ExactWithoutPrices`, `ExactWithAskOnly`, `ExactWithBidOnly`);
  removing the last bid with a reported best of zero is such a change (`PolyBook.EmptiedSideKeepsItsPrice`).
- A clock that goes back makes the basis count time twice (`Basis.ElapsedTimeDecidesExactly`,
  `Basis.ClockBackMovesTheValue`).
- Adjacent strings in the hash chain are not separated, so different legs, and intents, can mix the same
  bytes; they do exactly when the strings run together alike, and with known string lengths the bytes
  tell everything (`HashCollisions.LegBytesExactly`, `HashCollisions.IntentBytesDetermine`).
- The best-decision loops return the same decision for every order exactly when all best decisions are
  equal (`BestDecision.OrderFreeExactly`).
- The validator's own header check never rejects anything its reader let through
  (`RawPacket.ReadIsSound`).

## Model

| member | source | states |
|---|---|---|
| `TextScanner.ScanString` | tools/inspect_polymarket_payloads.cpp:59-138 | a string is accepted exactly when the reference parser accepts one there; the decoded text and the position after the closing quote are the parser's; the cursor stays in bounds and never moves back |
| `TextScanner.SkipScalar` | tools/inspect_polymarket_payloads.cpp:225-236 | stops at the first delimiter and succeeds exactly when something was skipped |
| `PayloadScanner.SkipValue` | tools/inspect_polymarket_payloads.cpp:238-262 | terminates, succeeds exactly when the reference parser reads a value after the blanks, and stops where it does |
| `PayloadScanner.SkipObject` | tools/inspect_polymarket_payloads.cpp:142-187 | succeeds exactly when the reference parser reads an object, and stops at the same position |
| `PayloadScanner.SkipArray` | tools/inspect_polymarket_payloads.cpp:189-223 | succeeds exactly when the reference parser reads an array, and stops at the same position |
| `EventInspector.InspectObject` | tools/inspect_polymarket_payloads.cpp:264-332 | on every input and start, succeeds exactly when `SkipObject` does and stops at the same position (both are tied to the same parse); the report is the one of the parsed members |
| `EventInspector.InspectArray` | tools/inspect_polymarket_payloads.cpp:334-379 | accepts exactly the arrays and reports one event per element that is an object, in order |
| `EventInspector.InspectJsonPayload` | tools/inspect_polymarket_payloads.cpp:381-415 | a payload is accepted exactly when it is a document of the relaxed grammar; the events and the array flag are those of its tree |
| `EventSchemas.ReportMeaning` | tools/inspect_polymarket_payloads.cpp:264-332 | reading members left to right yields the set of all top-level names, as type the last string `event_type`, else the last string `type`, else unknown, and both flags exactly: `has_event_type` for any string `event_type`, `has_type` for a string `type` with no string `event_type` before it |
| `EventSchemas.AnnouncedMeaning` | tools/inspect_polymarket_payloads.cpp:296-320 | the announced type by positions: the text of the last string `event_type` if there is one, else of the last string `type`; unknown if there is neither or the text is empty |
| `EventSchemas.OrderIrrelevant` | tools/inspect_polymarket_payloads.cpp:289-320 | with distinct names the reported fields and type do not depend on member order |
| `EventSchemas.HasTypeMeaning` | tools/inspect_polymarket_payloads.cpp:305-313 | `has_type` is set if and only if some string `type` comes before every string `event_type` |
| `EventSchemas.HasTypeOrderFreeExactly` | tools/inspect_polymarket_payloads.cpp:305-313 | every order of the members gives the same `has_type` if and only if they do not hold both a string `type` and a string `event_type` |
| `EventSchemas.HasTypeDependsOnOrder` | tools/inspect_polymarket_payloads.cpp:305-313 | the smallest case: two orders of one `type` and one `event_type` give different flags |
| `EventSchemas.EntriesMeaning` | tools/inspect_polymarket_payloads.cpp:289-320 | the members are seen in order, each as its decoded name and, exactly if its value is a string, the decoded text |
| `EventSchemas.ObjectMeaning` | tools/inspect_polymarket_payloads.cpp:264-332 | the report on an object is, for the list of its members, the one `ReportMeaning` describes |
| `EventSchemas.ArrayMeaning` | tools/inspect_polymarket_payloads.cpp:334-379 | there is a strictly increasing list of exactly the positions at which an array holds objects, there are as many events as positions, and each event is the report on the object at its position |
| `PrintedEvents.TypedMessageIsOneEvent` | tools/inspect_polymarket_payloads.cpp:264-415 | whatever the string s, the text `{"event_type":"s"}` with s escaped is accepted as one event of type s, or unknown for the empty string, with that one field |
| `PrintedEvents.MessagesOfAnArray` | tools/inspect_polymarket_payloads.cpp:334-415 | the text of an array of any such messages and strings is accepted, and its events are the messages in order |
| `PrintedEvents.OneBookInAnArray` | tools/inspect_polymarket_payloads.cpp:334-415 | `[{"event_type":"book"}]` is one event of type book with the field `event_type` |
| `JsonParser.DocumentExact` | tools/inspect_polymarket_payloads.cpp:381-415 | a text is accepted with tree t if and only if it is t's text between blanks and t is in the relaxed grammar |
| `JsonParser.ParseValueSound` | tools/inspect_polymarket_payloads.cpp:140-262 | whatever is read is a tree of the grammar whose text spans exactly the consumed positions |
| `JsonParser.ParseValueComplete` | tools/inspect_polymarket_payloads.cpp:140-262 | every tree of the grammar standing in a text, suitably delimited, is read back whole |
| `JsonParser.Unambiguous` | tools/inspect_polymarket_payloads.cpp:140-262 | two objects or arrays with the same text are the same tree |
| `JsonParser.RfcTextConsumed` | tools/inspect_polymarket_payloads.cpp:142-262 | wherever an object or array text of sections 2 to 7 of RFC 8259 stands, exactly that text is consumed, whatever follows |
| `JsonParser.RfcDocumentExactly` | tools/inspect_polymarket_payloads.cpp:381-415 | a text is one RFC 8259 object or array with its whitespace if and only if it is accepted, the tree found has only RFC scalars, strings and blanks, and the blanks around it are RFC whitespace |
| `JsonParser.RelaxedTextAccepted` | tools/inspect_polymarket_payloads.cpp:225-236 | a text that is accepted and is not RFC 8259 |
| `JsonParser.BlankExactly` | tools/inspect_polymarket_payloads.cpp:44-52 | a text between brackets is read as an empty array with that blank if and only if it consists of space, tab, newline, vertical tab, form feed and carriage return |
| `JsonParser.ScalarExactly` | tools/inspect_polymarket_payloads.cpp:225-262 | a text between brackets is read as one scalar if and only if it is not empty, holds no blank, comma or closing bracket or brace, and starts with no quote or opening bracket or brace |
| `JsonParser.EscapeExactly` | tools/inspect_polymarket_payloads.cpp:85-133 | after a backslash exactly the eight characters of section 7 of RFC 8259 stand for one character, and for which |
| `JsonParser.UnicodeEscapeIsAQuestionMark` | tools/inspect_polymarket_payloads.cpp:123-131 | `\\u` takes any four characters and stands for a question mark |
| `JsonGrammar.RfcIsWf` | tools/inspect_polymarket_payloads.cpp:140-262 | every RFC 8259 tree is in the relaxed grammar |
| `JsonPrinter.JsonEscape` | apps/paper_backend/DashboardApiRoutes.cpp:129-155 | the loop prints the escape of every character in order |
| `JsonPrinter.EscapedCharacter` | apps/paper_backend/DashboardApiRoutes.cpp:133-152 | quote, backslash, newline, carriage return and tab are printed as two characters, every other character as itself |
| `JsonPrinter.EscapeConcat` | apps/paper_backend/DashboardApiRoutes.cpp:129-155 | the escape of a concatenation is the concatenation of the escapes |
| `JsonPrinter.PrintedStringReadsBack` | apps/paper_backend/DashboardApiRoutes.cpp:129-155 | for every string, with any text before and after, scanning its quoted escape returns the string and stops right after the closing quote |
| `JsonPrinter.PrintsItsTree` | apps/paper_backend/DashboardApiRoutes.cpp:157-300 | what is printed for a document is the text of a tree of the grammar |
| `JsonPrinter.ObjectPunctuation` | apps/paper_backend/DashboardApiRoutes.cpp:157-300 | an object is printed as brace, quoted names, colons, values separated by commas, brace, with nothing in between |
| `JsonPrinter.ArrayPunctuation` | apps/paper_backend/DashboardApiRoutes.cpp:206-277 | the same for arrays |
| `JsonPrinter.PrintedIsRfcExactly` | apps/paper_backend/DashboardApiRoutes.cpp:157-300 | a printed object or array is RFC 8259 text if and only if its strings are clean and its numbers finite |
| `JsonPrinter.PrintedIsOneLine` | apps/paper_backend/DashboardApiRoutes.cpp:129-300 | no printed document contains a raw CR or LF, whatever its strings hold |
| `Dashboard.FilledOrdersJson` | apps/paper_backend/DashboardApiRoutes.cpp:206-243 | the loop with its `first` flag prints the array of all orders, separated by commas |
| `Dashboard.TerminalPnlJson` | apps/paper_backend/DashboardApiRoutes.cpp:245-277 | the same for plans |
| `Dashboard.SnapshotAccepted` | apps/paper_backend/DashboardApiRoutes.cpp:401-437 | every snapshot, with any number of orders and plans and any strings, is accepted by the scanner as one event whose field set is exactly the eleven top-level names |
| `Dashboard.SnapshotIsRfcExactly` | apps/paper_backend/DashboardApiRoutes.cpp:401-437 | the printed snapshot is RFC 8259 text if and only if its metrics are finite and its order strings are clean |
| `Dashboard.NotANumberIsNotRfc` | apps/paper_backend/DashboardApiRoutes.cpp:157-204 | any snapshot stops being RFC 8259 text when one metric is not a number |
| `Dashboard.SnapshotIsOneLine` | apps/paper_backend/DashboardApiRoutes.cpp:401-437 | a printed snapshot never contains a raw CR or LF |
| `PrintedNumbers.WholeDetermined` | apps/paper_backend/DashboardApiRoutes.cpp:157-300 | two integers with the same printed text are equal |
| `PrintedNumbers.DecimalExactly` | apps/paper_backend/DashboardApiRoutes.cpp:157-300 | an integer is printed as its decimal numeral: a digit, or the numeral of the tens and the last digit, or a minus and the numeral |
| `PrintedNumbers.TokenDetermined` | apps/paper_backend/DashboardApiRoutes.cpp:157-204 | two tokens shown for doubles that have the same text are the same token, words for infinities and NaN included |
| `SnapshotReader.EnumerationWords` | apps/paper_backend/DashboardApiRoutes.cpp:29-127 | the word printed for each value of the six regimes and of the metric status |
| `SnapshotReader.CountsUnderNames` | apps/paper_backend/DashboardApiRoutes.cpp:157-204 | each integer metric stands under its name |
| `SnapshotReader.ReturnsUnderNames` | apps/paper_backend/DashboardApiRoutes.cpp:157-204 | each return and its status, as its word, stand under their names |
| `SnapshotReader.RatesUnderNames` | apps/paper_backend/DashboardApiRoutes.cpp:157-204 | the other doubles and statuses, with their names |
| `SnapshotReader.OrderUnderNames` | apps/paper_backend/DashboardApiRoutes.cpp:213-240 | each member of an order stands under its name |
| `SnapshotReader.PlanUnderNames` | apps/paper_backend/DashboardApiRoutes.cpp:251-274 | each member of a plan stands under its name, the flag as `true` or `false` |
| `SnapshotReader.RegimeUnderNames` | apps/paper_backend/DashboardApiRoutes.cpp:279-290 | each regime stands under its name, as its word |
| `SnapshotReader.LatencyUnderNames` | apps/paper_backend/DashboardApiRoutes.cpp:292-300 | each latency stands under its name |
| `SnapshotReader.AccountUnderNames` | apps/paper_backend/DashboardApiRoutes.cpp:407-413 | each account value stands under its name |
| `SnapshotReader.SignalUnderNames` | apps/paper_backend/DashboardApiRoutes.cpp:417-422 | each signal count stands under its name |
| `SnapshotReader.RiskUnderNames` | apps/paper_backend/DashboardApiRoutes.cpp:423-426 | each risk count stands under its name |
| `SnapshotReader.ExecutionUnderNames` | apps/paper_backend/DashboardApiRoutes.cpp:427-431 | each execution count stands under its name |
| `SnapshotReader.TopLevelReads` | apps/paper_backend/DashboardApiRoutes.cpp:405-435 | each part of the snapshot stands under its name |
| `SnapshotReader.PerformanceReadsBack` | apps/paper_backend/DashboardApiRoutes.cpp:157-204 | each of the 31 metrics is found under its own name, the integers and statuses with their values, the eight doubles with the tokens shown for them |
| `SnapshotReader.OrderReadsBack` | apps/paper_backend/DashboardApiRoutes.cpp:213-240 | each of the 23 members of an order is found under its own name with its value |
| `SnapshotReader.PlanReadsBack` | apps/paper_backend/DashboardApiRoutes.cpp:251-274 | the same for the 14 members of a plan |
| `SnapshotReader.RegimeReadsBack` | apps/paper_backend/DashboardApiRoutes.cpp:279-290 | the regimes are found under their names and read back from their words |
| `SnapshotReader.SnapshotReadsBack` | apps/paper_backend/DashboardApiRoutes.cpp:401-437 | a client that parses the printed text and looks the members up by name gets back everything that was shown, with any number of orders and plans, each double as its token |
| `SnapshotReader.SnapshotDetermined` | apps/paper_backend/DashboardApiRoutes.cpp:401-437 | two snapshots of tokens print the same text if and only if they are equal |
| `HeldSnapshots.HeldReadsBack` | apps/paper_backend/DashboardApiRoutes.cpp:401-437 | whatever doubles a snapshot holds and however they are shown, a client reads back all of it with each double as its token |
| `HeldSnapshots.SameTextExactly` | apps/paper_backend/DashboardApiRoutes.cpp:401-437 | two snapshots as the program holds them print the same text if and only if everything but the eight doubles agrees and each double is shown by the same token |
| `HeldSnapshots.TextTellsExactly` | apps/paper_backend/DashboardApiRoutes.cpp:401-437 | the text tells every held snapshot if and only if no two doubles are shown alike |
| `HeldSnapshots.ShownAlikeCollide` | apps/paper_backend/DashboardApiRoutes.cpp:157-204 | any two doubles shown alike give two different snapshots with one text |
| `HeldSnapshots.SeventhDigitIsLost` | apps/paper_backend/DashboardApiRoutes.cpp:157-204 | with six significant digits, the stream's default, a Sharpe ratio of 1 and one of 1.0000001 print the same text |
| `EventStream.FramesReadBack` | apps/paper_backend/SsePublisher.cpp:56-62 | any sequence of frames, read by section 9.2 of the WHATWG HTML Living Standard from any last event id, gives one event per frame with its id and data |
| `EventStream.FrameTextIs` | apps/paper_backend/SsePublisher.cpp:56-62 | the bytes of a payload: the id line, the event line, the data line with the JSON, and an empty line |
| `EventStream.StreamReadsBack` | apps/paper_backend/SsePublisher.cpp:56-62 | the concatenated payloads of any snapshots are read as one `dashboard` event each, in order, with the snapshot's number as id and its JSON intact |
| `EventRing.SsePublisher.Publish` | apps/paper_backend/SsePublisher.cpp:12-26 | the eviction loop appends the numbered event, drops the oldest when full and counts it |
| `EventRing.SsePublisher.ReadSince` | apps/paper_backend/SsePublisher.cpp:28-44 | returns the first `max_count` retained events newer than the cursor |
| `EventRing.RingHoldsTheLatest` | apps/paper_backend/SsePublisher.cpp:9-26 | after any run of publishes the ring holds exactly the last min(n, capacity) events of the history, and retained plus dropped is published (modulo 64 bits) |
| `EventRing.HistoryIsNumbered` | apps/paper_backend/SsePublisher.cpp:12-26 | in every history a post with a number keeps it, and one without gets the number after the one before it, modulo 2^64 |
| `EventRing.RunKeepsAccounts` | apps/paper_backend/SsePublisher.cpp:9-44 | every interleaving of posts with increasing numbers and polls keeps the account of delivered and missed events |
| `EventRing.ReaderSeesEachEventOnce` | apps/paper_backend/SsePublisher.cpp:9-44 | in every interleaving the reader has been given, once each and in order, exactly the events up to its cursor that were not evicted before it reached them |
| `EventRing.EmptyPollMeansCaughtUp` | apps/paper_backend/SsePublisher.cpp:28-44 | after an empty poll every event ever published was delivered or missed |
| `EventRing.UnnumberedPostIncreases` | apps/paper_backend/SsePublisher.cpp:18-20 | a snapshot without a number continues the numbering exactly while the counter has a successor |
| `DashboardFeed.ReaderSeesTheSnapshots` | apps/paper_backend/SsePublisher.cpp:12-62 | in every interleaving of publishing snapshots with growing numbers and polling, the bytes the reader was given read as one `dashboard` event per snapshot it did not miss, in order, with the ring's number as id and the JSON intact |
| `DashboardFeed.PrintedIdIsStored` | apps/paper_backend/SsePublisher.cpp:18-60 | the printed id is the stored number if and only if the snapshot has its own number or the counter wraps to zero |
| `DashboardFeed.UnnumberedIdDiffers` | apps/paper_backend/SsePublisher.cpp:18-60 | a first snapshot without a number is stored as number one and printed with id 0 |
| `FlowLedger.Ledger.UpdateExpectedFlow` | tools/verify_market_state_workflow.cpp:564-604 | the new map and totals are the specified step of the old ones |
| `FlowLedger.RemovalMeaning` | tools/verify_market_state_workflow.cpp:570-583 | a removal of an active id takes the recorded size off the recorded direction and marks the fill inactive; any other removal changes nothing |
| `FlowLedger.ConfirmationMeaning` | tools/verify_market_state_workflow.cpp:585-604 | a confirmed fill with an unambiguous mapping and a direction is recorded with its size and raises the total of its direction; any other changes nothing |
| `FlowLedger.RunConserves` | tools/verify_market_state_workflow.cpp:564-604 | in every run, from any state, each total differs from the sum over active fills by exactly what confirmations overwrote |
| `FlowLedger.TotalsMatchActiveFills` | tools/verify_market_state_workflow.cpp:564-604 | without reconfirmation of an active id the totals are the sums of the active buy and sell fills |
| `FlowLedger.TotalsMatchExactly` | tools/verify_market_state_workflow.cpp:564-604 | with positive sizes that holds if and only if no active id is confirmed again |
| `FlowLedger.ReconfirmationBreaksTotals` | tools/verify_market_state_workflow.cpp:583-603 | one fill confirmed twice leaves a total of twice its size |
| `FlowLedger.RemovalUndoesConfirmation` | tools/verify_market_state_workflow.cpp:564-582 | a removal restores the totals whatever size and direction it carries, and a second removal changes nothing |
| `FlowLedger.DifferentFillsCommute` | tools/verify_market_state_workflow.cpp:564-604 | events of different fills commute |
| `FlowLedger.InterleavingIrrelevant` | tools/verify_market_state_workflow.cpp:564-604 | any two interleavings with the same per-id subsequences end in the same totals and fills |
| `FlowLedger.ChainCounters.CountChainFill` | tools/verify_market_state_workflow.cpp:535-562 | the counters after one fill |
| `FlowLedger.CountersSplit` | tools/verify_market_state_workflow.cpp:535-562 | over every run each of the five counters grows by the number of fills of its kind, given by the members of the record: removed, else ambiguous, else confirmed buys, confirmed sells, and all others; together they are all fills |
| `FlowLedger.CountedFillsRaiseTotals` | tools/verify_market_state_workflow.cpp:535-604 | with positive sizes a fill is counted as buy or sell if and only if it raises that total, and then by its size alone |
| `FlowLedger.CountedExactlyWhenRecorded` | tools/verify_market_state_workflow.cpp:535-604 | whatever the sizes, the fills counted as buys or sells are exactly those the ledger records, and those are the confirmed buys and sells by the members of the record |
| `FlowLedger.RunKeepsSizesPositive` | tools/verify_market_state_workflow.cpp:564-604 | runs of positive sizes keep all recorded sizes positive |
| `Backfill.HttpGetLogs` | tools/chain_ws_http_parity_smoke.cpp:334-368 | for every interval and chunk, against a node that answers any number of requests: no request has more blocks than the configured chunk, or than one for zero; if the end of the last chunk fits in 64 bits every request but the last has exactly that many, and the call succeeds exactly when the requests are consecutive, non-empty ranges whose union is the interval, and then returns the logs of one query; given time they are that if and only if the end fits; a failed call has used every answer |
| `Backfill.PartitionsCollect` | tools/chain_ws_http_parity_smoke.cpp:349-360 | the logs of any partition, concatenated, are those of one query |
| `Backfill.PartitionsExactlyWhenFits` | tools/chain_ws_http_parity_smoke.cpp:349-365 | the requests partition the interval if and only if the end of the last chunk fits in 64 bits |
| `Backfill.WrappingNeverPartitions` | tools/chain_ws_http_parity_smoke.cpp:349-365 | otherwise no number of requests is a partition |
| `Backfill.WrappingAsksInverted` | tools/chain_ws_http_parity_smoke.cpp:349-365 | otherwise, given time, some request is an inverted range |
| `Backfill.WrappingNeverEnds` | tools/chain_ws_http_parity_smoke.cpp:349-365 | otherwise, with a chunk that divides 2^64, the loop never ends |
| `Backfill.RoomForOneMoreChunkFits` | tools/chain_ws_http_parity_smoke.cpp:349-365 | `to + chunk - 1` within 64 bits suffices |
| `Backfill.WrappingExample` | tools/chain_ws_http_parity_smoke.cpp:349-365 | a two-block interval at the top of the range for which the first request is inverted and the loop never ends |
| `Backfill.ParseHexU64` | tools/chain_ws_http_parity_smoke.cpp:125-144 | the loop computes the value of the digits, with or without prefix, other characters shifting in a zero |
| `Backfill.HexValueOfOneMore` | tools/chain_ws_http_parity_smoke.cpp:125-144 | one more character multiplies by 16 modulo 2^64 and adds the digit, in either case; any other character adds nothing |
| `Backfill.HexIsCanonical` | tools/chain_ws_http_parity_smoke.cpp:119-123 | quantities have lower-case digits and no leading zero |
| `Backfill.HexRoundTrip` | tools/chain_ws_http_parity_smoke.cpp:119-144 | every 64-bit number is read back from its hexadecimal quantity |
| `Fnv.MixString` | tools/verify_canonical_decision_workflow.cpp:105-110 | the loop mixes the bytes in order |
| `Fnv.MixU64` | tools/verify_canonical_decision_workflow.cpp:94-103 | the loop mixes the eight bytes of the word, lowest first |
| `Fnv.MixByteMeaning` | tools/verify_canonical_decision_workflow.cpp:94-110 | a byte goes in by exclusive or, then the state is multiplied by 1099511628211 modulo 2^64 |
| `Fnv.XorBitwise` | tools/verify_canonical_decision_workflow.cpp:94-110 | a bit of the exclusive or is set if and only if the two bits differ |
| `Fnv.PublishedVector` | tools/verify_canonical_decision_workflow.cpp:55-110 | from the offset basis, the letter a gives 0xaf63dc4c8601ec8c, the published value |
| `Fnv.WordBytesAre` | tools/verify_canonical_decision_workflow.cpp:94-99 | the eight bytes of a word are its quotients by the powers of 256, least significant first |
| `Fnv.MixIsBijective` | tools/verify_canonical_decision_workflow.cpp:94-110 | mixing any fixed bytes is a bijection on the 64-bit state, with an explicit inverse on both sides |
| `Fnv.DifferentStatesStayDifferent` | tools/verify_canonical_decision_workflow.cpp:94-110 | states are equal after equal input exactly when they were equal before |
| `Fnv.MixConcat` | tools/verify_canonical_decision_workflow.cpp:105-110 | mixing a concatenation is mixing the parts in turn |
| `Fnv.OneByteDiffers` | tools/verify_canonical_decision_workflow.cpp:94-110 | inputs of equal length that differ in exactly one byte always hash differently |
| `DecisionHash.MixIntent` | tools/verify_canonical_decision_workflow.cpp:398-431 | the chain over an intent and its legs mixes exactly its bytes |
| `DecisionHash.MixPlan` | tools/verify_canonical_decision_workflow.cpp:451-480 | the chain over a plan and its orders mixes exactly its bytes |
| `HashLayout.IntentLayout` | tools/verify_canonical_decision_workflow.cpp:398-431 | the position of each of the fifteen words of an intent among the bytes mixed, and then the legs |
| `HashLayout.LegLayout` | tools/verify_canonical_decision_workflow.cpp:417-430 | the position of the strings and the nine words of a leg |
| `HashLayout.PlanLayout` | tools/verify_canonical_decision_workflow.cpp:451-480 | the position of the ten words of a plan, then its key and its orders |
| `HashLayout.OrderLayout` | tools/verify_canonical_decision_workflow.cpp:466-478 | the position of the words and strings of an order |
| `HashLayout.OneMoreLeg` | tools/verify_canonical_decision_workflow.cpp:417-479 | legs and orders are mixed one after the other |
| `DecisionHash.ChainKeepsStatesApart` | tools/verify_canonical_decision_workflow.cpp:398-480 | after the same intent and plan two runs have equal hashes exactly when they had before |
| `Fnv.WordBytesDetermine` | tools/verify_canonical_decision_workflow.cpp:94-99 | a word is determined by the eight bytes it mixes |
| `HashCollisions.LegBytesExactly` | tools/verify_canonical_decision_workflow.cpp:419-429 | two legs mix the same bytes if and only if market id and asset id run together to the same text and everything else agrees |
| `HashCollisions.OrderBytesExactly` | tools/verify_canonical_decision_workflow.cpp:467-477 | the same for orders with client order id, market id and asset id |
| `HashCollisions.DifferentLegsCollide` | tools/verify_canonical_decision_workflow.cpp:419-420 | two different legs with the same bytes |
| `HashCollisions.DifferentIntentsCollide` | tools/verify_canonical_decision_workflow.cpp:398-431 | two different intents that hash alike from every state |
| `HashCollisions.IntentBytesDetermine` | tools/verify_canonical_decision_workflow.cpp:398-431 | intents whose legs have strings of equal lengths mix the same bytes if and only if they are equal |
| `HashCollisions.PlanBytesDetermine` | tools/verify_canonical_decision_workflow.cpp:451-480 | the same for plans |
| `SlowestPackets.BenchState.RecordSlowestPacket` | tools/bench_feed_decode_latency.cpp:423-453 | the list grows to ten, then a larger observation replaces the first smallest, and the list is a descending permutation of that |
| `SlowestPackets.RunKeepsLargest` | tools/bench_feed_decode_latency.cpp:423-453 | after any stream the kept latencies and the dropped ones make up the stream, and no dropped one exceeds a kept one |
| `SlowestPackets.SlowestAreTheTopTen` | tools/bench_feed_decode_latency.cpp:423-453 | the list is descending, agrees, latency for latency, with the first min(n, 10) of any full descending sort of the stream, and holds only observations of the stream, none more often than it came |
| `OrderFlow.OracleState.ObserveBookTicker` | research/poly_btc_above_fair_research.py:382-417 | a quote with a number missing or not positive changes nothing; any other is counted and remembered, appends its mid price and, after the first, its flow, and pops from the front what is older than ten seconds, for the mid prices than the volatility window if that is longer |
| `OrderFlow.ObserveMeaning` | research/poly_btc_above_fair_research.py:382-417 | the same of the specified step, with the lists given by what is dropped and what is kept |
| `OrderFlow.FlowMeaning` | research/poly_btc_above_fair_research.py:393-403 | the flow in each of the nine cases of a bid and an ask that rise, stay or fall, by the quantities of the two quotes |
| `OrderFlow.MovesHaveTheirSign` | research/poly_btc_above_fair_research.py:393-403 | a bid rising under an unchanged ask is a positive flow, an ask falling over an unchanged bid a negative one; so are both rising and both falling |
| `OrderFlow.MidIsHalfWay` | research/poly_btc_above_fair_research.py:389 | the mid price is as far above the bid as below the ask |
| `OrderFlow.SumAppend` | research/poly_btc_above_fair_research.py:449-450 | the sum over no events is zero, and a further event adds its value exactly if it is not before the start of the window |
| `OrderFlow.OracleState.Snapshot` | research/poly_btc_above_fair_research.py:447-450 | the two sums are those of the listed flows of the last 100 and 500 ms |
| `OrderFlow.PrunedMeaning` | research/poly_btc_above_fair_research.py:411-416 | pruning removes exactly the front part before the cutoff |
| `OrderFlow.PrunedSumsAreExact` | research/poly_btc_above_fair_research.py:382-450 | for every stream, clocks in any order, both sums equal those over the unpruned history when the query is at most 9.5 s before the newest message |
| `OrderFlow.EarlierQueriesCanBeWrong` | research/poly_btc_above_fair_research.py:414-450 | a flow inside the window of a sum that lies more than ten seconds before the newest message is missing from the sum |
| `OrderFlow.WindowMisreportsExactly` | research/poly_btc_above_fair_research.py:414-450 | for a window of any length, some stream makes its sum differ from the unpruned one if and only if the window starts more than ten seconds before the newest message |
| `OrderFlow.MisreportsExactlyWhenEarlier` | research/poly_btc_above_fair_research.py:414-450 | so the 500 ms sum can be wrong if and only if the query is more than 9.5 s before the newest message, and the 100 ms sum if and only if it is more than 9.9 s before |
| `OrderFlow.MidsLackOnlyOld` | research/poly_btc_above_fair_research.py:410-413 | the kept mids are the history without a front part older than the volatility window |
| `OrderFlow.OrderedClocksKeepOnlyTheWindow` | research/poly_btc_above_fair_research.py:414-416 | with clocks that never go back nothing older than ten seconds is kept |
| `OrderFlow.FlowIsAntisymmetric` | research/poly_btc_above_fair_research.py:393-403 | swapping two quotes negates the flow |
| `OrderFlow.ThereAndBackIsZero` | research/poly_btc_above_fair_research.py:393-403 | a quote path followed by its reverse sums to zero |
| `OrderFlow.ThereAndBackSnapshotIsZero` | research/poly_btc_above_fair_research.py:382-450 | seen within the last 500 ms, it leaves the reported 500 ms flow at zero |
| `PolyBook.FindBest` | research/poly_btc_above_fair_research.py:475-477 | the best price with something on offer, or nothing if there is none |
| `PolyBook.LastLevelWins` | research/poly_btc_above_fair_research.py:521-537 | a price is in a snapshot's map exactly when a usable level offers there, with the size of the last one |
| `PolyBook.PolyState.ObserveBook` | research/poly_btc_above_fair_research.py:516-542 | a snapshot replaces the book of a known asset only: each side holds exactly the prices offered on that side, each with the size of the last level that offers it; the cached prices are the highest bid and the lowest ask, missing only for an empty side; last trade and time are those given |
| `PolyBook.SnapshotIsShown` | research/poly_btc_above_fair_research.py:516-542 | the same of the specified book |
| `PolyBook.PolyState.ObservePriceChange` | research/poly_btc_above_fair_research.py:544-575 | the changes are applied in order to the books of known assets, and all are counted |
| `PolyBook.ApplyChange` | research/poly_btc_above_fair_research.py:556-573 | one change: level edited or removed, positive best prices taken over, both refreshed only if one is missing |
| `PolyBook.ChangeMeaning` | research/poly_btc_above_fair_research.py:556-573 | a buy edits the bids and anything else the asks, at a positive price only: removed without a positive size, else set to it, all other prices untouched; positive carried prices are taken over, and if one is then still missing both are the best of their sides; the last trade stays and the time is that of the message |
| `PolyBook.BooksTakeTheirChanges` | research/poly_btc_above_fair_research.py:544-575 | each book takes exactly the changes that name it, in order, and no book comes or goes |
| `PolyBook.RunKeepsSound` | research/poly_btc_above_fair_research.py:466-575 | in every reachable state all levels have positive price and size and a missing best price means an empty side |
| `PolyBook.NextBestIsBest` | research/poly_btc_above_fair_research.py:558-563 | the best price after an edit, from the best price before it |
| `PolyBook.ExactAfterChange` | research/poly_btc_above_fair_research.py:556-573 | an exact book stays exact if and only if a price is still missing or on each side the winning price, carried or cached, is the one the edit leaves best, computed from the book before |
| `PolyBook.ExactWithoutPrices` | research/poly_btc_above_fair_research.py:556-573 | with both prices known and none carried, the cached prices stay true if and only if the edit neither removes nor beats the cached price of its side |
| `PolyBook.ExactWithAskOnly` | research/poly_btc_above_fair_research.py:564-571 | with only the ask carried: if and only if the carried ask is right and the edit keeps the cached bid |
| `PolyBook.ExactWithBidOnly` | research/poly_btc_above_fair_research.py:564-571 | with only the bid carried: if and only if the carried bid is right and the edit keeps the cached ask |
| `PolyBook.TruthfulRunIsExact` | research/poly_btc_above_fair_research.py:516-575 | if every change to an asset carries the true best prices after it with both sides non-empty, its cached prices are the maximum bid and the minimum ask |
| `PolyBook.EmptiedSideKeepsItsPrice` | research/poly_btc_above_fair_research.py:564-571 | removing the last bid with a reported best of zero leaves the old best price |
| `Basis.BasisTracker.Update` | research/poly_btc_above_fair_research.py:945-958 | the new state is the specified step; unhealthy or non-finite samples change nothing |
| `Basis.AfterOneTimeConstant` | research/poly_btc_above_fair_research.py:938-958 | from a new tracker, a second sample exactly max(1, tau) seconds after the first leaves exp(-1) of the distance between them |
| `Basis.OnlyCountedMatter` | research/poly_btc_above_fair_research.py:945-947 | the state depends only on the healthy finite samples |
| `Basis.ValueIsBetweenSamples` | research/poly_btc_above_fair_research.py:945-958 | the value exists exactly after the first of them and lies between their least and greatest |
| `Basis.StartIsForgotten` | research/poly_btc_above_fair_research.py:953-956 | for every sample stream, what two trackers started with fades with the forward movement of the clock alone |
| `Basis.ClimbIsElapsedTime` | research/poly_btc_above_fair_research.py:953-956 | that movement is the elapsed time if and only if no clock reading goes back |
| `Basis.ElapsedTimeDecidesExactly` | research/poly_btc_above_fair_research.py:953-956 | under a constant deviation the tracker's value is the one the elapsed time alone gives if and only if no clock reading goes back |
| `Basis.ClockBackMovesTheValue` | research/poly_btc_above_fair_research.py:953-956 | a reading one second in the past and one back at the present move the value although no time has gone by |
| `Basis.ConstantDeviation` | research/poly_btc_above_fair_research.py:953-956 | a constant deviation is approached by it alone, whatever the samples in between |
| `Basis.SubdivisionIrrelevant` | research/poly_btc_above_fair_research.py:953-956 | with non-decreasing times, two ways to cut an interval into samples of one deviation give the same value |
| `RawPacket.HeaderReadsBack` | engine/feed/raw_ingest/RawPacket.h:152-282 | every header is read back from its 56 bytes |
| `RawPacket.HeaderWritesBack` | engine/feed/raw_ingest/RawPacket.h:152-282 | any 56 bytes are the bytes of the header read from them |
| `RawPacket.HeaderLayout` | engine/feed/raw_ingest/RawPacket.h:152-282 | the position and width of each of the twelve fields among the 56 bytes, low byte first |
| `RawPacket.GoodStart` | engine/feed/raw_ingest/RawPacket.h:152-282 | the first eight bytes of every record: the magic 52 58 4C 48, version 1, header size 56 |
| `RawPacket.RawLogReader.Next` | engine/feed/raw_ingest/RawLogReader.cpp:95-199 | end, error or packet, with the checks in the source's order, and the position and counters after a packet |
| `RawPacket.FailsExactly` | engine/feed/raw_ingest/RawLogReader.cpp:95-199 | which error is reported, by the first of the checks on magic, version, header size, length and checksum that the header in front fails |
| `RawPacket.RawLogWriter.WritePacket` | engine/feed/raw_ingest/RawLogWriter.cpp:224-265 | refuses exactly the packets that fail a check, writing nothing, and appends header and payload otherwise |
| `RawPacket.ReadIsSound` | engine/feed/raw_ingest/RawLogReader.cpp:95-199 | a packet that is read passes every header check and its bytes are exactly the front of the file |
| `RawPacket.ReadIsComplete` | engine/feed/raw_ingest/RawLogReader.cpp:95-199 | every writable packet is read back, whatever follows it |
| `RawLog.CheckPacketHeader` | tools/validate_raw_log.cpp:26-65 | accepts exactly the packets with magic 0x484C5852, version 1, header size 56, a payload of less than 2^32 bytes, and its length and checksum in the header |
| `RawLog.Validate` | tools/validate_raw_log.cpp:67-154 | accepts if and only if some list of packets passes every header check, has positive strictly increasing ids, its records are exactly the raw bytes, and its payloads, each followed by a newline, are exactly the JSONL bytes |
| `RawLog.AcceptsExactlyCaptures` | tools/validate_raw_log.cpp:67-154 | the loop's decision from the remaining bytes is that condition |
| `RawLog.IdsIncreaseMeaning` | tools/validate_raw_log.cpp:136-147 | increasing ids: each greater than the one before it, the first than the start |
| `RawLog.RawBytesAppend` | tools/run_live_feed_smoke.cpp:369-421 | a further packet appends its bytes to one file and its payload and a newline to the other |
| `RawLog.MadePacket` | engine/feed/raw_ingest/RawPacket.cpp:219-290 | a made packet passes every check and carries the payload, both clocks, connection 1, the id, source 1, codec 0, length and checksum, and the heartbeat flag exactly for the four pong texts |
| `RawLog.CaptureStep.OnMessage` | tools/run_live_feed_smoke.cpp:369-421 | one message: counters and id allocation; a payload that fits its length field is appended to the raw file as such a packet and to the other file as a line, a longer one takes an id and writes nothing |
| `RawLog.RunRecords` | tools/run_live_feed_smoke.cpp:369-421 | after every message of a sequential run the two files record exactly the packets written so far |
| `RawLog.CaptureIsAccepted` | tools/run_live_feed_smoke.cpp:369-421 | every sequential run, with any bytes in its payloads, newlines included, leaves a pair the validator accepts |
| `BestDecision.BestGeneric` | tools/probe_fastpath_latency.cpp:228-257 | the first candidate that needs the fallback, else the first of greatest edge and then lowest bundle id; nothing only for no specs |
| `BestDecision.BestFast` | tools/probe_market_event_to_execution_plan_latency.cpp:1658-1711 | among the specs with a bundle and an accepted decision, the first of greatest edge and then lowest bundle id, with its spec |
| `BestDecision.FirstBestMeaning` | tools/probe_fastpath_latency.cpp:248-254 | the choice in terms of edges and ids: no edge is greater, among equal edges no bundle id is smaller, and no earlier decision has the same edge and id |
| `BestDecision.OrderIrrelevant` | tools/probe_fastpath_latency.cpp:237-255 | for any two orders of the same decisions the results have the same edge and bundle id, and with distinct ids are the same decision |
| `BestDecision.EveryBestCanWin` | tools/probe_fastpath_latency.cpp:248-254 | every best decision is returned for some order |
| `BestDecision.ReturnedExactlyWhenBest` | tools/probe_fastpath_latency.cpp:237-255 | what some order returns is exactly what is best |
| `BestDecision.OrderFreeExactly` | tools/probe_fastpath_latency.cpp:237-255 | the result is the same for every order if and only if all best decisions are equal |
| `BestDecision.LoopsAgree` | tools/probe_market_event_to_execution_plan_latency.cpp:1658-1711 | with no fallback and distinct bundle ids both loops return the same decision, or both nothing |

## Left out

- TextScanner.ScanString: which error message a failure leaves is not specified, only that a failure leaves one and a success none; the same holds for the other scanner methods.
- PayloadScanner.SkipValue: recursion as deep as the nesting of the text; the stack it needs is not modelled.
- JsonPrinter.PrintsItsTree: a double is the token the stream prints (digits with optional fraction and exponent, or an infinity or NaN word); which token a double gets is the parameter `show` of `HeldSnapshots`, of which only the six digits between one and ten are spelled out.
- EventStream.StreamReadsBack: strings are decoded text. The standard decodes the stream as UTF-8 first, and `json_escape` passes bytes from 0x80 on unchanged, so an order string that is not valid UTF-8 would not arrive intact.
- SnapshotReader.SnapshotReadsBack: integers are unbounded, since printing does not depend on their width; members of the snapshot that are never printed are not in the model.
- EventRing.ReaderSeesEachEventOnce, DashboardFeed.ReaderSeesTheSnapshots: need increasing sequence numbers; the publisher does not enforce them.
- FlowLedger.Ledger.UpdateExpectedFlow: the totals are unbounded; overflow of the signed 64-bit totals is not modelled.
- Backfill.HttpGetLogs: what a node answers to an inverted range is not modelled further than that it has no logs or fails.
- HashCollisions.IntentBytesDetermine: says when the mixed bytes differ; different bytes may still hash alike, as 64 bits cannot tell all inputs apart.
- SlowestPackets.BenchState.RecordSlowestPacket: `std::sort` is any sort; the order of equal latencies is left open.
- OrderFlow.OracleState.ObserveBookTicker, PolyBook.RunKeepsSound, Basis.BasisTracker.Update: floating-point rounding is not modelled.
- PolyBook.PolyState.ObserveBook: a book is a value in the map; the source's book objects are each referenced by one map entry only. The dispatch on the payload's type and the upper-casing of `side` are done before the model.
- RawPacket.RawLogReader.Next: where the stream stands after a failed read is not specified; the validator stops there.
- RawPacket.HeaderReadsBack: little-endian layout without padding, as the field widths give on the supported platforms; CRC-32 itself is a parameter.
- RawLog.CaptureIsAccepted: fewer than 2^64 messages, so that ids do not wrap; failing writes of the file system are not modelled.
- BestDecision.BestGeneric: how a spec is evaluated is not modelled; the loops are given each spec's result.
- Event counters of the inspector (`count_event`), percentiles and latency summaries: counting without a law beyond the loop.
- `shell_quote`, the WS/HTTP key-set comparison, `interp_smile`, `_bracketing_expiries`, `depth5`, `build_fast_asset_index` and `read_depth_views_for_specs`.
- Dashboard route dispatch, the HTTP server, argument parsing, report printing.
- WebSocket, HTTP, files, threads, sleeps: one message or one critical section is one step.
- Market-state store, decode pipeline, risk engine, order-decision engine, planner, paper ledger and oracle compiler: only called from the modelled code.
