# A verified model of the harness benchmark's measuring code

The benchmark drives agent harnesses through a fake model provider and turns what it observes into matrix rows. This
project models the parts whose results everything else relies on, and proves what they guarantee:

- **The event collector of the per-invocation driver.** It tails a growing stdout or journal file, keeps an unparsed
  tail and held records, normalizes records into events with stable ids and consecutive cursors, indexes them, applies
  late corrections and mirrors the index to a durable file. `Framing`, `Events`, `Polls`, `EventIndex` and `Driver` model
  it with a driver class whose maps are updated in place. `JsonLines` says that what a writer appends is what a poll
  reads, `Additions` which events records add, and `Reports` how a turn ends. `Polls` and `Exactness` prove when polling a
  turn any number of times leaves what one completed poll leaves, `Collection` lifts that to the driver and to the
  runner's waiting loop, and `Expanded` gives a source for which it fails.
- **The cross-run determinism comparison.** `Json`, `Pointers`, `Comparison`, `Normalization`, `Streams` and `Rows` model
  the recursive JSON diff, the attempt bookkeeping and the two evaluators that should agree but compute differently;
  `Templates` and `Twins` show that runs which differ only in their own paths and markers are identical for both.
- **Token economics.** `Base64`, `Tokenizer` and `CachePrefix` model the vocabulary decoder, byte-pair merging and the
  accounting of cacheable and invalidated prefixes.
- **Fidelity and report comparison.** `Carriers` and `Fidelity` model needle survival and tool-result retention,
  `ReportDiff` the join of two reports and its gating flag.

`Prelude`, `Sorting`, `Fractions` and `Text` hold the shared vocabulary. A byte string is a Dafny `string` with one character per
byte (`seq<bv8>` where the code computes on bytes). JSON objects are finite maps, listed in key order when serialized;
a number is its rendering; `Json.Parse` reads the text back. Saturating counters are natural numbers, fractions are reals.

Five results are worth knowing before reading on.

- The two determinism rows do not always agree: `0.0` and `-0.0` compare equal but are serialized differently, so row 63
  can find nothing varying while row 64 reports different streams. `Rows.RowsAgree` states exactly when: the runs agree
  as values, and at some request and path run 1 and another run hold float zeros of different sign.
  `Rows.SignedZeroSeparatesRows` gives two complete runs that show it.
- Poll independence fails for a terminal event that is found only inside an expanded array: a running poll looks at the
  record as a whole, does not hold it back, and drops the terminal. The shipped goose mapping has such a rule, and
  `Expanded.ExpandedTerminalLost` shows a provider error of goose being lost. `Polls.Covered` is the condition on a record
  under which it cannot happen. `Exactness.PollIndependenceExactly` shows, for a turn that one completed poll can collect,
  that a run of polls is harmless if all the records it takes are covered, and harmful if it takes an uncovered record
  that is not indexed yet and shares its source id with no other untaken record of the turn.
- Poll independence also ends with the turn. When a journal turn is cancelled without a cancel command and the next one is
  launched, records that a poll saw and held back are skipped by the next turn, while without that poll the next turn
  would read them; `Collection.PollCancelSubmit` shows that nothing is lost exactly if the poll held nothing back.
- A passing optional facet that was recorded as undeclared may fail in the next report without gating
  (`ReportDiff.FacetAddedHidesFailure`); that is the only exception to the gating rule (`ReportDiff.RowRegresses`).
- The vocabulary decoder accepts a `=` in the third place of an unpadded chunk and reads it as `A`
  (`Base64.MisplacedPaddingDecodes`); `Base64.DecodedEncodes` says exactly which texts survive decoding and encoding.

## Model

| member | source | states |
|---|---|---|
| Framing.FramingGrows | src/driver.rs:2570-2595 | appending bytes appends records: the parse of the longer file extends the parse of the shorter, and a well-framed file has only well-framed beginnings |
| Framing.ParseEventRecords | src/driver.rs:4697-4742 | parsing a block yields the records of its lines, skipping lines that do not parse |
| Framing.ParseJournalRecords | src/driver.rs:4744-4760 | a journal block fails exactly if a complete line is corrupt, and otherwise yields the records of its lines |
| Framing.ReadChunk | src/driver.rs:2578-2593 | one chunk keeps the cursor in step with the bytes read: dropped plus held records are the parse up to the last newline, and the pending bytes are what follows it |
| Framing.ReadSource | src/driver.rs:2554-2594 | for every way of cutting the rest of the file into chunks, reading succeeds exactly if the whole file obeys the record limit and holds no corrupt complete line |
| Framing.FlushPending | src/driver.rs:2595-2598 | at the end of a finished stdout the records are those of the file with a newline at its end, so that the last unterminated line is a record too |
| Framing.VisibleIsParsed | src/driver.rs:2570-2598 | a finished stdout shows what it parses to with a newline at its end; a running one, and a journal at any time, what its complete lines parse to |
| JsonLines.ObjectsReadBack | src/driver.rs:4697-4742 | objects written one on a line, plain or as server-sent events, are read back as they are; one on a last line without its newline is read once the stdout is finished, and not before |
| JsonLines.CorruptLineFails | src/driver.rs:4744-4760 | a journal with a complete line that does not parse is not read at all, and a torn last line is ignored |
| JsonLines.NotData | src/driver.rs:4697-4742 | of a stream of server-sent events only data lines carry something, and the end mark does not |
| JsonLines.LimitMeans | src/driver.rs:2554-2594 | the record limit is kept exactly if no stretch of the bytes without a newline is longer |
| Events.FoldRecordsExtends | src/driver.rs:2858-2974 | normalizing any records only extends the index, by events with fresh ids of the session's namespace, consecutive cursors, and terminals only where they are allowed |
| Events.FoldRecordsAppend | src/driver.rs:2858-2974 | normalizing records in two portions, with the seen ids carried over, gives the events of normalizing them at once |
| Events.Corrections | src/driver.rs:2837-2857 | exactly the indexed tool events with an outdated payload are corrected, in id order, and a correction repeats id, cursor, vocabulary, session and actor |
| Events.NormalizeRecordsAt | src/driver.rs:2755-2975 | the nested loops produce the corrections and exactly the events, ids and cursors of the left-to-right fold over records, rules and expansions, or its error; each event is what one rule gives for one element of one record, with the vocabulary entry that the rule names and the record's actor, its payload rewritten only if it is a tool event |
| Events.VocabularyNames | src/events.rs:193-213 | every vocabulary entry is found by its own name and by no other |
| Events.IdentifiedHolds | src/driver.rs:2930-2950 | before a record is mapped it gets the event's id and cursor, the session and, if it names none, the marker as its actor; everything else stays |
| Events.PayloadHolds | src/events.rs:107-144 | a bound field of a payload is what its pointer finds in the record, any other field what was extracted, and the raw record is kept |
| Events.FieldMatchesText | src/events.rs:168-177 | a field matches exactly if it is a text, a flag or a number that is written as expected |
| Polls.ClassifyExit | src/driver.rs:4632-4681 | a failure exactly for another exit code, a failure marker or error record in stdout, or declared success markers of which none occurs; a success otherwise |
| Polls.CategoryMeans | src/driver.rs:4632-4681 | a failure is categorized by the first declared name of its exit code, and without one as a failure marker, a contradicted success or an unmapped exit |
| Polls.ExitPayloadHolds | src/driver.rs:4632-4681 | the exit's details hold its status, and of a failure the category |
| Reports.ErrorLineFails | src/driver.rs:4683-4695 | an error record on a line of stdout fails the exit, whatever its code |
| Polls.RunningAddsNoTerminal | src/driver.rs:3046-3073 | a poll while the child runs indexes no terminal event and keeps what was indexed |
| Polls.CompletedEndsTurn | src/driver.rs:3119-3152 | the completing poll leaves a terminal among its additions, and the last one is the exit contract's class, a cancellation or a timeout |
| Reports.ExitAdds | src/driver.rs:3119-3141 | the exit adds its own event exactly if no reported event ended the turn or the last one that did is another success or failure |
| Reports.ReportedClassStands | src/driver.rs:2858-3152 | if a new record reports just the exit's class and none after it reports any, the completed poll adds nothing of the exit's, and the last event that ends the turn is of that class |
| Reports.MockSuccess | adapters/mock-exec/manifest.toml:155-158 | the mock harness's success in the last line of its source, terminated or not, is indexed as this one success |
| Reports.HeldExactly | src/driver.rs:3052-3070 | where terminal rules match whole records, a running poll holds back exactly the records that report a terminal |
| Polls.PlainRulesCover | src/driver.rs:3052-3070 | if no terminal rule expands an array, every record with a terminal is held back while the child runs |
| Polls.RecordsIgnoreFlag | src/driver.rs:2867-2879 | on records that are not held back, normalizing with and without terminals gives the same events |
| Polls.RunningTwice | src/driver.rs:3049-3073 | two running polls succeed exactly if the later one alone would, and collect the same |
| Polls.PollsCollapse | src/driver.rs:3049-3073 | polling a growing source any number of times collects what one poll of its last state collects |
| Polls.PollThenComplete | src/driver.rs:3027-3173 | a running poll that takes only covered records changes nothing about the completed outcome |
| Polls.PollIndependence | src/driver.rs:3027-3173 | any number of running polls over a growing source, then the completed one, leave the same ids, cursors, vocabulary, sessions and actors, seen ids and next cursor as one completed poll, provided the records the polls take are covered; and they succeed whenever it does |
| Polls.PlainPollIndependence | src/driver.rs:3027-3173 | where no terminal rule expands an array, polls never change the outcome |
| Expanded.ExpandedTerminalLost | adapters/goose/manifest.toml:137-142 | goose reports a provider error as the only line of a turn: one completed poll records that failure, a running poll first consumes it without a trace and the exit's own terminal alone remains |
| Expanded.RepeatedMessageRecovers | adapters/goose/manifest.toml:137-142 | the same message written twice: the running poll takes an uncovered record and the outcome is unchanged all the same |
| JsonLines.OneJsonLine | src/driver.rs:4697-4742 | an object written as one compact line is read back as exactly one record |
| Exactness.CoveredExactly | src/driver.rs:2867-2906 | a record that is not held back and new to the index is normalized alike with and without terminals if and only if no terminal rule matches one of its expanded elements |
| Additions.EventIdsDiffer | src/driver.rs:2919-2928 | an id determines the source id of its record, the rule and the expanded element |
| Additions.RecordsAddTheirs | src/driver.rs:2858-2974 | every new entry is what one rule gives for one element of one record, with its id, the vocabulary entry that the rule names and the record's actor; and of no rule that fires for the records an entry is missing |
| Exactness.UncoveredPollLoses | src/driver.rs:3049-3152 | a running poll that takes an uncovered record, not indexed yet and alone with its source id among the untaken ones, fails or makes the completed outcome another one |
| Exactness.PollIndependenceExactly | src/driver.rs:3027-3173 | where a turn can be collected at once, and its polls take no uncovered record or one that is new and alone with its source id, polls on the way succeed and lead to the same outcome if and only if all records they take are covered |
| Exactness.DistinctSourcesDecide | src/driver.rs:2906-2923 | records that are all new and of different sources meet that condition, whatever the polls take |
| Polls.HeldBackLost | src/driver.rs:2496-2501 | what a poll takes, what it holds back and what comes after are all untaken records; without what it holds back they are all of them if and only if no visible record is held |
| EventIndex.LoadCache | src/driver.rs:2603-2631 | the index rebuilt from the file holds each event under its cursor, and by id the last event of each id |
| EventIndex.AppliedStamps | src/driver.rs:2633-2690 | corrections leave ids, cursors and order of the file as they were, and additions extend it with consecutive cursors |
| EventIndex.AppliedKeeps | src/driver.rs:2837-2857 | publishing corrections and additions changes nothing of what was indexed but payloads of tool events |
| EventIndex.AppliedSplit | src/driver.rs:2633-2690 | the published file is the old one corrected, then exactly the additions |
| EventIndex.InsertChanges | src/driver.rs:2633-2650 | inserting the changes one by one keeps index and file in agreement |
| EventIndex.AppendingSuffices | src/driver.rs:2651-2665 | when no change touches an indexed cursor, appending to the file is the same as applying the changes |
| EventIndex.IndexAgreesWithDisk | src/driver.rs:3378-3402 | reading the index after any cursor gives what re-reading, filtering and sorting the file gives, namely the events with greater cursors |
| Driver.CollectAdditions | src/driver.rs:3074-3151 | exactly the outdated tool events are corrected, the additions fit the file and reach the specified progress, and each is what a rule gives for a consumed record, up to the exit's details, or the exit's own terminal with its payload |
| Driver.CloseTurn | src/driver.rs:3086-3152 | the exit's details are merged into the new events, and a terminal with these details is added exactly where the turn needs one |
| Driver.MergeExitAt | src/driver.rs:3101-3118 | only the last success, failure or timeout can gain the exit's details, only if it is of the exit's class, and it keeps every field it has |
| Driver.PerInvocationDriver.TakeEventCache | src/driver.rs:2603-2631 | the cache leaves the driver in agreement with the file; a new turn forgets the ids of the turn before |
| Driver.PerInvocationDriver.PersistEventCache | src/driver.rs:2633-2690 | the published file is the old file with the changes applied, and the cache put back mirrors it |
| Driver.PerInvocationDriver.CachedAfter | src/driver.rs:3378-3402 | the events after a cursor, from the cache or from the file |
| Driver.PerInvocationDriver.SourceRecords | src/driver.rs:2464-2602 | the cursor ends in step with the file, hands out the records from its absolute base on, and fails exactly if the file is not well framed |
| Driver.PerInvocationDriver.RefreshSource | src/driver.rs:3027-3173 | the poll has the outcome of the specification, running or completed, leaves file, cache and cursor in order, and the file afterwards is the old one with the corrections applied plus additions whose payloads come from the consumed records or the exit |
| Driver.PerInvocationDriver.RefreshInactiveJournal | src/driver.rs:3175-3204 | without an invocation a journal is indexed to its end and a stdout session is left alone |
| Driver.PerInvocationDriver.CreateSession | src/driver.rs:3457-3497 | a new session starts at cursor 1 with no turns and nothing collected; an existing one is only reopened, with everything collected for it, and an empty marker changes nothing |
| Driver.PerInvocationDriver.Submit | src/driver.rs:3509-3626 | a launch succeeds exactly for an idle open session, takes the next invocation number and a stdout file never used before, and leaves all that was collected as it was; the new turn begins at its stdout's first record, or after all that was read of the journal |
| Driver.PerInvocationDriver.PollActive | src/driver.rs:3645-3698 | polling a running invocation has the specified outcome, payloads included, ends the turn exactly at its exit, touches no other session, and the next poll starts where it stopped |
| Driver.PerInvocationDriver.Attach | src/driver.rs:3639-3715 | attach polls as specified and returns the indexed events after the given cursor |
| Driver.PerInvocationDriver.Cancel | src/driver.rs:4120-4196 | fails only for an unknown session or if collecting what the cancel command left fails; an idle session is left alone; otherwise the turn is over, and exactly one cancellation is appended or, with a cancel command, what the client reported; without one the source is not read again |
| Driver.PerInvocationDriver.ForceStopSession | src/driver.rs:4198-4238 | an idle session is left alone; otherwise it succeeds exactly if the killed client's source can be collected as a completed turn, a journal to its end, and leaves that |
| Driver.PerInvocationDriver.Close | src/driver.rs:4240-4280 | succeeds exactly if a running turn can be stopped, adds to the index what stopping adds, and closes the session; closing an idle one leaves all that was collected as it was, and closing again changes nothing |
| Driver.PerInvocationDriver.CloseDelete | src/driver.rs:4282-4327 | succeeds exactly if a running turn can be stopped and, for a used session not deleted yet, a command is declared; without one it is reported unsupported and the stopped session stays open; a session never used is only closed |
| Driver.PerInvocationDriver.Resume | src/driver.rs:3959-4022 | a running session cannot be resumed; otherwise the counters survive, and a journal session without a resume command is indexed anew from its beginning |
| Driver.PerInvocationDriver.Lifecycle | src/driver.rs:3509-3626 | in every reachable state ended turns plus the running one do not exceed the invocations, a closed session has none running, and stdout numbers lie within the invocations |
| Driver.PerInvocationDriver.IndexMirrorsFile | src/driver.rs:2633-2665 | in every reachable state the file lists the cursors from 1 to the next one, the index holds exactly these, and both give the same events after every cursor |
| Collection.AttachAll | src/driver.rs:3639-3715 | attaching while the invocation runs and once after its exit succeeds exactly if the running polls and the completed one do, and leaves what they come to |
| Collection.CollectTurn | src/driver.rs:3639-3715 | if one completed poll could collect the turn, attaching on the way collects the same provided the running polls take only covered records, and does not if they take an uncovered one that is new and alone with its source id |
| Collection.CollectFidelityTerminal | src/runner.rs:4620-4680 | the waiting loop never finds the client gone without a terminal; in a session without earlier terminals it sees one exactly at the exit, if all attaches succeed, and returns the events that the polls come to; an earlier terminal makes the first attach end it |
| Collection.CancelAndSubmit | src/driver.rs:4137-4149 | after a journal turn is cancelled without a command, the next one knows no ids and begins after every record read, those held back included |
| Collection.PollCancelSubmit | src/driver.rs:2496-2501 | a poll, a cancellation without a command and the next launch: the poll's records and those the next turn reads are all untaken ones if and only if the poll held nothing back |
| Json.SerializeInjective | src/determinism.rs:475-492 | two values with the same compact text are the same value |
| Json.SerializedParses | src/determinism.rs:475-492 | reading the compact text of a value gives the value back (section 2 of RFC 8259) |
| Json.EqualWithoutNegativeZero | src/determinism.rs:475-492 | away from negative float zeros, values that compare equal are the same value |
| Pointers.DecodePointerSegment | src/determinism.rs:167-188 | the character loop decodes a segment as specified, or reports the first bad escape |
| Pointers.PointerRoundTrip | src/determinism.rs:190-201 | a pointer parses to a key list if and only if it is the rendering of that list (sections 3 and 4 of RFC 6901) |
| Pointers.RenderInjective | src/determinism.rs:306-310 | different key lists have different pointers |
| Pointers.PatternCoversExtensions | src/determinism.rs:222-235 | a pattern that matches a pointer matches every extension of it |
| Pointers.PatternSelects | src/determinism.rs:203-235 | a pattern selects exactly the paths that begin with its literals, with any key at a wildcard |
| Pointers.CriticalEverywhere | src/determinism.rs:622-634 | the whole body and everything at or below the five routing fields is critical, and nothing else is in every dialect |
| Pointers.CriticalIds | src/determinism.rs:606-646 | which id fields are critical in each dialect, by keys |
| Comparison.ReorderIsPermutation | src/determinism.rs:475-492 | two arrays count as reordered exactly if they are unequal permutations of each other |
| Comparison.PushPresentSubtree | src/determinism.rs:498-533 | every leaf of a subtree present on one side only is reported once, against nothing |
| Comparison.VisitInto | src/determinism.rs:534-599 | the recursive walk pushes exactly the specified occurrences |
| Comparison.ComparisonSoundAndComplete | src/determinism.rs:494-604 | the diff is never empty, and all its occurrences have equal sides if and only if the two values are equal |
| Comparison.ComparisonPointers | src/determinism.rs:494-604 | the pointers of the diff are pairwise distinct and each occurrence reports what the two values hold at its pointer |
| Comparison.ComparisonLeaves | src/determinism.rs:494-604 | the diff reports exactly the paths at which something is held that is not opened while everything above is: arrays open with arrays and objects with objects, unless both are empty or one reorders the other |
| Comparison.ComparisonSwapped | src/determinism.rs:494-604 | swapping the arguments swaps the two sides of every occurrence |
| Comparison.LookupReaches | src/events.rs:168-177 | a JSON pointer finds what is at the path that it renders (section 4 of RFC 6901) |
| Normalization.NormalizationIsLocal | src/determinism.rs:287-377 | what normalization leaves at a path depends only on the value there before and on its pointer |
| Normalization.OutsideAllowlistKept | src/determinism.rs:249-285 | a string at a pointer that the allowlist names for no kind survives unchanged |
| Templates.ContentByKeys | src/determinism.rs:135-153 | which fields are content in each dialect, by keys |
| Templates.SourcesInOrder | src/determinism.rs:274-279 | each nonempty source of a kind is tried once, a longer one before a shorter one |
| Templates.KindsInOrder | src/determinism.rs:310-374 | a string is normalized by the replacements of all allowed kinds, one after the other |
| Templates.ReplacedParts | src/determinism.rs:280-284 | a text cut by a source into parts becomes these parts with the sentinel between them |
| Templates.EveryTextCuts | src/determinism.rs:280-284 | every text is cut by every source into such parts |
| Templates.SeamFoundFirst | src/determinism.rs:280-284 | a source that overlaps itself is found across the seam of parts that do not hold it, so that other parts stay than the text was built from |
| Templates.FilledNormalizes | src/determinism.rs:263-285 | a template filled with owned values, each found in its places and nowhere else when its turn comes, becomes the template filled with their sentinels |
| Twins.ContentReplacements | src/determinism.rs:310-374 | in content the workspace is replaced first, then sockets, temporary paths, profile and run markers, each by its own sentinel, and secrets are not |
| Twins.ContentNormalized | src/determinism.rs:263-374 | chat content built from a run's own paths and marker, in any number and order, becomes the same text with the five sentinels |
| Twins.SecretsNormalized | src/determinism.rs:249-261 | the credential and the execution id are replaced in their own metadata fields |
| Twins.OneKindAlike | src/determinism.rs:263-374 | texts that differ only in each run's own value of one kind are alike, if the value cuts them into the same parts and nothing that is replaced before it occurs in them |
| Twins.AlikeNormalizes | src/determinism.rs:287-377 | bodies of one shape whose strings differ only in owned values normalize to the same body |
| Streams.ComparableRequests | src/determinism.rs:425-454 | a run is comparable exactly if its collection is complete and no semantic key repeats, and each key keeps its normalized body |
| Streams.StreamBody | src/determinism.rs:435-452 | with distinct keys, each record contributes its dialect, its own normalized body and its declared total |
| Streams.AttemptMultiplicity | src/determinism.rs:668-722 | the attempt table exists exactly if each request declares one positive total and its attempts are 1 to that total; otherwise the first request in key order that does not is reported, for its totals or else for its attempts |
| Streams.CountsDescribeKeys | src/determinism.rs:668-722 | a stream's request keys are exactly the attempts that its table counts |
| Streams.AttemptConservation | src/determinism.rs:668-722 | the declared totals sum to the number of requests |
| Streams.SameTotalsSameKeys | src/determinism.rs:724-765 | two streams with equal attempt tables have equal request keys |
| Streams.SameKeysSameTotals | src/determinism.rs:889-898 | equal request keys force equal attempt tables, so comparing the tables adds nothing |
| Streams.FirstStreamDifference | src/determinism.rs:724-809 | no difference exactly if the tables and, key by key, the bodies are equal; otherwise the first one in key order, and what it says of the two sides is so |
| Streams.OnlyBodiesRemain | src/determinism.rs:766-809 | after equal tables the second loop can only report a body |
| Rows.StreamBytesDecide | src/determinism.rs:648-666 | the length-framed bytes of two streams with the same keys are equal exactly if all bodies have the same text |
| Rows.EvaluateCrossRunReproducibility | src/determinism.rs:816-908 | row 64 is complete exactly for ordered, collectable, consistent and not all empty runs, and identical exactly if every run has run 1's keys and bodies and hash; otherwise it reports the first run that cannot be used, and why |
| Rows.EvaluateNondeterministicFields | src/determinism.rs:929-1099 | row 63 counts exactly the varying and comparable occurrences of all comparisons, with the fields, types, runs and dialects they came from; the score makes up the leaves that do not vary, is 1 exactly if none does and 0 exactly if all do, and runs that agree pass the envelope; otherwise it reports the first run or comparison that cannot be used |
| Rows.ScoreMeans | src/determinism.rs:1057-1058 | the score times the comparable leaves is the number of those that do not vary, and it is at least 0.99 exactly if at most one leaf in a hundred varies |
| Rows.AgreeingRunsPass | src/determinism.rs:967-1069 | runs that agree vary nowhere and are within the envelope |
| Rows.VaryingPositions | src/determinism.rs:1020-1045 | the varying total is the number of positions that vary |
| Rows.PointerPositions | src/determinism.rs:1020-1045 | the occurrences of a field are the positions that vary at its pointer |
| Rows.MissingRequestVaries | src/determinism.rs:988-1018 | a request that only one run has is one varying leaf at the root, an object on its side and missing on the other |
| Rows.TypeByText | src/determinism.rs:456-473 | the reported type of a value is the one that the first character of its text shows |
| Rows.FieldBookkeeping | src/determinism.rs:1032-1046 | the varying total is the sum of the per-field occurrences and at most the comparable total |
| Rows.ReferenceEnvelope | src/determinism.rs:1046-1069 | the envelope passes exactly if at most one leaf in a hundred of every comparison varies and no varying field is critical, although one side judges by request and the other by field |
| Rows.ComparisonVaries | src/determinism.rs:971-1048 | a comparison varies nowhere exactly if the two streams have the same keys and equal bodies |
| Rows.EqualUpToZeros | src/determinism.rs:475-492 | values that compare equal are different exactly if at some path they hold float zeros of different sign |
| Rows.RowsDifferOnZerosOnly | src/determinism.rs:816-1099 | row 64 never says identical where row 63 finds variation, and whatever the hash, the reverse happens only where a float zero changed its sign |
| Rows.RowsAgree | src/determinism.rs:816-1099 | the two rows differ if and only if all runs have run 1's keys and equal bodies and at some key and path run 1 and another run hold float zeros of different sign |
| Rows.RowsAgreeWithoutNegativeZero | src/determinism.rs:816-1099 | without negative float zeros, identical if and only if nothing varies, whatever the hash |
| Twins.TwinRunsIdentical | src/determinism.rs:816-1099 | runs that differ from run 1 only in what each run owns are identical for row 64, and nothing varies for row 63 |
| Rows.SignedZeroSeparatesRows | src/determinism.rs:1029-1034 | two complete runs that differ by the sign of a zero: nothing varies, and they are not identical |
| Tokenizer.LeastMerge | src/economy.rs:1392-1406 | the merge chosen is the least by rank, then by position, and there is none only if no neighbours merge |
| Tokenizer.EncodePiece | src/economy.rs:1384-1412 | a piece in the vocabulary is one token; any other has the tokens that its single bytes become by least merges until nothing is left to merge |
| Tokenizer.TokensUnique | src/economy.rs:1384-1412 | these are the only tokens of a piece |
| Tokenizer.PieceGuarantees | src/economy.rs:1384-1412 | the tokens of a piece join to it, each is a byte or a vocabulary entry, and no two neighbours form an entry |
| Tokenizer.Encode | src/economy.rs:1358-1382 | the text is encoded piece by piece, each piece with the tokens it has, exactly if the matches leave no byte out, and otherwise the first gap is reported |
| Tokenizer.FirstGapMeans | src/economy.rs:1358-1382 | there is no gap exactly if the matches tile the text; the gap reported lies before the first match that does not follow the one before |
| Tokenizer.TextGuarantees | src/economy.rs:1358-1382 | the tokens of a text join to the text and all belong to the vocabulary |
| Base64.DecodeBase64 | src/economy.rs:1415-1458 | the loop over chunks decodes as specified, with the same errors |
| Base64.ChunkErrors | src/economy.rs:1431-1449 | a chunk fails for its padding if it ends in three `=`, or in any although others follow, and otherwise exactly if some character may not stand in its place |
| Base64.EncodedDecodes | src/economy.rs:1415-1458 | decoding the padded encoding of any nonempty bytes returns them (section 4 of RFC 4648) |
| Base64.DecodedLength | src/economy.rs:1431-1456 | a successful decode has three bytes per chunk less the final padding |
| Base64.DecodedEncodes | src/economy.rs:1431-1456 | encoding what was decoded returns the text if and only if it has no misplaced `=` and no stray bits before its padding |
| Base64.DigitsOfAlphabet | src/economy.rs:1431-1449 | the digits are those of the alphabet, in its order (table 1 of RFC 4648) |
| Base64.GroupBits | src/economy.rs:1450-1456 | four digits spell out the bits of three bytes, from the most significant on |
| Base64.BytesBits | src/economy.rs:1450-1456 | the decoded bytes spell out the bits of their digits |
| Base64.MisplacedPaddingDecodes | src/economy.rs:1440-1449 | a text that is not an encoding and decodes all the same |
| CachePrefix.TokenLcpLen | src/economy.rs:936-942 | the length of the longest common prefix: equal up to there and no further |
| CachePrefix.MeasureCachePrefix | src/economy.rs:857-927 | the accounting loop computes the sums over the transitions of the history, and fails exactly if a request cannot be encoded, with the error of the first such request |
| CachePrefix.AccountingBounds | src/economy.rs:868-907 | eligible tokens are at most all tokens, and with the invalidated ones at most the tokens of all requests before the last |
| CachePrefix.LostMeans | src/economy.rs:880-905 | a request that only adds messages loses nothing, and any other every prior token from the first difference on |
| CachePrefix.LengthsMean | src/economy.rs:868-870 | the denominator is the number of all tokens |
| CachePrefix.AccountingExact | src/economy.rs:868-907 | all tokens before the last request are eligible exactly if each request adds to the tokens of the one before; eligible and invalidated ones make up all exactly if whatever only adds messages only adds tokens |
| CachePrefix.MetricsMean | src/economy.rs:908-927 | fractions lie in 0 to 1, there is one entry per transition and they sum to the total, and no transition loses anything if and only if each only appends messages or tokens |
| CachePrefix.AppendOnlyKeepsCache | src/economy.rs:929-934 | a history that only appends messages busts no cache, however it is tokenized |
| CachePrefix.EffectiveTokensBounds | src/economy.rs:417-418 | effective tokens stay between a tenth of all tokens and all of them |
| CachePrefix.EffectiveTokensExact | src/economy.rs:417-418 | every eligible token saves nine tenths of a token |
| Carriers.ToolResultCarriers | src/fidelity.rs:397-432 | the recursive walk fills the map with all carriers in document order, the last of an id staying |
| Carriers.LastCarrierStays | src/fidelity.rs:411-418 | each entry is the last carrier of its id |
| Carriers.CarrierMeans | src/fidelity.rs:406-410 | a tool result has role `tool` or one of the two result types, and nothing else is one |
| Carriers.CarrierIdMeans | src/fidelity.rs:412-415 | the first of four fields that holds a text names the call |
| Carriers.CarriersByPath | src/fidelity.rs:397-432 | the walk finds exactly the tool results that stand somewhere in the request, outside of other tool results |
| Carriers.CarriersInRequest | src/fidelity.rs:397-432 | the bytes of every carrier are a contiguous part of the serialized request |
| Fidelity.CarriedIsPresent | src/fidelity.rs:319-332 | a needle found in a tool result is found in the whole request |
| Fidelity.NeedleMeans | src/fidelity.rs:307-349 | a needle is planted by the first turn whose tool results carry it and present from then up to its loss, which comes strictly later and finds it gone; it reappeared exactly if a later turn has it again |
| Fidelity.CurveBound | src/fidelity.rs:351-373 | a point of the survival curve is at most the share planted so far, and equal to it exactly if every planted needle is in the request |
| Fidelity.CurveCounts | src/fidelity.rs:351-373 | a point of the survival curve makes up the number of planted needles that the request contains |
| Fidelity.SurvivalCurveMeans | src/fidelity.rs:351-373 | no needle was lost if and only if the whole curve is the share planted so far, and then it never falls |
| Fidelity.ToolResultRetentionCurve | src/fidelity.rs:375-395 | each point is the share of delivered tool results that the request still carries byte for byte |
| Fidelity.FirstDeliveryStays | src/fidelity.rs:380-382 | the first delivered bytes of an id are never overwritten |
| Fidelity.DeliveredByFirst | src/fidelity.rs:380-382 | an id is delivered exactly if some request carried it, with the bytes of the first that did |
| Fidelity.RetentionCounts | src/fidelity.rs:383-392 | a point of the retention curve makes up the number of delivered results that are still carried verbatim |
| Fidelity.RetentionExact | src/fidelity.rs:375-395 | the curve lies in 0 to 1 and is 1 throughout if and only if every delivered tool result is sent byte for byte in every later request |
| ReportDiff.ResultsById | src/diff.rs:889-905 | the join map exists exactly if no row key repeats, and lists exactly the results; otherwise the first repetition is reported |
| ReportDiff.RowRegresses | src/diff.rs:941-1017 | a row regresses exactly if it is core or optional, passed, and is now missing or not passing, other than a newly declared facet |
| ReportDiff.CoreChange | src/diff.rs:979-1016 | what the change of a core row is called |
| ReportDiff.CoreMirrored | src/diff.rs:979-1016 | read in the other direction, a core row's regression is an improvement and the other way round |
| ReportDiff.InformationalRow | src/diff.rs:1041-1052 | what the change of an informational row is called: one of what was measured, or of whether it was |
| ReportDiff.FacetChange | src/diff.rs:961-1009 | when an optional facet is added or removed; otherwise it changes as a core row does |
| ReportDiff.RequirementMeans | src/diff.rs:907-931 | a registered row has its registered requirement, any other one what its result says |
| ReportDiff.FacetAddedHidesFailure | src/diff.rs:965-971 | a pass that becomes a failure without gating |
| ReportDiff.CompareRows | src/diff.rs:851-887 | exactly one line per row of either report, each with that row's change, in order of row and id; the flag is set exactly if some row regressed, which without storage rows and undeclared passes means that some core or optional pass was lost; repeated keys are reported for the left report first |
| ReportDiff.LineSays | src/diff.rs:868-887 | a line gives the row of the later report that has it, both outcomes by name, its requirement and its change |
| ReportDiff.GatingExact | src/diff.rs:868-875 | when one key gates, storage rows included |
| ReportDiff.GatingPlain | src/diff.rs:868-875 | if no passing row is recorded as an undeclared facet, a non-storage row gates exactly if it is not informational, passed, and no longer does |
| ReportDiff.GatingRule | src/diff.rs:851-887 | without storage rows and undeclared passes, some key regresses if and only if some core or optional row passed on the left and is missing or not passing on the right |

## Left out

- Polls.PollIndependence: covers the sequence of ids, cursors, vocabulary, sessions and actors, not payloads, because a payload may be completed from calls that an earlier poll already indexed.
- Exactness.PollIndependenceExactly: the "only if" asks for one uncovered record that is not indexed yet and shares its source id with no other untaken record; if every uncovered record shares its source id, a later one can bring back the lost terminal, as `Expanded.RepeatedMessageRecovers` shows.
- Collection.CollectFidelityTerminal: the clock is an input, in that time is up when the given polls are over; the exit of a managed daemon is not looked at.
- Driver.PerInvocationDriver.Cancel: for a journal turn stopped through a command, states ids, cursors, vocabulary, sessions and actors of what its two polls add; their payloads are stated poll by poll by `RefreshSource` and `RefreshInactiveJournal`. The same holds for ForceStopSession, Close and CloseDelete.
- Framing.ReadSource: says when reading fails, not which of several errors comes first, because that depends on how the bytes are cut.
- Twins.OneKindAlike: asks that the value cuts both texts at its first occurrences; a value that overlaps itself can be found earlier than it was put, as `Templates.SeamFoundFirst` shows.
- Polls.ClassifyExit: the category and status of a failed exit are modelled in its payload, its exit code, marker text and idle-timeout wall time are not.
- Tokenizer.Encode: the regular expression that finds the pieces is a parameter, a list of matches in order.
- Rows.RowsAgree: SHA-256 is a parameter; the statement assumes no collision among the runs' own streams and bodies shorter than 2^64 bytes.
- Framing.ParseEventRecords: covers the line formats, not whole-document sources (framing `json`), which are reparsed when their metadata changes.
- Driver.PerInvocationDriver.TakeEventCache: without whole-document journals, whose ids stay across turns.
- Driver.PerInvocationDriver.SourceRecords: without whole-document sources, file identity and modification times.
- Events.Corrections: when a payload is outdated and how it is rewritten are parameters, because the native formats differ by harness.
- Events.NormalizeRecordsAt: seeding and rewriting of fixture calls are parameters, and the check of native session identities is left out.
- Symbolic links, and sources that shrink or are replaced between polls.
- Events that learn harness identifiers, contract inspection of unmapped payload kinds, lifecycle notes and receipts.
- The details of native fixture calls: corrections and canonicalization are kept as changes of a payload by a parameter.
- Starting, signalling and reaping processes, launch gates, timeouts, daemons and control commands; how a child ended and what a file holds at each poll are inputs.
- Recovery from stale session files, durable replay, and any operation after one that returned an error.
- Trimming of Unicode white space: only ASCII white space is trimmed.
- Choosing the reports to compare (`newest`, `resolve_latest_pair`) and every summary beside the row join.
- Overflow of 64-bit counters and rounding of floating-point fractions.
- Loading the tokenizer's vocabulary file beyond its base64 column, redundant-token counts and the remaining economy metrics.
- The per-row evaluators and matrix evidence, which are long tables of independent checks, and report rendering and the command line.
