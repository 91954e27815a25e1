# Verified models of the back office core

The repository is a multi-tenant back office: WhatsApp attendance, trips, fleet imports and documents.
This project models its self-contained algorithms, parsers and protocols in Dafny and proves what they are
relied on for. Everything verifies with `dafny verify dfyconfig.toml`.

- **Fleet data.** `AvicJson`, `Decimals` and `Measurement` model the provider client: the scanner that
  rewrites JSON so that every number survives as text, and the exact conversion of a decimal text to
  thousandths. `ExactDecimals`, `Odometer`, `OdometerSweep`, `OdometerAnalysis` and `OdometerResults` model
  the odometer analysis: exact decimal arithmetic, the one-pass interval sweep against its all-pairs
  definition, the imperative loops, and what their results mean for the input. `AvicAuth` models the token
  cache as an object whose asynchronous calls interleave.
- **Agent tools.** `ToolArguments` and `ToolAuthorization` model the canonical text behind a confirmation and
  the guards of a tool call; `ToolExecutor` the audited, idempotent execution of a call in a process that may
  fail or die at every call it makes.
- **Documents and imports.** `Crypt15` models the varint and protobuf reader of an encrypted backup's header,
  `KnowledgeChunks` the chunking of a document's text, `Csv` and `CsvLimits` the guarded CSV writer and
  what it accepts, and `MediaArchive` the
  matching of a media archive's files to messages.
- **Aggregates.** `TripPlan` and `Trip` model the versioned trip, `ServiceSession` the control and formal
  closing of a service session, and `ConversationMatrix` the conversation's transitions.

`Text`, `Json`, `Sorting` and `Prelude` hold what several of them share: JavaScript strings as sequences of
UTF-16 code units, RFC 8259 (with sections 6 and 7 for numbers and strings), sorting by a strict order, and
result types.

Code that the source writes as loops or as assignments to fields is modelled by methods and classes, each
proved equal to a specification function; the lemmas are about those functions. Code made of expressions is
modelled by functions.

Some properties that one might expect do not hold of the code. Each has a lemma with a counterexample, and
theorems that say exactly when the property holds:

- the scanner also accepts texts that are not JSON, exactly those that use numbers as object keys
  (`AvicJson.BareKeyIsAccepted`, `AvicJson.ParseAvicAcceptsMore`);
- with inverted intervals or unknown times the sweep differs from the all-pairs definition: it forgets some ties and marks
  records that clash with nothing (`OdometerSweep.InvertedTieIsForgotten`,
  `OdometerSweep.InvertedMarksItsHolder`); what it marks, and when the two differ, is
  `OdometerSweep.SweepMarksExactly` and `OdometerSweep.SweepDiffersExactly`;
- a CSV text without columns does not read back (`Csv.NoColumnsDoNotReadBack`, `Csv.CsvRoundTrip`), and the writer refuses some tables within
  the export limits because its validation counts commas inside quotes (`CsvLimits.QuotedCommasAreCounted`;
  the tables it writes are exactly those of `CsvLimits.AcceptedExactly`);
- the audit may say that a tool call failed or was denied although it took effect
  (`ToolExecutor.FailedAfterEffect`, `ToolExecutor.DeniedAfterEffect`), exactly if an attempt of it took effect
  and its success was not recorded (`ToolExecutor.EndedWithEffectExactly`, `ToolExecutor.EffectExactly`);
- a trip can be under way without ever starting, exactly after a scheduled one is resumed, and a start can move,
  exactly when a suspended trip is started again (`Trip.ResumedWithoutStart` and
  `Trip.UnderwayIsStartedExactly`, `Trip.StartedTwice` and `Trip.StartIsKeptExactly`);
- a summary that awaits confirmation does not survive a human take-over: the bot returns to the follow-up menu,
  although the source has a branch for the summary, which no status reaches
  (`ConversationMatrix.SummaryIsLost`; the steps that come back are those of
  `ConversationMatrix.OwnStepComesBack`).

## Model

| member | source | states |
|---|---|---|
| AvicJson.ParseAvicKeepsValidJson | src/infra/avic/avic-client.ts:6-39 | every text of RFC 8259 is accepted, and its tree comes back with each number replaced by a string of its exact source token |
| AvicJson.ParseAvicIsLax | src/infra/avic/avic-client.ts:6-39 | on every text at all: failure exactly when a reading that also allows numbers as keys fails, otherwise that reading's tree with its numbers quoted |
| AvicJson.ParseAvicAcceptsMore | src/infra/avic/avic-client.ts:6-39 | it accepts a text that is not JSON if and only if the only fault is that numbers are used as keys |
| AvicJson.BareKeyIsAccepted | src/infra/avic/avic-client.ts:6-39 | the text of an object with the key 1 and the value 2, both bare, is such a text |
| AvicJson.TransformValue | src/infra/avic/avic-client.ts:6-39 | reading the rewritten text strictly corresponds, value by value and with the rest of the text, to reading the original laxly |
| AvicJson.ValueTransforms | src/infra/avic/avic-client.ts:6-39 | the scanner does not fail on any value that can be read |
| AvicJson.StrictValue | src/infra/avic/avic-client.ts:6-39 | strict and lax reading agree exactly on values without a bare key |
| AvicJson.ScanLiteral | src/infra/avic/avic-client.ts:12-25 | the inner loop ends just past the closing quote, or fails where the specification does |
| AvicJson.ScanAvicJson | src/infra/avic/avic-client.ts:7-37 | the scanning loop computes the rewriting function, with its errors |
| AvicJson.ParseAvicJson | src/infra/avic/avic-client.ts:6-39 | loop and parser together return the quoted tree, or fail |
| Decimals.MatchIsSound | src/infra/avic/avic-client.ts:83-88 | a match of the numeral pattern accounts for the whole text |
| Decimals.MatchIsComplete | src/infra/avic/avic-client.ts:83-88 | every well-formed numeral is matched, by its own parts |
| Decimals.DenotesCoefficient | src/infra/avic/avic-client.ts:89-95 | the value of a numeral is its digits without the point at a shifted power of ten |
| Measurement.ScaledMeasurementIsExact | src/infra/avic/avic-client.ts:83-104 | for every text: the result is n if and only if the text is within the length and exponent limits, denotes n/1000, and n is at most 9,999,999,999,999,999 in magnitude |
| Measurement.SpellingDoesNotMatter | src/infra/avic/avic-client.ts:83-104 | two spellings of one value give one result |
| Json.QuoteRoundTrip | src/domain/agents/agent-tool-authorization.ts:54-60 | reading back the quoted form of any string of code units gives the string, lone surrogates included |
| ToolArguments.TextsMatchExactly | src/domain/agents/agent-tool-authorization.ts:53-86 | two serializable trees have the same text if and only if they are equal up to member order, with -0 read as 0 |
| ToolArguments.TextIsJson | src/domain/agents/agent-tool-authorization.ts:53-86 | the text is valid JSON and spells the canonical tree |
| ToolArguments.TextReads | src/domain/agents/agent-tool-authorization.ts:53-86 | reading the text followed by anything that ends a value gives the canonical tree and stops where the text ends |
| ToolArguments.StableJsonAccepts | src/domain/agents/agent-tool-authorization.ts:53-86 | exactly the trees without undefined values, functions or non-finite numbers are serialized |
| ToolArguments.SameHasSameText | src/domain/agents/agent-tool-authorization.ts:72-84 | equal trees have one text, however their members are ordered |
| ToolArguments.SameCanonIsSame | src/domain/agents/agent-tool-authorization.ts:72-84 | the canonical tree determines the tree up to member order |
| ToolAuthorization.ConfirmedMeansShown | src/domain/agents/agent-tool-authorization.ts:100-157 | a sensitive write is authorized if and only if the guards pass, a valid confirmation is there, and the arguments are those that were confirmed, and it names the confirming user; any other tool needs the guards alone and names nobody |
| ExactDecimals.DecimalIsExact | src/domain/transport/odometer.ts:62-69 | a finite number's text is taken over exactly |
| ExactDecimals.SubtractIsExact | src/domain/transport/odometer.ts:70-78 | the difference is exact, at the finer scale |
| ExactDecimals.ExceedsIsExact | src/domain/transport/odometer.ts:95-97 | the comparison holds if and only if the value is greater than the threshold |
| ExactDecimals.DecimalTextRoundTrip | src/domain/transport/odometer.ts:79-87 | the printed text reads back to the same units and scale |
| ExactDecimals.ChainTelescopes | src/domain/transport/odometer.ts:62-97 | all distances and gaps along a chain of readings sum exactly to the last reading minus the first |
| OdometerSweep.SweepMarksExactly | src/domain/transport/odometer.ts:182-207 | in every group, with inverted intervals and unknown times, the single pass marks exactly the records that are inverted, that an earlier record reaches, that reach or tie with a later one, or that tie with an earlier one known to end no earlier than all records before the tie |
| OdometerSweep.SweepIsAllPairs | src/domain/transport/odometer.ts:182-207 | on forward intervals the single pass marks exactly the records that share a start with, or strictly overlap, another record of the group |
| OdometerSweep.SweepDiffersExactly | src/domain/transport/odometer.ts:182-207 | in every group the pass and the all-pairs definition differ about a record if and only if it is marked without a clash or is a forgotten tie; both take an inverted record or an unknown time |
| OdometerSweep.InvertedMarksItsHolder | src/domain/transport/odometer.ts:195-202 | a record that clashes with nothing and is marked for a later inverted one |
| OdometerSweep.AmbiguousExactly | src/domain/transport/odometer.ts:208-244 | in every group a record is reported ambiguous exactly when the sweep has cause to mark it or its predecessor, or it starts with its predecessor |
| OdometerSweep.AmbiguousIsAllPairs | src/domain/transport/odometer.ts:208-244 | on forward intervals a record is reported ambiguous exactly when it or its predecessor clashes with another record |
| OdometerSweep.GapIsEvaluatedExactly | src/domain/transport/odometer.ts:208-331 | in every group: the gap check counts as evaluated if and only if coverage is confirmed, all times are known, there is a predecessor, both readings are present and the sweep has no cause to mark either record; on forward intervals, if neither clashes |
| OdometerSweep.EvaluatedGapIsSafe | src/domain/transport/odometer.ts:208-331 | in any group: an evaluated gap had every time known, its immediate predecessor, and no strict overlap with either record |
| OdometerSweep.InvertedTieIsForgotten | src/domain/transport/odometer.ts:182-207 | a group with an inverted interval in which a clashing record is not marked and its successor's gap is evaluated |
| OdometerAnalysis.SweepGroup | src/domain/transport/odometer.ts:188-207 | the sweep loop computes the marked set |
| OdometerAnalysis.CheckRecord | src/domain/transport/odometer.ts:210-314 | one round of the continuity pass raises the specified issues and marks the specified checks |
| OdometerAnalysis.ContinuityPass | src/domain/transport/odometer.ts:208-320 | the continuity loop, with its running latest end, over a whole group |
| OdometerAnalysis.FirstLook | src/domain/transport/odometer.ts:132-176 | the issues and checks of one record on its own |
| OdometerAnalysis.FirstLoop | src/domain/transport/odometer.ts:132-176 | the loop over the records fails exactly on a repeated id, and groups the records by vehicle in order of appearance |
| OdometerAnalysis.GroupLoop | src/domain/transport/odometer.ts:177-320 | the loop over the groups appends every group's issues and leaves exactly the specified checks |
| OdometerAnalysis.CollectEvaluated | src/domain/transport/odometer.ts:321-331 | the ids with an evaluated gap, in input order |
| OdometerAnalysis.AnalyzeOdometer | src/domain/transport/odometer.ts:98-331 | the whole analysis returns the specified issues, checks and evaluated ids, or fails exactly on a bad threshold or a repeated id |
| OdometerResults.IssueMembers | src/domain/transport/odometer.ts:98-331 | an issue is in the result if and only if it is an issue of one of the records |
| OdometerResults.OrderDoesNotMatter | src/domain/transport/odometer.ts:98-331 | permuting the records changes neither failure, nor the set of issues, nor the evaluated checks, nor the set of evaluated records |
| OdometerResults.KeysIdentifyIssues | src/domain/transport/odometer.ts:98-331 | no two issues share record and code |
| OdometerResults.VerifiedIsEvaluated | src/domain/transport/odometer.ts:208-331 | a verified issue's check is among its record's evaluated checks, a pending sequence issue's is not |
| OdometerResults.EvaluatedGapStandsAlone | src/domain/transport/odometer.ts:208-331 | in terms of the input alone: an evaluated gap compared the record with its immediate predecessor by start and id, and neither strictly overlaps any record of the vehicle |
| AvicAuth.PasswordAuthentication.GetToken | src/infra/avic/avic-auth.ts:103-117 | the segment of a token call before its first await: cached token, joined login, cooldown error, or a new login |
| AvicAuth.PasswordAuthentication.FinishLogin | src/infra/avic/avic-auth.ts:194-217 | the last segment of a login: the token is cached with its earliest deadline, or a failure starts the cooldown |
| AvicAuth.PasswordAuthentication.ClearPending | src/infra/avic/avic-auth.ts:112-116 | the pending login is forgotten by the call that started it |
| AvicAuth.PasswordAuthentication.Invalidate | src/infra/avic/avic-auth.ts:119-128 | only the cached token itself is dropped, and a rejected fresh token starts a cooldown |
| AvicAuth.SingleFlight | src/infra/avic/avic-auth.ts:103-220 | in every interleaving the logins started and not ended are exactly the pending one, never two |
| AvicAuth.NothingCachedInFlight | src/infra/avic/avic-auth.ts:103-220 | while a login runs no token is cached |
| AvicAuth.CooldownStands | src/infra/avic/avic-auth.ts:119-128 | after a failed login or a rejected fresh token the failure stands until its 30 seconds have passed |
| AvicAuth.NoLoginInCooldown | src/infra/avic/avic-auth.ts:103-220 | no login starts within 30 seconds of a failed login or of a rejected fresh token |
| AvicAuth.CachedWasGranted | src/infra/avic/avic-auth.ts:194-203 | a cached token was granted by a login of the run, with the earliest of its deadlines |
| AvicAuth.ServedTokenIsFresh | src/infra/avic/avic-auth.ts:103-105 | a token served from the cache has more than 30 seconds left before every deadline its login made known |
| AvicAuth.PendingHasLogin | src/infra/avic/avic-auth.ts:111-116 | the pending promise is that of the login started last, which has not ended or has just ended |
| AvicAuth.WaiterGetsItsLogin | src/infra/avic/avic-auth.ts:103-117 | a call that starts or joins a login waits for the login started last; a token it gets was granted by that login, was cached, and then had more than 30 seconds left before every known deadline |
| AvicAuth.NewerTokenSurvives | src/infra/avic/avic-auth.ts:118-128 | rejections of other tokens never drop a cached one: every call is served with it until it is rejected itself or nears its deadline |
| ToolExecutor.ToolCallExecutor.Begin | src/infra/agents/server-side-agent-function-tool.executor.ts:368-433 | the row is created or left as it is, and decides between replay, conflict, refusal and going on |
| ToolExecutor.ToolCallExecutor.Mark | src/infra/agents/server-side-agent-function-tool.executor.ts:435-526 | one status update of the row, kept or lost |
| ToolExecutor.ToolCallExecutor.Authorize | src/infra/agents/server-side-agent-function-tool.executor.ts:886-917 | the authorization block: allowed, denied, or interrupted |
| ToolExecutor.ToolCallExecutor.Perform | src/infra/agents/server-side-agent-function-tool.executor.ts:919-941 | the execution block: the command is sent once authorized, then success or failure is recorded |
| ToolExecutor.ToolCallExecutor.Execute | src/infra/agents/server-side-agent-function-tool.executor.ts:859-953 | one whole attempt, whatever the world does to it |
| ToolExecutor.AttemptKeeps | src/infra/agents/server-side-agent-function-tool.executor.ts:859-953 | every attempt keeps the database sound and undoes nothing: calls stay the same calls, ended rows stay, effects stay |
| ToolExecutor.EffectAtMostOnce | src/infra/agents/server-side-agent-function-tool.executor.ts:859-953 | over any run, each audited call and each command takes effect at most once |
| ToolExecutor.OneCommand | src/infra/agents/server-side-agent-function-tool.executor.ts:922-931 | all attempts of one row past begin send the same command |
| ToolExecutor.EndedIsFinal | src/infra/agents/server-side-agent-function-tool.executor.ts:368-433 | succeeded, denied and failed rows never change again, nor does whether the call took effect |
| ToolExecutor.SuccessIsReplayed | src/infra/agents/server-side-agent-function-tool.executor.ts:415-431 | a recorded success took effect, and every later attempt changes nothing and gets the recorded result, or a conflict if it has no key |
| ToolExecutor.ExecutedIsRecorded | src/infra/agents/server-side-agent-function-tool.executor.ts:937-953 | a result handed out was recorded as the success of a command that took effect |
| ToolExecutor.RetryFinishes | src/infra/agents/server-side-agent-function-tool.executor.ts:938-941 | an open call is finished by the next undisturbed attempt, without applying a command again |
| ToolExecutor.DenialAddsNoEffect | src/infra/agents/server-side-agent-function-tool.executor.ts:886-917 | a denial adds no effect, and there is an earlier one only if the row had been allowed |
| ToolExecutor.FailureHidesEffect | src/infra/agents/server-side-agent-function-tool.executor.ts:919-937 | after a failing attempt the call has taken effect if and only if it had before or this attempt's command reached the store |
| ToolExecutor.EffectExactly | src/infra/agents/server-side-agent-function-tool.executor.ts:859-953 | over any run a call has taken effect if and only if some attempt of it passed begin, was granted and recorded as allowed, had its evidence accepted, and sent a command new to the store |
| ToolExecutor.CommandExactly | src/infra/agents/server-side-agent-function-tool.executor.ts:859-953 | over any run a command has taken effect if and only if some attempt that sends it reached the store |
| ToolExecutor.EndedWithEffectExactly | src/infra/agents/server-side-agent-function-tool.executor.ts:886-941 | a call recorded as denied or failed has taken effect if and only if some attempt of it took effect and its success was not recorded |
| ToolExecutor.FailedAfterEffect | src/infra/agents/server-side-agent-function-tool.executor.ts:919-941 | a run of two attempts that ends failed with the effect applied |
| ToolExecutor.DeniedAfterEffect | src/infra/agents/server-side-agent-function-tool.executor.ts:886-941 | a run of two attempts that ends denied with the effect applied |
| ToolExecutor.CommandTextSeparates | src/infra/agents/server-side-agent-function-tool.executor.ts:923-931 | the joined text whose digest becomes the command id determines its five parts, whatever the provider puts into its call ids |
| Crypt15.ReadVarint | src/infra/imports/whatsapp-crypt15.ts:43-58 | the loop reads what the specification reads, and moves past it |
| Crypt15.VarintRoundTrip | src/infra/imports/whatsapp-crypt15.ts:43-58 | reading inverts base-128 encoding exactly for the numbers below 2^70, so for all of 64 bits |
| Crypt15.ReadIsVarint | src/infra/imports/whatsapp-crypt15.ts:43-58 | what is read is a varint, with its value |
| Crypt15.VarintIsRead | src/infra/imports/whatsapp-crypt15.ts:43-58 | every varint of at most ten bytes is read, whatever follows |
| Crypt15.ReadField | src/infra/imports/whatsapp-crypt15.ts:64-108 | after a tag: the field kept, and a position inside the input |
| Crypt15.ProtobufFields | src/infra/imports/whatsapp-crypt15.ts:60-110 | the loop over the fields computes the specification |
| Crypt15.MessageIsRead | src/infra/imports/whatsapp-crypt15.ts:60-110 | every encoded field list of wire types 0, 1, 2 and 5 is accepted, and exactly its fields of types 0 and 2 come out in order |
| Crypt15.AcceptedIsMessage | src/infra/imports/whatsapp-crypt15.ts:60-110 | whatever is accepted is such an encoding |
| Crypt15.FieldsExactly | src/infra/imports/whatsapp-crypt15.ts:60-110 | a result if and only if the bytes split into well-formed records with those kept fields |
| Crypt15.HeaderRoundTrip | src/infra/imports/whatsapp-crypt15.ts:112-148 | a written header is read back, with or without the feature flag, and the data starts right after it |
| Crypt15.MessageIsNotFlag | src/infra/imports/whatsapp-crypt15.ts:112-148 | no readable header message starts with the flag byte |
| Crypt15.VectorIsFound | src/infra/imports/whatsapp-crypt15.ts:127-147 | the vector is field 1 of the first bytes field 3 |
| KnowledgeChunks.ChunkText | src/infra/knowledge/knowledge-document.extractor.ts:77-121 | the nested loops return the specified numbered chunks, and fail exactly beyond 500 of them |
| KnowledgeChunks.FlushChunks | src/infra/knowledge/knowledge-document.extractor.ts:87-103 | the flush closure, which carries a blank pending text along |
| KnowledgeChunks.AddOne | src/infra/knowledge/knowledge-document.extractor.ts:106-117 | the body of the inner loop, with both of its flushes |
| KnowledgeChunks.ContentsKeep | src/infra/knowledge/knowledge-document.extractor.ts:77-121 | the chunks hold every visible character of the text in order, and no other |
| KnowledgeChunks.ContentsAreGood | src/infra/knowledge/knowledge-document.extractor.ts:77-121 | every chunk starts and ends visibly and has at most 4,000 characters |
| KnowledgeChunks.ChunksAreGood | src/infra/knowledge/knowledge-document.extractor.ts:77-121 | the returned chunks together: content kept, sizes, and ordinals from 1 on |
| KnowledgeChunks.FlushIsGood | src/infra/knowledge/knowledge-document.extractor.ts:87-103 | a flush keeps the size bounds even when a blank pending text stays |
| KnowledgeChunks.AddPieceIsGood | src/infra/knowledge/knowledge-document.extractor.ts:106-117 | so does every piece |
| KnowledgeChunks.ChunkPages | src/infra/knowledge/knowledge-document.extractor.ts:388-406 | the renumbering over the pages of a PDF fails exactly beyond 500 chunks in all |
| KnowledgeChunks.PagesKeep | src/infra/knowledge/knowledge-document.extractor.ts:388-406 | across pages every visible character is kept in order, and every chunk is good |
| Csv.ScanFormula | src/infra/data-exchange/data-exchange-converter.ts:36-40 | the loop finds whether the first character above code 32 starts a formula |
| Csv.GuardIsSafe | src/infra/data-exchange/data-exchange-converter.ts:58-73 | a guarded cell never starts a formula |
| Csv.GuardCollisions | src/infra/data-exchange/data-exchange-converter.ts:58-73 | guarding confuses exactly a formula with the same text already behind an apostrophe |
| Csv.ValueReads | src/infra/data-exchange/data-exchange-converter.ts:75-85 | a written value reads back by section 2 of RFC 4180, whatever it contains |
| Csv.TableReads | src/infra/data-exchange/data-exchange-converter.ts:87-133 | a written table with at least one column reads back as its cells |
| Csv.CsvRoundTrip | src/infra/data-exchange/data-exchange-converter.ts:105-136 | the written text, before its encoding, reads back as the guarded matrix if and only if there is a column |
| Csv.NoColumnsDoNotReadBack | src/infra/data-exchange/data-exchange-converter.ts:121-133 | without columns the text is one line break, which reads back as a record of one empty field |
| Csv.CellsAreSafe | src/infra/data-exchange/data-exchange-converter.ts:105-136 | a written cell starts a formula if and only if it is an international phone under a phone header |
| CsvLimits.AcceptedExactly | src/infra/data-exchange/data-exchange-converter.ts:107-136 | a table is written if and only if it is within the export limits, the spreadsheet library can read it, the given cells joined by commas make at most 50,000 lines of at most 200 columns and 1,000,000 columns in all, and no written cell has more than 100,000 characters between two commas or line breaks |
| CsvLimits.ValidationExactly | src/infra/data-exchange/data-exchange-converter.ts:246-282 | the validation of the written text, blind to quotes, in terms of the given cells |
| CsvLimits.AcceptedInNumbers | src/infra/data-exchange/data-exchange-converter.ts:107-136 | the same with the lines and columns counted: rows and line breaks inside cells, and columns, commas and line breaks inside cells |
| CsvLimits.AcceptedWithoutBreaks | src/infra/data-exchange/data-exchange-converter.ts:107-136 | for cells without line breaks: no row may have more than 200 columns and commas inside its cells together, and the table no more than 1,000,000 |
| CsvLimits.QuotedCommasAreCounted | src/infra/data-exchange/data-exchange-converter.ts:246-282 | so a table of one cell with 200 commas is within the export limits and refused |
| MediaArchive.ScanArchive | src/infra/imports/whatsapp-android-media-import.service.ts:626-658 | the first reading accepts exactly the archives within the limits, and collects their paths and base names |
| MediaArchive.BuildIndices | src/infra/imports/whatsapp-android-media-import.service.ts:672-690 | the three indices hold exactly the candidates that a scan would find, in order |
| MediaArchive.IndexedMatchIsScan | src/infra/imports/whatsapp-android-media-import.service.ts:940-973 | a match through the indices is the match of a direct scan of unreserved candidates |
| MediaArchive.MatchedAreFree | src/infra/imports/whatsapp-android-media-import.service.ts:940-973 | matched candidates are distinct, unreserved, and have the file's digest if they have one |
| MediaArchive.ProcessEntry | src/infra/imports/whatsapp-android-media-import.service.ts:780-838 | the body of the loop over the files, through the indices |
| MediaArchive.EachCandidateOnce | src/infra/imports/whatsapp-android-media-import.service.ts:763-840 | over the whole archive a candidate is in at most one storage job, once |
| MediaArchive.SkipLosesOnlyNamedElsewhere | src/infra/imports/whatsapp-android-media-import.service.ts:789-801 | the early skip loses only candidates found by digest whose path or base name belongs to another file |
| MediaArchive.AttachArchive | src/infra/imports/whatsapp-android-media-import.service.ts:604-860 | every matched file is in exactly one batch, in order, each batch within the concurrency and byte limits, and the counters are exact |
| MediaArchive.AttachedAtMost | src/infra/imports/whatsapp-android-media-import.service.ts:843-852 | no more is attached than there were candidates, so the number missing is exact |
| TripPlan.RequiredTextIsNormal | src/domain/trips/trip.ts:214-223 | a kept text is tidy, keeps its visible characters, and is kept as it is if given again |
| TripPlan.NormalizePlan | src/domain/trips/trip.ts:275-305 | the loop with its two sets accepts exactly the good plans, and sorts their normalized legs |
| TripPlan.NormalPlanIsOrdered | src/domain/trips/trip.ts:275-305 | a kept plan has strictly increasing places and distinct ids, is a rearrangement of the given legs normalized, and normalizes to itself |
| TripPlan.LegOrderDoesNotMatter | src/domain/trips/trip.ts:275-305 | the order of the given legs changes neither refusal nor result |
| Trip.ApplyTripCommand | src/domain/trips/trip.ts:473-667 | the switch computes the specified outcome: next trip, history entry, plan version and operational record, or the error |
| Trip.CreatedIsDraft | src/domain/trips/trip.ts:356-398 | a created trip is a first version in draft, with no dates set and an ordered plan |
| Trip.RunKeeps | src/domain/trips/trip.ts:473-667 | from such a draft every run keeps versions, history, plan and dates in order: version counts accepted commands, plan version counts snapshots and is 0 exactly in draft, the plan is the latest snapshot, dates ascend, the end is set exactly in terminal states |
| Trip.StepFollowsMatrix | src/domain/trips/trip.ts:14-23 | an accepted command keeps the status or follows the transition matrix, and the history says so |
| Trip.StepPlans | src/domain/trips/trip.ts:490-518 | exactly scheduling and revising make a new plan version, of a plan that can be scheduled; afterwards the plan stays |
| Trip.EndedStays | src/domain/trips/trip.ts:14-23 | an ended trip accepts nothing, ever |
| Trip.PlanIsFrozen | src/domain/trips/trip.ts:430-441 | once a trip has left the planning statuses its plan never changes |
| Trip.StaleIsRefused | src/domain/trips/trip.ts:400-421 | of the commands naming one expected version at most one is accepted in a run; the others get a conflict |
| Trip.StartedExactlyIfStarted | src/domain/trips/trip.ts:520-554 | the start is set if and only if a start command was accepted |
| Trip.UnstartedExactly | src/domain/trips/trip.ts:541-554 | an accepted command brings a trip under way without a start if and only if it resumes a scheduled one |
| Trip.UnderwayIsStartedExactly | src/domain/trips/trip.ts:541-554 | every trip of a run that is or was under way has a start, at every point, if and only if no accepted command resumes a scheduled trip |
| Trip.StartMovesExactly | src/domain/trips/trip.ts:520-524 | an accepted command changes a start that is set if and only if it starts a suspended trip at another time |
| Trip.StartIsKeptExactly | src/domain/trips/trip.ts:520-524 | in a run the start, once set, is kept if and only if no accepted command starts a suspended trip at another time |
| Trip.ResumedWithoutStart | src/domain/trips/trip.ts:541-554 | a run from a created draft into execution without a start |
| Trip.StartedTwice | src/domain/trips/trip.ts:520-524 | a run in which a second start moves the first |
| ServiceSession.PauseIsUndone | src/domain/whatsapp/service-session.ts:221-233 | a pause and its end leave everything but the version |
| ServiceSession.CommandTouchesItsOwn | src/domain/whatsapp/service-session.ts:136-301 | priority, department, demand, control and closing change only by the commands that are about them, and every effective command makes one version |
| ServiceSession.EvolveKeeps | src/domain/whatsapp/service-session.ts:136-301 | every command keeps the session sound |
| ServiceSession.NewIsSound | src/infra/database/repositories/prisma-whatsapp.repository.ts:748-785 | sessions are created sound, in every state of their conversation |
| ServiceSession.RunKeeps | src/domain/whatsapp/service-session.ts:136-316 | every run of a sound session keeps it: closing exactly with its start set, then AI control, a resolved demand and nothing pending; a responsible user only under human control; closed exactly with its time set; and the AI may write only while none of these is set |
| ServiceSession.ClosedStays | src/domain/whatsapp/service-session.ts:121-127 | a closed session never changes |
| ServiceSession.ClosedByAClose | src/domain/whatsapp/service-session.ts:265-301 | a session is closed only by an accepted close, and its closing time is the one that close gave |
| ServiceSession.AiCloseHasWaited | src/domain/whatsapp/service-session.ts:265-287 | the AI closes only 30 minutes after the latest beginning, with no customer reply and no human in between, and with the demand resolved |
| ServiceSession.MessageStopsClosing | src/domain/whatsapp/service-session.ts:235-263 | after a customer message the AI can neither begin nor finish closing before the demand is resolved again |
| ServiceSession.HumanKeepsControl | src/domain/whatsapp/service-session.ts:303-316 | once a human has control the AI may not write until the session is returned to it |
| ConversationMatrix.RunKeeps | src/domain/whatsapp/conversation-transition.matrix.ts:121-524 | every run along the matrix keeps closed state and closed step together, the bot away from human and closed steps, waiting only at a summary or a proposal, and the way back kept exactly under human control and at a summary |
| ConversationMatrix.EveryWriteKeeps | src/infra/database/repositories/prisma-whatsapp.repository.ts:4151-4258 | whatever the repository also writes, closed state and closed step stay together, human steps mean human control, and the bot is never active at a human or closed step |
| ConversationMatrix.SessionWriteExactly | src/infra/database/repositories/prisma-service-session-management.repository.ts:669-772 | which of the writes that follow the service session leave a conversation sound: not an external take-over, not a resumed session under human control or waiting away from a proposal, not a change of department or user while waiting at a summary |
| ConversationMatrix.RequestMovesAlong | src/domain/whatsapp/conversation-transition.matrix.ts:121-524 | the request's status moves only along collecting, awaiting, under review and awaiting again, or back to collecting; the customer's own company never becomes responsible |
| ConversationMatrix.ReturnRestores | src/domain/whatsapp/conversation-transition.matrix.ts:344-414 | after a hand-over and any series of human moves the return to the bot leads to the step resolved at the first hand-over, with the request unchanged |
| ConversationMatrix.OwnStepComesBack | src/domain/whatsapp/conversation-transition.matrix.ts:94-119 | the step at which the bot is active or waits comes back after a take-over if and only if it is the follow-up menu of a followed-up request, or otherwise no proposal waiting to be sent |
| ConversationMatrix.SummaryIsLost | src/domain/whatsapp/conversation-transition.matrix.ts:94-119 | a summary awaiting confirmation can no longer be confirmed or corrected after a take-over |
| ConversationMatrix.ConfirmedWasPresented | src/domain/whatsapp/conversation-transition.matrix.ts:233-288 | along the matrix a quote is confirmed only if its summary was presented and still stands |

## Left out

- AvicJson.ParseAvicJson: the tree keeps repeated members as they stand; the merging of duplicate keys by JSON.parse is not part of the model.
- OdometerAnalysis.AnalyzeOdometer: starts from instants and decimal texts; date parsing and the printing of numbers by JavaScript are not modelled, and identifiers are compared as integers instead of by locale.
- OdometerResults.OrderDoesNotMatter: assumes that distinct ids never compare equal; `localeCompare` may call distinct, canonically equivalent ids equal, and then the order of the input decides between them.
- ExactDecimals.DecimalTextRoundTrip: covers the exact text; the choice between that text and a binary floating-point number is left out.
- AvicAuth.PasswordAuthentication.FinishLogin: the HTTP exchange, its limits and the parsing of deadlines are one outcome; a fetcher that throws before its first await is not modelled.
- ToolExecutor.ToolCallExecutor.Execute: each attempt runs alone; the digest of the command text is taken to have no collisions; evidence checks, domain commands and their answers are parameters.
- ToolAuthorization.ConfirmedMeansShown: the digest is any function without collisions.
- Crypt15.ProtobufFields: field numbers are exact integers, where JavaScript rounds above 2^53; key derivation, decryption and decompression are left out.
- Csv.CsvRoundTrip: is about the text; its UTF-8 encoding, which does not keep lone surrogates, is left out, and whether the spreadsheet library can read the text is a parameter.
- MediaArchive.AttachArchive: no read errors, and entry sizes as declared; path normalization, hashing, storage and progress reports are parameters or left out.
- Trip.ApplyTripCommand: the upper-casing of the trip's code is left out, and dates are integers.
- ServiceSession.RunKeeps: the repository's own closing by reminders and its reopening of closed sessions bypass this state machine and are not part of it; `decideServiceContinuity` is a table of cases.
- ConversationMatrix.RunKeeps: covers the transitions and three of the repository's own writes; the four writes that follow the service session do not all keep a conversation sound, and are covered by EveryWriteKeeps and SessionWriteExactly. The table of actors per transition is finite data, and imported conversations may start anywhere.
- The client's request loop, its paging and the field normalizers of `avic-client.ts` are HTTP handling and field by field copying.
- Sparse arrays and the identity of shared objects in tool arguments.
- The spreadsheet, archive and document readers around the chunker, the CSV writer and the media import.
- The regular expressions over chat text, permissions, configuration, prompts and catalogs.
