# Verified model of agent-k

This project models the parts of agent-k whose correctness no finite set of tests
settles, and proves what they promise. `dafny verify dfyconfig.toml` checks everything.

**Knowledge-base search** (`agent-k/src/knowledge_base/document.rs`)

- `QuerySyntax`, `Tokenizer`, `QueryParser`: tokens and expressions; the tokenizer and the
  recursive-descent parser as loops and a `TokenParser` object, each proved equal to a function.
- `Escaping`: what the tokenizer's scans find, said by counting backslashes.
- `QueryGrammar`: the documented query language as a grammar with the tree each sentence
  stands for. The parser reads every sentence as its tree.
- `QueryPrinter`, `Query`: a printer the source does not have, the partner of tokenizer and
  parser. Every spelling of a query, however spaced, parses to its tree; printing is canonical,
  and every parsed query is well formed and numbered from left to right.
- `QueryTerms`: one pass over the tokens, without a tree, that tells exactly when every term
  of a query reaches its tree.
- `QueryEval`, `LineSearch`, `Anchors`: compilation to term slots, evaluation of a line
  against an independent meaning of queries, line spans, the relaxation of plain words in
  three tiers, and the occurrences reported for the selected lines.
- `Paging`, `SearchResult`, `Utf8`: pages that lose nothing, the answer of a whole search, and
  byte-ranged reads of UTF-8 text (section 4 of RFC 3629) that fall on character boundaries
  and reassemble the document.

**Automation runs** (`backend-v1/src/worker.rs`, `backend-v1/src/repository/automation.rs`)

- `RunTable`, `RunStore`: the run rows, and the repository's statements as methods of an
  object. Instants are milliseconds.
- `LeaseProtocol`: workers, heartbeats, reapers, crashes, lost answers and user actions as
  steps. No run is in the hands of two workers as long as no reaper takes one from under
  a worker; after any step that does, exclusion can be lost.
- `LeaseTiming`: when that is so. Heartbeats that read the clock at most `gap` apart, take
  effect within `latency` and never fail more than n times in a row keep every run with one
  worker when (n + 1) * gap + latency is within the lease, and need not otherwise.
- `RetryChains`, `RunLife`: the guarantees that need no timing: final statuses are final,
  retries unique, chains short, a run that fails is retried until the attempts are used up,
  and an ended run is let go at the next heartbeat.

**Schedules** (`backend-v1/src/cron.rs`, the ticker in `worker.rs`, `SchedulePicker.tsx`, `coworker.rs`)

- `Cron`, `CronTicker`, `TickerRaces`, `TriggerStore`: the expansion loop over an oracle for the
  next occurrence; ticks, edits and failures as steps, with the condition under which each
  is harmless and what it leads to otherwise; triggers that are off stay silent; one tick
  and the edits as methods.
- `SchedulePicker`, `ScheduleRoundTrip`, `ScheduleMeaning`, `PickerAccepted`: recurrence
  states printed as cron expressions and read back, what they mean as a crontab (the
  INPUT FILES section of the crontab utility in IEEE Std 1003.1, with the steps and weekday forms
  the picker writes, and 7 as a second name of Sunday), and that the server accepts them.
- `Civil`, `Timestamp`: the fast calendar conversion against a plain count of Gregorian
  days, and the ISO 8601 text of an instant.

**Clients and files** (`client.ts`, `toolCallFormat.ts`, `files.ts`, `workspace/src/fs.rs`)

- `EventStream`, `EventStandard`: the event-stream reader over arbitrary chunks, with a writer
  after section 9.2.5 of the WHATWG HTML standard and the reader of section 9.2.6 as
  partners.
- `CodeFence`: code spans and fenced blocks against a reader after sections 6.1 and 4.5
  of CommonMark 0.31.
- `FolderTree`, `FolderForest`: the folder forest built on the heap, and what it says.
- `Mounts`, `RangedRead`: longest-prefix routing, and ranged reads over a backend that
  answers short.

`Prelude`, `Text` and `Decimal` hold the vocabulary these modules share.

## What does not hold

Where a promise fails, the model keeps the code and proves exactly when the promise is met.

- The parser drops the token after an operand it could not read: terms are lost after a
  sign before another sign or an operator, after an empty group, and from a stray closing
  parenthesis on. `QueryTerms.TermsReachTree` says exactly when none is,
  `QueryTerms.TidyQueryKeepsTerms` gives a simple rule that suffices.
- A regex text can be written between slashes only if it escapes no slash and has no dangling
  backslash (`Query.RegexExpressible`).
- A negation can accept a line without any term occurring in it; such a line is selected
  and not reported (`Anchors.AnchorsSound` says which lines are).
- A page size of zero makes no progress and returns its own cursor (`Paging.PageProgress`).
- Workers are spawned before the boot reap (`backend-v1/src/main.rs:87-88`), while the comment at
  `automation.rs:1357-1360` relies on no worker holding a row. A reap that requeues a run from
  under a worker, at boot or after its lease, ends exclusion: `LeaseProtocol.StepExact`
  and `LeaseProtocol.HarmBreaksExclusion`, for systems of two workers or more.
- The truncation flag of the calendar preview is documented as "more occurrences exist",
  but is also set when the cap took the last one (`Cron.TruncationExact`); a cap of zero
  returns one occurrence.
- Updating a trigger reads the row and writes it back in two statements, and edits read the
  clock before they write. A tick in between can be undone, and the same instant queued twice;
  a tick that listed the old expression leaves a next fire the new one may not have.
  `CronTicker.StepExact` gives the condition for each step, `TickerRaces.HarmShows` the wrong run
  that follows any step that violates it, on schedules that do not end.
- A weekday list that names Sunday by 7 alone is rewritten to other days
  (`ScheduleMeaning.RewriteKeepsFirings`, `ScheduleMeaning.SundayBecomesMonday`).
- Event data loses all leading white space, not only the one space the standard drops, and
  names lose white space at both ends (`EventStream.RoundTrip`). `EventStandard.StandardAgreement`
  gives the lines on which client and standard agree, `EventStandard.AgreesExact` that no other
  line can be let through. Streams whose lines end in a carriage return and a line feed yield
  nothing (`EventStream.CarriageReturnsSilence`).
- Inline code loses one space at each end of a text that has both, and fenced blocks turn
  carriage returns into line feeds (`CodeFence.InlineSurvives`, `CodeFence.BlockSurvives`).
- A mount prefix with a trailing slash is accepted, but a mount is reached by its own prefix
  exactly when it has none (`Mounts.OwnPrefixReaches`).
- A listed directory with the empty path becomes its own child; it and what hangs below it are
  never shown, and nothing else is lost (`FolderForest.WayExact`).

## Model

| member | source | states |
|---|---|---|
| Tokenizer.Tokenize | agent-k/src/knowledge_base/document.rs:266-326 | The token loop reads exactly the token list of its input |
| Tokenizer.ReadQuoted | agent-k/src/knowledge_base/document.rs:337-356 | A quoted phrase ends at the first quote that no backslash escapes, or with the input |
| Tokenizer.ReadWord | agent-k/src/knowledge_base/document.rs:358-367 | A bare word is the longest stretch without white space, parenthesis or quote |
| Tokenizer.FindUnescaped | agent-k/src/knowledge_base/document.rs:369-385 | Finds the first closing slash that is not escaped, reading backslashes in pairs |
| Tokenizer.UnescapeSlash | agent-k/src/knowledge_base/document.rs:387-411 | Removes the backslash before slashes and keeps every other escape |
| Escaping.QuotedExact | agent-k/src/knowledge_base/document.rs:337-356 | For every text: a phrase ends at the first quote with an even number of backslashes before it, or with the input, and loses exactly the backslashes that escape |
| Escaping.UnescapedFirst | agent-k/src/knowledge_base/document.rs:369-385 | The closing slash is the first with an even number of backslashes before it, and none is found only when there is none |
| Escaping.UnescapedExact | agent-k/src/knowledge_base/document.rs:387-411 | Between slashes exactly the backslashes go that escape a slash |
| Escaping.SlashExact | agent-k/src/knowledge_base/document.rs:296-313 | A slash opens a regex exactly when a closing one follows, and starts a word otherwise |
| QueryParser.TokenParser.Bump | agent-k/src/knowledge_base/document.rs:425-431 | Yields the next token and moves past it, nothing at the end |
| QueryParser.TokenParser.RunOr | agent-k/src/knowledge_base/document.rs:436-452 | Position, result and next id are those of the alternative grammar; the rest is unread |
| QueryParser.TokenParser.RunAnd | agent-k/src/knowledge_base/document.rs:454-477 | Same for conjunctions, including the token dropped when an operand is missing |
| QueryParser.TokenParser.RunUnary | agent-k/src/knowledge_base/document.rs:479-495 | Same for signs and negation; what the signs mean is `QueryGrammar.QueryParses` |
| QueryParser.TokenParser.RunAtom | agent-k/src/knowledge_base/document.rs:497-520 | Same for terms and groups |
| QueryParser.ParseOrSound | agent-k/src/knowledge_base/document.rs:436-526 | For every token list the result is well formed (groups have at least two children), its terms are numbered left to right from the given id, and the next id counts them |
| QueryParser.StopsAtEndOrParen | agent-k/src/knowledge_base/document.rs:436-477 | The alternative routine stops only at the end or at a closing parenthesis |
| QueryGrammar.QueryParses | agent-k/src/knowledge_base/document.rs:436-520 | Every query of the documented grammar, however its signs, connectives and groups are written, is read as the tree it stands for: a minus or NOT excludes, a plus changes nothing, neighbours are joined by AND, which binds tighter than OR |
| QueryPrinter.ParseTopPrinted | agent-k/src/knowledge_base/document.rs:433-526 | Parsing the printed tokens of a tree consumes them all and gives the tree back |
| QueryPrinter.LexRender | agent-k/src/knowledge_base/document.rs:266-411 | Tokenizing any spelling of tokens, with any white space between them and none where they stay apart without, gives the tokens back, whatever their texts |
| QueryPrinter.QuotedEscape | agent-k/src/knowledge_base/document.rs:337-356 | A quoted, escaped phrase is read back in full and nothing after it |
| QueryPrinter.SlashEscape | agent-k/src/knowledge_base/document.rs:369-411 | A regex text between slashes is read back, whatever follows |
| Query.ExtractBareKeywords | agent-k/src/knowledge_base/document.rs:229-250 | The lowercased words, exactly for queries with a word, without the six operator characters and the three operator words |
| Query.ParseQuery | agent-k/src/knowledge_base/document.rs:214-227 | Expression and keywords of the trimmed input |
| Query.EverySpelling | agent-k/src/knowledge_base/document.rs:63-526 | Every query of the documented grammar, however spelled and spaced, parses to the tree it stands for, every token read |
| Query.LowerFolds | agent-k/src/knowledge_base/document.rs:556-599 | Two texts compare equal in lower case exactly when they differ at most in the case of letters |
| Query.ParsePrint | agent-k/src/knowledge_base/document.rs:214-526 | Parsing undoes printing on every well-formed tree numbered from zero, and consumes every token |
| Query.ParseSound | agent-k/src/knowledge_base/document.rs:214-526 | Every parsed query is well formed, its term ids 0, 1, 2, ... from left to right |
| Query.PrintIsCanonical | agent-k/src/knowledge_base/document.rs:214-526 | The printed form of any parsed query parses to the same query |
| Query.RegexExpressible | agent-k/src/knowledge_base/document.rs:369-411 | A regex text can be queried exactly when it escapes no slash and leaves no backslash dangling |
| QueryTerms.TermsReachTree | agent-k/src/knowledge_base/document.rs:436-520 | For every token list: the terms of the tree are the terms of the tokens, in order, and every token is read, exactly when one pass finds no term after an unread operand and no stray parenthesis |
| QueryTerms.TidyQueryKeepsTerms | agent-k/src/knowledge_base/document.rs:436-520 | In particular when signs stand before terms or groups, groups start with an operand, and parentheses close only what was opened |
| QueryTerms.LosingFamilies | agent-k/src/knowledge_base/document.rs:465-520 | A sign before no operand, an empty group and a stray parenthesis each lose what follows |
| Query.BareTokens | agent-k/src/knowledge_base/document.rs:229-335 | A query of plain words lexes to one word token per keyword |
| Query.BareParse | agent-k/src/knowledge_base/document.rs:218-250 | A query of plain words parses to their conjunction, keyword i with term id i |
| QueryEval.Compiler.Ensure | agent-k/src/knowledge_base/document.rs:562-567 | Both slot lists reach the id, keeping what they hold |
| QueryEval.Compiler.Compile | agent-k/src/knowledge_base/document.rs:543-560 | The slots hold each term's lowered text or compiled regex under its id |
| QueryEval.LeafIds | agent-k/src/knowledge_base/document.rs:522-526 | The terms of a numbered tree carry consecutive ids |
| QueryEval.EvaluationFaithful | agent-k/src/knowledge_base/document.rs:569-599 | Evaluation through the slots accepts a line exactly when the query's meaning does |
| LineSearch.ComputeLineSpans | agent-k/src/knowledge_base/document.rs:655-666 | The spans cut the content at its line feeds, every byte in one span or one cut |
| LineSearch.CutIsUnique | agent-k/src/knowledge_base/document.rs:655-666 | There is only one such cut |
| LineSearch.BareQuery | agent-k/src/knowledge_base/document.rs:214-250 | For plain words the tree accepts a line exactly when every keyword occurs |
| LineSearch.RelaxationExact | agent-k/src/knowledge_base/document.rs:605-649 | For plain words the lines and tag returned are those of the strictest non-empty tier |
| LineSearch.TiersExact | agent-k/src/knowledge_base/document.rs:605-649 | The strict tier is what the tree accepts, tiers are nested, and nothing is returned only when no keyword occurs anywhere |
| LineSearch.TiersNested | agent-k/src/knowledge_base/document.rs:605-649 | Requiring fewer keywords selects no fewer lines |
| Anchors.AnchorLeftmost | agent-k/src/knowledge_base/document.rs:703-737 | A line's anchor is the earliest first hit among its non-negated terms, the leftmost term on ties, and there is none exactly when no such term hits |
| Anchors.CollectOccurrences | agent-k/src/knowledge_base/document.rs:675-701 | The loop and the sort give the anchors of the selected lines in document order |
| Anchors.AnchorsReport | agent-k/src/knowledge_base/document.rs:675-737 | Every occurrence lies in one selected line, starts at its earliest hit, and a literal's bytes equal the keyword up to case |
| Anchors.AnchorsAscend | agent-k/src/knowledge_base/document.rs:675-701 | Occurrences start strictly further on |
| Anchors.AnchorsComplete | agent-k/src/knowledge_base/document.rs:675-701 | A selected line is reported exactly when a non-negated term hits it |
| Anchors.AnchorsSound | agent-k/src/knowledge_base/document.rs:675-737 | The three properties together, for every query and content |
| Anchors.NotFreeReportsAll | agent-k/src/knowledge_base/document.rs:675-737 | A query without negation reports every line it accepts |
| Utf8.FloorCharBoundary | agent-k/src/knowledge_base/document.rs:166-172 | The last character boundary at or before a position |
| Utf8.CeilCharBoundary | agent-k/src/knowledge_base/document.rs:174-180 | The first character boundary at or after a position |
| Utf8.CutAtBoundary | agent-k/src/knowledge_base/document.rs:158-180 | In valid UTF-8 the boundaries are exactly the places that leave valid text on both sides |
| Utf8.ReadInDocument | agent-k/src/knowledge_base/document.rs:158-164 | The piece from the last boundary not after the offset to the first not before the end of the range, clipped to the document |
| Utf8.ReadValid | agent-k/src/knowledge_base/document.rs:158-164 | A read of valid text is valid text, at any offset |
| Utf8.ReadAdvances | agent-k/src/knowledge_base/document.rs:158-164 | A read is empty exactly when no bytes are asked for or none are left |
| Utf8.ReadsReassemble | agent-k/src/knowledge_base/document.rs:158-180 | Reads that advance by the length returned end, and their pieces concatenate to the document |
| Utf8.PiecesValid | agent-k/src/knowledge_base/document.rs:158-180 | Each such piece is non-empty valid text |
| Paging.Page | agent-k/src/knowledge_base/document.rs:121-155 | A page takes all remaining matches up to the count or output limit, and its cursor is where it stopped |
| Paging.Excerpt | agent-k/src/knowledge_base/document.rs:127-141 | The match and its context: the stretch between the character boundaries around the margin on both sides, the hit in its place |
| Paging.PageLengthUnique | agent-k/src/knowledge_base/document.rs:124-149 | The two limits allow one page length only |
| Paging.PageProgress | agent-k/src/knowledge_base/document.rs:124-149 | A page makes progress exactly when its size is not zero |
| Paging.AnswersComplete | agent-k/src/knowledge_base/document.rs:81-156 | Asking again with each answer's own next cursor ends, and yields exactly the matches from the first cursor on, each once and in order, every answer with the id and the tag, only the last without a next cursor |
| Paging.OccurrencesSound | agent-k/src/knowledge_base/document.rs:100-122 | The occurrences of a pattern report exactly the selected lines that a term hits |
| Paging.FindOccurrences | agent-k/src/knowledge_base/document.rs:81-122 | Parsing, compiling, selecting and anchoring in sequence give those occurrences |
| Paging.FindInDocument | agent-k/src/knowledge_base/document.rs:81-156 | The answer holds the id, the tag, the page of that occurrence list at the cursor, and a next cursor just behind the page exactly when matches remain |
| SearchResult.SearchComplete | agent-k/src/knowledge_base/document.rs:81-156 | A structured pattern without negation yields, over all its answers, exactly one match for each line it accepts, in the order of the lines, and no tag |
| SearchResult.PlainSearchComplete | agent-k/src/knowledge_base/document.rs:104-149 | A query of plain words yields, over all its answers, exactly one match for each line of the strictest tier that is not empty, in the order of the lines, and that tier's tag |
| SearchResult.StructuredSelects | agent-k/src/knowledge_base/document.rs:112-119 | The lines a structured query selects are those it accepts |
| RunStore.Store.ClaimDueRun | backend-v1/src/repository/automation.rs:1098-1125 | Takes a queued run of an enabled automation whose time has come, none earlier, and marks it running with the lease, or finds that there is none; no other row changes |
| RunStore.Store.RenewLease | backend-v1/src/repository/automation.rs:1129-1146 | Only a running row's lease changes, to the given instant; false, and nothing changes, exactly when the row is not running |
| RunStore.Store.FinalizeRun | backend-v1/src/repository/automation.rs:1153-1191 | Only a running row ends, without a lease and otherwise as it was; false, and nothing changes, exactly when it was not running |
| RunStore.Store.CancelRun | backend-v1/src/repository/automation.rs:1000-1032 | Only a row that has not ended is cancelled, without a lease and otherwise as it was; false, and nothing changes, exactly when it had ended |
| RunStore.Store.ReapExpiredLeases | backend-v1/src/repository/automation.rs:1420-1480 | Exactly the running rows whose lease has passed return to the queue, or are cancelled with their automation, each listed once |
| RunStore.Store.ReapAllRunning | backend-v1/src/repository/automation.rs:1361-1416 | The same for every running row, whatever its lease |
| RunStore.Store.SetAutomation | backend-v1/src/repository/automation.rs:333-421 | Turning an automation off cancels exactly its queued runs; turning it on changes no run |
| RunStore.Store.ComputeRunAttempt | backend-v1/src/repository/automation.rs:1197-1211 | The attempt number is the depth of the previous-run chain |
| RunStore.Store.ScheduleRetry | backend-v1/src/repository/automation.rs:1222-1355 | One new queued row of the same automation, linked to the failed one and one deeper in its chain, all others kept; none, and nothing changes, exactly when the automation is disabled |
| RunStore.Store.Settle | backend-v1/src/worker.rs:291-352 | A retry is queued exactly when the worker's own finalize ended the run as failed, the attempt is below three and the automation is enabled, 30 seconds after the first attempt and two minutes after the second |
| LeaseProtocol.StepExact | backend-v1/src/worker.rs:220-384 | The invariant (no run in two hands, every engaged worker's row covered) survives a step exactly when the step requeues no run from under a worker |
| LeaseProtocol.MutualExclusion | backend-v1/src/worker.rs:220-272 | In every run of such steps no two workers hold one run, across crashes, lost answers, reaps and re-claims |
| LeaseProtocol.StartsExclusive | backend-v1/src/worker.rs:48-55 | A system without engaged workers satisfies the invariant |
| LeaseProtocol.HarmBreaksExclusion | backend-v1/src/repository/automation.rs:1361-1480 | After any other step, in any system of two workers or more, harmless steps alone put one run into two hands |
| LeaseTiming.UnexpiredExact | backend-v1/src/repository/automation.rs:1420-1480 | The lease reaper is harmless, whatever row and reading it takes, exactly while no engaged worker's lease has expired |
| LeaseTiming.TimelyUnexpired | backend-v1/src/worker.rs:354-384 | Which is so while every engaged worker's last success is at most a lease old |
| LeaseTiming.PacedExclusion | backend-v1/src/worker.rs:354-384 | Heartbeats at most `gap` apart, effective within `latency`, failing at most n times in a row: exclusion holds throughout when (n + 1) * gap + latency is within the lease |
| LeaseTiming.TooFewHeartbeats | backend-v1/src/worker.rs:354-384 | Otherwise a system exactly as well paced, from a state without engaged workers, shares a run |
| LeaseTiming.FourMisses | backend-v1/src/worker.rs:33-39 | Four failed heartbeats in a row are tolerated while each comes within 35 seconds of the one before and takes effect within five |
| LeaseTiming.FourMissesTight | backend-v1/src/worker.rs:33-39 | And not at a millisecond more |
| RetryChains.StartsChained | backend-v1/src/worker.rs:48-55 | Tables without links and idle workers satisfy the invariant |
| RetryChains.StepGrows | backend-v1/src/repository/automation.rs:1153-1191 | No step removes a row, changes a link or touches an ended run |
| RetryChains.TerminalForever | backend-v1/src/worker.rs:276-311 | A run that ended stays exactly as it ended, in every run of the system |
| RetryChains.DepthStable | backend-v1/src/worker.rs:232-239 | Attempt numbers never change |
| RetryChains.StepKeepsChains | backend-v1/src/worker.rs:276-340 | Every step keeps: predecessors failed, successors unique, chains within the budget, workers' memory correct |
| RetryChains.ChainsStayShort | backend-v1/src/worker.rs:276-352 | So does every run, with no timing assumption |
| RetryChains.ChainShape | backend-v1/src/worker.rs:232-239 | Every chain has at most three rows, all but the newest failed, each continued by the next row and by no other |
| RetryChains.RetryOrigin | backend-v1/src/worker.rs:291-318 | A worker comes to retry only when its own finalize turned the run from running to failed |
| RetryChains.SuccessorOrigin | backend-v1/src/worker.rs:313-352 | A successor is created only by the worker entitled to retry its predecessor, once, queued for 30 seconds or two minutes after the reading |
| RunLife.RetriesExactly | backend-v1/src/worker.rs:291-318 | A finalize ends a running run as the agent ended, and the worker goes on to retry exactly when it was answered, the agent had failed and attempts are left |
| RunLife.RetryLeavesSuccessor | backend-v1/src/worker.rs:313-340 | Its retry leaves a successor exactly when the call took effect and the automation is enabled |
| RunLife.ChainFills | backend-v1/src/worker.rs:40-46 | From any table, a queued run whose agent fails every time is tried until its chain has three rows, and then no more |
| RunLife.EndedRunLetGo | backend-v1/src/worker.rs:354-384 | A run that was cancelled or has ended is let go by its worker at the next answered heartbeat, and never taken up again |
| RunLife.LostAnswers | backend-v1/src/worker.rs:220-340 | A call that failed before taking effect changes nothing, one that failed after changes the table as an answered one, and the worker learns nothing of either |
| Civil.CivilCounts | agent-k/src/agents/coworker.rs:48-60 | For every day count the result is a valid Gregorian date, and the plain count of days to it is the input |
| Civil.CivilInvertsCount | agent-k/src/agents/coworker.rs:48-60 | Every valid date is the result for its own day count: the conversion is a bijection |
| Civil.CivilAdvances | agent-k/src/agents/coworker.rs:48-60 | Consecutive day counts give consecutive dates, across month ends, leap days and eras |
| Civil.YearFits | agent-k/src/agents/coworker.rs:50-54 | The nested divisions give the year of the era, and a 366th day only to years that end in a leap day |
| Civil.CountOrdered | agent-k/src/agents/coworker.rs:48-60 | Counting days preserves the order of dates |
| Civil.NothingOverflows | agent-k/src/agents/coworker.rs:48-60 | Every intermediate value fits its type, no unsigned subtraction goes below zero, while the shifted day count fits 64 bits |
| Timestamp.IsoReadsBack | agent-k/src/agents/coworker.rs:63-75 | The text has the ISO 8601 shape and reads back to the second it was made from |
| SchedulePicker.ListPieces | app/src/components/SchedulePicker.tsx:145-148 | The pieces of a weekday list are digit strings |
| ScheduleRoundTrip.ParsePrinted | app/src/components/SchedulePicker.tsx:61-170 | Reading a printed state gives every field its unit uses, clamped as printing clamps |
| ScheduleRoundTrip.ParsePrintExact | app/src/components/SchedulePicker.tsx:61-170 | A state comes back unchanged exactly when its controls could have made it |
| ScheduleRoundTrip.RewriteIdempotent | app/src/components/SchedulePicker.tsx:61-170 | Reading and printing twice is the same as once, on every expression |
| ScheduleRoundTrip.CustomKept | app/src/components/SchedulePicker.tsx:86-169 | An expression of another form is kept as it is |
| ScheduleRoundTrip.EmptyIsNine | app/src/components/SchedulePicker.tsx:51-59 | An empty expression opens as nine o'clock every day |
| ScheduleRoundTrip.ShorthandOpens | app/src/components/SchedulePicker.tsx:97-113 | Bare stars open as the interval of one, like the steps they abbreviate |
| ScheduleRoundTrip.ListPrinted | app/src/components/SchedulePicker.tsx:69-76 | A printed weekday list holds exactly the selected days, or Monday when none is selected |
| ScheduleMeaning.PrintedMeans | app/src/components/SchedulePicker.tsx:61-88 | A printed state fires at exactly the minutes the state describes |
| ScheduleMeaning.RewriteKeepsFirings | app/src/components/SchedulePicker.tsx:61-170 | A well-formed expression that is read and printed fires at the same minutes, exactly unless it is a list that names Sunday by 7 alone |
| ScheduleMeaning.SundayBecomesMonday | app/src/components/SchedulePicker.tsx:145-148 | A time of day on weekday 7 is saved as that time on Mondays |
| PickerAccepted.PickerHasFiveFields | backend-v1/src/cron.rs:113-122 | What the picker prints always passes the server's check for five fields |
| Cron.Expand | backend-v1/src/cron.rs:90-111 | The loop returns the first occurrences of the window, ascending, none missing, up to the cap |
| Cron.OccurrencesBetween | backend-v1/src/cron.rs:74-111 | A bad zone, a wrong number of fields or a bad expression, in this order, otherwise that expansion |
| Cron.FieldsCounted | backend-v1/src/cron.rs:113-122 | The server counts the fields of an expression, whatever white space stands around and between them |
| Cron.LeadingCount | backend-v1/src/cron.rs:69-111 | As many occurrences as there are up to the cap, and the flag set when the cap was reached |
| Cron.LeadingUnique | backend-v1/src/cron.rs:69-111 | That description fixes the list |
| Cron.PreviewSteps | backend-v1/src/cron.rs:49-111 | Each previewed occurrence after the first is the next fire after the one before |
| Cron.TruncationExact | backend-v1/src/cron.rs:69-106 | The flag means that more occurrences exist, except exactly when the cap equals their number |
| CronTicker.StepExact | backend-v1/src/worker.rs:147-205 | The invariant (next fires are instants of their expressions later than all firings, firings lie apart) survives a step exactly when what it writes or queues is such an instant |
| CronTicker.NeverRepeats | backend-v1/src/worker.rs:147-205 | In every run of such steps a trigger's instants strictly increase, each is an instant of its expression, and instants that piled up before a tick are never queued again |
| CronTicker.UndisturbedHarmless | backend-v1/src/worker.rs:147-205 | Steps that do not overlap a tick or an edit are such steps |
| CronTicker.FreshClockHarmless | backend-v1/src/handlers/automation.rs:296-318 | So is a patch with a new expression that read the clock no earlier than the trigger's firings |
| CronTicker.FireAdvances | backend-v1/src/repository/automation.rs:881-994 | A fired trigger's next fire is the first occurrence after the clock reading |
| CronTicker.OffStaysSilent | backend-v1/src/repository/automation.rs:661-678 | A disabled trigger, or one of a disabled automation, gets no run in any course of steps that do not overlap until an edit turns it on |
| CronTicker.DisabledTurnsDown | backend-v1/src/repository/automation.rs:915-943 | A firing of a disabled automation is turned down when it writes, even one that was listed before |
| TickerRaces.HarmShows | backend-v1/src/repository/automation.rs:554-588 | After any other step, on endless schedules, steps that do not overlap queue an instant at or before an earlier tick, or one that is no instant of the expression |
| TickerRaces.LostUpdateRepeats | backend-v1/src/repository/automation.rs:554-588 | A patch that read the row before a firing brings its instant back, and it is queued again |
| TickerRaces.ResubmittedRepeats | backend-v1/src/handlers/automation.rs:296-318 | So does a patch with the same expression that read the clock before the tick |
| TriggerStore.Store.ListDue | backend-v1/src/repository/automation.rs:661-678 | Exactly the enabled triggers of enabled automations whose next fire has come, each once, by next fire |
| TriggerStore.Store.FireCronTrigger | backend-v1/src/repository/automation.rs:881-994 | One run is added for the listed instant, the trigger moves to the first instant after the reading and no other row changes; or nothing changes, exactly when the automation is disabled or the schedule has ended |
| TriggerStore.Store.CronTickOnce | backend-v1/src/worker.rs:147-159 | A tick fires each due trigger once, in order; every run it queues is of an enabled trigger and automation, for the trigger's own next fire |
| TriggerStore.Store.AddTrigger | backend-v1/src/handlers/automation.rs:193-225 | A new trigger waits for the first instant after the reading, and is refused when there is none |
| TriggerStore.Store.UpdateTrigger | backend-v1/src/repository/automation.rs:554-588 | A new expression moves the next fire to its first instant after the reading, an edit without one keeps what was read; no other row changes |
| TriggerStore.Store.EnableAutomation | backend-v1/src/repository/automation.rs:333-460 | The next fires of its enabled cron triggers move past the reading, no other row changes; nothing is written when one of the schedules has ended |
| TriggerStore.TickSettles | backend-v1/src/worker.rs:147-205 | An enabled trigger of an enabled automation whose next fire had come gets exactly one run, for that instant, and moves past the tick; every other trigger gets none and stays as it was |
| EventStream.ParseFrame | app/src/api/client.ts:162-173 | The event of a frame: the last name, the data lines joined, nothing without data |
| EventStream.StreamSse | app/src/api/client.ts:143-160 | However the text is cut, exactly the events of its complete frames come out in order |
| EventStream.FramesAppend | app/src/api/client.ts:147-158 | Later text only adds frames to those already complete |
| EventStream.EventsOnlyGrow | app/src/api/client.ts:143-160 | Events once yielded are never taken back |
| EventStream.RoundTrip | app/src/api/client.ts:143-173 | A list of events comes through exactly when each is clean, for every cut and every unterminated tail |
| EventStream.NamelessIsMessage | app/src/api/client.ts:164-172 | A frame without an event field is a message |
| EventStandard.StandardAgreement | app/src/api/client.ts:143-173 | On every stream without carriage returns whose lines agree, however cut, the client yields the events of section 9.2.6 |
| EventStandard.AgreesExact | app/src/api/client.ts:162-173 | After any plain name and data, a line makes client and standard differ exactly when it does not agree |
| EventStream.CarriageReturnsSilence | app/src/api/client.ts:150-156 | A stream with carriage returns before its line feeds yields nothing, whatever the standard makes of it |
| CodeFence.LongestBounds | app/src/lib/toolCallFormat.ts:68-71 | No run of backticks is longer than the longest |
| CodeFence.LongestAttained | app/src/lib/toolCallFormat.ts:68-71 | Some run is as long |
| CodeFence.InlineSurvives | app/src/lib/toolCallFormat.ts:73-80 | A CommonMark reader gives the text back and ends at the closing fence, exactly for non-empty single-line texts without a space at both ends |
| CodeFence.BlockSurvives | app/src/lib/toolCallFormat.ts:82-86 | A CommonMark reader closes the block at its last line and nowhere before, and gives back exactly the texts without a carriage return |
| FolderTree.AddFolder | app/src/domain/files.ts:128-141 | One more directory goes to the end of its parent's children, or of the top |
| FolderTree.BuildFolderTree | app/src/domain/files.ts:118-143 | Every node holds, in order, exactly the directories whose parent it is; the top holds those without one |
| FolderTree.SortCorrect | app/src/domain/files.ts:119-123 | The sorted paths are the given ones, in order |
| FolderForest.EachOnce | app/src/domain/files.ts:118-123 | Each visible directory of the listing appears once, nothing else does |
| FolderForest.HiddenExact | app/src/domain/files.ts:118-122 | A path is hidden exactly when a dot starts it or follows a slash |
| FolderForest.HangingExact | app/src/domain/files.ts:128-141 | A directory is a child of its parent and of nothing else |
| FolderForest.HangingRising | app/src/domain/files.ts:128-141 | Siblings stand in listing order |
| FolderForest.ParentWhenListed | app/src/domain/files.ts:133-140 | A directory lies under its parent exactly when the parent is listed, and at the top otherwise |
| FolderForest.WayExact | app/src/domain/files.ts:118-143 | A directory is reached from the top exactly when it is not the empty path and does not hang below it |
| FolderForest.ParentKinds | app/src/domain/files.ts:128-141 | A directory is its own parent exactly when its path is empty |
| FolderForest.WayUnique | app/src/domain/files.ts:118-143 | By one way only |
| Mounts.FromMounts | workspace/src/fs.rs:349-370 | Accepts exactly the lists of absolute, distinct prefixes, and sorts them by length |
| Mounts.WorkspaceFs.RoutePath | workspace/src/fs.rs:414-432 | The search returns the first mount that owns the normalised path |
| Mounts.RouteLongest | workspace/src/fs.rs:412-432 | That mount's prefix is the longest whole-component prefix, and none is found only when no mount owns the path |
| Mounts.RouteRebuilds | workspace/src/fs.rs:414-432 | Prefix and remainder rebuild the normalised path |
| Mounts.OrderFree | workspace/src/fs.rs:349-432 | The order of the mount list never changes the route |
| Mounts.BelowRouted | workspace/src/fs.rs:414-432 | A path below a mount is routed with or without its first slash, both ways alike, to that mount or to one with a longer prefix |
| Mounts.OwnPrefixReaches | workspace/src/fs.rs:349-432 | An accepted mount is reached by its own prefix exactly when the prefix has no trailing slash |
| Mounts.TrailingSlashOwns | workspace/src/fs.rs:414-432 | A prefix with a trailing slash owns exactly the longer paths that repeat the slash |
| RangedRead.File.ReadBytes | workspace/src/fs.rs:275-286 | Some of the wanted bytes at the cursor, which moves past them |
| RangedRead.ForwardRead | workspace/src/fs.rs:701-745 | Over any short-reading backend the loop ends with exactly the requested range of the content, clipped to the file |

## Left out

- Non-ASCII queries and lines: the tokenizer and the lowered positions work on bytes, and do not line up beyond ASCII; content outside them is covered by `Utf8`.
- Regular expressions: a compiled regex is an abstract first-match function with a valid range; its syntax is not modelled.
- Machine integers of the search: `start + len` and the context margins are unbounded, so their overflow is not modelled.
- Tantivy indexing, ingest and document storage.
- The agent call inside a run: its outcome is success or failure, at any time.
- Repository calls that a crashed worker had already sent: they take effect before the crash or not at all.
- Run events, sessions, webhook idempotency keys and the deletion of automations, runs and their links.
- LeaseProtocol.MutualExclusion: the clock that writes leases and the one that reaps them are the same; skew between processes is not modelled.
- `backend/src/worker.rs`, the single-prompt twin of the worker: it would repeat the same protocol.
- croner and time zone rules: the library is an oracle for the least occurrence past an instant, and its search horizon counts as the end of the schedule.
- ScheduleMeaning.RewriteKeepsFirings: asks for well-formed numbers in the fields, because the meaning of the others is croner's to decide.
- JavaScript numbers above 2^53 in schedule fields; numbers are unbounded naturals.
- The picker's React state, its summary texts and drag selection.
- HTTP, authentication and the decoding of bytes before the event buffer; event ids and retry fields, which the client ignores.
- CommonMark beyond the two constructs: NUL replacement, containers that indent a block, blank lines that end a paragraph around inline code.
- The collation behind `localeCompare`: any total order; where it matters, one that puts a path before everything below it.
- File counts, attachment expansion and the legacy folder helpers of `files.ts`.
- RangedRead.File.ReadBytes: the content is fixed while the file is open; `seek` from the current position or the end is not used by the forwarded read and not modelled.
- Workspace hooks, stat conversions, listings and mutations.
