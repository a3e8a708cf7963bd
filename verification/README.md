# Verification of the service desk's rules

A Dafny model of the parts of the service desk whose behaviour is hard to read off one
function, with proofs of what they keep. `dafny verify dfyconfig.toml` checks all of it.

## What is modelled

- **SLA clocks on a business calendar** (`Calendar`, `CalendarSetup`, `CalendarLaws`, `SlaClock`,
  `SlaTheorems`, `Sweeper`). The day-walking loops are proved against a count of working minutes
  taken one by one. A clock holds a single due date; an independent stopwatch (`Watch`) counts
  consumed minutes and knows nothing of due dates, and the two are proved to agree over every run
  of pause, resume, restamp, met and latch. The breach sweeper runs over a table of such clocks.
- **Worker protocols** (`Outbox`, `Leases`, `Paging`, and the seven `Sync` modules). Each is a state
  with steps: several dispatchers with rollback at any point, leased jobs on several processes,
  the keyset query a poller repeats, and the connector sync of one ticket with any number of
  instances, people editing both sides, failures and retries.
- **Parsers and printers** (`Sse`, `Ics`, `IcsDocument`, `IcsCalendar`, `Csv`). Each printer is
  proved against a reader: the incremental stream parser, a reader of folded calendar documents
  written from RFC 5545, and the line splitter of the demand import.
- **Algorithms with a short specification** (`Levenshtein`, `Machines`, `Permissions`,
  `RateLimiter`, `Budget`, `Forms`, `FormTheorems`, `Schedule`, `Billing`, `CheckDigits`).

Loops and objects that change in place are methods and classes, proved against functions; what
is rebuilt by expressions is functions and lemmas.

## How the world is modelled

- SLA and schedule instants are whole minutes, the others milliseconds as in the source. A zone
  is a fixed offset, which is the only order-preserving bijection of whole minutes; no law is
  claimed where local times are missing or repeated. A local date is a day number, day 0 being
  1 January 1970.
- A due date or a measure that the source throws for is `None`.
- A database table is a map or a sequence, a transaction is a step that commits or does not,
  rows skipped because they are locked are disjoint claims, and a clock that is read is a parameter.
- Text is a sequence of characters; calendar documents are octets, and a text is valid UTF-8 when
  it splits into characters by their leading octet.
- The stamps and identifiers the stand-in compares are digits, hex letters, spaces, colons and
  dashes in fixed positions, where its locale order and its code-unit comparison agree.
- Money is whole cents, rates are cents an hour and multipliers hundredths; amounts round halves
  upwards, as the source does before its floating point.
- The outbound hash is an injective function of the fields it covers, so it is modelled as those
  fields.

## What the proofs found

- A measure stops at 5000 local days. `CalendarLaws.MeasuresExactlyWhen` says when it is whole;
  `SlaTheorems.ResumeTracksExactlyWhen` and `RestampTracksExactlyWhen` say exactly when a resume
  and a restamp stay right, `LongPauseLosesTheClock` shows a clock that resumes already due and
  `LateRestampLosesTime` one that is given time back.
- A priority change restamps without latching, so a clock that is due and not yet swept escapes
  its breach exactly when the new target is more than it takes to be consumed
  (`RestampSavesExactlyWhen`).
- After a restamp to less than was consumed, `remaining` counts from the moment of the restamp and
  not from the target, until a later restamp asks for no less (`LevelIsTarget`).
- The rate limiter lets through at most 2 max - 1 hits in any one window's length, one fewer than
  two full windows suggest, and for every limit that many do get through (`BurstReached`).
- A lease names the process, so a late release frees a lease that a later run in the same process
  holds (`TwinReleaseOverlaps`).
- The dispatcher sets its running flag before it connects and clears it after; a pass that cannot
  connect leaves it set, so the worker dispatches no more. A pass that is rolled back still
  returns the rows it had handled.
- A record stamped again in the very second of the watermark is not polled again unless its id
  is the greater (`RestampSeenExactlyWhen`).
- A stream cut inside a frame delivers it with trailing white space removed.
- The client of the stream stops at the chunk that completes the done frame, so whether what
  follows that frame is handled depends on how the text was cut (`Sse.ConsumeSeesTheChunks`).
- An adjustment of time already logged moves consumption without the overage decision, so with
  adjustments total overage is not what start and end would make it (`OverageOfAnyHistory`).
- Each next pack is counted from the instant the last one was made and not from the one it was due.
  A quarterly pack made in a later month of its quarter is made again there, for the same
  quarter, and a weekly one made a week late leaves a week out (`QuarterMadeTwice`, `WeekLeftOut`).
- A write-off can differ from what it takes back by a cent, exactly when the amount fell on half
  a cent.
- The sync settles after the last edit so long as no write is stamped ahead of our clock by more
  than the tolerance and none overtakes a read of an earlier write that is still in the inbox and
  says something else; draining the inbox before delivering is enough for the latter. Nothing
  enforces that order, and without it two instances that merge one field pass three values round
  without end (`SyncLoops.NeverSettles`).
- A client's edit is put to the per-field rules exactly when it is polled before our next write
  to the record and does not look like our last one (`SyncEdits.EditReachesTheRules`). The echo
  guard hashes the record as it reads after our write, so an edit not yet polled is part of the
  echo and dropped with it (`UnpolledEditIsLost`), and from then on the link forgets that the
  client's value was newer (`NewestForgets`). An edit of fields that the map only takes in is
  dropped whole when it is stamped within the tolerance of our last write (`InboundOnlyEditIsLost`).
- A field map that passes validation may let two ticket fields write one external field
  (`AcceptedMapLosesAField`).

Two places where the code and its comments part: the sync worker's reflection comment says there
is no outbound yet, while the same file writes outbound and the model follows it; and the echo
guard is described as recognising our own write, while it recognises whatever the record held.

## Model

| member | source | states |
|---|---|---|
| Calendars.AddMinutes | src/domain/calendar/business-calendar.ts:171-190 | the day-walking loop returns `from` for zero or fewer minutes, and otherwise the least instant with that many working minutes since `from`, whose last minute is no holiday's and within an interval of its weekday; it throws exactly when the horizon holds too few |
| Calendars.MinutesBetween | src/domain/calendar/business-calendar.ts:192-212 | the day-walking loop returns the number of working minutes in [a, b) counted one by one, as far as the 5000-day horizon of `a`, and 0 for a reversed pair |
| Calendars.NextWorkingInstant | src/domain/calendar/business-calendar.ts:153-167 | the result is a working minute at or after `at`, on no holiday and within an interval of its weekday, with no working minute in between; it throws exactly when the horizon holds none |
| Calendars.WorkingMeansWorked | src/domain/calendar/business-calendar.ts:126-134 | a minute counts as worked exactly when its local day is no holiday and some interval of that day's weekday covers it, read off the calendar's fields; day 0 is a Thursday |
| Calendars.HolidayIsWorthNothing | src/domain/calendar/business-calendar.ts:126-212 | between any two instants of one holiday no minute is counted, whatever hours its weekday has |
| Calendars.HorizonIsMidnight | src/domain/calendar/business-calendar.ts:171-188 | a walk gives up at the local midnight more than 4999 and at most 5000 days ahead |
| Calendars.Add | src/domain/calendar/business-calendar.ts:171-190 | the value the engine reads: due date characterised by the count from `from`, with the exact condition for having none, on business hours and on the wall clock |
| Calendars.DueIsLeast | src/domain/calendar/business-calendar.ts:170-190 | a due date is reached exactly from the instant at which the count is reached, and there is only one |
| Calendars.CountAdds | src/domain/calendar/business-calendar.ts:191-212 | working minutes over adjoining spans add up |
| CalendarSetup.ValidateHours | src/domain/calendar/business-calendar.ts:217-239 | no problem is reported exactly when every entry is in range and no two entries of one weekday overlap, checked on sorted neighbours only |
| CalendarSetup.Build | src/domain/calendar/business-calendar.ts:111-124 | construction throws exactly when no entry has a length; otherwise a minute of a weekday is open exactly when some entry offered covers it, and hours that pass validation give a calendar in order |
| CalendarSetup.NeighboursOrderly | src/domain/calendar/business-calendar.ts:228-237 | on a sorted day, comparing neighbours is the same as comparing every pair |
| CalendarSetup.SortKeeps | src/domain/calendar/business-calendar.ts:120-121 | sorting a day's entries by start keeps them and whether they overlap |
| CalendarLaws.MeasuresExactlyWhen | src/domain/calendar/business-calendar.ts:192-212 | the measured minutes are all the working minutes of the span exactly when none lies past the horizon |
| CalendarLaws.MeasuresFails | src/domain/calendar/business-calendar.ts:40-40 | a calendar and a span past 5000 days whose measured minutes fall short |
| CalendarLaws.MeasureUndoesAdd | src/domain/calendar/business-calendar.ts:171-212 | measuring to the result of adding n minutes gives n |
| CalendarLaws.AddUndoesMeasure | src/domain/calendar/business-calendar.ts:171-212 | adding what was measured to t gives t exactly when the minute before t is worked (or t is the start), and otherwise the end of the work before it |
| CalendarLaws.AddSplits | src/domain/calendar/business-calendar.ts:171-190 | when adding m + n returns, adding m and then n returns the same |
| CalendarLaws.AddJoins | src/domain/calendar/business-calendar.ts:171-190 | when adding m and then n returns, adding m + n returns the same exactly when that lies within the first horizon |
| CalendarLaws.AddMonotone | src/domain/calendar/business-calendar.ts:171-190 | a later start and more minutes never give an earlier due date |
| SlaClock.FollowsDue | src/domain/sla/engine.ts:71-75 | on a running clock, the due date has come exactly when the minutes consumed reach the target |
| SlaClock.StartClocksFollow | src/domain/sla/engine.ts:46-64 | one clock for each positive target: the response clock first with the response minutes and due after them, the resolution clock with the resolution minutes and due after those, each with the policy given, live and in the invariant; starting throws exactly when a positive target's due date is out of reach |
| SlaClock.StartFollows | src/domain/sla/engine.ts:46-64 | a started clock keeps the invariant that ties its dates to consumed time |
| SlaClock.ResumeFollows | src/domain/sla/engine.ts:83-93 | resuming keeps that invariant exactly when the pause was measured whole |
| SlaClock.ResumeSays | src/domain/sla/engine.ts:83-93 | what a resume says it excluded is what it adds to the paused minutes; on a running clock it changes nothing |
| SlaClock.PauseFollows | src/domain/sla/engine.ts:77-80 | pausing keeps that invariant |
| SlaClock.RestampFollows | src/domain/sla/engine.ts:106-111 | restamping keeps that invariant exactly when it measured all that was consumed or the target is no more than it measured |
| SlaClock.StepFollows | src/domain/sla/engine.ts:66-111 | any step on a clock that stays live keeps the invariant exactly when the 5000 days cut nothing off that the step needs |
| SlaClock.StepRecords | src/domain/sla/engine.ts:66-111 | what each step writes: the first instant a clock was met stays, only a running clock that has come due is breached, only a live one paused, a live one's target is the one restamped, and only a resume adds paused minutes |
| SlaClock.RunFollowsExactlyWhen | src/domain/sla/engine.ts:46-111 | a clock that is live after a run in time order was in step with its stopwatch at every event exactly when that holds of every step |
| SlaTheorems.DueDateIsConsumedTime | src/domain/sla/engine.ts:46-111 | in every such run a live unpaused clock has now >= dueAt, and latches, exactly when working minutes since the start less the paused ones reach the target |
| SlaTheorems.RestampForgetsTargets | src/domain/sla/engine.ts:106-111 | restamping to T gives dueAt = start + T + paused minutes when T exceeds the consumed minutes and the reference instant otherwise, whatever the earlier targets were, exactly when the restamp measured all that was consumed or T is no more than it measured |
| SlaTheorems.RemainingIsSigned | src/domain/sla/engine.ts:124-131 | remaining is the signed level less the consumed minutes exactly when the span to the due date is measured whole, and the signed target less them exactly when level and target agree too |
| SlaTheorems.LevelIsTarget | src/domain/sla/engine.ts:106-131 | level and target part exactly at a restamp to less than was consumed, and meet again at the next restamp that asks for no less |
| SlaTheorems.ResumeTracksExactlyWhen | src/domain/sla/engine.ts:83-93 | after a resume the due date still tells consumed time exactly when the pause was measured whole or the target had been consumed already |
| SlaTheorems.RestampTracksExactlyWhen | src/domain/sla/engine.ts:106-111 | after a restamp of a running clock the due date tells consumed time exactly when all of it was measured or the target is no more than was |
| SlaTheorems.LongPauseLosesTheClock | src/domain/sla/engine.ts:83-93 | a pause of 5002 days on an always open calendar: the clock resumes already due with no minute consumed |
| SlaTheorems.LateRestampLosesTime | src/domain/sla/engine.ts:106-111 | a restamp after 5002 days of work: the clock is not due when its target has been consumed |
| SlaTheorems.BreachFreezes | src/domain/sla/engine.ts:66-111 | a breached clock is never paused, was breached at or after its due date, and every later step leaves all but metAt as it was |
| SlaTheorems.OneLatchEvent | src/domain/sla/engine.ts:71-75 | over any run a clock latches once if it ends breached, and never otherwise |
| SlaTheorems.PauseCannotSave | src/modules/tickets/tickets.service.ts:963-979 | latching before pausing breaches a due clock at that instant and leaves it unpaused |
| SlaTheorems.RestampSavesExactlyWhen | src/modules/tickets/tickets.service.ts:766-780 | a priority change restamps without latching first: a due, unswept clock escapes its breach exactly when the new target is more than the minutes measured |
| Sweeper.ClockTable.Apply | src/modules/tickets/tickets.service.ts:932-1028 | a step on one clock of the table changes that clock alone and records a breach exactly when the step latched |
| Sweeper.ClockTable.PauseTicket | src/modules/tickets/tickets.service.ts:963-979 | a clock that is due when its ticket is put on hold is breached and the breach recorded |
| Sweeper.ClockTable.Sweep | src/worker/sla-jobs.ts:53-100 | a pass latches exactly the claimed clocks that are due, records one breach for each and counts them, and keeps the table in step with its breaches |
| Sweeper.SweptMeans | src/worker/sla-jobs.ts:21-21 | the rows a pass claims are those that latching a minute ago would have breached |
| Sweeper.SweepShrinksBacklog | src/worker/sla-jobs.ts:53-100 | a pass with no lock held takes exactly the claimed rows off the earlier backlog, on any two clocks past it: it shrinks by the batch or to nothing |
| Sweeper.ClaimCovers | src/worker/sla-jobs.ts:21-21 | a claim in due order takes in the whole earlier backlog or fills its batch from it |
| Sweeper.SweepsCount | src/worker/sla-jobs.ts:53-100 | among any ticket operations, each pass takes a full batch off what was overdue at an instant until nothing is left of it, and no operation adds to it |
| Sweeper.SweepsDrain | src/worker/sla-jobs.ts:53-100 | with a batch of at least one, enough passes among any operations leave nothing unlatched that was overdue, but for clocks whose priority was changed before a pass came to them |
| Sweeper.OperationOnBacklog | src/modules/tickets/tickets.service.ts:766-1028 | no operation makes a clock overdue at an earlier instant, and one that was stays so or is breached unless the operation is a priority change |
| Levenshtein.Levenshtein | src/modules/ai/suggestion.service.ts:898-912 | the two-row loop returns the distance of the two texts |
| Levenshtein.DistanceIsShortest | src/modules/ai/suggestion.service.ts:897-912 | the distance is the length of a shortest insert, delete and substitute script: one of that length exists and none is shorter |
| Levenshtein.ScriptsAreNoShorter | src/modules/ai/suggestion.service.ts:898-912 | every script that leads from one text to another is at least the distance long |
| Levenshtein.ScriptReaches | src/modules/ai/suggestion.service.ts:898-912 | a script of exactly the distance leads from one text to the other |
| Levenshtein.DistanceZero | src/modules/ai/suggestion.service.ts:898-912 | zero exactly on equal texts |
| Levenshtein.DistanceSymmetric | src/modules/ai/suggestion.service.ts:898-912 | symmetric |
| Levenshtein.DistanceTriangle | src/modules/ai/suggestion.service.ts:898-912 | the triangle inequality |
| Sse.SseParser.Push | src/domain/ai/sse.ts:31-50 | frames, buffer and pending data lines after a chunk are those of draining the old buffer with the chunk |
| Sse.SseParser.End | src/domain/ai/sse.ts:52-59 | what is left is flushed as one last frame or dropped, and the parser is empty |
| Sse.Consume | src/modules/ai/suggestion.service.ts:810-857 | chunks are read up to the one that completes a done frame, whose other frames are still handled; without one the stream is flushed at its end |
| Sse.DoneMeans | src/domain/ai/sse.ts:63-63 | a frame ends the turn exactly when it is `[DONE]` with nothing but white space around it |
| Sse.ConsumesAllExactlyWhen | src/modules/ai/suggestion.service.ts:838-857 | what is handled is a prefix of the whole text's frames, and all of them exactly when no done frame came or, after the chunk of the first, no data is open and no data line follows |
| Sse.ConsumeSeesTheChunks | src/modules/ai/suggestion.service.ts:838-857 | the same text in one chunk and in two: a frame after the done one is handled or not |
| Sse.ChunksDoNotMatter | src/domain/ai/sse.ts:31-50 | frames and end state are the same for every chunking of a text |
| Sse.ParserIsReference | src/domain/ai/sse.ts:31-50 | they are the data lines of the complete lines, grouped between blank lines (a subset of section 9.2.6 of the WHATWG HTML Standard) |
| Sse.WrittenStreamReadsBack | src/modules/ai/axel.service.ts:64-66 | payloads without line breaks, written as data lines with a blank line, are read back exactly in any chunking |
| Sse.AnyWriterReadsBack | src/domain/ai/sse.ts:31-50 | blocks of several data lines, written with or without the space after the colon, with line feeds or carriage returns and line feeds, among lines of other fields, are read back in order in any chunking, the lines of a block joined by a line feed |
| Sse.CutFrameArrives | src/domain/ai/sse.ts:52-59 | a stream cut after an unterminated frame still gives that frame, exact exactly when it does not end in white space |
| Ics.CutLength | src/domain/integrations/ics.ts:84-86 | the backing-off loop stops at a character boundary, within the limit and at most three octets short of it |
| Ics.FoldLine | src/domain/integrations/ics.ts:77-92 | the parts make up the line, each ends between characters, the first has at most 75 octets and each other at most 74; a short line is left alone |
| Ics.FoldReadsBack | src/domain/integrations/ics.ts:77-92 | unfolding a folded line gives the line (section 3.1 of RFC 5545) |
| Ics.ReplacementsGuard | src/domain/integrations/ics.ts:64-69 | the three replacements done one after another put exactly one backslash before each backslash, semicolon and comma |
| Ics.EscapeReadsBack | src/domain/integrations/ics.ts:64-70 | unescaping gives the text with its line breaks as line feeds, and the escaped text has no line break (section 3.3.11 of RFC 5545) |
| Ics.EscapeGuards | src/domain/integrations/ics.ts:64-70 | each comma and each semicolon of an escaped text has a backslash in front of it |
| Ics.BreaksBecomeFeeds | src/domain/integrations/ics.ts:69-69 | however the lines of a text are broken, each break is read as one line feed and nothing else changes |
| IcsDocument.EscapeWhole | src/domain/integrations/ics.ts:64-70 | escaping keeps a text valid UTF-8 |
| IcsDocument.TextIsWhole | src/domain/integrations/ics.ts:77-89 | the octets of every sequence of code points are whole characters (section 3 of RFC 3629) |
| IcsDocument.CharacterContinues | src/domain/integrations/ics.ts:85-86 | of the octets of a character exactly those after its first may not be cut in front of |
| IcsDocument.RenderReadsBack | src/domain/integrations/ics.ts:95-121 | a content line splits at its first colon into the name and value it was made of |
| IcsDocument.DocumentReadsBack | src/domain/integrations/ics.ts:123-123 | a document of folded lines unfolds and splits into the content lines it was made of |
| IcsDocument.PhysicalLinesFit | src/domain/integrations/ics.ts:72-92 | every physical line of a document has at most 75 octets and cuts no character |
| IcsCalendar.WriteCalendar | src/domain/integrations/ics.ts:94-124 | the written document reads as one well nested calendar: version, scale, method, product and name, and its events in order with their stamp, breaks normalised, sequences floored at 0 and empty descriptions absent; every physical line has at most 75 octets and cuts no character |
| IcsCalendar.EventReadsBack | src/domain/integrations/ics.ts:104-120 | the lines of one event read back to that event and its stamp, and close what they open |
| IcsCalendar.ContentsReadBack | src/domain/integrations/ics.ts:95-122 | the lines of a calendar read back to what it says of itself and to its events in order, and close what they open |
| IcsCalendar.DecimalReadsBack | src/domain/integrations/ics.ts:116-116 | a printed sequence number reads back as itself |
| Outbox.Dispatcher.Subscribe | src/worker/outbox-dispatcher.ts:42-44 | a handler joins at the end |
| Outbox.Dispatcher.Dispatch | src/worker/outbox-dispatcher.ts:117-127 | handlers that match are called in order up to the first failure |
| Outbox.Dispatcher.Tick | src/worker/outbox-dispatcher.ts:57-115 | a pass settles every claimed row or, when anything throws, none; an overlapping pass does nothing; the count returned is of rows handled even when they were rolled back; a pass that cannot connect leaves the running flag set |
| Outbox.FirstFailureMeaning | src/worker/outbox-dispatcher.ts:117-127 | a row succeeds exactly when every matching handler does, and otherwise carries the first failure |
| Outbox.NextKeeps | src/worker/outbox-dispatcher.ts:57-115 | a producer's insert, and claim, handle, commit and rollback of several workers, each keep the store consistent and the claims disjoint |
| Outbox.RollbackLeavesNothing | src/worker/outbox-dispatcher.ts:57-115 | a claim handled as far as one likes and then rolled back leaves tables, letters and locks as they were |
| Outbox.EveryRowSettlesOneWay | src/worker/outbox-dispatcher.ts:57-115 | in every interleaving with rollbacks and rows inserted in any order of ids, attempts count committed passes and are at most 5; a dispatched row was either delivered by its last pass and has no dead letter or failed 5 times and has exactly one, never both; an undispatched row has fewer than 5 |
| Outbox.SettleAllKeeps | src/worker/outbox-dispatcher.ts:70-103 | a committed batch keeps every row's attempts, outcome and letters in step |
| Outbox.SettleMeans | src/worker/outbox-dispatcher.ts:70-103 | one pass over a row: one attempt more, done with exactly after a success or a fifth attempt, the last failure kept, and a letter exactly for a fifth failure |
| Outbox.CommitFalls | src/worker/outbox-dispatcher.ts:70-103 | the attempts left over all rows fall by at least the rows a commit settles |
| Outbox.TickFalls | src/worker/outbox-dispatcher.ts:57-115 | a committed pass over a backlog makes the attempts left strictly fall |
| Outbox.TicksDrain | src/worker/outbox-dispatcher.ts:57-115 | N waiting rows are all dispatched after 5N sequential passes |
| Leases.LeaseTable.Acquire | src/worker/jobs.ts:46-56 | the upsert takes the lease exactly when there is none or it has run out, and else changes nothing |
| Leases.LeaseLength | src/worker/jobs.ts:46-48 | a lease is thirty seconds, or the fewest whole seconds that hold two intervals where those are more |
| Leases.LeaseTable.Release | src/worker/jobs.ts:58-66 | a release ends the lease exactly when the row still names the holder, and touches no other job |
| Leases.RunsNeverOverlap | src/worker/jobs.ts:33-66 | with any number of workers, some of which may die and leave their lease, and a clock that does not go back, no two runs of a job overlap if every run ends before its lease |
| Leases.HeldExactlyWhen | src/worker/jobs.ts:46-66 | while a lease runs nobody else can start, and it is lost before its time exactly to a late release by another run of the same holder name |
| Leases.OnTimeRunIsSafe | src/worker/jobs.ts:33-66 | a run undisturbed by its own holder's late releases keeps its lease through any interleaving of the others |
| Leases.LateReleasesSpareOthers | src/worker/jobs.ts:58-66 | from the moment a holder has the lease until it runs out, no release by runs of other holders, however late, and no take or death changes the row |
| Leases.TwinReleaseOverlaps | src/worker/jobs.ts:22-66 | a holder names a process and not a run: a late release frees the lease that a later run in the same process has taken, and a third run starts beside it |
| RateLimiter.RateLimiter.Hit | src/common/rate-limit/rate-limiter.ts:31-47 | prune, open or count, decide: the whole new state and the decision |
| RateLimiter.RateLimiter.Prune | src/common/rate-limit/rate-limiter.ts:53-59 | at most once a window, exactly the windows that have run out are dropped |
| RateLimiter.PruningIsInvisible | src/common/rate-limit/rate-limiter.ts:53-59 | every decision is that of a limiter that never prunes |
| RateLimiter.ToldMeans | src/common/rate-limit/rate-limiter.ts:31-47 | an allowed call is told how many more the window has room for, and each the fewest whole seconds, one at least, until it ends |
| RateLimiter.NoOldWindows | src/common/rate-limit/rate-limiter.ts:53-59 | after any call no entry is two windows old |
| RateLimiter.BurstBound | src/common/rate-limit/rate-limiter.ts:31-47 | where no call of a key brings a limit above max, a half-open interval one window long allows at most 2 max - 1 of its hits |
| RateLimiter.BurstReached | src/common/rate-limit/rate-limiter.ts:31-47 | for every max of at least 1 and window of at least 2 milliseconds that many get through |
| RateLimiter.OneMillisecond | src/common/rate-limit/rate-limiter.ts:31-47 | in a window of one millisecond no more than max do |
| RateLimiter.FirstRefusalOnce | src/common/rate-limit/rate-limiter.ts:38-46 | a hit is allowed while its window has had fewer than its own limit, and is the first refusal exactly when it is refused and no hit before it in that window was |
| RateLimiter.WaitingHelps | src/common/rate-limit/rate-limiter.ts:40-46 | a caller that waits the seconds announced without another hit is allowed, whatever limit the next hit brings |
| Permissions.ExpandPermissions | src/contracts/permissions.ts:107-122 | the stack loop ends and returns the least set closed under implication that holds the valid keys granted |
| Permissions.HeldExactlyWhen | src/contracts/permissions.ts:107-122 | the expansion holds exactly the permissions that a chain leads to from a granted valid key, each listed in the table under the one before it |
| Permissions.ClosureIsUnique | src/contracts/permissions.ts:107-122 | only one set is the least closed one, so the order of the stack does not matter |
| Permissions.ExpandingTwice | src/contracts/permissions.ts:107-122 | idempotent |
| Permissions.MoreKeysMorePermissions | src/contracts/permissions.ts:107-122 | monotone |
| Permissions.ExpansionOfUnion | src/contracts/permissions.ts:107-122 | the expansion of a union is the union of the expansions |
| Machines.Reachable | src/domain/tickets/state-machine.ts:155-164 | the worklist ends with exactly the states that some path of transitions leads to |
| Machines.ValidateMachine | src/domain/tickets/state-machine.ts:127-172 | no problem exactly for a sound machine, and a state is reported unreachable exactly when no path leads to it from the initial state |
| Machines.TransitionProblems | src/domain/tickets/state-machine.ts:137-144 | no problem exactly when every transition joins defined states and no pair is given twice |
| Machines.PairsDiffer | src/domain/tickets/state-machine.ts:137-144 | the joined text that finds duplicates differs exactly when the pairs do |
| Machines.MachineFor | src/domain/tickets/state-machine.ts:67-87 | a body with problems is refused with them; for any other the index lists, under each state, its transitions in order |
| Machines.StateMachine.CanTransition | src/domain/tickets/state-machine.ts:105-111 | a move is permitted by the first transition that joins the two states, and to a portal actor only where marked |
| Machines.PermittedMeans | src/domain/tickets/state-machine.ts:101-111 | a move is permitted exactly where a transition joins the states, and to a portal actor where the first that does is marked for the portal |
| Machines.FindFinds | src/domain/tickets/state-machine.ts:101-103 | the lookup finds a transition exactly when one joins the two states |
| Machines.AcceptedHistories | src/domain/tickets/state-machine.ts:73-172 | on an accepted machine every history stays in defined states, leaves no terminal state and enters a paused state only with a pause reason required |
| Budget.TermCarriesGreatestSuffix | src/domain/time/budget.ts:175-192 | carrying a term over any periods gives the greatest suffix sum of contracted less consumed, the initial carry counted in the full one |
| Budget.RulesBelowTerm | src/domain/time/budget.ts:175-192 | no other rule carries more than that, nor less than nothing, and a cap is kept |
| Budget.CarriesWhat | src/domain/time/budget.ts:175-192 | what each rule carries from one period: nothing, its unused minutes alone and only into the period that begins the day after, those with what it was carried, or the same under a cap |
| Budget.MonthForgets | src/domain/time/budget.ts:175-192 | carrying a month never looks past the period before |
| Budget.OneEntryExactlyWhen | src/domain/time/budget.ts:98-117 | one entry's overage is the growth of overage, for every entry of no negative length and every other but one that undoes an overrun |
| Budget.DecisionMeans | src/domain/time/budget.ts:98-117 | an entry is over budget exactly when it passes a positive budget, is then blocked exactly under a block, its overage is what takes it past the budget, and only then does a rate of more than one multiply it |
| Budget.OverageOfAnyHistory | src/modules/time/time.module.ts:494-540 | with adjustments, which the overage decision never sees, total overage is what start and end make it less exactly what the adjustments moved; the block rule lets only adjustments take consumption past the budget |
| Budget.OverageTelescopes | src/domain/time/budget.ts:98-117 | over entries alone total overage depends only on start, end and available minutes, and the block rule never lets consumption pass the budget |
| Budget.FiresMeaning | src/domain/time/budget.ts:72-82 | exactly the configured thresholds that are reached and have not fired, ascending and once each |
| Budget.ReachedMeans | src/domain/time/budget.ts:79-81 | a threshold is reached exactly when the share of the budget consumed is at least that many hundredths |
| Budget.FiredMeansReached | src/domain/time/budget.ts:72-82 | over any readings, with a budget that may change between them, a threshold has fired exactly when some reading reached it |
| Budget.FiresAtFirstReach | src/domain/time/budget.ts:72-82 | it fires at the first reading that reaches it and at no other, even when consumption drops in between |
| Paging.ApplyQuery | src/tools/servicenow-stand-in.ts:391-436 | the rows that meet the conditions, each as often as it was, sorted by the orders |
| Paging.BranchesMean | src/tools/servicenow-stand-in.ts:407-411 | the branch list built in one pass means the conditions read left to right, AND before OR |
| Paging.HoldsMeans | src/tools/servicenow-stand-in.ts:412-425 | what each comparison of a condition asks of a field, an absent one being the empty text |
| Paging.LessMeans | src/tools/servicenow-stand-in.ts:412-434 | one text is before another exactly when they part at a character of less code, or it is a proper beginning |
| Paging.BeforeMeans | src/tools/servicenow-stand-in.ts:428-434 | an order compares its field as it is, or the other way round where it descends |
| Paging.StableSortRefines | src/tools/servicenow-stand-in.ts:428-434 | a stable sort by one key of rows already sorted by others sorts them by that key first |
| Paging.SortAllSorts | src/tools/servicenow-stand-in.ts:428-434 | repeated stable sorts by the keys in reverse are one lexicographic sort |
| Paging.ChangedSinceSelects | src/modules/connectors/snow-client.ts:143-159 | the query selects exactly the records past the watermark in (sys_updated_on, sys_id) order |
| Paging.AnswerAscends | src/modules/connectors/snow-client.ts:143-159 | its answer is those records in that order |
| Paging.AdvancedAnswer | src/modules/connectors/sync.worker.ts:113-150 | moving the watermark to the last record returned leaves exactly the rest of the answer |
| Paging.PagesInARow | src/modules/connectors/sync.worker.ts:113-150 | pages fetched one after another are the answer cut in order |
| Paging.PollingIsComplete | src/modules/connectors/sync.worker.ts:113-150 | for any limit of at least one, enough polls yield every record past the start exactly once and in order |
| Paging.NothingIsSkipped | src/modules/connectors/sync.worker.ts:113-150 | a record past the watermark is on the page or still past the watermark it leaves |
| Paging.RestampSeenExactlyWhen | src/modules/connectors/snow-client.ts:143-159 | a record stamped in a later second than the watermark is always seen; one stamped in the same second is seen exactly when its id is greater |
| Csv.SplitCsvLine | src/domain/capacity/demand.ts:65-91 | the character loop returns the trimmed cells of the quoted line |
| Csv.RowSplitsBack | src/domain/reporting/csv.ts:11-32 | a row of written cells splits into each cell neutralised and trimmed, whatever quotes, commas or breaks it holds (section 2 of RFC 4180), and none of them is a formula |
| Csv.CellSurvivesExactlyWhen | src/domain/reporting/csv.ts:11-28 | a cell comes back as it was exactly when it does not look like a formula and has no white space at its ends |
| Forms.ValidateSubmission | src/domain/portal/form-schema.ts:287-356 | the loop asks the fields in order, each against what was visible before it, and then reports unknown answers up to the cap |
| FormTheorems.DefinitionProblems | src/domain/portal/form-schema.ts:127-272 | no problem exactly for a sound definition |
| FormTheorems.ConditionValueMeans | src/domain/portal/form-schema.ts:274-279 | a sound condition wants what its controller can be answered with, and of a list one of the options in it |
| FormTheorems.KeyMeans | src/domain/portal/form-schema.ts:116-116 | a key is up to 61 small letters, digits and underscores with a letter first, and not `constructor` |
| FormTheorems.AnswersStoredOnce | src/domain/portal/form-schema.ts:320-353 | a target holds an answer exactly when a field mapped there was accepted, and then that field's own |
| FormTheorems.OnlyAllowedColumns | src/domain/portal/form-schema.ts:335-363 | on a sound definition bad_maps_to is never reported and only columns the field's kind may write are written |
| FormTheorems.VisibleMeansShown | src/domain/portal/form-schema.ts:300-320 | a key is among the visible answers exactly when a field of that key was shown, and among the hidden exactly when one was hidden |
| FormTheorems.HiddenExactlyWhen | src/domain/portal/form-schema.ts:287-370 | on a sound definition a field with a condition is hidden exactly when its controller is, or the controller's answer was not taken, or is neither the value wanted nor a list that holds it; a field without one never is |
| FormTheorems.TakenMeans | src/domain/portal/form-schema.ts:379-435 | an answer is accepted exactly when it suits its field's kind: length, range, options offered, pattern |
| FormTheorems.CodeMeans | src/domain/portal/form-schema.ts:379-435 | the code of a refusal: no option for a wrong choice and, in a list that is short enough, for an item that is none before any is repeated; a bad value for everything else |
| FormTheorems.ReportedMeans | src/domain/portal/form-schema.ts:340-353 | the first fifty answers to no field are reported, and that there are more |
| FormTheorems.UnknownMeans | src/domain/portal/form-schema.ts:340-342 | an answer is to no field exactly when no field has its key |
| FormTheorems.BlankMeans | src/domain/portal/form-schema.ts:372-377 | nothing, white space alone and an empty list are no answer |
| FormTheorems.HiddenControllersHide | src/domain/portal/form-schema.ts:365-370 | a field whose controller is hidden is hidden |
| FormTheorems.HiddenFieldsDoNotInterfere | src/domain/portal/form-schema.ts:287-356 | what is sent for a hidden field, or that nothing is, changes no part of the result: neither what is mapped nor what is refused, unknown answers included |
| SyncMaps.TranslateInbound | src/domain/sync/maps.ts:88-112 | patch, missing and unmapped fields of a record; where no field is mapped twice inbound, an entry reads a reference's display value when there is one, its value otherwise, and a plain value as it is, transformed as it says; a level is kept only where the text is one, capitals aside; a field is missing exactly when the record says nothing under it |
| SyncMaps.TranslateOutbound | src/domain/sync/maps.ts:167-189 | body, sent values and unmapped fields of the entries asked for |
| SyncMaps.OutboundMeans | src/domain/sync/maps.ts:167-189 | a field is written exactly when some entry asked for has its ticket field and a way back for the value; what is sent and what has no way back are told apart |
| SyncMaps.WrittenReverses | src/domain/sync/maps.ts:131-189 | what is written under a field is a way back of the value of an entry that writes there |
| SyncMaps.SystemFieldMeans | src/domain/sync/maps.ts:191-198 | fields the record's own system keeps are those whose names begin with `sys_` |
| SyncMaps.LowestKeyIsLeast | src/domain/sync/maps.ts:135-141 | an inverted lookup gives a key that holds the value and comes before every other that does |
| SyncMaps.ReverseReadsBack | src/domain/sync/maps.ts:53-152 | a ticket value that leaves through a transform comes back as itself exactly unless it was cut |
| SyncMaps.LookupComesBackExactlyWhen | src/domain/sync/maps.ts:53-152 | an external value comes back as itself exactly when no lower key reads the same |
| SyncMaps.FieldReadsBackExactlyWhen | src/domain/sync/maps.ts:88-189 | on every map with one entry per field and direction, a ticket field written through a two-way entry reads back as itself exactly when its entry is the last to write the external field and keeps the value, or what the last wrote reads as it |
| SyncMapCheck.ValidateFieldMap | src/domain/sync/maps.ts:221-281 | no blocking problem exactly when every entry is in order, every required field is mapped inbound and no field is mapped twice in one direction |
| SyncMapCheck.AcceptedMapLosesAField | src/domain/sync/maps.ts:221-281 | a map that passes validation whose two ticket fields write one external field: whatever was sent, the first reads back as the second |
| SyncRules.BothWaysExactlyWhen | src/domain/sync/rules.ts:74-224 | a difference would travel both ways exactly under merge, or under newest within the clock tolerance |
| SyncRules.NeitherWayExactlyWhen | src/domain/sync/rules.ts:74-224 | it is left standing exactly under no policy, or under newest at one and the same time |
| SyncRules.OwnersDecide | src/domain/sync/rules.ts:74-224 | which way a difference travels under every policy, blanks at the ends aside |
| SyncRules.ReasonsMean | src/domain/sync/rules.ts:74-224 | the reason given for leaving a field: it is alike, or whose it is |
| SyncRules.QueuedExactlyWhen | src/domain/sync/rules.ts:164-173 | a change waits for an instance exactly when it is not its own, the instance works both ways, subscribes and is linked, and notes and files are such as may cross |
| SyncRules.AttemptsMean | src/domain/sync/rules.ts:227-236 | five attempts, with waits of 5 and 30 seconds, two and ten minutes between them |
| SyncProtocol.PolicyMeans | src/modules/connectors/sync.worker.ts:386-386 | the link's own rule for a field comes first, then its entry's, then the field's default |
| SyncProtocol.AppliedMeans | src/modules/connectors/sync.worker.ts:384-409 | a ticket field is set exactly where the record's reading of it is one that an inbound entry's rule takes, cut to its length |
| SyncProtocol.BodyMeans | src/modules/connectors/sync.worker.ts:955-978 | a record field is written exactly where an outbound entry's rule sends its ticket field, among the fields the change touched if it says which, and the value has a way back |
| SyncProtocol.ApplyMeans | src/modules/connectors/sync.worker.ts:301-440 | a record taken for our own write only leaves the inbox; any other is known from then on, and what is taken of it changes the ticket while it is open, as a change of that instance naming what it changed |
| SyncProtocol.QueueMeans | src/domain/sync/rules.ts:164-173 | a change of a ticket is queued for exactly the linked instances that work both ways and subscribe to it, but not for the one it came from |
| SyncProtocol.FailureMeans | src/modules/connectors/sync.worker.ts:748-802 | an outbound row that fails waits in its place for the next of five attempts; then, or when it cannot succeed, it leaves the others |
| SyncProtocol.InboxFailureMeans | src/modules/connectors/sync.worker.ts:224-263 | so does an inbox row |
| SyncTheorems.EchoesKeptExactlyWhen | src/modules/connectors/sync.worker.ts:1022-1040 | every read of an own write stays recognisable through a step exactly unless the step is a write stamped ahead of our clock by more than the tolerance, or one that leaves behind in the inbox a read of other values or of such a stamp |
| SyncEdits.OwnWriteIsSkipped | src/domain/sync/rules.ts:34-39 | an own write reads back with the hash remembered and only leaves the inbox |
| SyncEdits.NeverSentBack | src/domain/sync/rules.ts:164-174 | over every run no row that waits for an instance stems from a change applied from it |
| SyncEdits.EditReachesTheRules | src/modules/connectors/sync.worker.ts:301-440 | from a client's edit on, through every orderly run, it is put to the per-field rules, once its inbox row settles, exactly when it was polled before our next write to the record and was not both stamped within the tolerance of our last write and alike in the outbound fields |
| SyncTheorems.StepFalls | src/modules/connectors/sync.worker.ts:113-990 | dispatch, delivery, poll, apply and failure each make the weighted count of pending rows and unpolled records fall |
| SyncTheorems.SettlesAfterLastEdit | src/modules/connectors/sync.worker.ts:113-990 | with any number of instances and whatever was edited on either side, the automatic steps after the last edit are no more than that count, in a run whose writes leave every echo recognisable |
| SyncTheorems.StuckExactlyAtRest | src/modules/connectors/sync.worker.ts:113-990 | orderly steps run out exactly when nothing is pending where the connector may act |
| SyncEdits.UnpolledEditIsLost | src/modules/connectors/sync.worker.ts:301-328 | a client's edit that is written over before it is polled is skipped as an echo and never reaches the ticket |
| SyncEdits.InboundOnlyEditIsLost | src/modules/connectors/sync.worker.ts:301-328 | an edit that leaves the hashed fields alone, stamped within the tolerance of our last write, is dropped whole though it was polled by itself |
| SyncEdits.InboundOnlyReadsAlike | src/modules/connectors/sync.worker.ts:301-316 | a change of a field that the map only takes in leaves the outbound fields as they were hashed |
| SyncEdits.NewestForgets | src/domain/sync/rules.ts:181-224 | from an own write until the client edits again or another of its changes is applied, a newest field is sent whatever the times say |
| SyncLoops.NeverSettles | src/modules/connectors/sync.worker.ts:71-1040 | two instances that merge one field: three edits, every write and poll at a stamp of its own, are followed by as many automatic steps as one likes when writes overtake the reads of earlier ones |
| SyncLoops.StaleIsApplied | src/modules/connectors/sync.worker.ts:301-440 | a read of an own write that was overtaken is applied as a client's change |
| Schedule.NextRunAt | src/domain/reporting/schedule.ts:32-55 | the search always finds a run, at the first or second month tried, and never throws |
| Schedule.NextRunIsLeast | src/domain/reporting/schedule.ts:31-55 | the next run is the earliest run instant strictly after the given one, on a weekday or a day clamped to its month; quarterly runs keep to the quarter of months they are counted from |
| Schedule.RunDayMeans | src/domain/reporting/schedule.ts:46-50 | the run of a month is on its day of that number, or on its last where it is shorter |
| Schedule.FirstOfMeans | src/domain/reporting/schedule.ts:27-29 | the first of every month by the count of leap years of the Gregorian calendar and the lengths of the months |
| Schedule.WeekMeans | src/domain/reporting/schedule.ts:62-67 | the week a run reports goes from Monday to Sunday and ends within the seven days before it |
| Schedule.PeriodMeans | src/domain/reporting/schedule.ts:68-77 | the month and the quarter it reports are all the days of the civil one before that of the run |
| Schedule.PeriodsMeetExactlyWhen | src/modules/reporting/schedules.module.ts:1249-1283 | where cadence and period match, the period of the run counted from the making of this one starts the day after this one's ends exactly when this one was made before the next was due and, by the quarter, before the run day of a later month repeats the quarter or skips it |
| Schedule.EveryDayOnceExactlyWhen | src/modules/reporting/schedules.module.ts:1249-1283 | from a first run on, with each next run counted from the instant a pack was made, the periods cover every day exactly once exactly when every pack was made in that time |
| Schedule.QuarterMadeTwice | src/modules/reporting/schedules.module.ts:1249-1283 | a quarterly pack made in a later month of its quarter, before that month's run, reports the same quarter again |
| Schedule.AMinuteLateInJanuary | src/modules/reporting/schedules.module.ts:1249-1283 | a quarterly pack due on the last minute of January and made a minute later meets that condition |
| Schedule.WeekLeftOut | src/modules/reporting/schedules.module.ts:1249-1283 | a weekly pack made a week late leaves a week out |
| Billing.PeriodSummary | src/domain/time/billing.ts:126-159 | totals, counts and both breakdowns: each bucket holds what its own lines come to, and each breakdown adds up to the totals |
| Billing.ExportMatches | src/domain/time/billing.ts:83-159 | the amount column of the export comes to the summary's amount to the cent, and to the revenue the margin starts from |
| Billing.Profitability | src/domain/time/profitability.ts:142-191 | the total, and buckets by role and by person that hold their own lines and each add up to it |
| Billing.MarginsAgree | src/domain/time/profitability.ts:108-191 | where every part's revenue and cost are known the margins by role and by person each come to the total's |
| Billing.CostInForce | src/domain/time/profitability.ts:70-76 | the rate found is one of the person's in effect on the day and none took effect later; there is none exactly when none was in effect |
| Billing.NearestCent | src/domain/time/billing.ts:83-87 | an amount is the cents nearest to hours times rate times multiplier, a half upwards; a cost those nearest to hours times cost rate |
| Billing.FiguredMeans | src/domain/time/profitability.ts:142-191 | a bucket's minutes, revenue, cost and what it could not rate or cost are summed line by line over its own lines |
| Billing.WriteOffCancelsExactlyWhen | src/domain/time/billing.ts:83-87 | a write-off of the same minutes takes back the amount, but for one cent exactly when it fell on half a cent |
| CheckDigits.Iban | src/domain/ai/redaction.ts:130-139 | the running remainder accepts exactly the accounts whose rearranged number is one more than a multiple of 97 (ISO 13616) |
| CheckDigits.IbanCatchesChange | src/domain/ai/redaction.ts:130-139 | no valid account stays valid with one digit, or one letter, replaced by another |
| CheckDigits.LettersCountOn | src/domain/ai/redaction.ts:134-137 | digits count from nought and letters on from ten, and two digits spell a letter |
| CheckDigits.Luhn | src/domain/ai/redaction.ts:114-128 | the loop from the right accepts exactly the numbers of 13 to 19 digits whose weighed sum is a multiple of 10 |
| CheckDigits.CardCatchesChange | src/domain/ai/redaction.ts:114-128 | no valid card stays valid with one digit replaced |
| CheckDigits.LastTwoDigits | src/domain/ai/redaction.ts:114-127 | the last digit counts as it is and the one before it as the digits of its double |
| CheckDigits.CardMissesSwapExactlyWhen | src/domain/ai/redaction.ts:114-128 | a swap of two neighbours goes unseen exactly between 0 and 9 |

## Left out

- FormTheorems.DefinitionProblems: states when there is no problem, not the list of codes for each unsound definition, because a sound form is what the other results need; a definition that is not a list is outside the types
- Forms.ValidateSubmission: date and identifier patterns are parameters, and values that are neither text, number, flag nor list are one case
- Machines.ValidateMachine: states when there is no problem and which states are unreachable, not the wording of the others
- CalendarSetup.ValidateHours: states when there is no problem, not its wording
- SyncMapCheck.ValidateFieldMap: blocking problems only and not their wording; warnings and the bad-direction entry that the types exclude are not modelled
- SyncTheorems.SettlesAfterLastEdit: one direction, since a run that is not orderly, be it by an overtaken read or by a clock ahead of ours, may still settle; the step that breaks the invariant is characterised exactly by EchoesKeptExactlyWhen and an endless run is shown by NeverSettles
- SyncTheorems.StepFalls: holds while every own write still waiting is recognised, which is what an orderly run keeps
- RateLimiter.BurstBound: one window length per run, as each of the source's limiters is called with one
- Sweeper.SweepsDrain: passes with no lock held by others, since a locked row is skipped and left for the next pass; an operation here works on one clock
- SlaTheorems.DueDateIsConsumedTime: for histories whose steps are in sight; that these are exactly the histories a clock follows throughout is RunFollowsExactlyWhen, and a clock out of step may still be right by chance
- SyncEdits.EditReachesTheRules: for orderly runs; an edit the client makes again before the poll, and a row that ends in the dead letters, count as neither offered nor lost
- SyncMaps.TranslateInbound: the unmapped fields as a set, since a record here has no order
- Schedule.EveryDayOnceExactlyWhen: one schedule that is neither changed nor switched off meanwhile
- Sse.Consume: which frames are handled and in what order, not what the answer text and the facts gathered from them are
- Budget.OverageOfAnyHistory: the budget of the period stays as it is, and an adjustment is its minutes
- Outbox.TicksDrain: sequential passes without rollback and without new rows; interleavings, rollback and inserts are in EveryRowSettlesOneWay
- Leases.RunsNeverOverlap: for runs that end before their lease; nothing in the source ends a run that does not
- Csv.RowSplitsBack: cells are texts; other values are printed before they are quoted
- Zone conversion and missing or repeated local times: the calendar and schedule use a fixed offset
- Seconds and milliseconds inside clocks: the wall clock floors to minutes and the business calendar counts whole ones
- `classify`, the after-hours class of a moment: a table lookup beside the loops
- The at-risk notice job and the view of a clock: thresholds over what is already modelled
- Handlers behind the dispatcher, and the SQL of every query
- Frames as parsed JSON in the stream parser; a frame here is its data text
- Query-string parsing in the stand-in; the query here is its conditions and orders
- Date and time stamps of the calendar writer; a stamp is octets without line breaks
- In the sync: the first contact that creates a ticket, state maps, journals, attachments, the kill switch's own steps, dead-letter records and audit; the model has one ticket already linked and the field updates that cross
- In the sync's polling: other records of the table, which move the watermark too; a record here is polled again when its stamp is past the one last returned
- Retry times in the sync: a failed row may be tried again at once
- Field values that are not texts, and external names that every object answers to
- Forecasts and rate selection in the budget: floating point and a sorted lookup
- Currencies, margin percentages and the order of rows in profitability
- The finance export's other columns, and the billing state table
- Pattern rules of redaction other than the two check-digit tests
- Swaps of neighbours in an account number: only replacements are proved to be caught
- Floating point in amounts, thresholds and ratios
- Controllers, permissions of the callers, persistence and logging
