# athenadriver, modelled and proved in Dafny

athenadriver is a Go `database/sql` driver for AWS Athena. This project models the parts of it
that carry state, loops or concurrency, and proves what they keep. `dafny verify dfyconfig.toml`
checks everything.

| file | what it models |
|---|---|
| RowsProtocol.dfy | `Rows` as a state machine of two threads: `Next` and `Close` against the goroutine that downloads the object and swaps the reader, and its invariants |
| RowsTheorems.dfy | what holds in all interleavings of it |
| RowsAnswers.dfy | why a `Next` answers an end of file or a failure, in all interleavings |
| RowsReader.dfy | the same methods on mutable fields, proved to perform runs of that machine |
| RemoteCalls.dfy | remote calls with their replies, and an automaton as the grammar of traces |
| QueryLaw.dfy | the courses of queries in an arbitrary environment, and what every course promises |
| LastReplies.dfy | each ending of the wait and each answer of a run, by the reply of the service behind it |
| PseudoCommands.dfy | which texts are which pseudo command, and what each is answered |
| Query.dfy | `QueryContext`, `ExecContext` and `Ping`, proved to take those courses |
| Statements.dfy | the life of a prepared statement |
| Interpolation.dfy | the two parameter renderers and the interpolation loop |
| Literals.dfy | a lexer over the whole interpolated text, and which placeholders keep arguments inside their literals |
| Escaping.dfy | escaping into a growable buffer, its decoder and its two lexings |
| TimeLiteral.dfy, Calendar.dfy | time literals from digit tables, and the calendar under them |
| ResultPages.dfy | normalisation of the first result page |
| RecordConversion.dfy | CSV records to destination values: masks, missing values, types |
| CellValues.dfy | which fields convert, to what, and what can be read back, by column type |
| ConfigTags.dfy | workgroup tags and session tags kept as delimited text |
| ServiceLimits.dfy | timeouts, their trip through decimal strings, and the timeout verdict |
| WorkgroupText.dfy | the recursive printer of workgroup configurations |
| Decimal.dfy, Strings.dfy, Wrappers.dfy | decimal text, splitting and counting, Option |

Texts are byte strings, one `char` a byte. Integers of the source that matter at their width are
bounded or wrapped explicitly (`Wrap64`, `IsInt64`). Panics of the source are outcomes. The bodies in
RowsReader.dfy are proved for runs in which no other thread moves; all interleavings are the subject
of RowsProtocol.dfy, RowsTheorems.dfy and RowsAnswers.dfy.

Some properties one would expect do not hold of the code. Each has a lemma with a run or input
that shows it, and the exact condition under which it holds:

- A `Close` before the first `Next` has no context to cancel, so a later `Next` opens a reader that
  nothing closes (`NextAfterEarlyCloseLeaks`); `HandlesAreConserved` says when handles stay open.
- Read errors are ignored while the swapped-in reader skips; `Next` then goes back by as many
  records as reads failed, to the header if need be (`FaultySkipRedeliversHeader`,
  `DeliversWithFailedSkips`, `BehindByFaults`).
- A query description without an output location panics inside the first `Next`, and the next one
  panics on the nil reader (`MissingLocationPanicsTwice`, `NilReaderIsNeverRead`).
- A statement can start its query twice: a run that panics after its calls leaves the statement
  open (`PageWithoutMetadataRunsTwice`, `CallsTwiceExactly`).
- `fetchNextPage` decides by the first row whether to split, and splits other rows by their first
  cell only, so a later row with more cells loses them (`RaggedPageLosesCells`, `PageContentKept`).
- A limit of more than 9223372036 seconds wraps around as a `time.Duration` and times queries out
  too early (`PrematureExactlyOnOverflow`).
- Times outside the years 0 to 9999 make `interpolateParams` index out of its tables
  (`TimesOutsideTheTables`, `FirstTimeOutsideTheTables`).
- A string argument need not be a literal of the final text: not in a placeholder inside a literal
  (`PlaceholderInsideALiteral`), just behind one (`PlaceholderBehindALiteral`), or next to another
  string's (`AdjacentStringsRunTogether`). `QuotedArgumentsAreLiterals` is exact: the query and the
  kinds of its arguments decide.
- Tags that hold a delimiter do not come back (`TagsRoundTrip`), and some make `GetWorkgroup` panic,
  a bar in a key for example (`BarInKeyPanics`, `TagsPanicExactly`).
- A time that ends in a space panics where other texts that are no time are refused (`TimeCell`).
- A nil workgroup configuration reads like an empty one (`NilReadsLikeUnset`).

## Model

| member | source | states |
|---|---|---|
| `RowsProtocol.StepKeepsInv` | go/rows.go:134-394 | every step of Next, openResults, Close, cancellation and the download goroutine keeps the lock ownership, handle ownership, reader position and delivery invariants |
| `RowsProtocol.ExecKeepsInv` | go/rows.go:134-394 | every interleaving of any length keeps them |
| `RowsProtocol.ExecKeepsFrame` | go/rows.go:134-394 | lock ownership, handle ownership and the finality of Close are kept by every interleaving, failed skips and panics included |
| `RowsProtocol.SkipRecordKeepsInv` | go/rows.go:233-236 | one turn of the skipping loop moves the new reader with the loop counter, up to readCount |
| `RowsProtocol.CheckContextKeepsInv` | go/rows.go:220-226 | the re-check of the context under the lock keeps a closed Rows closed |
| `RowsProtocol.CloseReaderKeepsInv` | go/rows.go:383-389 | the locked part of Close keeps every invariant; of a Rows it closed, the installed handle is not open and the reader is nil |
| `RowsTheorems.DeliversObjectInOrder` | go/rows.go:134-249 | in every interleaving without failed skips the records read successfully are the records of the object after the header, in order, none lost or repeated; the installed reader stands at readCount whenever the lock is free |
| `RowsTheorems.NilReaderIsNeverRead` | go/rows.go:145-151 | while descriptions name an output location, the nil reader is never read, whatever else fails |
| `RowsTheorems.MissingLocationPanicsTwice` | go/rows.go:134-171 | a reachable run in which the first Next panics on a missing location and the second on the nil reader |
| `RowsTheorems.DeliversWithFailedSkips` | go/rows.go:134-249 | in every interleaving, whatever fails: the records up to the swap in order, and from there on in order again, beginning as many records back as reads failed while skipping |
| `RowsTheorems.EndOfFileMeansComplete` | go/rows.go:145-154 | an end of file not explained by Close, a failed open or an empty first page comes only after the whole object was delivered |
| `RowsAnswers.EndOfFileHasAReason` | go/rows.go:134-154 | in every interleaving with clean skips, before each end of file Close was called, or an earlier Next failed, or every record after the header was delivered, unless the object is empty or the first page left nothing; a failed opening is never answered as an end of file |
| `RowsAnswers.FailureHasAFault` | go/rows.go:134-154 | no Next fails, in any interleaving, unless a request or a read did |
| `RowsAnswers.CancelledNeverSwaps` | go/rows.go:220-226 | once the context is done before the goroutine has checked it, the reader is never swapped |
| `RowsTheorems.EndOfFileIsFinal` | go/rows.go:145-154 | no record follows an end of file, in any continuation, also when the reader is swapped in between |
| `RowsTheorems.HandlesAreConserved` | go/rows.go:196-249 | in every interleaving open handles are the installed one, the one private to the goroutine or the response in hand; when both threads rest, none is open exactly when Close followed the opening or nothing was installed |
| `RowsTheorems.NothingStaysOpen` | go/rows.go:371-394 | in every run in which no Next is called after Close: once Close was called, no call is under way and the goroutine rests, no reader handle is open |
| `RowsTheorems.CloseIsFinal` | go/rows.go:371-394 | after Close of an opened Rows no later step of any thread, failed skips included, installs a reader, and every later Next answers end of file without touching it |
| `RowsTheorems.NextAfterEarlyCloseLeaks` | go/rows.go:134-148 | a reachable run in which Close comes before the first Next and the reader opened later stays open: the condition of the two properties above is needed |
| `RowsTheorems.FaultySkipRedeliversHeader` | go/rows.go:233-236 | a reachable run in which ignored read errors while skipping make Next hand out the header: error-free skipping is needed |
| `RowsTheorems.BehindByFaults` | go/rows.go:233-236 | after the skipping loop the reader is behind by the number of failed reads: it stands at the number of records read if and only if none failed |
| `RowsTheorems.SkippingIsARun` | go/rows.go:233-236 | the skipping loop, with whichever of its reads failing, is a run that moves the reader like that |
| `RowsTheorems.NoDeadlock` | go/rows.go:134-394 | from every reachable state the pending call can be run to its end with the lock free; the end is a panic only if opening has panicked |
| `RowsReader.Rows.constructor` | go/rows.go:89-100 | the fields of a new Rows are those of the initial protocol state |
| `RowsReader.Rows.ReadOne` | go/rows.go:151-154 | one read delivers the record at the position and moves by one, or reports end of file or failure without moving |
| `RowsReader.Rows.InstallResponse` | go/rows.go:239-248 | installing the response and burning the header is the install and header steps of the protocol |
| `RowsReader.Rows.OpenResults` | go/rows.go:165-249 | openResults ends in the state of the uninterrupted protocol run, with the same error, or in the panic on a missing output location |
| `RowsReader.Rows.ReadChecked` | go/rows.go:145-155 | the part of Next from the check of reachedLastPage to the read ends in the state of the protocol run and returns its outcome |
| `RowsReader.Rows.ReadLocked` | go/rows.go:149-155 | the section under the read lock is the read step |
| `RowsReader.Rows.NextRecord` | go/rows.go:134-155 | Next up to the read, opening included, ends in the state of the uninterrupted protocol run and returns the outcome that the run logs, which FirstNextAnswers and LaterNextAnswers spell out |
| `RowsReader.Rows.Next` | go/rows.go:134-163 | one call of Next ends in the state of the uninterrupted protocol run and answers by its case: a failed opening is a failure, an end of file only an empty object, the last page or the end of the object, and a record the one at readCount; that record is converted into the destination, and a failed conversion still counts it as read |
| `RowsReader.FirstNextAnswers` | go/rows.go:134-249 | the first Next fails exactly on a bad location, a failed request, a failed header or a failed read; it answers end of file exactly when the object has no record to hand out or the last page is reached |
| `RowsReader.LaterNextAnswers` | go/rows.go:145-162 | a later Next, in any state a run leads to, answers the record at readCount, or end of file at the last page or the end of the object, or a failure on a broken reader or a fault |
| `RowsReader.Rows.Close` | go/rows.go:371-394 | one call of Close ends in the state of the uninterrupted protocol run |
| `RowsReader.Rows.SwapIn` | go/rows.go:220-236 | the goroutine's locked section, loop included, ends in the state of the uninterrupted protocol run |
| `RowsReader.Rows.SkipRead` | go/rows.go:233-236 | scans past the records already read |
| `RowsReader.NextRunIsARun` | go/rows.go:134-163 | the run Next refines is one of the interleavings the safety theorems speak about |
| `RowsReader.CloseRunIsARun` | go/rows.go:371-394 | the run Close refines is one of the interleavings |
| `RowsReader.SwapRunIsARun` | go/rows.go:220-236 | the run the swap refines is one of the interleavings, without failed skips, and ends with the lock free |
| `RowsReader.ReaderIsThere` | go/rows.go:134-151 | in every state reached without a panic a Next that gets as far as reading finds a reader |
| `RowsReader.HandsOutExactly` | go/rows.go:134-147 | without failed skips a Rows can hand out a record if and only if its first page left something to read and the object has a record after the header, and then all of them; if the page left nothing, no run hands out any |
| `Query.WaitForResult` | go/connection.go:444-526 | polls until the first round that ends the wait; its result and its exact calls are those of WaitEnd and WaitCalls, which WaitEndings and WaitCallsAre state by the reported states |
| `LastReplies.WaitEndings` | go/connection.go:459-524 | the wait succeeds exactly on SUCCEEDED, is cancelled exactly on CANCELLED, fails exactly on FAILED with a reason or a failed poll, and a QUEUED or RUNNING query ends it only by a limit or by the context; the panics on nil pointers are exact |
| `LastReplies.WaitGoesOn` | go/connection.go:445-524 | the wait goes on exactly as long as every poll says QUEUED or RUNNING, the caller is there and no limit has passed |
| `LastReplies.WaitCallsAre` | go/connection.go:445-517 | one poll a round up to the one that ends the wait, and a stop, with the last look at the cost, exactly if the context ended it |
| `QueryLaw.WaitIsLawful` | go/connection.go:444-526 | for every script of replies the wait follows the grammar, stops the query exactly once when the caller leaves and never otherwise, and makes one poll a round |
| `QueryLaw.WaitIsFair` | go/connection.go:515-526 | the round that ends a wait by timeout is one whose applicable limit had passed, the test-only type and limits beyond a Duration apart |
| `QueryLaw.SurvivorsAreFew` | go/connection.go:444-526 | with an interval of at least a second and limits that fit a Duration at most max(ddl, dml) / interval rounds do not end the wait, however the statement type changes |
| `QueryLaw.LawfulIsTimely` | go/connection.go:444-526 | hence a lawful run polls at most max(ddl, dml) / interval + 1 times and does not wait for ever |
| `QueryLaw.StoppingPhase` | go/connection.go:491-514 | leaving by the context is exactly one stop of the pending execution, then at most one last look |
| `Query.PrepareWorkgroup` | go/connection.go:339-373 | the workgroup check makes lookup and creation calls only, creation only when allowed, and leaves the workgroup ready exactly when it does not end the run |
| `QueryLaw.GroupIsLawful` | go/connection.go:339-373 | the workgroup is ready exactly when there is no error; creation is asked for only after not-found and only when allowed |
| `Query.NewRows` | go/rows.go:89-112 | rows come exactly after a description that succeeded and a page that fetchNextPage does not panic on; nothing is started, polled or stopped |
| `Query.AnswerQid` | go/connection.go:378-408 | what each pseudo command does with a query ID, panics on the reply included: nothing is started, and only the stop command stops |
| `QueryLaw.QidIsLawful` | go/connection.go:378-408 | a query ID is never submitted, and stopped exactly by the stop command |
| `Query.SubmitAndWait` | go/connection.go:411-528 | answer and calls from building the parameters to the rows |
| `QueryLaw.SubmitIsLawful` | go/connection.go:411-528 | the submitting path keeps every clause of Lawful |
| `QueryLaw.SubmissionIsLawful` | go/connection.go:438-528 | from a started execution on: the grammar, one stop exactly when the caller left, polls counted by the rounds, timeouts fair |
| `Query.QueryContext` | go/connection.go:301-529 | answer and exact calls as a function of query, arguments, settings and environment, which the rows of PseudoCommands and LastReplies state on texts and replies; and Lawful: the trace fits the grammar, texts are safe, rows mean success, a timeout is the last poll of a round whose limit had passed, stops and polls are bounded |
| `PseudoCommands.AsksExactly` | go/connection.go:304-311 | a text asks for a command word with an argument, spaces aside, exactly when trimming and cutting finds the two |
| `PseudoCommands.ParseExactly` | go/connection.go:303-317 | which text gives which command and argument, both ways |
| `PseudoCommands.StatusCommand` | go/connection.go:308-392 | "get_query_id_status" with a query ID makes one GetQueryExecution, stops and polls nothing, and answers QUEUED, RUNNING, SUCCEEDED, FAILED or CANCELLED as reported |
| `PseudoCommands.StopCommand` | go/connection.go:310-406 | "stop_query_id" with a query ID makes one stop of that execution and answers OK, or the error |
| `PseudoCommands.GetIdCommand` | go/connection.go:306-443 | "get_query_id" with a text submits it once, never polls, and answers the ID, or the ID of the failed request if it has one |
| `PseudoCommands.QidAlone` | go/connection.go:377-408 | a query ID alone or behind "get_query_id" opens the rows of that execution and submits nothing |
| `PseudoCommands.TextIsRun` | go/connection.go:410-528 | any other text that passes the gates is submitted, waited for, and its rows opened if it succeeded |
| `PseudoCommands.VersionCommand` | go/connection.go:312-313 | the version 1.1.15 is answered without a call exactly for the texts that ask for it |
| `PseudoCommands.UnknownCommand` | go/connection.go:304-316 | a text with the prefix is refused as unknown, without a call, exactly when it asks for none of the four commands |
| `PseudoCommands.TextRefused` | go/connection.go:318-338 | a text is refused as a write exactly in read-only mode and when it is no query ID and begins with none of the five words; else by its length exactly outside 5 to 262143 bytes |
| `LastReplies.LastReplyDecides` | go/connection.go:301-529 | the answer of every run that makes calls is what the reply to its last call says, each error and panic its own; without calls it is one of the six refusals |
| `QueryLaw.QueryIsLawful` | go/connection.go:301-529 | Lawful for every query, argument list, setting and environment |
| `QueryLaw.ExecIsLawful` | go/connection.go:230-259 | the same for ExecContext |
| `QueryLaw.QueryCrash` | go/connection.go:304-528 | a run panics before its first call exactly when interpolation or the decoding of the tags does, and otherwise exactly when a pointer followed in the reply to its last call is nil or its first page panics |
| `QueryLaw.ExecCrash` | go/connection.go:230-259 | the same for runs of ExecContext that make calls |
| `QueryLaw.SubmittedExactly` | go/connection.go:304-424 | a query is submitted if and only if it passes the read-only, parameter and length gates, is no query ID, its workgroup is usable and its parameters can be written; what is sent is the text with the placeholders |
| `QueryLaw.AdmittedTextIsSafe` | go/connection.go:318-340 | the text sent is short enough, no query ID and read-only if it must be, though length and ID are checked on the interpolated text |
| `Query.ExecContext` | go/connection.go:230-259 | interpolates first and then runs without arguments; same promises, and the affected rows are the update count of the first page or 0 |
| `PseudoCommands.ExecRunsFinalText` | go/connection.go:230-247 | ExecContext runs the text with its arguments written into it, and refuses one of the wrong length |
| `PseudoCommands.ExecSendsNoParameters` | go/connection.go:244-244 | what it submits never has arguments apart |
| `LastReplies.AffectedRows` | go/connection.go:245-258 | a count is reported exactly for answers that are no error and no panic; it is the update count of the page, or 0 |
| `LastReplies.RowShowsAffected` | go/connection.go:248-252 | the count reported is the number a query shows in the row made of the update count |
| `Query.Ping` | go/connection.go:537-544 | alive exactly when the probe query is answered; same promises |
| `RemoteCalls.StartIsUniqueAndReady` | go/connection.go:339-424 | in a trace of the grammar there is at most one start, and the workgroup was the default, enabled or just created before it |
| `RemoteCalls.WorkgroupCallsComeFirst` | go/connection.go:342-356 | the workgroup is looked up at most once and first, and created only after it was not found |
| `RemoteCalls.IdWasStarted` | go/connection.go:438-452 | what is polled is what this run started |
| `RemoteCalls.PolledRowsSucceeded` | go/connection.go:459-528 | rows of a submitted query come only after the last poll of the started execution reported SUCCEEDED, every poll before it having reported QUEUED or RUNNING, and from a page that makes rows |
| `Interpolation.InterpolateParams` | go/connection.go:118-222 | the byte loop over a growing buffer computes Interpolated, or refuses a wrong number of arguments |
| `Interpolation.InterpolatedExactly` | go/connection.go:129-219 | with renderable arguments the outcome is the query with its placeholders replaced in order, or an overflow exactly when some argument but NULL ends past the limit |
| `Interpolation.OverflowExactly` | go/connection.go:143-218 | the same from any point of the loop on |
| `Interpolation.InterpolatedText` | go/connection.go:129-219 | each argument is used once, in order |
| `Interpolation.SuccessRenders` | go/connection.go:147-214 | success means every argument has a rendering |
| `Interpolation.InterpolatedLengthBound` | go/connection.go:143-218 | the length is at most 10*MAXQueryStringLength - 4 + len(query) + 3*len(args), though NULLs and the tail escape the check |
| `Interpolation.NeverShorter` | go/connection.go:129-219 | the result is never shorter than the query |
| `Interpolation.AppendArg` | go/connection.go:147-214 | appends the rendering of one argument to the buffer, or reports an unknown type or a table index out of range |
| `Interpolation.AppendTime` | go/connection.go:162-203 | looks up the date and clock, then the fraction, and appends what was found, or panics on an index out of range |
| `Interpolation.BuildExecutionParams` | go/connection.go:58-116 | one parameter per argument, or an error for an unknown type |
| `Interpolation.RenderersAgree` | go/connection.go:58-222 | whenever interpolation succeeds it equals the query with the placeholders replaced by the execution parameters of the formatted arguments |
| `Interpolation.ParamIsRendering` | go/connection.go:66-112 | for each argument both renderers write the same text, after FormatString and FormatBytes |
| `Interpolation.OneArgument` | go/connection.go:147-162 | in a query with one placeholder the argument stands between what is around it: NULL, 1 or 0 for a truth value, an integer in decimal that reads back, and the zero time as the zero date |
| `Literals.StringArgumentStaysALiteral` | go/connection.go:208-211 | a string argument is one literal of the final text if and only if the text before it ends outside every literal, not just behind one, and the text after it begins with no quote; under both lexings |
| `Literals.QuotedArgumentsAreLiterals` | go/connection.go:129-219 | all string, time and byte arguments are literals of the final text if and only if the placeholders are well placed, which the query and the kinds of the arguments decide; no content changes it |
| `Literals.PlacementIsExact` | go/connection.go:129-219 | the same from any point of the text on |
| `Literals.QuoteFollowsExactly` | go/connection.go:129-219 | the text after an argument begins with a quote exactly when the query goes on with one or with a placeholder of a string or time |
| `Literals.Shape` | go/connection.go:142-214 | every argument is written as a marker and a quoted text, or as plain text without quotes and backslashes |
| `Literals.PlaceholderInsideALiteral` | go/connection.go:129-211 | a placeholder inside a literal lets any string out of it |
| `Literals.PlaceholderBehindALiteral` | go/connection.go:129-211 | a placeholder just behind a literal is not well placed |
| `Literals.AdjacentStringsRunTogether` | go/connection.go:208-211 | two string arguments in adjacent placeholders read as one literal |
| `Interpolation.TimesOutsideTheTables` | go/connection.go:162-190 | an index into the digit tables is out of range exactly when the rounded year is not 0 to 9999, and then interpolation panics; the parameter renderer does not |
| `Interpolation.FirstTimeOutsideTheTables` | go/connection.go:166-180 | the first instant of the year 10000 is such a time |
| `TimeLiteral.IndexesInRange` | go/connection.go:163-203 | the indexes computed with truncating division stay in the tables exactly in the years 0 to 9999, and then the bytes found are the literal |
| `TimeLiteral.YearIndexes` | go/connection.go:165-167 | hundreds and rest of a year are both table indexes exactly in the years 0 to 9999 |
| `Escaping.UnescapeEscape` | go/utils.go:587-631 | a decoder recovers every byte string from its escaped form |
| `Escaping.LiteralIsSelfDelimiting` | go/utils.go:587-631 | a literal followed by any text is closed at its own quote, under quote doubling and under backslash lexing, exactly when that text does not begin with a quote |
| `Escaping.EscapeLength` | go/utils.go:589-589 | the room reserved is enough, and at most half of it is left over |
| `Escaping.ReserveBuffer` | go/utils.go:640-649 | reuses the array exactly when its capacity is enough, and keeps the contents in both cases |
| `Escaping.WriteEscaped` | go/utils.go:591-628 | one byte is written as its escape, within two places |
| `Escaping.EscapeBytesBackslash` | go/utils.go:587-631 | the old contents followed by the escaped bytes; nothing outside the reserved part of the array is written |
| `Escaping.FormatString` | go/utils.go:813-815 | the escaped text in quotes |
| `Escaping.FormatBytes` | go/utils.go:819-824 | the escaped bytes in quotes, marked as binary |
| `TimeLiteral.SourceTablesCorrect` | go/constants.go:86-87 | the two digit tables hold the tens and units of every number below 100 |
| `TimeLiteral.LayoutIsTable` | go/connection.go:86-97 | the layout-based literal is the table-based one for every date of the years 0 to 9999 |
| `TimeLiteral.DecodeTable` | go/connection.go:176-202 | a table-based literal decodes to its own microsecond |
| `TimeLiteral.LiteralDecodesToRoundedTime` | go/connection.go:159-203 | the literal of a time decodes to the time rounded half up to a microsecond, carries included; the fraction is missing exactly when it is zero |
| `Calendar.InstantRoundTrip` | go/connection.go:163-173 | date and clock of an instant are valid and give it back |
| `Calendar.DateRoundTrip` | go/connection.go:165-169 | the date of a day number is valid and has that day number |
| `Calendar.YearAndDayCorrect` | go/connection.go:165-165 | the year found for a day number contains it |
| `ResultPages.Pages.constructor` | go/rows.go:91-100 | no page has been fetched |
| `ResultPages.Pages.FetchNextPage` | go/rows.go:276-368 | the fetched page becomes its normal form, whose rows RowsAreKept and RowsComeFromThePage give; exactly the listed pages panic, and reachedLastPage is set exactly when nothing is left to read |
| `ResultPages.Pages.FitColumnsAndRows` | go/rows.go:302-339 | pads columns, splits cells or adds the update-count row, each exactly under its condition |
| `ResultPages.Pages.PadColumns` | go/rows.go:308-316 | the loop appends the numbered columns up to the width of the first row |
| `ResultPages.Pages.SplitCells` | go/rows.go:317-327 | the loops split every row with exactly as many pieces as columns, and panic exactly when some row has no first text |
| `ResultPages.Pages.StartsWithHeader` | go/rows.go:344-359 | true exactly when the first row equals the column names |
| `ResultPages.NewRow` | go/utils.go:335-343 | one cell per item |
| `ResultPages.ColumnsAreKept` | go/rows.go:305-316 | named columns stay in front, the first row gets a column per cell, and the made-up columns are numbered by position, all different |
| `ResultPages.PageContentKept` | go/rows.go:317-327 | no text between tabs is lost exactly when no row that is split has a second cell |
| `ResultPages.SplitRowContent` | go/rows.go:319-325 | the same for one row |
| `ResultPages.RaggedPageLosesCells` | go/rows.go:319-325 | a page on which a cell is lost |
| `ResultPages.RowCount` | go/rows.go:328-367 | the number of rows changes only by the synthesised row or the dropped header, and a synthesised row is never taken for a header nor left unread |
| `ResultPages.RowsAreKept` | go/rows.go:340-367 | the rows left to read are all that fit the columns, in order, but a first row of the column names on a first page with more; there is nothing to read exactly when that leaves none |
| `ResultPages.RowsComeFromThePage` | go/rows.go:302-367 | every row left to read is the row of the fetched page at its index plus the number dropped, whole, or as the trimmed pieces of its text if it was split |
| `ResultPages.EmptyPage` | go/rows.go:328-338 | a page without rows stays without, but for the one row of a positive update count under the single column "rows" |
| `ResultPages.TidyOnce` | go/rows.go:302-339 | a page that has been made to fit is left alone by making it fit again |
| `RecordConversion.ConvertRecord` | go/rows.go:417-438 | fills the destination up to the first value that fails, leaves the rest, and returns that failure; what each cell is, the rows of CellValues give by type and field |
| `RecordConversion.Stop` | go/rows.go:419-427 | the first position that is not converted |
| `RecordConversion.MaskingDoesNotInterfere` | go/rows.go:417-453 | records that differ only in masked columns give the same destination and the same outcome |
| `RecordConversion.SuccessWritesEverything` | go/rows.go:417-453 | success is exactly that every unmasked cell converts and there are columns and places enough; then every position is written, masked ones with the mask |
| `RecordConversion.EmptyRecord` | go/rows.go:454-470 | a record of empty fields is refused exactly when some field has no column, no place, or a column that accepts no empty field; the first one decides between the error and a panic |
| `RecordConversion.IntegerCell` | go/rows.go:478-499 | the decimal text of n converts to n exactly when n fits the width of the column |
| `CellValues.TextsAreKept` | go/rows.go:417-515 | after success the cell of every non-empty field of the fifteen text types is that field, and of every masked column its mask |
| `CellValues.TextRecordsComeBack` | go/rows.go:417-515 | a record of text columns succeeds if its empty fields are accepted, and is recovered from the destination |
| `CellValues.TextCell` | go/rows.go:512-515 | a non-empty field of a text type is handed on as it is |
| `CellValues.BooleanCell` | go/rows.go:516-524 | true exactly for "true", false exactly for "false", refused otherwise |
| `CellValues.FloatCell` | go/rows.go:500-509 | a float of the width of its type, 32 for float and real and 64 for double, made of its own text if the library reads it |
| `CellValues.TimeCell` | go/rows.go:525-535 | a time made of its own text if the library reads it, for the five time types; a text ending in a space panics |
| `CellValues.IntegerCellExactly` | go/rows.go:478-499 | an integer column takes exactly the decimal texts, signed or not, of the numbers in the range of its type, each as its number |
| `CellValues.OtherTypeCell` | go/rows.go:536-540 | every other type is refused |
| `CellValues.EmptyFieldCell` | go/rows.go:454-470 | an empty field becomes nil, the empty string or the zero value of its type by the first of the three settings that is on, and an error if none is |
| `ConfigTags.Config.constructor` | go/config.go:109-120 | four values are set, and the two tag texts are empty, which is where the histories start |
| `ConfigTags.Config.SetWorkGroup` | go/config.go:242-259 | a nil workgroup is refused; otherwise the three values change as stated and no other, and a nil configuration is replaced by the default one |
| `ConfigTags.Config.GetWorkgroup` | go/config.go:351-373 | the name, the decoded tags and the default configuration, or the panic on a piece without a backtick |
| `ConfigTags.TagsRoundTrip` | go/config.go:242-373 | after any history of calls the tags read back are the concatenation of all lists if and only if no key or value holds a delimiter |
| `ConfigTags.TagsPanicExactly` | go/config.go:361-366 | after any history GetWorkgroup panics if and only if some tag, cut at its bars, has a piece without a backtick |
| `ConfigTags.BarInKeyPanics` | go/config.go:361-366 | a bar in a key is enough |
| `ConfigTags.Config.SetSessionTag` | go/config.go:579-587 | appends the pair to the stored text |
| `ConfigTags.Config.GetSessionTags` | go/config.go:591-611 | the decoded map, with the environment as fallback |
| `ConfigTags.SessionTagsRoundTrip` | go/config.go:579-611 | after any history of clean calls the map read back is the last-write-wins map; and a map holding a delimiter is never read back |
| `ConfigTags.SessionTagsAlwaysRoundTrip` | go/config.go:579-611 | the map read back is right after every call of a history if and only if no key or value holds a delimiter |
| `ConfigTags.DecodedIsLastPair` | go/config.go:600-610 | whatever the stored text, a key is decoded to the value of its last piece of exactly two parts; other pieces count for nothing |
| `ConfigTags.RestOfTagIsDropped` | go/config.go:361-366 | of a workgroup tag only what stands before a second backtick is read back |
| `ServiceLimits.ServiceLimitOverride.constructor` | go/servicelimitoverride.go:39-41 | nothing is overridden |
| `ServiceLimits.ServiceLimitOverride.SetDDLQueryTimeout` | go/servicelimitoverride.go:44-50 | refuses 0 up to the pool interval, and keeps both fields allowed |
| `ServiceLimits.ServiceLimitOverride.SetDMLQueryTimeout` | go/servicelimitoverride.go:58-64 | the same for the other field |
| `ServiceLimits.ServiceLimitOverride.GetAsStringMap` | go/servicelimitoverride.go:73-78 | both fields in decimal, which are what is stored in a Config |
| `ServiceLimits.ServiceLimitOverride.SetFromValues` | go/servicelimitoverride.go:82-87 | reads both fields, each through its setter |
| `ServiceLimits.HistoriesAreAllowed` | go/servicelimitoverride.go:44-64 | whatever is called, each field is zero, negative or at least 3 seconds |
| `ServiceLimits.StoreThenLoad` | go/config.go:514-525 | stored limits are read back unchanged if and only if they are such fields |
| `ServiceLimits.SameVerdict` | go/utils.go:668-695 | stored limits give the same timeout verdict for every elapsed time and statement type |
| `ServiceLimits.PrematureExactlyOnOverflow` | go/utils.go:668-695 | no query times out before its limit if and only if the limit fits a Duration |
| `ServiceLimits.DefaultLimits` | go/utils.go:668-695 | without overrides DML and UTILITY have 1800 seconds and all other types 36000 |
| `ServiceLimits.OverrideReaches` | go/utils.go:668-695 | an override is the exact limit of the statement types it is meant for, a negative one is none, and other types keep their verdict |
| `ServiceLimits.NothingStored` | go/servicelimitoverride.go:82-87 | values without stored limits leave the receiver alone |
| `Decimal.AtoiItoa` | go/servicelimitoverride.go:73-86 | decimal text of a 64-bit integer is read back unchanged |
| `Statements.Prepare` | go/connection.go:547-558 | refuses texts of invalid length, else an open statement on the connection |
| `Statements.Statement.constructor` | go/connection.go:551-556 | open, with the number of placeholders |
| `Statements.Statement.Close` | go/statement.go:38-49 | succeeds only on an open statement with a connection, and clears it |
| `Statements.Statement.NumInput` | go/statement.go:56-61 | the number of placeholders of the current text, cached or not |
| `Statements.Statement.Exec` | go/statement.go:69-77 | a closed statement makes no call; an open one takes the course of ExecContext and is closed after, unless the run panics |
| `Statements.Statement.Query` | go/statement.go:80-88 | a closed statement makes no call; an open one takes the course of QueryContext and is closed after, unless the run panics |
| `Statements.AtMostOneRun` | go/statement.go:38-88 | over any sequence of uses at most one use makes remote calls, while no reply to a call panics |
| `Statements.CrashAfterCalls` | go/statement.go:69-88 | a run that makes calls panics exactly when the reply to the last of them does |
| `Statements.CallsExactly` | go/statement.go:38-88 | a use makes calls if and only if its run makes calls on an open statement and every use before it left the statement open |
| `Statements.CallsTwiceExactly` | go/statement.go:38-88 | two uses both make calls if and only if the reply to the last call of the earlier one panics, the later one makes calls on an open statement, and every use between and before leaves the statement open |
| `Statements.PageWithoutMetadataRunsTwice` | go/statement.go:80-88 | a result page without metadata makes two uses of one statement start its query twice |
| `WorkgroupText.Builder.WriteString` | go/wgconfig.go:50-52 | appends |
| `WorkgroupText.WriteStart` | go/wgconfig.go:88-94 | what comes before a field |
| `WorkgroupText.Prettify` | go/wgconfig.go:65-105 | the recursive walk with its first flag appends exactly the text Print defines |
| `WorkgroupText.WgConfigString` | go/wgconfig.go:46-53 | the text kept for a configuration |
| `WorkgroupText.ConfigTextUnambiguous` | go/wgconfig.go:46-105 | two configurations of one schema have the same text if and only if their populated exported fields agree at every depth |
| `WorkgroupText.PrintUnambiguous` | go/wgconfig.go:65-105 | the same at any depth and before any text that does not go on with a digit |
| `WorkgroupText.NilReadsLikeUnset` | go/wgconfig.go:46-49 | a nil configuration has the text of one that is there exactly when the latter has nothing set |
| `WorkgroupText.QuoteIsQuoting` | go/wgconfig.go:100-101 | quoting with the escapes of %q meets what unambiguity relies on |
| `WorkgroupText.RecordLayout` | go/wgconfig.go:70-99 | a record is one entry for each exported field that is set, in their order, one a line and separated by commas, in braces |
| `WorkgroupText.ScalarText` | go/wgconfig.go:100-104 | flags are written as true and false, numbers in decimal that reads back, texts quoted |
| `Decimal.ItoaPrefixFree` | go/wgconfig.go:102-103 | written numbers are told apart before any text that does not go on with a digit |

## Left out

Assumptions:

- Both copies of the result object hold the same well-formed CSV records, and a read that failed on a transport keeps failing until the reader is swapped.
- `database/sql` does not overlap `Next` and `Close`; no other `Rows` uses the same scratch path; where a theorem speaks of clean skips, reads of the local scratch file while skipping succeed.
- Settings do not change while a query runs.
- TrimSpace, ToLower, FormatFloat, ParseFloat and time parsing are parameters; of TrimSpace it is assumed that it is idempotent and adds no byte, of FormatFloat that it writes something without quotes or backslashes, of the `%q` verb that quoted texts differ and end at their only raw quote (`QuoteIsQuoting` gives a quoting with Go's ASCII escapes that does).

Not modelled:

- Comments and double-quoted identifiers in SQL: the lexer of Literals.dfy knows single-quoted literals only.
- The size of a grown Go slice beyond `reserveBuffer`: append has its own growth policy in the runtime.
- Statement execution on a background context: its environment never ends the context, which is one of the environments covered.
- RowsReader.Rows.Next: a call after one that panicked is not run by the class; `MissingLocationPanicsTwice` says what it does.
- The rows that `ExecContext` drops and that `Ping` closes.
- Pseudo-command answers as one-row pages: their `Next` needs an execution they never describe.
- SessionTagsRoundTrip: for one moment the converse speaks of the keys and surviving values only, because an unclean value that is overwritten later can leave the map intact; `SessionTagsAlwaysRoundTrip` is exact over the whole history.
- Columns without a name, which the code dereferences everywhere; page panics are exact for named columns.
- The log line for a missing value, which reads the workgroup and so panics on malformed tags; `QueryContext` does the same before it submits, and there it is modelled.
- Slices and maps in a workgroup configuration: its types have none.
- Cost printing, logging, metrics, tracing and error texts; removal of the scratch file; AWS clients, credentials and transport; the regular-expression and parser heuristics; table rendering; the command-line reader.
- `getWG` and `CreateWGRemotely` beyond their outcome, and the parsing of the poll interval in `go/config.go`.
