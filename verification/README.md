# Bifurc: what its clients keep

A model, in Dafny, of the state machine and the algorithms behind Bifurc's desktop app and command line, with proofs
of what they promise. Check it with `dafny verify dfyconfig.toml`.

**The app's mirror of the engine.** `AppModel` holds the class with the fields of the source, method by method;
`AppState` gives the new state of each method as a function of the old one. `RefreshProtocol` puts the model against
an engine, as a transition system over everything on its way between the two: writes by others, queued events, the
burst timer, reads that capture the engine's state at the moment they are served, replies and failures, write chains,
and commands that change the head without an event. Steps are taken in any order. `RefreshConvergence` carries the
inductive invariants, `RefreshTheorems` and `Publishing` what follows over all runs, `RefreshTermination` that every
run comes to rest. Time is the order of steps: the delay of the burst timer is any delay. `AppRun` drives the object
itself along a run. `RefreshHistory` says of the steps of a run when something was lost: a read of the snapshot
failed, or a change was announced before the subscription was in place, and no read has been served since. Without
that the run converges (`RefreshTheorems.Converges`); and it can be that: the subscription does start later than the
first read may be served, so a change in between, of whatever entity, goes unnoticed
(`RefreshTermination.ChangesBeforeTheSubscriptionCanBeMissed`). `AppLaws` says, of the fields and effects alone, what
every entry point, event and answer sends and tells.

**The licence walk.** `Reachability` has paths, closed sets and the worklist; `Licenses` and `Shipping` the three
loops that use it; `LicenseLaws` what ships, told by the packages' own fields.

**Names.** `EditDistance` and `NameLookup`: the one-row table, the metric it computes, and the lookup in five steps;
`NameLaws` says of the rows' ids and names which row that is.

**Days and minutes.** `Civil` and `TimeText`: the two directions of the calendar arithmetic, and the text one prints
that the other reads, with 64-bit overflow as an outcome of its own. What is taken as a time has upper bounds only:
`-5` is an hour, a minute and a second, although the comment at `crates/cli/src/changes.rs:35` has `HH:MM:SS`, and 31
February is a day (`TimeText.TakenWhenInBounds`); parts after the seconds are not looked at. `TimeLaws` has the look
of a printed minute and what short forms mean.

**cURL.** `ShellWords`: quoting (section 2.2 of the POSIX.1 Shell Command Language, and `$'…'`) against the tokenizer;
`ShellLaws` how each kind of quote is read, double quotes included. `UrlTemplate`: variables put into a URL, and taken
out again. A base variable whose value ends in a slash changes the meaning, and that is the only way to: read piece by
piece (`UrlTemplate.MeaningIsKept`), and on the text, for URLs with placeholders of their own too
(`UrlTemplate.FillingInIsKept`). On the text, a variable's name must not hold a `}` or a separator, and its value no
placeholder; the value has to (`UrlTemplate.ValuesHaveToBeSettled`). `UrlLaws` says on the text which variable goes
where.

**Flows.** `FlowSteps` says what it is for a graph to be a straight line; `FlowReading` has the loops; `FlowTheorems`
what the reading promises; `FlowLaws` and `FlowLines` which graphs are read back, in both directions, in terms of
their fields and literals; `FlowWriting` that steps drawn as a line read back. `FlowExtracts` and `FlowBuilding` have
the graph the engine draws for a step file, wires of extracts included: it reads back as its steps, except that the
last step has no request after it to be wired to, so what it extracts is lost. `FlowPaths` has the text of an
extracted path: `.[0].id` is shown as `[0].id`, which a step file refuses. `BuildLaws` lists what is drawn for each
step.

**Smaller pieces.** `MarkerMerge`: the block between markers; merging twice differs from merging once only for a file
without block and CRLF that ends in a lone carriage return, which the appended newline turns into a CRLF. `IdTails`
and `TailLaws`: ids shown by their shortest ends. A decision reads the pending approvals of every workspace, so a tail
listed with `--workspace` can be ambiguous (`IdTails.TailOfOneWorkspace` has the condition). `ChunkedRead`: the export
read a chunk at a time.

## Model

| member | source | states |
|---|---|---|
| `AppModel.Model.constructor` | crates/app/src/app_model.rs:309-343 | the model as it is made: nothing shown, and the first read under way |
| `AppModel.Model.Refresh` | crates/app/src/app_model.rs:742-750 | the whole new state: `config.get` is sent and `refreshing` raised, or `refresh_again` when a read is in flight |
| `AppModel.Model.RefreshSoon` | crates/app/src/app_model.rs:725-738 | the whole new state: one timer is started, none while one is pending |
| `AppModel.Model.TimerFired` | crates/app/src/app_model.rs:729-735 | the whole new state when the timer fires: `refresh_scheduled` cleared, then a refresh |
| `AppModel.Model.ApplyConfig` | crates/app/src/app_model.rs:752-786 | the whole new state after a reply or a failure: the snapshot replaced or kept, the status read again, and the follow-up |
| `AppModel.Model.RefreshGit` | crates/app/src/app_model.rs:877-889 | the whole new state: one status read for the workspace in front, or `git_again` |
| `AppModel.Model.GitReplied` | crates/app/src/app_model.rs:890-904 | the whole new state: the answer is taken only for the workspace in front, a failure keeps the status, and the follow-up |
| `AppModel.Model.OnIncoming` | crates/app/src/app_model.rs:601-663 | the whole new state per event: patched in place with `refresh_again` raised if a read is in flight, or a refresh, soon, or a status read |
| `AppModel.Model.Publish` | crates/app/src/app_model.rs:1031-1041 | the whole new state: nothing while publishing, refused when read-only, started, or the message asked for |
| `AppModel.Model.SyncWithMessage` | crates/app/src/app_model.rs:1043-1052 | the whole new state: the guarded start of a publish or of a sync of everything |
| `AppModel.Model.SyncAll` | crates/app/src/app_model.rs:1088-1098 | the whole new state: started at once when there is nothing to commit, else the message is asked for |
| `AppModel.Model.SyncEntity` | crates/app/src/app_model.rs:1144-1150 | the whole new state: the publish of the entity's file, or that there is none |
| `AppModel.Model.RevertEntity` | crates/app/src/app_model.rs:1152-1175 | the whole new state: the guarded start, or that there is no file |
| `AppModel.Model.ResolveDelete` | crates/app/src/app_model.rs:1187-1204 | the whole new state: the guarded start; read-only refuses a confirmation and not a revert |
| `AppModel.Model.RevertPaths` | crates/app/src/app_model.rs:1217-1224 | the whole new state: the guarded start with the last path of the list |
| `AppModel.Model.DiscardNext` | crates/app/src/app_model.rs:1226-1242 | the whole new state: the next path with the first failure so far, or the end of the chain, which tells that failure |
| `AppModel.Model.WriteReplied` | crates/app/src/app_model.rs:1071-1084 | the whole new state when a write ends: the flag cleared, the failure told, and the refresh; the next path after one of a list |
| `AppRun.Step` | crates/app/src/app_model.rs:601-786 | one step of the system done by the object: afterwards it is the system's app, and launching what it sent gives the rest of the system |
| `AppRun.Drive` | crates/app/src/app_model.rs:309-786 | a fresh object driven along any run ends as the run's app, and shows the engine's snapshot when the run rests and ends with nothing lost |
| `StepEffects.AfterIs` | crates/app/src/app_model.rs:725-904 | each step of the whole system, handlers and launched effects together, is the direct description the proofs use |
| `RefreshConvergence.OneOfEachIsKept` | crates/app/src/app_model.rs:725-750 | every step keeps: at most one `config.get`, timer, status read and write chain, exactly while its flag is up, and a follow-up noted only during a read |
| `RefreshConvergence.SnapshotInvIsKept` | crates/app/src/app_model.rs:627-645 | every step keeps: each entity agrees with the engine, or its latest change is queued, or a read is sure to come |
| `RefreshConvergence.GitInvIsKept` | crates/app/src/app_model.rs:877-904 | every step keeps: the status agrees with the engine's, or another read of it is sure to come, and what is shown was read for the workspace in front or will be |
| `RefreshTheorems.OneAtATime` | crates/app/src/app_model.rs:725-750 | coalescing and mutual exclusion in every reachable state |
| `RefreshTheorems.EveryEntityIsCovered` | crates/app/src/app_model.rs:627-645 | convergence at every moment of every run in which nothing was lost: agreement, a queued latest change, or a later read |
| `RefreshTheorems.Converges` | crates/app/src/app_model.rs:752-786 | at rest, over all interleavings, the snapshot is the engine's unless the run ends with a failed read or an unheard change that no served read follows; the status likewise |
| `RefreshHistory.HistoryIs` | crates/app/src/app_model.rs:575-599 | a history flag is up at the end of a run exactly when a step raised it, a failed read or a change announced before the subscription, and no served read follows that |
| `RefreshTheorems.ConvergesOnceSubscribed` | crates/app/src/app_model.rs:575-786 | a run without a failed read of the snapshot, in which one is served after the subscription, rests on the engine's snapshot |
| `RefreshTheorems.StaleReplyIsFollowedUp` | crates/app/src/app_model.rs:629-631 | a stale answer in flight always has a queued event, `refresh_again`, a timer or a command's refresh behind it |
| `RefreshTheorems.StatusBelongsToTheWorkspaceInFront` | crates/app/src/app_model.rs:890-898 | with no status read in flight and none failed the status was read for the workspace in front, and an answer for another is never taken |
| `RefreshTheorems.FailedReadKeepsSnapshot` | crates/app/src/app_model.rs:774-785 | after a failed read the snapshot is unchanged and a pending follow-up is asked for |
| `RefreshTheorems.RequestsCollapse` | crates/app/src/app_model.rs:740-746 | any number of further requests during a read change nothing |
| `RefreshTheorems.ManyRequestsOneFollowUp` | crates/app/src/app_model.rs:740-786 | any number of requests during a read yield one follow-up, and that one yields none |
| `RefreshTermination.InternalStepsDecrease` | crates/app/src/app_model.rs:725-786 | every step that is not from outside lowers a measure over queue, timer, flags, reads and writes |
| `RefreshTermination.RunsAreBounded` | crates/app/src/app_model.rs:725-786 | a run without outside steps is no longer than the measure of its first state |
| `RefreshTermination.NeverStuck` | crates/app/src/app_model.rs:725-786 | whatever is on its way can take a step |
| `RefreshTermination.EveryRunSettles` | crates/app/src/app_model.rs:725-786 | every reachable state comes to rest, on the engine's snapshot unless a read failed or a change went unheard |
| `RefreshTermination.ChangesBeforeTheSubscriptionCanBeMissed` | crates/app/src/app_model.rs:575-599 | for every engine with a workspace in front and every change of one of its entities: a run without failures that rests on the snapshot from before the change, which came after the first read was served and before the subscription |
| `RefreshTermination.FailedReadCanBeTheLast` | crates/app/src/app_model.rs:774-785 | for every engine whose snapshot is not the empty one: a first read that fails leaves the app at rest on the empty one |
| `Publishing.NoSecondChain` | crates/app/src/app_model.rs:1031-1225 | whichever entry point is called during a chain, no other write starts |
| `Publishing.CompletionClears` | crates/app/src/app_model.rs:1071-1242 | every completion, good or bad, ends the chain and clears `publishing`, except a file with another after it |
| `Publishing.RevertPathsTriesEachOnce` | crates/app/src/app_model.rs:1215-1242 | each path is tried exactly once, from the end of the list, and the failure told is that of the first one tried that failed |
| `AppLaws.FailureIsTold` | crates/app/src/app_model.rs:1071-1208 | the failure of any single write, a publish or a sync as much as a discard or a deletion, is the one notice sent |
| `AppLaws.SuccessIsTold` | crates/app/src/app_model.rs:1071-1208 | what a write that ends well tells, write by write: nothing for a publish or a confirmed deletion, else that it was synced or taken back |
| `AppLaws.EndedWriteReads` | crates/app/src/app_model.rs:1071-1208 | every single write that ends clears `publishing` and has the status or the snapshot read, or noted for later |
| `AppLaws.FailedReadIsTold` | crates/app/src/app_model.rs:774-785 | a read of the snapshot that fails sends one notice with the error, an answered one none |
| `AppLaws.EntryPointsAsk` | crates/app/src/app_model.rs:1031-1224 | for each of the entry points: the one write or notice it sends, under which conditions, and that `publishing` is up afterwards exactly when it was or a write was sent |
| `AppLaws.NothingIsSyncedReadOnly` | crates/app/src/app_model.rs:561-573 | in a read-only workspace no entry point starts a publish, a sync or the confirmation of a deletion |
| `AppLaws.EventsDo` | crates/app/src/app_model.rs:601-663 | what each engine event sends: nothing, one read of the snapshot, the burst timer unless it runs, or one read of the status |
| `AppLaws.LoadIs` | crates/app/src/app_model.rs:752-781 | over every run: once a read is answered the app is ready for good; before that it shows the failure of the first read that failed |
| `AppLaws.ShownMoves` | crates/app/src/app_model.rs:601-904 | of all that can happen, only three things move what is shown: an answered read of the snapshot, a change put in place, which lists that entity and leaves the rest, and an answered status read for the workspace in front |
| `Reachability.ClosedIsReached` | xtask/src/licenses.rs:186-223 | a closed set of reached things is exactly what paths reach, and the least closed set |
| `Reachability.SearchVisits` | xtask/src/licenses.rs:200-224 | a step of a worklist keeps the search invariant, in any order of the stack |
| `Licenses.ImpliedByTests` | xtask/src/licenses.rs:183-190 | the first loop ends and finds exactly what `test-support` reaches through plain items |
| `Licenses.EnabledOptional` | xtask/src/licenses.rs:176-226 | the result is exactly what features reachable from the enabled ones, never through what `test-support` implies when `tests` is false, switch on; with `tests` true also what that feature mentions |
| `Licenses.SwitchOn` | xtask/src/licenses.rs:200-224 | the second loop ends on every manifest with what was on before and exactly what the features reachable outside the avoided ones switch on |
| `Licenses.WithoutTestsIsLess` | xtask/src/licenses.rs:169-199 | the result without tests is a subset of the result with them |
| `Licenses.DepItem` | xtask/src/licenses.rs:209-210 | `dep:x` switches on `x` and leads to no feature |
| `Licenses.FeatureOfItem` | xtask/src/licenses.rs:211-214 | `x/f` switches on `x` and leads to no feature |
| `Licenses.WeakItem` | xtask/src/licenses.rs:211-214 | `x?/f` switches on nothing and leads to no feature; what it mentions is `x`, however many marks there are |
| `Licenses.NameItem` | xtask/src/licenses.rs:215-216 | a plain name switches on nothing itself and leads to the feature of that name |
| `Licenses.EachItem` | xtask/src/licenses.rs:206-219 | a feature with one item of each kind switches on what `dep:` and `x/f` name, and leads on by the plain name only |
| `Shipping.IsOnlyForTests` | xtask/src/licenses.rs:265-272 | whether an optional dependency is switched on by tests only |
| `Shipping.Walk` | xtask/src/licenses.rs:247-277 | the walk ends with exactly the packages reachable by normal edges that are not for tests only: the least closed set with the roots |
| `Shipping.ShippedCrates` | xtask/src/licenses.rs:278-289 | the crates listed are exactly the shipped packages that are no workspace member and no crate of the project's own, or the walk met a package without metadata |
| `LicenseLaws.ShipsIs` | xtask/src/licenses.rs:248-275 | for features that switch dependencies on: a dependency ships exactly when it is resolved as a normal one and no normal, optional declaration of it is switched on, under its name there, by `test-support` and by no other enabled feature |
| `EditDistance.Levenshtein` | crates/cli/src/commands.rs:221-234 | the one-row table, overwritten in place, ends with the recursive distance |
| `EditDistance.ZeroIffEqual` | crates/cli/src/commands.rs:220-234 | the distance is zero exactly for equal strings |
| `EditDistance.Symmetric` | crates/cli/src/commands.rs:220-234 | the distance is symmetric |
| `EditDistance.Triangle` | crates/cli/src/commands.rs:220-234 | the triangle inequality |
| `EditDistance.DistanceIsLeastEdits` | crates/cli/src/commands.rs:220 | the distance is the least number of insertions, deletions and replacements that turn one string into the other |
| `NameLookup.FindOne` | crates/cli/src/commands.rs:149-217 | succeeds exactly when the first step with any match has one, with that row; else the rows of that step, or the suggestions |
| `NameLookup.Closest` | crates/cli/src/commands.rs:199-210 | the suggestions are at most three candidates, pairwise distinct, the least by distance and then name |
| `NameLookup.DedupDistinct` | crates/cli/src/commands.rs:208-209 | removing equal neighbours leaves no repeated name in the sorted list, and loses none |
| `NameLookup.AnswerIsUnique` | crates/cli/src/commands.rs:149-218 | the rows determine the answer, suggestions and their order included |
| `NameLookup.FullIdWins` | crates/cli/src/commands.rs:145-161 | the full id of one row finds it whatever the names are |
| `NameLaws.AnswerIs` | crates/cli/src/commands.rs:145-197 | with ids, names and starts spelled out: the answer is the one row meant in the first of the five ways in which any is, the rows of that way when they are several, and not-found exactly when there is none in any way; an id's start takes four characters |
| `NameLaws.AnyCaseBeforeStart` | crates/cli/src/commands.rs:160-164 | the only row whose name differs in case alone is the answer, however many names start with what is wanted |
| `NameLaws.SuggestionsAre` | crates/cli/src/commands.rs:199-210 | a name is suggested only when it is within two edits or a fourth of the length, or holds what is wanted; best first, and none left out is better |
| `Civil.DecodeEncode` | crates/cli/src/changes.rs:54-58 | decoding the encoded day of a valid date gives the date, over all integers |
| `Civil.EncodeDecode` | crates/cli/src/extras.rs:117-125 | every day number decodes to a valid date that encodes to it |
| `Civil.TomorrowIsNextDay` | crates/cli/src/changes.rs:54-58 | the next date of the calendar, by the leap-year rule, is the next day number |
| `Civil.EpochIsZero` | crates/cli/src/changes.rs:58 | 1970-01-01 is day 0 |
| `TimeText.MinuteReadsBack` | crates/cli/src/extras.rs:115-127 | for every 64-bit second: its printed minute reads back as that minute in milliseconds, unless the year is negative (not a time) or 64 bits do not hold the result |
| `TimeText.OnlyLateHoursAreRefused` | crates/cli/src/changes.rs:45-53 | an hour is refused exactly when it is after 23; negative hours are taken |
| `TimeText.TakenWhenInBounds` | crates/cli/src/changes.rs:36-59 | a date and a time to the second are a time exactly when the month is 1 to 12, the day 1 to 31, the hour at most 23, the minute and second at most 59 |
| `TimeText.TakenWhenInBoundsToTheMinute` | crates/cli/src/changes.rs:36-59 | the same to the minute |
| `TimeLaws.MinuteLooks` | crates/cli/src/extras.rs:115-127 | a printed minute of a year up to 9999 takes sixteen characters: the numbers padded to four and two digits, with their separators |
| `TimeLaws.MillisecondsAre` | crates/cli/src/changes.rs:54-59 | a time that is taken is the milliseconds of its days, hours, minutes and seconds |
| `TimeLaws.FourDigitYearsFit` | crates/cli/src/changes.rs:54-59 | no date of a year from 0 to 9999 overflows, with any hour from a hundred years before it |
| `TimeLaws.DateAlone` | crates/cli/src/changes.rs:36-45 | a date without a time reads as its midnight |
| `TimeLaws.TrailingZ` | crates/cli/src/changes.rs:36-45 | a `Z` at the end changes nothing |
| `TimeLaws.NumbersAre` | crates/cli/src/changes.rs:39-43 | a part is digits with a sign or without, within 64 bits on either side |
| `TimeLaws.AfterTheSeconds` | crates/cli/src/changes.rs:42-44 | what follows the seconds after another colon is not looked at |
| `TimeLaws.PartsOfADate` | crates/cli/src/changes.rs:40-45 | a date of more or fewer than three parts, or a time without a colon, is not a time |
| `ShellWords.ReadWords` | crates/cli/src/curl.rs:206-256 | the tokenizer's loops end within bounds on every input and compute its recursive description |
| `ShellWords.ReadQuoted` | crates/cli/src/curl.rs:225-242 | the inner loop, unterminated quotes included |
| `ShellWords.CommandReads` | crates/cli/src/curl.rs:322-350 | every list of words reads back as `curl` and the words, each control character without an escape of its own as `x` and two digits |
| `ShellWords.RoundTrip` | crates/cli/src/curl.rs:206-350 | the words come back unchanged exactly when their only control characters are newline, carriage return and tab |
| `ShellLaws.BlankEnds` | crates/cli/src/curl.rs:213-218 | white space ends the word that was begun and is nothing before one |
| `ShellLaws.CharStands` | crates/cli/src/curl.rs:245-248 | any other character stands for itself, a `$` too unless a single quote follows |
| `ShellLaws.BackslashTakes` | crates/cli/src/curl.rs:219-223 | a backslash takes the next character as it is, vanishes with a newline, and stands at the end |
| `ShellLaws.DoubleQuotesRead` | crates/cli/src/curl.rs:224-244 | within double quotes a backslash vanishes before a double quote, a backslash, `$` and a backquote only, and the whole is one part of the word |
| `ShellLaws.DoubleQuotedReads` | crates/cli/src/curl.rs:224-244 | every text, double-quoted with a backslash before each of those four, reads as itself and the rest is read on |
| `ShellLaws.SingleQuotesRead` | crates/cli/src/curl.rs:224-244 | within single quotes every character stands for itself |
| `ShellLaws.UnclosedTakesAll` | crates/cli/src/curl.rs:224-244 | a quote that is not closed takes the rest of the text |
| `ShellLaws.DollarQuotesRead` | crates/cli/src/curl.rs:224-244 | within `$'…'` the escapes of newline, tab and carriage return are read and any other backslash is dropped |
| `ShellLaws.SpecialIsQuoted` | crates/cli/src/curl.rs:322-328 | a word with a character a shell gives a meaning to is never written bare |
| `ShellLaws.HowWordsAreWritten` | crates/cli/src/curl.rs:322-348 | a word is written bare exactly when it is not empty and all letters, digits and the listed signs; else in `$'…'` when it holds a control character and in single quotes when not |
| `ShellLaws.CommandPrints` | crates/cli/src/curl.rs:322-350 | whatever the words, their command holds no control character, so it stays on one line |
| `UrlTemplate.Variables` | crates/cli/src/curl.rs:353-377 | each name once, with its last value that is not empty, in the order in which those stand |
| `UrlTemplate.LastMax` | crates/cli/src/curl.rs:413 | the place of the greatest score, the last among equals; none only when there is no score |
| `UrlTemplate.BaseIsLongest` | crates/cli/src/curl.rs:406-413 | the base chosen is the longest, the last among equals; there is one whenever some variable is a base |
| `UrlTemplate.Templatize` | crates/cli/src/curl.rs:403-433 | the loop's text and list of used variables are those of the pieces |
| `UrlTemplate.MeaningIsKept` | crates/cli/src/curl.rs:403-433 | filling in the placeholders gives the URL back exactly when the base variable, if any, has no trailing slash |
| `UrlTemplate.SubstitutingGivesTheUrlBack` | crates/cli/src/curl.rs:388-433 | the same for textual replacement of each `{{name}}`, whatever the values, for URLs without a `{{` of their own |
| `UrlTemplate.FillingInIsKept` | crates/cli/src/curl.rs:388-433 | for every URL, its own placeholders included: filling in the templated URL gives what filling in the URL gives, exactly when the base variable, if any, has no trailing slash |
| `UrlTemplate.ComesBackUnlessItHasPlaceholders` | crates/cli/src/curl.rs:388-433 | the URL itself comes back exactly when it has no placeholder to fill in |
| `UrlTemplate.OwnPlaceholderIsFilledIn` | crates/cli/src/curl.rs:388-433 | a URL that is a placeholder does not come back, as `{{x}}` where `x` is `secret` |
| `UrlTemplate.ValuesHaveToBeSettled` | crates/cli/src/curl.rs:388-392 | a one-word URL that is a variable's value keeps its meaning exactly when the value holds no placeholder |
| `UrlTemplate.UsedAreThePlaceholders` | crates/cli/src/curl.rs:394-398 | the variables reported as used are the placeholders, each once |
| `UrlLaws.LastValueIs` | crates/cli/src/curl.rs:368-375 | what a name holds: a value that is not empty with only empty ones of that name after it |
| `UrlLaws.BaseIsReplaced` | crates/cli/src/curl.rs:406-421 | with http and https, trailing slashes and what may follow a base spelled out: the URL starts with the placeholder of the longest base, the last among equals |
| `UrlLaws.NoBaseIsReplaced` | crates/cli/src/curl.rs:406-421 | and with its own text when no variable is a base of it |
| `UrlLaws.WordAndDivider` | crates/cli/src/curl.rs:422-433 | what stands before a `/`, `?`, `&`, `=` or `#` becomes the placeholder of the first variable that holds exactly it, if that has six characters, and else stays; then the divider and the rest |
| `UrlLaws.LastWord` | crates/cli/src/curl.rs:422-433 | and so does what stands last |
| `UrlLaws.UsedInOrder` | crates/cli/src/curl.rs:394-398 | the variables used are reported in the order of their first placeholders |
| `FlowReading.NextOf` | crates/cli/src/flowsteps.rs:65-84 | where a node goes on to: nowhere, to exactly one node by its success port, or not as a line does |
| `FlowReading.Wire` | crates/cli/src/flowsteps.rs:133-145 | the wires are taken exactly when each goes from an earlier request to a strictly later one with a variable and a body path, and each pair is kept once |
| `FlowReading.Linear` | crates/cli/src/flowsteps.rs:49-147 | the walk ends on every graph, cycles included; it returns lines exactly when some path makes the graph a line, and those of that path |
| `FlowSteps.OneLine` | crates/cli/src/flowsteps.rs:49-147 | at most one path makes a flow a line |
| `FlowSteps.ReadingIs` | crates/cli/src/flowsteps.rs:49-147 | the reading of a flow that a path makes a line is the reading of that path |
| `FlowTheorems.LinesAreThePath` | crates/cli/src/flowsteps.rs:85-124 | the lines, flattened with their checks, are the path: every node after the start once, in order |
| `FlowTheorems.ExtractsAre` | crates/cli/src/flowsteps.rs:134-144 | what a line extracts is exactly what the wires from its request carry, each pair once |
| `FlowTheorems.OrderDoesNotMatter` | crates/cli/src/flowsteps.rs:49-147 | listing nodes (distinct ids) and edges in another order changes nothing but the order of extracts |
| `FlowTheorems.DrawnIsStraight` | crates/cli/src/flowsteps.rs:49-147 | any chain of sound nodes, drawn with success edges, display nodes and forward wires, is a line |
| `FlowLines.LinesReadBack` | crates/cli/src/flowsteps.rs:49-147 | with every field, kind, port and literal spelled out: a graph with distinct ids is read back exactly when it is a start, a request and then plain requests and written checks, one control edge from each to the next, displays, and wires that carry parts of a body to later requests |
| `FlowLaws.NodesOfALine` | crates/cli/src/flowsteps.rs:56-124 | a graph that is read back has one start, and every other node but the displays is a request without retries, waived outcomes or a streaming kind, or a check named `expect …` with one rule if it validates |
| `FlowLaws.EveryRequestIsALine` | crates/cli/src/flowsteps.rs:103-111 | every request of such a graph is a line, with its variables and what validation says of it, and its own name where that says none |
| `FlowLaws.EmptyInputIsNone` | crates/cli/src/flowsteps.rs:71 | an edge whose input is the empty text is read as one that has none |
| `FlowLines.PairOfWire` | crates/cli/src/flowsteps.rs:134-144 | a wire extracts under its variable's name, by the text of its path, which is a dot for the whole body |
| `FlowLines.PathGoesOn` | crates/cli/src/flowsteps.rs:32-46 | that text goes on with a dot and the key, or with the index in brackets |
| `FlowWriting.DrawnStepsReadBack` | crates/cli/src/flowsteps.rs:1-7 | every non-empty list of steps, drawn with any displays and forward wires, their edges listed in any interleaving, reads back as those steps with what the wires carry |
| `FlowExtracts.ExtractsComeBack` | crates/engine/src/flows/steps.rs:592-609 | wired to every later request until a later step takes the name, what a step extracts comes back in order, the last of each name; of the last step, nothing |
| `FlowExtracts.StepsReadBack` | crates/engine/src/flows/steps.rs:581-640 | such steps read back, and whole exactly when the last one extracts nothing and no other extracts a name twice |
| `FlowBuilding.Build` | crates/engine/src/flows/steps.rs:581-640 | the graph drawn for any steps is the line of those steps with the wires of what they extract |
| `FlowBuilding.BuiltReadsBack` | crates/engine/src/flows/steps.rs:581-640 | the drawn graph reads back as its steps, whole exactly when the last one extracts nothing and no other extracts a name twice |
| `FlowBuilding.OneStepLosesItsExtracts` | crates/engine/src/flows/steps.rs:600-609 | a single step that extracts something does not come back whole |
| `FlowBuilding.IdsDiffer` | crates/engine/src/flows/steps.rs:582-611 | the ids given to start, steps, checks and the end are pairwise different |
| `BuildLaws.FlowIsDrawn` | crates/engine/src/flows/steps.rs:582-636 | the graph is a start, what each step adds, and a display after a last check that is a rule |
| `BuildLaws.StepIsDrawn` | crates/engine/src/flows/steps.rs:593-629 | each step adds its request, with its id, kind, name and variables, and then its checks in order, by rule or by expression |
| `BuildLaws.WiresAreDrawn` | crates/engine/src/flows/steps.rs:602-612 | the wires are exactly those from a step to a later one of what it extracts last under a name that no step between extracts again |
| `FlowPaths.ShownPathIsRead` | crates/cli/src/flowsteps.rs:32-46 | an extracted path, as shown, is read by a step file as the same keys exactly when it does not start with an index |
| `FlowPaths.PathComesBack` | crates/engine/src/flows/steps.rs:69-98 | every path of a step file, read and shown, is read as the same keys again, or refused when it starts with an index |
| `FlowPaths.ReadPath` | crates/engine/src/flows/steps.rs:79-98 | the loop over a path ends on every text with its keys, or none when some part cannot be read |
| `FlowPaths.KeyIsRead` | crates/engine/src/flows/steps.rs:88-93 | a key is one or more letters, digits, `_` and `-` |
| `FlowPaths.IndexIsRead` | crates/engine/src/flows/steps.rs:83-86 | an index is a number of 64 bits, a plus sign in front of it or not |
| `FlowPaths.DotsOfAPath` | crates/engine/src/flows/steps.rs:69-98 | a path starts with a dot and, but for the dot alone, does not end in one |
| `MarkerMerge.RefusedWhenUnpaired` | crates/cli/src/agent.rs:106-126 | refused exactly when one marker is there without the other, or an end marker comes before every begin marker |
| `MarkerMerge.MergingTwice` | crates/cli/src/agent.rs:106-126 | merging a marker-free, CR-free body again changes nothing, exactly when the file does not end in a lone carriage return with no block and no CRLF |
| `MarkerMerge.AroundTheBlockIsKept` | crates/cli/src/agent.rs:104-110 | replacing keeps what is before and after, and the block is all there is between the markers |
| `MarkerMerge.BareKeepsEol` | crates/cli/src/agent.rs:107-119 | appending keeps the file's line ending, but for the lone carriage return |
| `MarkerMerge.MarkedKeepsEol` | crates/cli/src/agent.rs:107-110 | replacing keeps the file's line ending, LF or CRLF |
| `MarkerMerge.AppendedAfterTheFile` | crates/cli/src/agent.rs:106-119 | to a file without markers: the whole file, its last line ended and an empty line unless it is empty, the begin marker, the body with its newlines as the file's, the end marker and one line ending |
| `MarkerMerge.PutBetweenTheMarkers` | crates/cli/src/agent.rs:106-110 | in a file with markers: what is before the first begin marker, that block, and what is after the first end marker |
| `IdTails.TailIsShortest` | crates/cli/src/capture.rs:57-68 | a tail is an end of its id of at least 4 bytes that no other id has and no shorter one would do, or the id itself when none does |
| `IdTails.TailNamesItsId` | crates/cli/src/capture.rs:57-90 | the tail shown for an id names that id, for every list of ids |
| `IdTails.EntryIdIs` | crates/cli/src/capture.rs:71-90 | what is answered is the id itself, or the only one that ends so |
| `IdTails.ResolvesAmong` | crates/cli/src/approvals.rs:76-102 | a tail names a pending item exactly when it is its whole id or no other pending id ends so |
| `IdTails.ListedTailNamesItsItem` | crates/cli/src/approvals.rs:39-41 | a tail computed over pending and decided names the same item among the pending ones |
| `IdTails.TailOfOneWorkspace` | crates/cli/src/approvals.rs:31-41 | a tail listed for one workspace still names its item among all pending ones exactly when none of the others ends so, or it is the whole id |
| `TailLaws.TailStandsFor` | crates/cli/src/capture.rs:57-68 | of the bytes: a tail shown is at least four, starts where a character does and ends no other id, as no shorter one would; or it is the id when none would |
| `TailLaws.EntryAnswers` | crates/cli/src/capture.rs:71-90 | without one `#` in front: the id itself, else the only one that ends so, else not-found or all that end so |
| `TailLaws.WholeIdAnswers` | crates/cli/src/approvals.rs:77-80 | the first pending approval with exactly that id |
| `TailLaws.ApprovalAnswers` | crates/cli/src/approvals.rs:81-102 | else the only one whose id ends so, else not-found or the ids of all that do; nothing after the `#` is not-found |
| `ChunkedRead.ReleasedOnceOnEveryExit` | crates/app/src/engine.rs:296-345 | whatever the engine answers, the blob is released exactly once when the read delivers, never before, and the offset is the number of bytes gathered |
| `ChunkedRead.EachAnswerBringsBytes` | crates/app/src/engine.rs:327-342 | an answer that lets the read go on brings at least one byte |
| `ChunkedRead.WhatIsDelivered` | crates/app/src/engine.rs:313-342 | the bytes of all answers in order, exactly when the last answer is a sound `eof`; an error exactly when the last answer fails |
| `ChunkedRead.WhichError` | crates/app/src/engine.rs:313-336 | the error a read ends with is that of its last answer: refused, no data, or stopped sending |
| `ChunkedRead.EachAsksForWhatFollows` | crates/app/src/engine.rs:304-342 | each read asks for 512 KiB from just after the bytes of the answers before it |
| `ChunkedRead.TheBlobIsDelivered` | crates/app/src/engine.rs:296-345 | from slices of a fixed blob, of any sizes, the read ends within one answer more than the blob has bytes and delivers exactly the blob |
| `ChunkedRead.EveryBlobIsDelivered` | crates/app/src/engine.rs:286-345 | an engine that serves what it is asked for delivers every blob, in one answer per chunk begun |

## Left out

- The engine but for the drawing of a flow, `ConfigSnapshot`, `GitStatus` and the flow validation: not part of this
  model. A snapshot is the head (workspace in front, read-only, and the rest as text) with a map of entities; a status
  is the changed paths and the path of each entity; both are compared as values.
- `ConfigSnapshot::apply_change`: an oracle. It may patch any change of the workspace the snapshot is of, and then
  sets exactly that entity's entry; it never patches another workspace's. Whether it patches is arbitrary.
- What the engine announces is assumed: an entity write is followed by its change event and by an entity status with
  `configChanged` false; every other change of what `config.get` answers by an event that makes the app read again, or
  it is made by one of this app's commands, whose reply does; every other change of the git status by one of the
  events that make the app read it again, or by a write chain, whose reply does.
- Engine restart, reconnecting and a lost connection; updates, set-up, windows, notifications.
- Vaults, proxies, faults, cassettes, claims and approvals as the app mirrors them: those reads are neither coalesced
  nor ordered.
- RefreshTheorems.Converges: of a run that ends with something lost it is not said when the snapshot agrees by chance;
  it does not for every engine (`ChangesBeforeTheSubscriptionCanBeMissed`, `FailedReadCanBeTheLast`).
- Texts of notices and errors, and whether an observer is notified: a notice is its kind and what it names.
- JSON: nodes, edges, features, packages, rows and replies are datatypes with the fields the code reads; a flow's ids
  and names are the text they render to.
- The `cargo metadata` call, licence texts, and which of several packages without metadata is named in the error.
- NameLookup.FindOne: lower-casing is an arbitrary function of the caller's, and a name is a sequence of characters.
- `sort` in the lookup: the library's sort is an insertion sort here; the order it gives is the same.
- MarkerMerge.MergingTwice: stated for bodies without markers and carriage returns, as the program writes them.
- UrlTemplate.FillingInIsKept: filling in replaces every known name; the engine's own
  (`crates/engine/src/env/mod.rs:261`) knows names of word characters only, and vaults and generators besides, which
  are not part of this model.
- Templating of headers and JSON bodies, and the warnings it prints.
- `extract_path` keys that hold a dot or a bracket are not told apart in the text, as in the source.
- FlowBuilding.Build: the coordinates, the requests' own ids, edge ids and the bodies of rules and expressions, which
  the reading does not look at; reading the step file but for its paths.
- FlowPaths.PathComesBack: which characters beyond `_` and `-` make a key is a parameter that has `.` and `[` out.
- FlowReading.Linear: retries that are no natural number count as none, as in the source; `render` and `yaml` are out.
- ChunkedRead: base64 is an outcome (decoded, undecodable, missing); the name a blob is saved under is not followed.
- Parsing of command lines, `since` and `ago`, output formatting, exit codes, sockets, files, processes, clocks.
