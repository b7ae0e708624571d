# Activity events: the hard parts, verified

A Dafny model of the parts of the activity events service whose correctness only shows over whole runs.
`dafny verify dfyconfig.toml` checks the whole project.

* **Refresh-token families.** `RefreshTokens` has the table and its atomic changes, `TokenProtocol` the calls statement by
  statement (private write sets, row locks, the advisory family lock, failures, crashes, commits nobody hears of),
  `TokenRuns` what holds over every run, `TokenAnswers` what a call's answer says about the run, `TokenProgress` that its locks
  never deadlock, `TokenStore` the repository and the service run one call at a time.
* **Windowed aggregation.** `Windows` is the bucket arithmetic, `Aggregation` the two-stage statement and the UPSERT against a
  direct fold, `Stats` the bucket and day views, `AggregateProtocol` aggregations side by side with ingest,
  `Scheduling`, `SchedulerProtocol` and `AggregationService` what is pending, many workers, and one worker. `Pipeline` puts
  ingest, the workers and their aggregations together on one set of tables, so that the run log can be held against the rows.
* **The event feed.** `Cursor` is decimal printing, the first-colon cut and unpadded base64url (section 5 of RFC 4648),
  `Pagination` the ordered and limited query and its traversal, `EventFeed` the listing service.
* **The live stream.** `EventStream` has the server's printer, the client's incremental parser and, for comparison, the data
  buffer of section 9.2.6 of the WHATWG HTML standard. `Channels` and `Broker` are the bounded fan-out run
  one call at a time, `BrokerProtocol` its statements run by many goroutines at once and `BrokerRuns` what holds over every run.
* **Ingest.** `Ingest` is normalization, the unique key and the recording of single events and batches; `IngestProtocol` the
  same calls interleaved, `IngestProgress` who waits for whom.
* **Google accounts.** `GoogleAccounts` is registration and Google sign-in on the tables of users and tokens, interleaved;
  `GoogleAnswers` says what each call does and answers, alone and among the others.

`Options`, `Sums` and `Collections` are shared by the rest.

Times are integers in nanoseconds, in the aggregation since year 1 UTC, from where `Truncate` counts, and in the feed since
1970, from where cursors count. Texts are sequences of characters that stand
for bytes, except in the stream, where they are code points. Tables are maps. What is drawn at random is an
id nobody has used yet. Clocks, database failures and what other transactions do are parameters or steps of a run.

Some promises hold only under a condition, stated exactly where a single step or call decides it:

* A cursor gives back its event's time if and only if the time fits 64-bit nanoseconds (`Cursor.CursorIsExactForInt64Times`).
* A stored row agrees with the raw events if and only if none of its events came after its window was last aggregated
  (`AggregateProtocol.RowsAreAsOfTheLastAggregation`), and a user's rows up to the watermark count all the user's events if and
  only if none came late into any of the windows (`Pipeline.RowsAddUpToTheWatermark`).
* Linking a Google account takes the password and the sessions away if and only if the address was not verified before
  (`GoogleAccounts.OnlyItsAddressLinks`).
* A recorded success keeps the succeeded windows contiguous if and only if it is at most one window past the watermark
  (`SchedulerProtocol.ContiguousExactlyWhenNotAhead`), which a manual run far ahead is not.
* Scheduled passes alone keep the windows contiguous, but not from an empty run log: two passes that both saw nothing, an event
  backdated between their reads of the earliest event, and a crash leave a window that no later pass offers
  (`SchedulerProtocol.BackdatedEventCanLeaveAGap`, for windows of any size anywhere). A success of any kind opens no
  gap if and only if it touches the windows already done (`SchedulerProtocol.NoGapExactlyWhenAdjacent`).
* A recorded run keeps the log beginning no later than the events if and only if it fails, is not the first to succeed, or
  no event is before its window (`AggregationService.RunBeginsAtTheStart`); a pass always keeps it.
* Ingest gets stuck, until a call fails, if and only if every unfinished call is blocked by an open batch
  (`IngestProgress.StuckExactlyWhenAllAreBlocked`); two batches that name two keys in opposite orders can come to that
  (`IngestProgress.OppositeBatchesCanStick`), one batch at a time cannot.

## Model

| member | source | states |
|---|---|---|
| RefreshTokens.AtMostOneLive | internal/repository/refresh_token.go:62-86 | while every family is one chain of replacements, two live tokens of a family are the same token, the last of the chain |
| RefreshTokens.FollowWalksTheChain | internal/repository/refresh_token.go:70-73 | following `replaced_by` n times walks n places along the family's chain, and off its end |
| RefreshTokens.NoTokenIsItsOwnSuccessor | internal/repository/refresh_token.go:70-73 | `replaced_by` is acyclic: no token is reached from itself |
| RefreshTokens.IssueKeepsChains | internal/service/auth.go:319-331 | a login's token in a fresh family keeps every family one chain |
| RefreshTokens.RotationKeepsChains | internal/repository/refresh_token.go:66-81 | a rotation extends its family's chain by the successor and leaves the other chains as they were |
| RefreshTokens.RevocationKeepsChains | internal/repository/refresh_token.go:100 | revoking any set of tokens keeps every family one chain |
| TokenProtocol.CommitIsAtomic | internal/repository/refresh_token.go:55-111 | whatever was committed while a transaction was open, its commit makes exactly one change: the rotation of a still live token, the revocation of all that is live in the family now, or of all that is live of the linked user now |
| TokenProtocol.PublishStep | internal/repository/refresh_token.go:83-85 | publishing a write set keeps the protocol invariant: chains, locks, disjoint write sets, what every open call knows |
| TokenRuns.InvAlways | internal/repository/refresh_token.go:55-120 | the protocol invariant holds in every state of every run under the family lock |
| TokenRuns.FamiliesAreChains | internal/repository/refresh_token.go:62-86 | in every reachable state a family is one acyclic chain, at most one token is live, and only the last can be |
| TokenRuns.ChainsGrow | internal/repository/refresh_token.go:66-81 | a family's chain only ever grows at its end |
| TokenRuns.LoginStartsTheChain | internal/service/auth.go:319-331 | the chain of a family starts with the token its login created, in every later state |
| TokenRuns.DeadFamiliesStayDead | internal/repository/refresh_token.go:89-111 | a family without a live token never has one again |
| TokenRuns.RevokedFamilyNeverLivesAgain | internal/repository/refresh_token.go:89-120 | after a family revocation commits, no later state of any interleaving has a live token of the family |
| TokenRuns.OneSessionPerToken | internal/service/auth.go:249-291 | of all calls that ever present one token at most one comes back with a session |
| TokenRuns.ReuseLeavesNothingAlive | internal/service/auth.go:260-291 | if one call got a session for a token and another that presented it revoked the family, nothing of the family is live, the successor included |
| TokenRuns.RevokedTokenBuysNothing | internal/service/auth.go:260-263 | once a token is revoked no further call gets a session for it |
| TokenRuns.EveryStepIsAtomic | internal/repository/refresh_token.go:55-111 | every step of every run leaves the committed table alone or makes one of the atomic changes, so the statement-level protocol refines them |
| TokenRuns.LinkLeavesNothingAlive | internal/repository/user.go:106-138 | when the link of an unverified account commits no token of the user is live, whatever rotations and logins overlapped it, and what is live later belongs to families started after it |
| TokenRuns.RowLocksAreNotEnough | internal/repository/refresh_token.go:113-120 | without the family lock there is a run in which a logout reports its revocation and a successor stays live |
| TokenAnswers.ReuseRevokes | internal/service/auth.go:260-263 | in every run a refresh that finds its row revoked comes back, if it does, with the family revoked for the reuse, with that revocation failed, or failed; once revoked nothing of the family is live |
| TokenAnswers.LateLoserRevokes | internal/service/auth.go:283-286 | the same for a rotation whose update meets a row revoked since it was read |
| TokenAnswers.LogoutRevokes | internal/service/auth.go:293-306 | the same for a sign-out with a stored token, live or not |
| TokenAnswers.UnknownTokens | internal/service/auth.go:249-303 | an unknown token is refused, or there is nothing to sign out of, and that stays the answer |
| TokenAnswers.AnswersHaveReasons | internal/service/auth.go:249-306 | in every run every answer has its reason among the call's own steps: a session a live row judged in time for a known user, a refusal a missing or expired row or user, a revocation its cause, nothing to sign out a missing row, a failure a break or an unreported commit |
| TokenAnswers.SessionsAreEarned | internal/service/auth.go:258-290 | a session comes only from a row read live and judged before its expiry for a known user; the successor carries its user and family and the new expiry |
| TokenAnswers.BrokenCallsFail | internal/service/auth.go:365-373 | a call that breaks off, or whose commit goes unreported, says that it or its revocation failed, for good |
| TokenProgress.HoldingRevocationWaitsForNobody | internal/repository/refresh_token.go:100-102 | a revocation that holds a row of its family can always go on, because that row is the family's only live one |
| TokenProgress.NoDeadlock | internal/repository/refresh_token.go:55-120 | whatever family, user and row locks are held and wanted, while a call is unfinished some call can take its next step without failing |
| TokenProgress.EveryStepCountsDown | internal/repository/user.go:100-144 | every step but a new call leaves less to do, so without new calls only finitely many steps are left |
| TokenProgress.NoCallIsEverStuck | internal/repository/refresh_token.go:55-120 | in every reachable state the calls under way can all finish, with no new call, no lost answer, and no answer that is a failure unless it was one before |
| TokenStore.RefreshTokenRepository.Create | internal/repository/refresh_token.go:29-31 | the new token is the only live one of its fresh family, every other row is unchanged |
| TokenStore.RefreshTokenRepository.Rotate | internal/repository/refresh_token.go:55-87 | succeeds exactly for a stored, unrevoked token, whose only live successor it makes; otherwise the table is untouched |
| TokenStore.RefreshTokenRepository.RevokeFamily | internal/repository/refresh_token.go:89-111 | nothing of the family is live, every other row is unchanged, the count is that of the tokens revoked |
| TokenStore.Auth.Refresh | internal/service/auth.go:249-291 | a session exactly for a live, unexpired token of a known user; a revoked one kills its family even when expired; anything else changes nothing |
| TokenStore.Auth.Exchange | internal/service/auth.go:258-290 | the same from a row that may have been revoked since it was read: the late loser revokes the family |
| TokenStore.Auth.Logout | internal/service/auth.go:293-306 | nothing of the token's family is live; an unknown token changes nothing |
| TokenStore.Auth.RefreshTwice | internal/service/auth.go:249-291 | presenting a token twice: the second call gets nothing and takes the first session away |
| Windows.WindowOf | internal/models/aggregation.go:52-54 | an instant lies in the window of an aligned start exactly when that start is its bucket |
| Windows.StartsAreTheAlignedInstants | internal/models/aggregation.go:56-64 | the starts are exactly the aligned instants of the range, in order, a window apart |
| Windows.StartsPartitionTheSpan | internal/models/aggregation.go:56-64 | an instant lies in one of the half-open windows exactly if it is in the covered span, and then in one only |
| Windows.BucketsBetween | internal/models/aggregation.go:56-64 | the loop yields those starts: every aligned window that meets the range, whichever way the range lies |
| Windows.WindowsDoNotStraddleMidnight | internal/config/config.go:195-196 | a window that divides the day lies within one UTC day |
| Aggregation.PerTypeIsExact | internal/repository/aggregation.go:40-48 | the first grouping has one row for each user and type of the window, with its exact count and time bounds |
| Aggregation.RolledIsExact | internal/repository/aggregation.go:49-57 | the second grouping has one row for each user, with the sum, the map of types and the bounds of that user's rows |
| Aggregation.TwoStagesEqualDirect | internal/repository/aggregation.go:40-57 | every row of the two-stage query is the direct fold of its user's events |
| Aggregation.EveryUserHasARow | internal/repository/aggregation.go:49-57 | a user has a row exactly if the window holds an event of that user |
| Aggregation.AggregateEqualsDirect | internal/repository/aggregation.go:58-67 | the statement leaves the old table overwritten by the direct folds of the window, and nothing else |
| Aggregation.RowsAreInsideTheWindow | internal/repository/aggregation.go:43-47 | a stored row counts something, its count is the sum of its type counts, its first and last times lie in the window |
| Aggregation.AggregatingAgainChangesNothing | internal/repository/aggregation.go:58-67 | repeating the statement changes no count and no bound |
| Aggregation.TotalIsSumOfCounts | internal/repository/aggregation.go:51-52 | a user's events in a window are the sum of the counts over the user's types |
| Stats.DaysAgreeWithBuckets | internal/repository/aggregation.go:141-189 | for every range a day is listed exactly if the bucket view of that range has a row on it, and its total and type counts are the sums over exactly those rows |
| Stats.RangeAnswers | internal/service/aggregation.go:230-248 | a range is invalid exactly if it is empty or backwards, too large exactly if it is longer than ninety days, and accepted otherwise; the end defaults to the clock and the beginning to seven days before the end |
| Stats.RangeMissesNothing | internal/service/aggregation.go:230-248 | the range rows are read for begins on a window boundary, less than a window early, and holds the window of every instant asked for; a day-aligned request is not widened |
| AggregateProtocol.InvAlways | internal/repository/aggregation.go:24-78 | in every run each stored row is the direct fold of what the last committed aggregation of its window had seen, and lock holders are never behind it |
| AggregateProtocol.RowsAlwaysSound | internal/repository/aggregation.go:24-78 | in every run every stored row counts something and its count is the sum of its type counts |
| AggregateProtocol.CountsNeverDecrease | internal/repository/aggregation.go:31-76 | no interleaving removes a row, lowers its count or a type count, or narrows its bounds |
| AggregateProtocol.LosersChangeNothing | internal/repository/aggregation.go:31-37 | a call that came back because its window was locked met another holder of the key, and no step of it in the whole run changed a row |
| AggregateProtocol.TryingAnswers | internal/repository/aggregation.go:31-37 | a call that tries a window comes back for good as locked out exactly if another transaction holds its key, and holds the key otherwise |
| AggregateProtocol.AnswersHaveReasons | internal/repository/aggregation.go:24-78 | in every run a call that says how many users it touched has committed, for the window of the time it was asked for, and the number is that of the users with events in the window when its statement ran; a failure broke off or its commit went unreported |
| AggregateProtocol.BrokenFails | internal/repository/aggregation.go:70-76 | a call that breaks off, or whose commit goes unreported, fails for good |
| AggregateProtocol.RowsAreAsOfTheLastAggregation | internal/service/event.go:229 | a row agrees with the raw events if and only if no event of that user and window was committed after the last aggregation of the window read |
| AggregateProtocol.StartsAlwaysAligned | internal/service/aggregation.go:104-105 | in every run only windows are ever aggregated: every start under way or stored is aligned |
| AggregateProtocol.DayOfARunIsRaw | internal/repository/aggregation.go:176-189 | in every run, when windows divide the day, a whole day whose windows were all aggregated after the user's last event in them reads as a direct count of its raw events |
| Scheduling.PendingIsClosedAndNew | internal/service/aggregation.go:166-200 | pending windows are aligned, closed, past the watermark, consecutive and within the limit |
| Scheduling.BacklogIsExactly | internal/service/aggregation.go:166-194 | the backlog is exactly the aligned closed windows past the watermark or, with nothing done yet, those from the window of the earliest event on |
| Scheduling.PassesNeededRoundsUp | internal/service/aggregation.go:195-197 | the passes that a backlog of n takes are n divided by the limit, rounded up |
| Scheduling.RunWithoutTimestampIsNeverRefused | internal/service/aggregation.go:99-109 | a run without a timestamp takes the newest closed window, which is still closed at any later reading of the clock |
| SchedulerProtocol.ContiguousExactlyWhenNotAhead | internal/repository/aggregation.go:93-101 | recording a window keeps the windows contiguous up to the watermark if and only if it is at most one past it |
| SchedulerProtocol.NoGapExactlyWhenAdjacent | internal/repository/aggregation.go:93-101 | recording a window opens no gap if and only if it touches the windows already done |
| SchedulerProtocol.PassFindsWhatIsPending | internal/service/aggregation.go:166-200 | a pass that reads a watermark works through the closed windows right after it in order, up to the limit, and one that reads the earliest event through those from that event's window on; a window that was closed and next comes first |
| SchedulerProtocol.NextWindowCanSucceed | internal/service/aggregation.go:144-164 | from every state in which the window after the watermark is closed, and is not that of the zero time, which stands for none given, a pass that nothing gets in the way of records it, whatever other workers are doing |
| SchedulerProtocol.FirstWindowCanSucceed | internal/service/aggregation.go:180-187 | from every state without a success whose earliest event is after the first window of year 1, such a pass records the window of the earliest event once it is closed |
| SchedulerProtocol.OnlyClosedWindowsSucceed | internal/service/aggregation.go:107-109 | in every run a window that succeeds, in a pass or by hand, had closed before |
| SchedulerProtocol.InvStep | internal/service/aggregation.go:99-200 | every step of any worker keeps the scheduler's invariant when manual runs are in bound |
| SchedulerProtocol.StaysContiguous | internal/service/aggregation.go:144-200 | from any contiguous set every interleaving of passes, failures, skips, crashes, late events and clock changes stays contiguous, with manual runs at most one window past the watermark |
| SchedulerProtocol.FreshStartStaysContiguous | internal/service/aggregation.go:177-188 | the same from an empty run log, as long as no event is backdated before the first window while a pass that saw nothing is in flight |
| SchedulerProtocol.BackdatedEventCanLeaveAGap | internal/service/aggregation.go:177-188 | for every size, place and limit, a run from an empty log in which such an event and a crash leave a window that no later pass offers |
| Aggregation.RowsAffected | internal/repository/aggregation.go:77 | the rows affected are as many as the users with events in the window |
| AggregationService.Repository.Aggregate | internal/repository/aggregation.go:24-78 | the statement's table and the number of users when the window is free, the old table and the right error otherwise |
| AggregationService.Service.PendingBuckets | internal/service/aggregation.go:166-200 | the first windows of the backlog, all closed and past every success |
| AggregationService.PendingIsExactly | internal/service/aggregation.go:166-194 | before the limit, exactly the closed windows past every success are pending and, before the first success, exactly those that do not end before all events |
| AggregationService.EveryClosedEventIsPending | internal/service/aggregation.go:180-187 | while nothing has succeeded the window of every event is pending as soon as it is closed |
| AggregationService.Service.RunBucket | internal/service/aggregation.go:99-142 | refused exactly while the window is open at the second reading of the clock, and then nothing changes; otherwise one record with the true status and count, and the table of that attempt; if every recorded window was in sync with the events it still is, the one just run included; a log that begins no later than the events still does exactly if the run fails, is not the first to succeed, or no event is before its window |
| AggregationService.Service.RunPending | internal/service/aggregation.go:144-164 | runs a prefix of the pending windows in order, cut short exactly at the first that does not succeed; every attempt is in the log, the table is that of the successes in turn; every recorded window is in sync, the log without a hole, and its begin no later than the events, if that was so before |
| AggregationService.PassShrinksTheBacklog | internal/service/aggregation.go:144-200 | at a fixed clock and without failures a pass shrinks the n pending windows by the smaller of n and the limit |
| AggregationService.Service.CatchUp | internal/scheduler/scheduler.go:41-61 | after k such passes nothing is pending if and only if k is at least n divided by the limit, rounded up; the log has no hole, begins no later than the events, and every recorded window is in sync if that was so before |
| AggregationService.AfterAllIsInSync | internal/service/aggregation.go:151-161 | every window that successful runs went through holds the direct folds of its events, and those in sync before still do |
| AggregationService.PassKeepsNoHoles | internal/service/aggregation.go:144-200 | a pass, however it ends, leaves no window missing between two that succeeded |
| AggregationService.RunBeginsAtTheStart | internal/service/aggregation.go:99-142 | a recorded run leaves the log beginning no later than the events if and only if it fails, is not the first to succeed, or no event is before its window |
| AggregationService.PassBeginsAtTheStart | internal/service/aggregation.go:180-187 | a pass, however it ends, leaves the log beginning no later than the events |
| AggregationService.CaughtUpCountsEverything | internal/service/aggregation.go:166-199 | when no window is missing and none is pending, a user's rows add up to the user's events from the first window to at least the newest closed one, by type and in all |
| AggregationService.CaughtUpCountsAllClosed | internal/service/aggregation.go:166-199 | when the log begins no later than the events, none is missing in it and none is pending, a user's rows add up to all of the user's events in closed windows, by type and in all, from the very first on |
| Pipeline.InvStep | internal/service/aggregation.go:99-200 | every step of ingest, workers and aggregations keeps both halves' invariants and their agreement: what is logged as succeeded, or about to be, has been aggregated |
| Pipeline.RowsAddUpToTheWatermark | internal/service/aggregation.go:166-199 | in every state of every run a user's rows from the first window to the watermark never count more than the user's events of that span, and count them all if and only if none came late |
| Pipeline.TypesAddUpToTheWatermark | internal/service/aggregation.go:166-199 | when none came late the counts agree type by type |
| Pipeline.DaysUpToTheWatermarkAreRaw | internal/repository/aggregation.go:176-189 | and every whole UTC day of the span reads as a direct count of its raw events, when windows divide the day |
| Pipeline.NothingPendingMeansAllClosed | internal/service/aggregation.go:166-200 | nothing is pending if and only if the span reaches the window that is still open |
| Cursor.ParseFormats | internal/service/event.go:279 | a printed 64-bit number parses back |
| Cursor.ReadsExactlyNumerals | internal/service/event.go:294-301 | exactly the numerals of digits with at most one sign and a value that fits 64 bits are read, each as its value |
| Cursor.NumbersAreCanonical | internal/service/event.go:279 | a number is printed with a minus exactly if it is negative, and without leading zeros |
| Cursor.DecodeEncodes | internal/service/event.go:280 | unpadded base64url decodes to what was encoded, for every byte string |
| Cursor.SymbolsAreTheAlphabet | internal/service/event.go:280 | the alphabet is that of table 2 of RFC 4648 |
| Cursor.OnlySymbolsHaveValues | internal/service/event.go:284 | a byte has a value exactly if it is a symbol, and then its place |
| Cursor.BreaksArePassedOver | internal/service/event.go:284 | a line break anywhere in a cursor is passed over, as the decoder of the language's library does |
| Cursor.CursorRoundTrip | internal/service/event.go:278-304 | a cursor decodes to the id and to the time as 64-bit nanoseconds hold it |
| Cursor.CursorIsExactForInt64Times | internal/service/event.go:278-304 | a cursor gives its event's time and id back if and only if the time fits 64-bit nanoseconds |
| Cursor.CursorsAreUnique | internal/service/event.go:278-281 | two different positions never have one cursor |
| Cursor.CursorIsReadExactly | internal/service/event.go:283-304 | a cursor is read exactly if it decodes to two 64-bit numerals around its first colon, and as those |
| Pagination.SortedLists | internal/repository/event.go:102 | the order lists exactly the given rows, each once, newest first, ties by id |
| Pagination.ListingIsUnique | internal/repository/event.go:102 | a set of rows has only one such listing |
| Pagination.PageSplits | internal/service/event.go:197-208 | a page is the first rows of what remains; it has no cursor exactly if nothing is left, and otherwise what is below the cursor is the rest in order |
| Pagination.CursorMakesProgress | internal/repository/event.go:101 | the rows below the cursor are fewer by exactly the page |
| Pagination.PagesConcatenateToTheList | internal/service/event.go:171-211 | on a fixed store the pages, of whatever sizes, concatenate to the sorted filtered list |
| Pagination.TraversalIsCompleteAndOrdered | internal/repository/event.go:93-103 | while rows are inserted, following the positions lists strictly descending keys, all matching, with every match that was there at the first page |
| EventFeed.PageSize | internal/service/event.go:267-276 | the size asked for if it is from 1 to 200, 50 if it is not positive, 200 if it is larger |
| EventFeed.RefusedExactlyWhen | internal/service/event.go:179-195 | a request is refused exactly if its range is empty or backwards, or else if its cursor is not empty and cannot be read |
| EventFeed.List | internal/service/event.go:171-211 | the response for every request: refused ranges and cursors, blank types dropped, the page and the cursor cut from one read of a row more |
| EventFeed.ResponseIsThePage | internal/service/event.go:187-208 | the answer to a cursor is the page at the position it names, and the next cursor names the next position or is empty exactly at the end |
| EventFeed.FeedIsCompleteAndOrdered | internal/service/event.go:171-211 | what a client collects by following cursor texts while events are inserted: strictly descending, no repeats, every match of the first page's moment |
| EventFeed.FeedOfAFixedStore | internal/service/event.go:171-211 | on a fixed store it is the sorted list of the matching events |
| EventFeed.FeedIsWhatWasAskedFor | internal/repository/event.go:93-103 | under inserts, in terms of the request and the rows alone: newest first with ties by id, only rows of the user, in the range, of an asked type or any if none was asked, and every such row of the first page's moment |
| EventFeed.FixedFeedIsExactlyWhatWasAskedFor | internal/repository/event.go:93-103 | on a fixed store a row is in the feed if and only if it is the user's, lies in the half-open range, and its type is an asked one, normalized, or none but blanks were asked |
| EventStream.Stream | internal/handler/event.go:76-103 | what is written are the frames of the messages of the signals served, in order: up to the end of the request, of the channel, or of the client's patience, and no further |
| EventStream.ServedIsUnique | internal/handler/event.go:76-103 | what is served is determined by the signals and the client alone |
| EventStream.ServerToClient | frontend/src/api.ts:199-235 | of what the server wrote, any part in any chunks hands over a prefix of the encodable events it received, in order; all of it hands over exactly those served, and leaves nothing in the buffer |
| EventStream.ServerToStandard | internal/handler/event.go:76-103 | a client that follows the standard: any part that has arrived, in any chunks, has handed over the first encodable events received in order, each with its id, the type `activity` and its payload; all of it, all that were served |
| EventStream.StreamReader.Receive | frontend/src/api.ts:208-216 | a chunk emits the complete frames of buffer and chunk together and leaves their unfinished tail |
| EventStream.StreamReader.ReceiveAll | frontend/src/api.ts:202-217 | any sequence of chunks emits what the joined text would, and keeps its tail |
| EventStream.ChunksDoNotMatter | frontend/src/api.ts:208-216 | parsing two pieces is parsing the whole, even when the cut is between two newlines |
| EventStream.PrintedStreamParses | internal/handler/event.go:28-29 | printed frames parse to exactly their bodies, whatever follows |
| EventStream.StreamRoundTrip | frontend/src/api.ts:199-235 | after full frames and a part of the next, in any chunks, exactly the payloads of the full ones were emitted, in order, and the part is kept |
| EventStream.AnyCutRoundTrips | frontend/src/api.ts:199-235 | the same for every prefix of every printed stream |
| EventStream.StandardAgrees | internal/handler/event.go:28-29 | a parser that follows the standard reads the same payload from every frame, and nothing from a keep-alive |
| EventStream.StandardReadsAllFields | internal/handler/event.go:28-29 | a parser that follows the standard reads id, type and payload of a printed event; a keep-alive changes none of them |
| EventStream.KeepAlivesAreTicks | internal/handler/event.go:97-100 | one keep-alive for every tick served, and no others |
| Ingest.NormalFormsAreFixed | internal/service/event.go:213-247 | sending an accepted draft back gives the same draft |
| Ingest.AcceptedExactlyWhen | internal/service/event.go:213-265 | a request is accepted if and only if its type, payload, time and key are each within bounds, and the draft then holds the request; otherwise the first of them, in this order, is the problem |
| Ingest.AcceptedDraftsFit | internal/service/event.go:213-265 | an accepted draft meets the table's checks and the limits on size, time and key; keys that differ in surrounding blanks are one key |
| Ingest.BatchAddsWhatItReports | internal/repository/event.go:67-91 | a batch keeps one row per key, changes no old row, and adds exactly the rows it reports |
| Ingest.TakenAfter | internal/repository/event.go:68-72 | after a batch the keys in use are those before it and its own |
| Ingest.CreatedAreTheNewOnes | internal/service/event.go:145-150 | with distinct keys in a batch its duplicates are exactly the drafts whose key was stored before it |
| Ingest.BatchAgainCreatesNothing | internal/repository/event.go:67-91 | a keyed batch sent again, whatever other batches came between, adds and reports nothing |
| Ingest.EventRepository.Create | internal/repository/event.go:33-53 | the row of the draft's key, created exactly if the key was free; an error changes nothing |
| Ingest.EventRepository.CreateBatch | internal/repository/event.go:55-91 | the rows of the batch in order, created plus duplicates is its length; an error at any statement or at the commit stores nothing |
| Ingest.PrepareAcceptsTheGood | internal/service/event.go:136-153 | a batch is accepted if and only if every item is a draft and no key stands twice; otherwise the reported item is the first that is at fault |
| Ingest.Service.Record | internal/service/event.go:97-114 | which problem is reported, what is stored and answered, that a stored draft holds the request, and that exactly a created event is published and counted as new |
| Ingest.Service.Check | internal/service/event.go:136-153 | the loop with its set of keys finds the drafts or the first problem |
| Ingest.Service.RecordBatch | internal/service/event.go:128-169 | empty, oversized and faulty batches change nothing; an accepted one stores, counts and publishes exactly the drafts with new keys, and created plus duplicates is its length |
| Ingest.Service.RecordTwice | internal/service/event.go:97-114 | a keyed event sent again answers the first row, is not created and not published again |
| IngestProtocol.InvStep | internal/repository/event.go:33-91 | every statement, failure and crash keeps the ingest invariant |
| IngestProtocol.OneRowPerKey | migrations/00004_events.sql:17-18 | in every reachable state a user and key have at most one row |
| IngestProtocol.RowsStay | internal/repository/event.go:33-91 | a visible row stays visible and unchanged |
| IngestProtocol.RecordReturnsItsRow | internal/service/event.go:97-114 | what a finished call answers is a visible row of its user and key, its own draft if it created it |
| IngestProtocol.RecordsAgree | internal/repository/event.go:40-52 | all calls of one user and key, whenever they return, answer one row, and at most one says it created it |
| IngestProtocol.ReadFindsItsRow | internal/repository/event.go:48-52 | after a conflict the read always finds its row, and only that one |
| IngestProtocol.EveryRowHasOneMaker | internal/service/event.go:108-111 | every row was made by exactly one call; some call reports it as created if and only if that one was not cut off after its commit, and then it is published |
| IngestProtocol.PublishedOnce | internal/service/event.go:116-120 | nothing is published twice or before it is in the table |
| IngestProtocol.BatchIsAllOrNothing | internal/repository/event.go:60-90 | before its commit and after a failure a batch has no row in the table; from its commit on it has exactly the reported ones, which are its drafts in order, and created plus duplicates is its length |
| IngestProtocol.BatchCoversItsDrafts | internal/repository/event.go:67-85 | after a batch every draft of it has a row: its own, or an earlier one of its key |
| IngestProtocol.OnlyBatchesBlock | internal/repository/event.go:33-38 | while no batch is open no insert waits |
| IngestProgress.StuckExactlyWhenAllAreBlocked | internal/repository/event.go:33-91 | in every reachable state no call can take its next step if and only if every unfinished one is about to insert a key that another open batch has inserted |
| IngestProgress.OneBatchNeverSticks | internal/repository/event.go:55-91 | while at most one batch is open, some unfinished call can take its next step |
| IngestProgress.OppositeBatchesCanStick | internal/repository/event.go:67-85 | for any two keyed drafts with different keys, two batches that hold them in opposite orders can both wait for each other |
| Channels.OffersAreConserved | internal/stream/broker.go:35 | offered is received plus buffered plus lost, the queue is within its bound, and received followed by buffered is a subsequence of the offers |
| Channels.TakesExactlyWithRoom | internal/stream/broker.go:74-77 | a channel takes an event, at its end, exactly if it holds fewer than 32, and loses it otherwise |
| Channels.LossesChange | internal/stream/broker.go:77 | the losses of all subscribers change by those of the one that changes |
| Broker.Broker.Subscribe | internal/stream/broker.go:34-42 | a fresh open channel, registered under its user; nothing else changes |
| Broker.Broker.Cancel | internal/stream/broker.go:48-64 | the channel is closed and unregistered, a user's last set goes with it; a second call does nothing |
| Broker.Broker.Publish | internal/stream/broker.go:69-83 | every subscriber of the user is offered the event once and takes it exactly if it has room, nobody else is touched, and the counter grows by the full ones |
| Broker.Broker.Receive | internal/handler/event.go:81-84 | buffered events come out in order, also after the close; then the end |
| Broker.Broker.Subscribers | internal/stream/broker.go:85-90 | the number of the user's open channels |
| BrokerProtocol.InvStep | internal/stream/broker.go:34-83 | every statement of every goroutine keeps the broker's invariant |
| BrokerRuns.NeverPanics | internal/stream/broker.go:57 | no interleaving sends on a closed channel or closes one twice |
| BrokerRuns.NothingIsOfferedAfterClose | internal/stream/broker.go:57 | a closed channel is offered nothing more |
| BrokerRuns.CancelCloses | internal/stream/broker.go:48-64 | whenever a call of cancel has returned, the first or a later one, its channel is closed and in no set, for good |
| BrokerRuns.EveryChannelIsConserved | internal/stream/broker.go:69-83 | the conservation law for every subscriber in every state of every run |
| BrokerRuns.DroppedIsTheTotal | internal/stream/broker.go:92-94 | the counter and the publications about to count add up to all losses; it is exact if and only if there are none of those |
| BrokerRuns.TheMapIsExact | internal/stream/broker.go:48-55 | while nobody holds the write lock no empty set is in the map, and it holds exactly the subscribers between subscription and cancellation |
| BrokerRuns.PublishReachesExactlyItsTargets | internal/stream/broker.go:73-82 | a finished publication has offered its event once to everyone it found registered, all of its own user, and to nobody else |
| BrokerRuns.TargetsWereRegistered | internal/stream/broker.go:70-73 | those a finished publication offered its event to are those registered under its user when it took the read lock |
| BrokerRuns.NoDeadlock | internal/stream/broker.go:34-83 | while a call is unfinished some call can take its next statement, whatever holds the lock |
| GoogleAccounts.InvStep | internal/service/auth.go:176-247 | every statement of registrations, sign-ins and other writers keeps both unique indexes, and every answer given stays true |
| GoogleAccounts.PasswordOutlivesTheLinkIfVerified | internal/repository/user.go:117-124 | from any table: once an account has come to a subject, it has the password it had if it was verified before, and none if it was not |
| GoogleAccounts.LinksAreForever | internal/repository/user.go:124 | an account keeps its address, a subject once attached never changes, and a linked and verified account never changes at all |
| GoogleAccounts.OnlyItsAddressLinks | internal/repository/user.go:100-144 | an account gets its subject only from verified claims that name its own address; it loses its password, and its user every live token, if and only if it was unverified, and nobody else's tokens are touched |
| GoogleAccounts.OneAccountPerSubject | internal/service/auth.go:176-247 | two sign-ins, by whatever path and whenever, enter one account if and only if their subjects are equal, and it carries that subject |
| GoogleAnswers.RegisterAlone | internal/service/auth.go:125-149 | a registration creates an unverified account without a subject, with the normalized address and the password, exactly if the address is valid and free, and is refused otherwise |
| GoogleAnswers.UnverifiedIsRefused | internal/service/auth.go:177-179 | claims that are unverified or without an address are refused, whoever has their subject |
| GoogleAnswers.KnownSubjectEnters | internal/service/auth.go:181-184 | a known subject enters its account, whatever address the claims name, and changes nothing |
| GoogleAnswers.BadAddressIsRefused | internal/service/auth.go:193-196 | a new subject whose address cannot be normalized is refused |
| GoogleAnswers.NewAddressCreates | internal/service/auth.go:206-215 | a new subject with a new address gets a verified account of its own without a password |
| GoogleAnswers.TakenAddressLinks | internal/repository/user.go:100-144 | a new subject with a taken address is attached to that account exactly if it has no subject; the account is then verified, and keeps its password exactly if it was before |
| GoogleAnswers.LateCreatorEnters | internal/service/auth.go:206-227 | whoever loses the race to create the account enters it unchanged if the address is reported as taken, and is refused if the subject is |
| GoogleAnswers.CanBeAlone | internal/service/auth.go:176-247 | from every state every unfinished call can take its steps to the end, and has then done exactly what it does alone |
| GoogleAnswers.NewAccounts | internal/service/auth.go:206-215 | in every run an account a registration creates has its address and password, no subject, and is unverified; one a sign-in creates has the verified address and subject of its claims and no password |
| GoogleAnswers.RefusalsHaveReasons | internal/service/auth.go:176-247 | in every run a sign-in is refused only for claims that are unverified or name no valid address, or because somebody has the subject or the account of the address another one; it enters nobody for other claims |
| GoogleAnswers.RegistrationsHaveReasons | internal/service/auth.go:125-149 | in every run a registration answers with an account of its address, and is refused only if the address is invalid or taken |
| GoogleAnswers.FailedExactlyWhenBroken | internal/service/auth.go:176-247 | a call says that it failed exactly if it broke off, or a committed statement of it went unreported |

## Left out

- TokenStore.RefreshTokenRepository.Rotate: does not model database errors, which are steps of `TokenProtocol`; the same holds for the other methods of `TokenStore`.
- AggregateProtocol.CountsNeverDecrease: is for one window size over the whole run, because a changed size regroups the events.
- Stats.DaysAgreeWithBuckets: views are maps from start or day to row; their descending order is not modelled.
- EventStream.StreamReader.Receive: takes text; cutting inside a UTF-8 character is undone by the browser's decoder before it, and whether a payload is json is an abstract predicate.
- Ingest.EventRepository.CreateBatch: takes consecutive ids, one for each insert that was tried; with other calls in between they only have to be unused, and `IngestProtocol` draws them freely.
- Ingest.AcceptedDraftsFit: trimming, lowering and json parsing are abstract functions of which it needs that their results are fixed points; the column's rounding of times to microseconds is not modelled.
- Pipeline.RowsAddUpToTheWatermark: asks, as the scheduler's own theorems do, that manual runs stay within one window of the watermark and that nothing is backdated before the first window while it is open where to begin.
- EventStream.Stream: when several cases of the select are ready the runtime picks one; the order picked is the order of the signals.
- Broker.Broker.Publish: channels are values in a map of the broker, not objects; the subscriber's pointer is an id.
- IngestProgress.OppositeBatchesCanStick: that the database notices and fails one of the two is a failure step like any other.
- The linking of a Google account is one step on both tables in `GoogleAccounts`; `TokenProtocol` takes its revocation of tokens apart statement by statement, for accounts that are unverified.
- Display names, roles and times of creation of users, user agents and addresses of tokens.
- `revoked_at` and `computed_at` are kept as a flag and not at all.
- Deletion of users with its cascades, and of expired tokens: tables only grow and change as modelled.
- Hashing, token signing, random values, Google's endpoints, OAuth states and codes.
- HTTP routing, binding, headers, metrics, logging, health, configuration, deployment and the React views.
- The merging of a header idempotency key into the request, where the key of the body wins.
- The writer preference of the read-write lock, and when a waiting goroutine or statement gets its turn.
