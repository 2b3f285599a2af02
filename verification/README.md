# Booking bot decision logic, in Dafny

This project models the decision logic of a bot that books badminton courts
on the Taipei Metro resort booking site. The site sits behind a Cloudflare
challenge layer. The bot reads its settings from a small GUI form and builds
one booking page per (date, D2 time slot) pair. It then polls those pages
until a deadline or a stop request, and clicks every blue "book this court"
button that passes an optional time and court filter.

The browser is never modelled. What a page shows is an observation that the
functions receive as a parameter:

- the outcome of each element lookup;
- whether a table button is present;
- what a dialog says after a click;
- the buttons a page holds;
- the time stamps a tab's turn reads.

The modules follow the program's structure:

- `Classifier` covers `get_cf_state`. Seven element lookups run in a fixed
  order, and the first one that matches decides the state: `gate`,
  `success`, `fail` or `none`. A lookup that raises yields `none`.
- `Waiter` covers `wait_until_ready_with_cf`:
  - the polling loop, which runs on an abstract clock;
  - the fail budget, with back-offs of `min(2k, 8)`;
  - the choice between a bounce through the home page (`warmup_home_then_back`) and a refresh, which also restarts the clock;
  - the calls a recovery makes, where a raised call ends the recovery, and the page it leaves.

  `RunFacts` collects everything a finished call promises.
- `TimeInput` covers `parse_time_hhmm`, which returns `None`, a zero-padded `HH:MM`, or one of two errors.
- `Targets` covers `build_urls`, in date-major, slot-minor order.
- `Dialog` covers `_handle_confirm_and_detect_cf_fail`: an accepted alert,
  a SweetAlert popup whose joined text carries the failure wording, a plain
  popup, or nothing.
- `Relocation` covers the `Step3Action(a,b)` key that `click_all_bookings_on_page`
  reads from a button's `onclick`. It also models the selector the source
  rebuilds from that key, and a corrected lookup by key (see Findings).
- `Executor` covers `click_all_bookings_on_page`:
  - the time and court filter;
  - the `max_click` cut-off;
  - the per-button attempt loop: retry after a rejected click and a
    successful recovery wait, find the button again with the selector
    rebuilt from its key, and give the button up on a click error, a failed
    wait, or a button that cannot be found again.
- `Config` covers the opening of `App.worker`:
  - the checks that end the run early;
  - the D2 slots, the filter and the retry count;
  - the `HH:MM:SS` start time and the next instant at that time of day.
- `Schedule` covers the points where the worker checks the stop flag. A
  flag once set stays set, so a run's stop request is the first checkpoint
  at which the flag reads set. It also holds the loop clock that the
  deadline check compares with the budget.
- `SingleTab` and `MultiTab` cover the two polling modes of `App.worker`.
  Each round starts only while the loop clock, the sum of the earlier
  rounds' durations, is below the budget. The multi-tab run keeps the tab
  states at the start of every round and the turns of every round.
- `Worker` puts the configuration, the scheduled start and the chosen mode together.
- `Text` and `Wrappers` hold the Python string operations the code relies
  on (`strip`, `split`, `join`, `lower`, `upper`, `in`, string `<`, `int`,
  `str`) and the `Option`/`Result` types.

## Model

| member | source | states |
|---|---|---|
| Classifier.FirstVerdict | browser_cf.py:141-171 | The state is not `none` exactly when the first lookup that did not come back empty found a match. The state is then that lookup's state. A lookup that raised, or no match at all, gives `none`. |
| Classifier.Classify | browser_cf.py:133-171 | The result is `fail` exactly when one of the two block-page lookups is the first non-empty lookup and it matched. The same holds for `gate` with the three challenge lookups and for `success` with the two banner lookups. |
| Classifier.PriorityOrder | browser_cf.py:143-168 | On a page where no lookup raises, each of these holds both ways: a fail signal beats everything; a gate signal beats a success banner; no signal at all gives `none`. |
| Classifier.InspectionErrorIsNone | browser_cf.py:169-171 | A lookup that raises before any lookup has matched makes the state `none`, whatever the later lookups would find. |
| Classifier.MatchBeforeErrorDecides | browser_cf.py:143-168 | A lookup that matches before anything raised decides the state, even if a later lookup would raise. |
| Waiter.BackoffShape | browser_cf.py:239-243 | The `k`-th back-off is between 2 and 8. It never decreases from one recovery to the next, and it is 8 exactly from the fourth recovery on. |
| Waiter.ChooseRecovery | browser_cf.py:244-248 | A fail recovery bounces exactly when `bounce_on_fail` is set and there is a target URL. Otherwise it refreshes. |
| Waiter.RecoveryNavigation | browser_cf.py:209-217 | A recovery always makes a call. A bounce starts by visiting the home page, never reloads, and returns to the target only when the home visit did not raise, because its three steps share one `try`. A refresh is a single reload. The recovery reports an error exactly when one of its calls raised. |
| Waiter.RecoveryLanding | browser_cf.py:209-217 | Read through the page each call leaves: a bounce with no error ends on the target. A bounce whose home visit raised stays on the page it started from. A bounce whose return raised stays on the home page. A refresh stays on its page. |
| Waiter.RecoveriesLand | browser_cf.py:244-248 | Every recovery a wait makes, when its calls do not raise, leaves the browser on the target if the call may bounce and has a target, and on the page it was on otherwise. |
| Waiter.Step | browser_cf.py:230-261 | One pass of the loop: a gate continues with the fail budget and the clock origin unchanged; the call returns True exactly on a success or `none` state with a table button; it gives up exactly on a fail with the budget spent; it recovers exactly on a fail within budget. A recovery is the only thing that restarts the clock, and it records the `k`-th recovery. |
| Waiter.ContinueKeepsInvariant | browser_cf.py:227-250 | A pass that does not return keeps the loop invariant: the fail count equals the recoveries made; each recovery is the `k`-th back-off; the clock is the time since the last fail; no earlier pass could have returned True. |
| Waiter.StopKeepsPromises | browser_cf.py:238-257 | A pass that returns leaves a run that keeps every promise of `RunFacts`. |
| Waiter.Poll | browser_cf.py:229-264 | From any loop state that meets the invariant, the loop ends, and its run keeps every promise of `RunFacts`. |
| Waiter.Wait | browser_cf.py:219-264 | Observations are consumed in order. The `k`-th recovery uses back-off `min(2k, 8)` and the kind the arguments choose. At most `max_fail_retries` recoveries happen, one per fail except the final fail that gives up. True is returned only on the first actionable pass. Every pass starts inside its time window, and a time-out means the window is spent with nothing ready. |
| Waiter.ReadyOnFirstActionable | browser_cf.py:235-257 | A first pass with no gate or fail and with a table button returns True at once, with no recovery, including when a success banner is shown. |
| Waiter.PersistentFailGivesUp | browser_cf.py:238-253 | A page that always fails is given up on (False) after exactly `max_fail_retries` recoveries, or none when that is negative. |
| TimeInput.Pad2 | booking.py:35 | `{n:02d}` is two digits that read back as `n`. |
| TimeInput.Canonical | booking.py:35 | The rendering has five characters in `HH:MM` shape and reads back as the given hour and minute. |
| TimeInput.ParseTimeHHMM | booking.py:28-35 | Each of these holds both ways: `None` for blank input; a format error for a stripped text that does not match `\d{1,2}:\d{2}`; a range error for a match outside 00:00 to 23:59. A result is a valid five-character time with the same hour and minute as the input. |
| TimeInput.Pad2OfDigits | booking.py:33-35 | A two-digit field is its own zero-padded rendering. |
| TimeInput.ParseIsIdempotent | booking.py:28-35 | Parsing the parser's output again returns the same result. |
| TimeInput.CanonicalParses | booking.py:28-35 | Every valid time of day has a rendering that the parser returns unchanged. |
| TimeInput.ExamplePadded | booking.py:31-35 | `9:05` is accepted and padded to `09:05`. |
| TimeInput.ExampleOutOfRange | booking.py:34 | `24:00` is a range error. |
| TimeInput.ExampleBadShape | booking.py:31-32 | `9:5` is a format error. |
| Targets.BuildUrls | booking.py:37-38 | There is one page per (date, slot) pair. |
| Targets.BuildUrlsOrder | booking.py:38 | The page for date `i` and slot `j` sits at index `i * |slots| + j`. |
| Targets.UrlAtIndex | booking.py:38 | Every index of the list holds the page of date `k / |slots|` and slot `k % |slots|`, so the list is exactly the pairs in date-major order. |
| Text.Strip | booking.py:29 | `strip()` is empty exactly for an all-space text. Otherwise it starts and ends with a non-space. |
| Text.StripShape | booking.py:29 | Strip keeps a contiguous middle part and removes only whitespace around it. |
| Text.StripIdempotent | booking.py:29 | Stripping twice is stripping once. |
| Text.ContainsSurvivesStrip | booking.py:143 | A word with no surrounding spaces that occurs in a text still occurs after stripping. |
| Text.ContainsLower | booking.py:146-147 | An occurrence survives lower-casing. |
| Text.LexTrichotomy | booking.py:228-229 | Python's string order is a strict total order. |
| Text.NotLessIsAtLeast | booking.py:228-229 | `not a < b` is `b <= a`. |
| Text.Split | app.py:170 | `split(":")` gives at least one piece, and no piece contains the separator. |
| Text.JoinSplit | app.py:170 | Joining the pieces of a split with the separator gives back the text. |
| Text.SplitAtSep | app.py:170 | Splitting at a separator splits each side on its own. |
| Dialog.Detect | booking.py:120-161 | An accepted alert gives `ok`. The result is `cf_fail` exactly when there was no alert and the readable popup text carries 驗證失敗, 重新驗證 or `verification failed` (in any case). The result is `ok` exactly for an alert, or for a confirm button on a popup without that wording. An unreadable popup gives `none`. |
| Dialog.LowerStrip | booking.py:143-146 | Lower-casing and stripping commute. |
| Dialog.WordSurvivesJoin | booking.py:141-147 | The failure wording found in any one title or body is found in the joined, stripped text. |
| Dialog.LowerWordSurvivesJoin | booking.py:141-147 | The same holds for the English wording, matched after lower-casing. |
| Dialog.WordingInAnyPart | booking.py:141-151 | Failure wording in any single title or body, with no alert, makes the verdict `cf_fail`. |
| Relocation.DigitRun | booking.py:239 | `\d+` takes the longest run of digits. |
| Relocation.MatchAt | booking.py:239 | A match at an index yields two non-empty digit groups. |
| Relocation.KeyOf | booking.py:238-239 | A key read from `onclick` is two non-empty digit strings. |
| Relocation.RenderRoundTrip | booking.py:239-242 | The call text the selector is built from, `Step3Action(a,b)`, reads back as the same key. |
| Relocation.FindAsWritten | booking.py:273-278 | The source's lookup by the rebuilt selector returns the first button whose `onclick` contains `Step3Action(a,b)` verbatim, or none when no button does. |
| Relocation.Relocate | booking.py:272-278 | The corrected lookup returns the first button whose key is the same, and returns none exactly when no button carries that key. |
| Relocation.CompactCallFoundBothWays | booking.py:239-242 | A button whose call is written without spaces is found by both lookups. |
| Relocation.SpacedCallLostAsWritten | booking.py:239-242 | Take `Step3Action(1, 2)`. The regex reads its key, the rebuilt selector finds no button, and the lookup by key finds the button. |
| Relocation.RenderOccursOnlyInItself | booking.py:239-242 | The rebuilt call text of one key occurs inside the rebuilt call text of another key only when the keys are equal. |
| Relocation.CompactMarksAgree | booking.py:239-242 | For an `onclick` that is exactly a call written without spaces, it contains the rebuilt call text of a key exactly when the regex reads that key from it. |
| Relocation.CompactLookupsAgree | booking.py:239-242 | On buttons whose calls are written without spaces, the selector as written and the corrected lookup find the same button. |
| Executor.TimeWindow | booking.py:226-229 | The time filter passes exactly when no bound is set, no row time is known, or the row time is within the given bounds in string order. |
| Executor.CourtLetterAnyCase | booking.py:230-233 | A court text holding `a` or `A` passes when court A is wanted, because the text is upper-cased first. |
| Executor.CourtLetters | booking.py:230-233 | The court filter passes exactly when no court is ticked, or the court text holds the letter of a ticked court in either case. |
| Executor.EligibleExactly | booking.py:226-235 | A button is tried exactly when its row time passes the time window and its court text passes the court filter, each stated on the raw row data. |
| Executor.Refind | booking.py:272-278 | Under the selector as written, a button found again has an `onclick` containing `Step3Action(a,b)`. Under the corrected lookup it carries the same key. Either way the button is on the page. Without a key nothing is found. With a key, nothing is found exactly when no button on the page matches. |
| Executor.AttemptTurn | booking.py:248-282 | One attempt ends the loop on a click error; it counts on any verdict other than `cf_fail`. It clicks again exactly after a rejection and a recovery wait that reached the page, and, when there is a key, the button was found again. The next click uses the button found again by key, or the same handle when there is no key. |
| Executor.Attempts | booking.py:245-282 | The loop makes at most `cf_fail_retries + 1` clicks, and the first click is on the handle it was given. It runs out only after using every attempt. It never marks a button skipped or unreached. |
| Executor.AttemptsKeepMark | booking.py:272-278 | When every lookup of the loop follows the chosen rule, every retry clicks a button that rule matches to the key. With no key, every click is on the first handle. |
| Executor.AttemptsRetryOnlyAfterRecovery | booking.py:254-279 | Each click after the first follows a rejection and a recovery that reached the page. An exhausted loop saw nothing else. |
| Executor.AttemptsEndOnLastTurn | booking.py:246-282 | A loop that ended before its budget ended on the outcome of its last click. |
| Executor.ReadingOf | booking.py:254-278 | What the loop reads from an attempt is the dialog verdict, the click error, and whether the recovery wait with the fixed budget returned True. |
| Executor.TryButton | booking.py:237-282 | For either lookup, a button is clicked at most `cf_fail_retries + 1` times, first on itself. An exhausted button used every attempt. |
| Executor.TryButtonClicks | booking.py:238-278 | Every retry clicks a button the lookup matches to the key read from the first button. With the corrected lookup every click carries that key. A button without a key is clicked again only on itself. |
| Executor.TryButtonFacts | booking.py:245-282 | Every click but the last follows a rejection and a recovery that reached the page. An exhausted button was rejected on its last allowed click. A counted button's last click was not rejected. |
| Executor.SpacedButtonAbandoned | booking.py:238-278 | A `Step3Action(1, 2)` button that is rejected once and still on the page after a good recovery is abandoned after one click by the selector as written. The corrected lookup clicks it again and counts it. |
| Executor.TryButtonLookupsAgree | booking.py:238-278 | When every page the loop sees holds only calls written without spaces, the attempt loop runs the same under both lookups. |
| Executor.ClickFrom | booking.py:214-235 | Each button is either unreached, or tried when it passes the filter and skipped otherwise. The count is the number of counted buttons and never passes `max_click`. |
| Executor.StopsOnlyAtMaxClick | booking.py:214-215 | A button is left unreached only after `max_click` buttons before it were counted. |
| Executor.ClickAll | booking.py:165-286 | Every button found gets one run. The count is the number of counted buttons, at most the buttons found and at most `max_click`. A reached button is skipped exactly when it fails the filter. Skipped and unreached buttons are never clicked. A tried button's run is its attempt loop under the same lookup. |
| Executor.UnreachedOnlyAfterMaxClick | booking.py:214-215 | A button is left unreached only once `max_click` buttons before it were counted. |
| Executor.AttemptBound | booking.py:245-261 | No button is clicked more than `cf_fail_retries + 1` times. A counted button passed the filter, and its last click was not rejected. |
| Executor.NegativeBudgetClicksNothing | booking.py:245-246 | With a negative `cf_fail_retries` the attempt loop never runs, so the count is 0. |
| Executor.RecoveryBudgetIsFixed | booking.py:265-267 | The recovery wait after a rejected click makes at most 3 recoveries, whatever budget the caller passed. |
| Executor.ClickAllLookupsAgree | booking.py:165-286 | On pages whose calls are written without spaces, the click routine as written and the corrected one give the same runs and the same count. |
| Config.CollectSlots | app.py:147-151 | `d2_list` holds exactly the ticked slots 1 to 4, in increasing order. It is empty exactly when no box is ticked. |
| Config.ParseInt | app.py:159 | `int()` succeeds exactly on an optionally signed decimal after stripping. The value is the decimal value of the digits, negated after a `-`, unchanged after a `+` or with no sign. |
| Config.ExampleSigned | app.py:159 | `-5` reads as -5. |
| Config.ExamplePlusPadded | app.py:159 | `+05` reads as 5. |
| Config.ParseIntRoundTrip | app.py:159 | Every integer's decimal rendering parses back to it. |
| Config.ParseRetries | app.py:159 | An empty field gives 3. Any other text is read with `int()`. |
| Config.ParseStart | app.py:170-172 | An accepted start time is within the day. A format error or a range error ends the run, and it is a range error exactly when three integer fields were read. |
| Config.TimeFrom | app.py:170-172 | Three read fields within the day give that time. Out-of-range fields give a range error, and a field that did not read gives a format error. |
| Config.ParseStartRoundTrip | app.py:170-172 | Any in-range `H:M:S` typed in decimal is read back as typed. |
| Config.SplitThree | app.py:170 | Three digit strings joined by colons split back into themselves. |
| Config.ExampleMissingSeconds | app.py:170-171 | `09:30` is a format error. |
| Config.Configure | app.py:141-172 | The checks run in source order: launch, dates, slots, time bounds, retry count, and then the start time for a scheduled start. Each halt happens exactly when its check is the first to fail. An accepted plan holds the pages of every date and slot, the parsed filter and retry count, the two mode switches, and a start time exactly when one was asked for. |
| Config.Settle | app.py:154-172 | Past the slot check, the first field that does not read ends the run with its own halt: a time bound, then the retry count, then the start time when a scheduled start was asked for. An accepted plan carries every field as read, and a start time exactly when one was asked for. |
| Config.TimeOfDayUs | app.py:172 | A valid time of day is less than one day after midnight. |
| Config.NextOccurrence | app.py:172-173 | The start instant is within the next 24 hours, strictly after now, at the requested time of day. |
| Config.NextOccurrenceIsFirst | app.py:172-173 | No instant after now at that time of day comes before the start instant. |
| Schedule.StopStays | app.py:132-134 | Once the stop flag reads set, it reads set at every later check. |
| Schedule.StopReachesNextRound | app.py:189-193 | A stop seen inside a round is seen by the loop's check before the next round. |
| SingleTab.VisitPage | app.py:194-202 | A page that is not ready is skipped with no click. A page is ready exactly when its wait returned True, and a ready page adds the click routine's count. |
| SingleTab.RoundVisits | app.py:192-202 | A round visits targets in list order from the first, each after a passed stop check. It ends early only on a stop. |
| SingleTab.Rounds | app.py:189-203 | Every round started passed the loop's stop check with the loop clock below the budget, and the loop ended on a stop or a spent budget. Every visit belongs to a started round, is a listed target, and passed its own check. |
| SingleTab.RunSingleTab | app.py:178-205 | The warm-up happens exactly when asked for, on the home page, with a 180 wait and a refresh rather than a bounce. Each visit is the wait on its own target followed by that target's clicks under the selector as written. The total is the sum of the visits' clicks. Round `q` starts only while no stop is seen and the time the earlier rounds took is below the budget, and the loop ends on one of the two. |
| SingleTab.RoundCompleteBeforeNext | app.py:189-193 | A later round only starts after this round visited every target. |
| SingleTab.RoundsInOrder | app.py:189-203 | Visits go through the list in order, round after round, with no target skipped or repeated within a round. |
| SingleTab.TotalOfPrefix | app.py:200-202 | The running total never decreases as the run goes on. |
| SingleTab.RoundsWithinBudget | app.py:189 | Every round takes time, so the number of rounds is at most the budget. |
| MultiTab.TurnLogic | app.py:229-250 | A failed switch leaves the tab alone. A tab that was not ready is re-waited, and if it is still not ready nothing is clicked. Clicks happen only on a tab ready by the time of the turn, and a turn with clicks stamps the tab ready at the turn's time. A reload stores the reload wait's verdict and stamp. |
| MultiTab.ReloadOnlyWhenStale | app.py:235-250 | A reload happens exactly on a tab that was already ready, yields no click, and was last checked more than 25 seconds earlier. A re-waited tab is never reloaded in the same turn. |
| MultiTab.LastCheckAfterTurn | app.py:235-250 | After a turn, the tab's last check is the turn's stamp, the reload stamp, or unchanged for an idle ready tab. |
| MultiTab.OpenTabs | app.py:209-219 | Opening tabs yields one tab per target in list order, each as its own wait left it. |
| MultiTab.OpenStopsOnlyOnStop | app.py:210-211 | The opening phase is cut short exactly when the stop flag is set by the check before the last tab. |
| MultiTab.RoundTurns | app.py:229-250 | A round takes turns on the tabs in order, each the turn logic on the tab as the round found it. Tabs it does not reach are left as they were, and it ends early only on a stop. |
| MultiTab.RoundTurnsStep | app.py:229-250 | A whole round is one step from the tabs before it to the tabs after it: turn `n` is on tab `n`, passed its stop check and replays the turn logic on that tab; unreached tabs are unchanged; the round stops short only on a stop. |
| MultiTab.RoundCountBounds | app.py:226 | Every round the loop starts passed the stop check with the loop clock below the budget, and the loop ends on a stop or a spent budget. |
| MultiTab.Rounds | app.py:226-252 | The loop keeps the tabs at the start of every round it started, plus the tabs at the end. Round `r + q` takes the tabs from the `q`-th start to the next, one turn per tab in order. The number of rounds is the loop's own count of started rounds. |
| MultiTab.RunMultiTab | app.py:207-254 | A stop during opening ends the worker with no round. Otherwise every target gets a tab, opened by its own wait, and these tabs start the first round. There is one set of tab states per round started, plus the end state. The total is the sum of every turn's clicks. |
| MultiTab.RunWithinBudget | app.py:226 | Round `q` starts only while no stop is seen and the time the earlier rounds took is below the budget, and the loop ends on one of the two. |
| MultiTab.RunRoundStep | app.py:226-252 | Each round of the run is one round step from its starting tab states to the next round's, with the turns the run logged for it. |
| MultiTab.TurnsReplay | app.py:229-250 | Each logged turn is on the tab of its slot and passed its stop check. It is the turn logic applied to that tab as its round found it, with what the turn ran into, and it leaves the tab as the next round finds it. |
| MultiTab.TabsChangeOnlyByTurns | app.py:229-250 | A round stops short of the last tab only on a stop, and a tab changes from one round start to the next only through that round's turn on it. |
| MultiTab.ReplayedTurn | app.py:235-250 | A turn replayed on a tab was a reload exactly when the tab was ready, yielded no click and was stale, and a reload leaves the reload stamp. A productive turn's clicks are the clicks read. |
| MultiTab.LoggedTurnFacts | app.py:234-250 | In the run, a turn reloaded exactly when its tab was ready at the start of its round, the switch worked, no click was made and the last check was more than 25 seconds old. A reload leaves the reload stamp. A productive turn's clicks are those of the click routine with its default retry budget of 3, whatever the form says. |
| Worker.StartInstant | app.py:168-173 | A scheduled start waits for an instant strictly after now, within a day, at the requested time of day. |
| Worker.Work | app.py:141-254 | A rejected form halts with that check's reason, and nothing else happens. Otherwise exactly the mode the form asks for runs on the plan, and a start instant exists exactly for a scheduled start. |
| Worker.StopBeforeStart | app.py:175-211 | A stop during the wait for a scheduled start still lets the single-tab warm-up run, but no round starts. In multi-tab mode no tab is opened. |

## Left out

- The GUI (Tk widgets, the log pane, the login and orders buttons), the worker thread, and the `distutils` shim are left out. They hold no decision logic.
- Selenium and the browser are left out. Element lookups, navigation, window handles, `time.time()` and `datetime.now()` are observations passed to the functions.
- `_inject_stealth`, `_simulate_human`, `dismiss_cf_banner` and every `time.sleep` are left out. They have effects on the page but no effect on the decisions.
- `parse_dates` is left out: the model takes the dates it returned as given, because it calls `dateutil`.
- `float()` of the interval and the maximum-wait fields is left out. The deadline is an abstract budget on the loop's clock. A bad float would end the run like the other halts.
- `_row_time` and `_row_court` are left out: their DOM reads are observations (`Button.rowTime`, `Button.rowCourt`).
- TimeInput.ParseTimeHHMM: reads only ASCII digits. Python's `\d` and `int()` also accept other Unicode decimal digits (`１９:００` gives `19:00`), which the model rejects as a format error.
- Relocation.DigitRun: `\d+` takes ASCII digits only. Python's `\d` in a str pattern matches every Unicode decimal digit.
- Relocation.MatchAt: same ASCII-only `\d` as `DigitRun`, so a call with non-ASCII digits has no match here.
- Relocation.KeyOf: same ASCII-only `\d`, so an `onclick` whose numbers use non-ASCII digits gives no key here, while the source reads one.
- Executor.ClickAll: every button found is treated as a fresh record. In the source the list is fetched once (booking.py:172), and `get_attribute("onclick")` at booking.py:238 runs outside any `try`. After a recovery that bounces or refreshes, a later button's handle is stale, and reading its `onclick` raises. The error reaches the worker's outer `except` (app.py:256) and ends the run. The model instead goes on trying the later buttons.
- Config.ParseInt: accepts only ASCII digits with an optional sign. It does not model Python's acceptance of Unicode digits and `_` separators.
- Text.Lower and Text.Upper: case mapping covers ASCII letters only.
- MultiTab.RunMultiTab: tabs are the opened pages in list order. Window handles the worker did not open (the login tab, for instance) would also get turns through `tab_ready.get(h, False)`, and these are not modelled.
- MultiTab.TurnLogic: `time.time()` readings are whole milliseconds, so a staleness gap of exactly 25 seconds plus a fraction of a millisecond is not distinguished.
- Waiter.Wait: a recovery's own duration is not modelled. The loop's clock restarts right after a recovery, so the duration cannot matter.
- Waiter.Wait: the page a recovery leaves is not fed back into the loop. The call always returns. A failed step skips the rest of the bounce, and the next pass observes whatever page results, which is the next observation the loop is given. `Waiter.RecoveryLanding` states where each recovery leaves the browser.
- Worker.Work: the outer `try`/`except` that logs "程式錯誤" is modelled as the halts `BadTimeFilter`, `BadRetries` and `StartOutOfRange`. Uncaught browser exceptions, which end the worker through that same `except`, are not modelled. Browser errors the source catches are modelled: click errors, recovery errors, recovery navigation errors, unreadable popups and failed tab switches.
- Worker.Work: the wait for a scheduled start is not a loop in the model. It ends at the start instant or at a stop (`Checkpoint(0, 0)`), and both lead into the chosen mode.
- The popup `btns[0].click()` after failure wording sits inside the same `try`: if it raises, the source returns `'none'`. The model folds every exception of that block into an unreadable popup (`Dialog.Popup.Unreadable`).

## Findings

The click routine takes the lookup as a parameter: `Executor.AsWritten` is the selector the source builds, and `Executor.ByKey` is the corrected lookup by key. Both polling modes run the routine with the selector as written, as the source does. `Executor.ClickAllLookupsAgree` shows that the two routines give the same result on every page whose calls are written without spaces.

| source | as written | input that shows it | evidently intended | confidence | as-written member | corrected member |
|---|---|---|---|---|---|---|
| booking.py:239-242 | The key regex allows whitespace around the comma, but the rebuilt XPath selector looks for the call with no spaces. | A button whose `onclick` is `Step3Action(1, 2)`. After a recovery, the selector `contains(@onclick,'Step3Action(1,2)')` finds nothing, and the button is given up although it is still on the page. | A button is found again by the same key the regex read. | not executed | Relocation.FindAsWritten, Relocation.SpacedCallLostAsWritten, Executor.SpacedButtonAbandoned | Relocation.Relocate, Executor.TryButtonClicks |

Three behaviours that look unintended are modelled as written, not corrected. Each is stated by a member:

- The recovery wait after a rejected click uses a fixed budget of 3 fail recoveries and 240 units, not the configured `cf_fail_retries` (booking.py:265-267; `Executor.RecoveryBudgetIsFixed`).
- Multi-tab mode calls the click routine without `cf_fail_retries`, so its attempt loop always uses the default of 3 (app.py:240; `MultiTab.LoggedTurnFacts`).
- The single-tab warm-up does not check the stop flag (app.py:180-183; `Worker.StopBeforeStart`).
