# FounderFlow: quota, premium activation and habit tracking in Dafny

FounderFlow is a Next.js dashboard for founders. It shows motivational quotes
and tracks daily habits. Accounts are free or premium. This project models the
parts of it that hold rules and state:

- **The quote endpoint** (`pages/api/generate-quote.js`). It identifies the
  caller by their first verified e-mail address and loads or creates that user's
  row in the `users` table. The daily counter is reset lazily. A free user is
  refused with 403 once three quotes were handed out today. The endpoint then
  calls the text generator and splits the reply into quote and author at the em
  dash. Only after a successful generation does it write the counter back.
- **The payment webhook** (`pages/api/stripe-webhook.js`). A verified
  `checkout.session.completed` event sets `is_premium` on the buyer's row. When
  the update fails with the not-found code `PGRST116`, the handler inserts a
  premium row instead.
- **The dashboard helpers** (`src/app/page.js`). These are:
  - the normalisation of a habit's stored `completed_dates`;
  - the completion toggle for today;
  - the two backward streak scans;
  - the month navigation;
  - the status of each of the 42 calendar cells;
  - the index of the quote of the day;
  - the cap of five habits on free accounts.

The `users` table is a map from e-mail address to row. It is the field `rows`
of the class `UsersStore.UserStore`, whose two methods carry out the handlers
step by step. Each method is proved to produce exactly the response and the
new table that a pure specification function gives: `QuoteApi.HandleQuote` and
`StripeWebhook.HandleWebhook`. The properties of the handlers are lemmas about
those functions. The same pattern holds for the streaks and the calendar grid:
`Streaks.GetHabitStreak`, `Streaks.GetCurrentStreak` and
`Calendar.GenerateCalendarDays` keep the page's `while` and `for` loops and are proved equal to
`Streaks.HabitStreak`, `Streaks.CurrentStreak` and `Calendar.Cell`. The
dashboard's habit list, premium flag and dialog flags are the fields of
`Dashboard.HabitBoard`.

Dates are day numbers. Zero-padded `YYYY-MM-DD` strings sort exactly as their
day numbers do, so the page's string comparisons of dates become integer
comparisons. Day 0 is 1970-01-01, a Thursday, which fixes the weekday used by
the calendar grid. The daily quote is the one place that works on the ISO
string itself.

Everything outside the program is a parameter:

- the identity provider's answer;
- the signature check;
- the outcome of each store call;
- the text generator's reply;
- today's date;
- `JSON.parse`.

The parameters are the datatypes `QuoteApi.QuoteEnv`, `StripeWebhook.WebhookEnv`
and `Dashboard.InsertResult`, the function type `Habits.JsonParser`, and plain
arguments.

Where the repository's documentation and its code differ, the model follows
the code:

- The 403 answer carries only an error message, with no limit or usage figures.
- The counter update also runs for premium users.
- A failed row lookup is treated like a missing row, so the endpoint attempts an
  insert. That insert fails when the row exists, because the e-mail address is
  the table's unique key.
- The result of the counter update is not checked. If that write fails, the
  quote is delivered and is not counted.
- A webhook update error with any code other than `PGRST116` is logged and
  swallowed.
- An update that reports no error but matches no row changes nothing. The
  insert fallback runs only on the `PGRST116` code.
- The calendar's "normal" status is never assigned: the branches before it
  cover every case (`Calendar.StatusRules`).

## Model

| member | source | states |
|---|---|---|
| Common.TrimSpec | pages/api/generate-quote.js:167 | `trim` keeps one contiguous part of the text, removes only JavaScript white space and line terminators, and leaves none at either end |
| Common.TrimIdempotent | pages/api/generate-quote.js:176 | trimming an already trimmed piece changes nothing |
| Common.TrimAllWhitespace | pages/api/generate-quote.js:167-168 | a reply made only of white space trims to the empty string |
| Common.Split | pages/api/generate-quote.js:176 | `split` on one character yields at least one piece, a second piece exactly when the separator occurs, and no piece containing the separator |
| Common.SplitJoin | pages/api/generate-quote.js:176 | joining the pieces of a split back with the separator gives the original text |
| Common.SplitAtFirst | pages/api/generate-quote.js:176 | the first piece is the text before the first separator, and the remaining pieces are the split of the text after it |
| Common.SplitNoSeparator | pages/api/generate-quote.js:175-176 | a text without the separator splits into itself alone |
| QuoteApi.FirstVerifiedIndex | pages/api/generate-quote.js:68 | `find` returns the first address whose verification status is "verified", or none when there is no such address |
| QuoteApi.IdentifySpec | pages/api/generate-quote.js:32-86 | identification succeeds exactly with a non-empty user id, a user object and a verified address, and the key is then the first verified address |
| QuoteApi.NonPostRefused | pages/api/generate-quote.js:20-22 | any method but POST gets 405 and the table is untouched |
| QuoteApi.UnauthenticatedRefused | pages/api/generate-quote.js:32-84 | a missing user id or user, or no verified address, gets 401, leaves the table unchanged, and gets the same answer whatever the table holds |
| QuoteApi.FirstRequestCreatesRow | pages/api/generate-quote.js:96-116 | a new address gets the row free, count 0, no date; that row stays when the quote is not delivered, and becomes count 1 dated today after a delivered quote whose counter write succeeds; the caller is never refused for the limit; a failed insert gives 500 and no change |
| QuoteApi.StaleCountIgnored | pages/api/generate-quote.js:118-126 | a count stored on another day has no effect: rows differing only in that count get the same answer, the same other rows and the same count in effect |
| QuoteApi.LimitReachedRefused | pages/api/generate-quote.js:128-131 | a free user with three quotes today gets 403 and nothing is written |
| QuoteApi.QuotaRefusalExactly | pages/api/generate-quote.js:129-131 | the 403 is given if and only if the loaded row is free with a count in effect of at least three |
| QuoteApi.PremiumNeverOverLimit | pages/api/generate-quote.js:129 | a premium user never gets 403 |
| QuoteApi.ServeCommits | pages/api/generate-quote.js:129-183 | after the gate, a successful answer comes with the counter write (unless that write errors), and a refusal never writes |
| QuoteApi.SuccessConsumesOne | pages/api/generate-quote.js:178-183 | a delivered quote writes the count in effect plus one and today's date into the user's row, premium or not, unless that write errors |
| QuoteApi.FailedGenerationFree | pages/api/generate-quote.js:133-172 | a missing API key, an error status, a reply without content or an exception is a refusal (500, or 403 at the limit) and leaves the count in effect unchanged |
| QuoteApi.RetryAfterFailureSameDecision | pages/api/generate-quote.js:157-190 | retrying after a failed generation on the same day finds the same row and gets the same limit decision |
| QuoteApi.SplitQuoteNoDash | pages/api/generate-quote.js:173-175 | a text without an em dash is the quote itself, with author "Unknown" |
| QuoteApi.SplitQuoteAtFirstDash | pages/api/generate-quote.js:173-177 | with an em dash, the quote is the trimmed text before the first dash and the author the trimmed text up to the next dash or the end |
| QuoteApi.SplitQuoteRoundTrip | pages/api/generate-quote.js:173-177 | a quote and an author without dashes, written "quote — author", split back into the trimmed quote and author |
| QuoteApi.OnlyOwnCounterChanges | pages/api/generate-quote.js:89-183 | the endpoint removes no row, never changes a premium flag, creates only free rows, and changes no row but the caller's |
| QuoteApi.DailyLimitKept | pages/api/generate-quote.js:118-183 | a free user within the limit today is still within it after any request |
| QuoteApi.AtMostLimitPerDay | pages/api/generate-quote.js:118-183 | however many requests a free user sends in one day, with each counter write succeeding, at most three minus the quotes already used are delivered |
| UsersStore.UserStore.GenerateQuote | pages/api/generate-quote.js:20-190 | the endpoint carried out on the table field gives exactly the response and the new table `QuoteApi.HandleQuote` specifies |
| UsersStore.UserStore.GateAndGenerate | pages/api/generate-quote.js:118-190 | with the row loaded, the reset, the limit, the generation and the counter write give `QuoteApi.Serve`'s response and write its row |
| UsersStore.UserStore.HandleWebhook | pages/api/stripe-webhook.js:13-79 | the webhook carried out on the table field gives exactly the response and the new table `StripeWebhook.HandleWebhook` specifies |
| StripeWebhook.NonPostRefused | pages/api/stripe-webhook.js:75-78 | any method but POST gets 405 with `Allow: POST`, and nothing changes |
| StripeWebhook.UnverifiedRejected | pages/api/stripe-webhook.js:19-27 | an event whose signature does not verify gets 400 and the table is unchanged |
| StripeWebhook.VerifiedAcknowledged | pages/api/stripe-webhook.js:68-74 | every verified event is answered 200 `{received: true}`, whatever the store did |
| StripeWebhook.OnlyCompletedCheckoutMutates | pages/api/stripe-webhook.js:29-35 | the table changes only for a verified `checkout.session.completed` event with a non-empty customer e-mail |
| StripeWebhook.ExistingRowActivated | pages/api/stripe-webhook.js:38-41 | on an existing row a successful update sets the premium flag and changes no other field and no other row |
| StripeWebhook.InsertFallbackExactly | pages/api/stripe-webhook.js:43-64 | for an address with no row, a premium row is inserted if and only if the update failed with `PGRST116` and the insert succeeded; otherwise nothing changes |
| StripeWebhook.ActivateOnlyUpgrades | pages/api/stripe-webhook.js:38-64 | activation changes at most the buyer's row, into that row made premium or the inserted premium row |
| StripeWebhook.TierOnlyUpgrades | pages/api/stripe-webhook.js:29-72 | no row disappears or loses premium, and any row that changes or appears belongs to the event's customer and is premium |
| StripeWebhook.Idempotent | pages/api/stripe-webhook.js:38-41 | once an event has left its customer premium, processing it again changes nothing and gets the same answer |
| Habits.NormaliseIdempotent | src/app/page.js:7-17 | a normalised list stored back as an array reads back unchanged |
| Habits.StoredTextRoundTrip | src/app/page.js:9-11 | a list stored as JSON text reads back as the same list, for a parser that inverts the serialiser |
| Habits.RemoveAll | src/app/page.js:316-318 | the filter keeps exactly the dates other than the removed one, and the result is no longer |
| Habits.RemoveAllCounts | src/app/page.js:316-318 | every copy of the removed date goes and every other date keeps all its repeats |
| Habits.RemoveAllAppend | src/app/page.js:316-318 | the filter distributes over concatenation, so the kept dates stay in their order |
| Habits.ToggleSpec | src/app/page.js:310-320 | the toggled list has today if and only if the old one did not, removes every copy of today when present, appends it at the end when absent, and keeps all other dates in order |
| Habits.ToggleTwice | src/app/page.js:310-320 | toggling twice from a list without today gives back the original list |
| Streaks.HabitRun | src/app/page.js:746-771 | the single-habit scan never counts more days than its budget |
| Streaks.HabitStreakSpec | src/app/page.js:719-775 | the streak is at most 365; it counts back from today when today is completed and from yesterday otherwise; every counted day is completed and not before the creation day; the day after the streak is not |
| Streaks.GetHabitStreak | src/app/page.js:719-775 | the `while` loop with its `streak`, `daysChecked` and date cursor returns `Streaks.HabitStreak` |
| Streaks.ActiveHabitsMembers | src/app/page.js:808-813 | the habits active on a day are exactly those created on or before it |
| Streaks.AllCompletedOnMembers | src/app/page.js:822-824 | `every` holds exactly when each habit of the list has the day among its completion dates |
| Streaks.OverallRun | src/app/page.js:805-838 | the overall scan never counts more days than its budget |
| Streaks.NoActiveHabitsNoStreak | src/app/page.js:815-820 | once no habit is active, a skipped day adds nothing and neither does any earlier day |
| Streaks.OverallRunSpec | src/app/page.js:805-838 | every counted day has active habits that are all completed, and the day after the run is not such a day |
| Streaks.CurrentStreakSpec | src/app/page.js:778-841 | the overall streak is at most 365 days; each counted day, going back from the start, has active habits all completed; the first day after it does not |
| Streaks.NothingActiveNoStreak | src/app/page.js:787-817 | with no habit active today the overall streak is 0 |
| Streaks.SingleHabitAgrees | src/app/page.js:719-841 | with a single habit the overall streak equals that habit's streak |
| Streaks.GetCurrentStreak | src/app/page.js:778-841 | the `while` loop with its skip (`continue`) and its `break` returns `Streaks.CurrentStreak` |
| Calendar.NavigateSpec | src/app/page.js:484-500 | navigation keeps the month in 0..11, moves exactly one month back for "prev" and forward otherwise, and wraps 0 to 11 with year − 1 and 11 to 0 with year + 1 |
| Calendar.MonthIndexInjective | src/app/page.js:484-500 | a month and year within range are determined by their month count |
| Calendar.NavigateInverse | src/app/page.js:484-500 | "next" then "prev", and "prev" then "next", return to the same month and year |
| Calendar.HabitsForDayMembers | src/app/page.js:525-529 | `getHabitsForDay` keeps exactly the habits completed on that date |
| Calendar.AnyMissedIffNotAll | src/app/page.js:563-573 | some active habit is missed if and only if not all are completed |
| Calendar.StatusRules | src/app/page.js:575-600 | a later day is "future"; an earlier day or today is "no-habits" with nothing active, "completed" exactly when every active habit is done, and "missed" otherwise; "normal" is never assigned |
| Calendar.GridCoversMonth | src/app/page.js:533-536 | the grid starts on the Sunday at most six days before the first of the month, so every day of a month of up to 31 days falls in its 42 cells |
| Calendar.GenerateCalendarDays | src/app/page.js:532-617 | the loop yields exactly 42 cells, cell i being the day i after the grid's start with its completions, active habits and status |
| DailyQuote.DailyQuoteIndex | src/app/page.js:165 | a numeric seed gives an index within the 20 quotes |
| DailyQuote.IsoDateSplit | src/app/page.js:78 | an ISO date splits at its two dashes into year, month and day digits |
| DailyQuote.SeedOfIsoDate | src/app/page.js:78 | removing the dashes leaves the eight digits YYYYMMDD |
| DailyQuote.PadDigitsValue | src/app/page.js:165 | zero-padded digits read back as their number |
| DailyQuote.ParseIntOfDigits | src/app/page.js:165 | `parseInt` of a string of digits is its value |
| DailyQuote.DailyQuoteIndexOfDate | src/app/page.js:75-166 | the quote index for a date is YYYYMMDD modulo 20, and so the same date always gives the same quote |
| DailyQuote.NextDayNextQuote | src/app/page.js:75-166 | within a month, each next day shows the next quote of the list, wrapping from the last to the first |
| Dashboard.AddHabitSpec | src/app/page.js:274-295 | a premium account is never blocked; a blocked add leaves the list unchanged; otherwise the list grows by the new habit, with no completions and created now, exactly when signed in and the insert returned the row |
| Dashboard.FreeCapKept | src/app/page.js:1038-1044 | a free account that starts with at most five habits still has at most five after an add |
| Dashboard.FindHabit | src/app/page.js:300-301 | `find` returns the first habit of the list with that id, or none exactly when no habit has it |
| Dashboard.ToggleHabitSpec | src/app/page.js:298-340 | a successful toggle flips today's completion of the chosen habit, keeps its other dates in order, stores them as an array, and leaves every other habit as it was |
| Dashboard.ToggleStoresArray | src/app/page.js:310-337 | after a successful toggle the habit's dates are stored as an array, so reading them back no longer depends on JSON parsing |
| Dashboard.ToggleNoEffect | src/app/page.js:298-340 | an unknown id or a failed update leaves the list as it was |
| Dashboard.HabitBoard.HandleAddHabit | src/app/page.js:1038-1044 | the handler sets the list to `Dashboard.AfterAdd`, opens the upgrade dialog exactly when blocked, closes the habit dialog after a successful insert, and keeps a free account within the cap |
| Dashboard.HabitBoard.ToggleHabitCompletion | src/app/page.js:298-340 | the handler sets the list to `Dashboard.AfterToggle` and changes nothing else |

## Definitions

Every function and predicate that transcribes a piece of the code, with the
lines it transcribes. The lemmas above state what they mean:

| definition | source | models |
|---|---|---|
| QuoteApi.HandleQuote | pages/api/generate-quote.js:20-190 | one request to the quote endpoint: the response and the new `users` table |
| QuoteApi.Identify | pages/api/generate-quote.js:32-86 | the authentication checks and the choice of the first verified address |
| QuoteApi.IsVerified | pages/api/generate-quote.js:68 | the `find` test: the address's verification status is "verified" |
| QuoteApi.LoadOrCreate | pages/api/generate-quote.js:89-116 | the row lookup and the insert of a default row when the lookup fails |
| QuoteApi.EffectiveCount | pages/api/generate-quote.js:118-126 | the lazy daily reset of the counter |
| QuoteApi.StoredCount | pages/api/generate-quote.js:121 | the stored count, or 0 when it is null |
| QuoteApi.Serve | pages/api/generate-quote.js:118-183 | the limit gate, the generation and the counter write for a loaded row |
| QuoteApi.OverLimit | pages/api/generate-quote.js:129 | the limit test: a free user with a count in effect of at least three |
| QuoteApi.GeneratedText | pages/api/generate-quote.js:157-172 | the generator's reply turned into trimmed text or a failure |
| QuoteApi.SplitQuote | pages/api/generate-quote.js:173-177 | the split of the text into quote and author at the em dash |
| QuoteApi.Consumed | pages/api/generate-quote.js:178-182 | the counter write: the count in effect plus one, dated today |
| QuoteApi.StatusCode | pages/api/generate-quote.js:21-193 | the status passed to each `res.status(...)` call of the endpoint |
| Common.Trim | pages/api/generate-quote.js:167 | `String.prototype.trim` |
| Common.IsJsWhitespace | pages/api/generate-quote.js:167 | the characters `trim` removes: JavaScript white space and line terminators |
| StripeWebhook.HandleWebhook | pages/api/stripe-webhook.js:13-79 | one webhook call: the response and the new `users` table |
| StripeWebhook.Activate | pages/api/stripe-webhook.js:37-64 | the premium update with its insert fallback on `PGRST116` |
| StripeWebhook.StatusCode | pages/api/stripe-webhook.js:26-77 | the status passed to each `res.status(...)` call of the webhook |
| Habits.GetCompletedDates | src/app/page.js:7-17 | the normalisation of a stored `completed_dates` field |
| Habits.ToggleDates | src/app/page.js:310-320 | the new list of completion dates of the toggle |
| Habits.Completed | src/app/page.js:310-311 | `getCompletedDates(habit.completed_dates)`, the normalised dates of one habit |
| Streaks.HabitStreak | src/app/page.js:719-775 | the single-habit streak |
| Streaks.HabitScanStart | src/app/page.js:737-744 | the single-habit scan starts today when today is completed, otherwise yesterday |
| Streaks.CurrentStreak | src/app/page.js:778-841 | the overall streak across all habits |
| Streaks.ActiveHabits | src/app/page.js:787-792 | the `created_at` filter, also at lines 555-560 and 808-813 |
| Streaks.AllCompletedOn | src/app/page.js:822-824 | the `every` completion test, also at lines 565-567 and 796-798 |
| Streaks.DayDone | src/app/page.js:794-798 | `isTodayCompleted`: some habit active and all active habits completed |
| Streaks.CurrentScanStart | src/app/page.js:800-803 | the overall scan starts today when today is done, otherwise yesterday |
| Calendar.NavigateMonth | src/app/page.js:484-500 | the previous/next month buttons |
| Calendar.StatusOf | src/app/page.js:575-600 | the status of a calendar day |
| Calendar.HabitsForDay | src/app/page.js:525-529 | `getHabitsForDay`: the habits completed on a date |
| Calendar.AnyMissedOn | src/app/page.js:570-573 | the `some` test: an active habit not completed on the date |
| Calendar.Weekday | src/app/page.js:536 | `getDay` of a day number |
| Calendar.GridStart | src/app/page.js:533-536 | the grid's first day: the Sunday on or before the first of the month |
| Calendar.Cell | src/app/page.js:541-613 | one cell of the calendar grid |
| DailyQuote.IsoDate | src/app/page.js:75 | `toISOString().split("T")[0]`: the `YYYY-MM-DD` string of a date |
| DailyQuote.Seed | src/app/page.js:78 | `today.split("-").join("")` |
| DailyQuote.ParseInt | src/app/page.js:165 | `parseInt` of the seed: the value of its leading digits |
| DailyQuote.DailyQuoteFor | src/app/page.js:165-166 | the fallback quote at `parseInt(seed) % fallbackQuotes.length` |
| Dashboard.AfterAdd | src/app/page.js:274-295 | the habit list after an add, with the free-account cap of `handleAddHabit` (lines 1038-1044) |
| Dashboard.AddBlocked | src/app/page.js:1039 | the cap test: a free account with five or more habits |
| Dashboard.NewHabit | src/app/page.js:276-284 | the inserted habit: no completions, created now |
| Dashboard.AfterToggle | src/app/page.js:298-340 | the habit list after a toggle of today's completion |
| Dashboard.WithCompletedDates | src/app/page.js:333-337 | the `habits.map` that stores the new dates on the habit with the id |

## Left out

- The web framework, the UI markup, styling, dialogs other than the two flags,
  timers, theme and favourites: none of them hold rules about the model's state.
- The identity provider, the database, the payment provider and the text
  generator are outside the program. They are parameters that give each call's
  outcome. What goes over the wire is not modelled.
- Signature checking is a boolean, because the payment library performs it.
- The `getAuth` call made before the method check can throw. So can the
  `getAuth` call inside the `try` block, which the handler then answers with 500.
  Neither failure is modelled, because the identity provider is outside the model.
- A `null` `emailAddresses`: the model's address list is always a list.
- Concurrency: two requests racing on the same counter are not modelled. Requests
  are handled one at a time.
- JavaScript `Date`, with its time zones and `setDate` rollover. Dates are day
  numbers, and `new Date(created_at)` becomes a stored creation day.
- The timezone difference between the UTC date string and the local month:
  every date is in one calendar.
- The month of a cell is the parameter `monthOf`, and the first of the displayed
  month is an argument. Turning a displayed month and year into a day number is
  date arithmetic.
- The `try`/`catch` blocks around invalid dates in the streak loops: a day number
  is always valid.
- `JSON.parse` results that are not arrays of dates. The parser's result type is
  a list of days or a failure.
- DailyQuote.IsoDate: `toISOString` is modelled only for years 0 to 9999, the
  four-digit form.
- DailyQuote.ParseInt: leading white space and signs are not modelled, because
  the seed is made only of digits.
- The caching of the daily quote in browser storage: it is storage I/O.
- The percentages and success rates, computed with floating-point `Math.round`,
  and the donut chart geometry.
- The warnings based on `getHours`, because they depend on the local clock.
- `deleteHabit`: once the store's delete reports no error, it drops every habit
  with that id from the list. It only shrinks the list, so it cannot break the
  free-account cap, and no modelled rule depends on it.
- `refreshPremiumStatus`: it sets the premium flag from the store's answer
  (`is_premium`, or false). The flag is an input of the modelled cap.
- Loading habits and favourites: the loaders replace the habit and favourite
  lists with the store's answer.
- The `created_at` timestamp of the row the webhook inserts: it comes from the
  clock, and no modelled rule reads it.
- The `time` and `frequency` fields of a habit, which no modelled rule reads.
- The checkout-session endpoints, the premium status endpoints and the test
  endpoints call external services and compute nothing of their own.
- Dashboard.ToggleHabitSpec: needs unique habit ids, as the store's primary key
  guarantees. With duplicate ids, the dates of the first match are stored on
  every habit with that id.
