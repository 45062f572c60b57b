# energy-companion core, modelled in Dafny

This project models the server-side core of energy-companion, a Next.js app that pulls a user's Strava activities into a Supabase table and reports on them.

- **Ingestion pipeline.** `POST /api/strava/sync`:
  - `sync_token.dfy`: choosing and renewing the Strava access token (`refreshAccessToken` and the refresh decision).
  - `sync_pipeline.dfy`: paging through `GET /athlete/activities` with one retry after a 401, then upserting the rows by id and stamping the connection.
  - `sync_normalize.dfy`: the normaliser that turns one Strava activity into one `activities` row (`mapType`, `toDurationBucket`, `toTimeOfDay`).
- **Analytics engine.** The three reporting routes `GET /api/stats/summary`, `GET /api/stats/detail` and `GET /api/insights`:
  - `stats_summary.dfy`, `stats_detail.dfy`, `insights.dfy`: the three reports.
  - `rows.dfy`: the folds the routes share.
  - `tally.dfy`: counting by key with a `Map` and ranking the entries with a stable sort.
  - `streak.dfy`: the longest run of consecutive days.
  - `clock_text.dfy`: the `HH:MM` rendering.
- **Shared helpers.** `pickDurationBucket` and `readinessScore` (`core_helpers.dfy`), and the client-side `bucketByTimeOfDay` (`local_time_of_day.dfy`).
- **Sign-in plumbing.**
  - `parseHash` of the auth callback page (`auth_callback.dfy`).
  - The access gate of the (disabled) request middleware (`middleware.dfy`).

`common.dfy` holds the shared vocabulary:

- optional values (`x ?? d` is `GetOr`);
- the duration and time-of-day buckets;
- `Math.round` of an exact ratio of integers, proved equal to floor(x + 1/2) of the real ratio;
- the UTC calendar fields of an instant given in epoch seconds.

The model makes these choices:

- Every route is a pure function of its inputs. The rows a route selects are a parameter. So are Strava's replies to the page and token requests, the database's success flags and the clock.
- An ISO timestamp is modelled as epoch seconds (a calendar date as its day number since 1970-01-01).
- A JavaScript `Map` or plain object used as a counter is a list of entries in first-insertion order.
- `Array.prototype.sort` is a stable insertion sort.
- A session cookie counts when it is present, even with an empty value, since the middleware's `cookies.get` returns an object; `Middleware.HasSession` tests presence only.

## Model

| member | source | states |
|---|---|---|
| Common.RoundRatio | src/app/api/stats/summary/route.ts:40 | `Math.round(p / q)` for q > 0: the integer r with q(2r - 1) <= 2p < q(2r + 1), the one nearest to p/q with a half rounding up |
| Common.RoundRatioIsRound | src/app/api/insights/route.ts:5-7 | the exact integer rounding equals floor(x + 1/2) of the real quotient p/q, that is `Math.round` of the division |
| Common.RoundHalfUp | src/core/index.ts:30 | `Math.round(x)` is the integer r with r - 1/2 <= x < r + 1/2 |
| Common.UtcHour | src/app/api/strava/sync/route.ts:27 | `getUTCHours()` is an hour below 24 |
| Common.UtcWeekday | src/app/api/stats/detail/route.ts:16 | `getUTCDay()` is a day index below 7 |
| Common.MinuteOfDay | src/app/api/stats/detail/route.ts:75-78 | `getUTCHours() * 60 + getUTCMinutes()` is a minute of the day, below 1440 |
| Common.InstantDecomposition | src/app/api/stats/detail/route.ts:75-78 | an instant is exactly its date times 86400, plus 60 times its minute of the day, plus its seconds |
| Common.EpochDayShift | src/app/api/stats/detail/route.ts:99-101 | an instant k whole days later falls on a date k dates later |
| Tally.Count | src/app/api/stats/detail/route.ts:43-47 | after `set(k, (get(k) ?? 0) + 1)` for every key: one entry per distinct key, each holding that key's number of occurrences, in first-occurrence order, counts summing to the number of keys |
| Tally.SortByCount | src/app/api/stats/detail/route.ts:48-50 | the sort by descending count returns a permutation of its input (multiset equal), non-increasing in count, with the same total |
| Tally.SortRanked | src/app/api/stats/detail/route.ts:48-50 | the sort is stable: entries listed in first-occurrence order come out by count, and equal counts stay in first-occurrence order |
| Tally.RankingSpec | src/app/api/stats/detail/route.ts:43-50 | the sorted tally has one entry per distinct key with its occurrence count, ordered by count and then by first occurrence, and totals the number of keys |
| Tally.TopKeySpec | src/app/api/stats/summary/route.ts:43-48 | `sort(...)[0]?.[0]` is undefined exactly when there are no keys; otherwise it is a key occurring at least as often as every other, and the first seen among those tied with it |
| Rows.OutdoorPct | src/app/api/stats/summary/route.ts:39-40 | the outdoor share is 0 without rows, otherwise the integer nearest to 100 times the outdoor count over the row count, always in [0, 100] |
| Rows.OutdoorRows | src/app/api/insights/route.ts:39 | `filter(a => a.is_outdoor)` keeps exactly the rows whose flag is true |
| Rows.OutdoorRowsCounts | src/app/api/insights/route.ts:39 | the filter keeps each outdoor row as often as it occurs in the input and drops every other row |
| Rows.OutdoorCountIsFilterLength | src/app/api/insights/route.ts:38-41 | counting outdoor rows with `reduce` and with `filter(...).length` gives the same number, at most the row count |
| Rows.TallyTimesCounts | src/app/api/stats/summary/route.ts:51-56 | each counter holds the number of rows of its time of day; the rows with a null time of day are exactly the ones left uncounted |
| Rows.TimeOfDayChart | src/app/api/stats/summary/route.ts:57-61 | three entries Morning, Afternoon, Evening in that order, each counting its rows; together they count the rows minus those with a null time of day |
| Rows.TypeKeys | src/app/api/stats/detail/route.ts:45 | the tally key of each row is its type, or 'other' when the type is null |
| CoreHelpers.PickDurationBucket | src/core/index.ts:10-14 | short exactly below 20 minutes, medium exactly in [20, 45), long exactly from 45 on |
| CoreHelpers.PickDurationBucketMonotone | src/core/index.ts:10-14 | a longer session never gets a shorter bucket |
| CoreHelpers.SleepAdjustment | src/core/index.ts:27 | the sleep adjustment is 5 points per hour away from 7, clamped to [-10, 10] |
| CoreHelpers.LoadAdjustment | src/core/index.ts:28 | -10 exactly above 240 minutes, -5 exactly in (120, 240], 0 exactly up to 120 |
| CoreHelpers.ReadinessScore | src/core/index.ts:17-31 | the score is always in [0, 100] |
| CoreHelpers.ReadinessDefault | src/core/index.ts:22-30 | with every parameter absent (mood 3, sleep 7, load 0) the score is 60 |
| CoreHelpers.ReadinessUnclamped | src/core/index.ts:26-30 | away from the clamps the score is within a half of mood * 20 + sleep adjustment + load adjustment |
| CoreHelpers.ReadinessNonIncreasingInLoad | src/core/index.ts:28-30 | more recent load never raises the score |
| CoreHelpers.ReadinessNonDecreasingInMood | src/core/index.ts:26-30 | a better mood never lowers the score |
| CoreHelpers.ReadinessNonDecreasingInSleep | src/core/index.ts:27-30 | more sleep never lowers the score |
| LocalTimeOfDay.BucketByTimeOfDay | src/utils/timeofDay.ts:4-10 | morning exactly before hour 12, afternoon exactly in [12, 18), evening exactly from 18 on |
| LocalTimeOfDay.BucketMonotone | src/utils/timeofDay.ts:4-10 | a later hour never gives an earlier bucket |
| Middleware.AnyPrefix | middleware.off.ts:9 | `PUBLIC_PATHS.some(p => pathname.startsWith(p))` holds exactly when some listed path is a prefix of the pathname |
| Middleware.Gate | middleware.off.ts:5-24 | the request is redirected exactly when its path is not public and neither session cookie is present; the redirect is the same URL with the path `/en/login` |
| Middleware.RedirectTargetPasses | middleware.off.ts:17-21 | following the redirect with the same cookies passes: the gate never redirects twice in a row |
| Middleware.MoreCookiesStillPass | middleware.off.ts:14-17 | adding cookies never turns a pass into a redirect |
| Middleware.RedirectKeepsUrl | middleware.off.ts:18-20 | a redirect keeps the origin, the query and the fragment of the request and changes only the path |
| Middleware.PrefixExamples | middleware.off.ts:3-11 | matching is by prefix: `/en/login/x` and `/api/auth/me2` are public, `/en` and `/api/stats/summary` are not |
| AuthCallback.Split | src/app/auth/callback/page.tsx:11 | `split(c)` returns at least one piece, no piece contains the separator, and there are two or more pieces exactly when the text contains it |
| AuthCallback.JoinSplit | src/app/auth/callback/page.tsx:11 | joining the pieces of a split with the separator gives back the text |
| AuthCallback.SplitJoin | src/app/auth/callback/page.tsx:11 | splitting pieces joined by a separator they lack gives back the pieces |
| AuthCallback.SplitAppend | src/app/auth/callback/page.tsx:11 | text before the first separator is the first piece, and the rest splits on its own |
| AuthCallback.KeyValueSpec | src/app/auth/callback/page.tsx:12-14 | `[k, v] = part.split('=')`: the key is the text before the first `=` (the whole part, with value "", when there is none) and the value the text after it up to the next `=` or the end |
| AuthCallback.StripHash | src/app/auth/callback/page.tsx:10 | exactly one leading `#` is removed when present; otherwise the text is unchanged |
| AuthCallback.PairsOf | src/app/auth/callback/page.tsx:11-12 | one key/value pair per part, in order |
| AuthCallback.CollectSpec | src/app/auth/callback/page.tsx:13-14 | a key is stored exactly when it is non-empty, is not `__proto__`, and some pair has it, and it maps to the value of the last pair with that key |
| AuthCallback.CollectSize | src/app/auth/callback/page.tsx:8-16 | the result has no more keys than there are parts |
| AuthCallback.ParseHashSpec | src/app/auth/callback/page.tsx:7-17 | the empty fragment gives the empty map; otherwise every key maps to the value of its last part, empty and `__proto__` keys are dropped, and the map has at most as many keys as parts |
| AuthCallback.ParseJoinedPairs | src/app/auth/callback/page.tsx:7-17 | parts joined with `&` behind a `#` parse back to a map of each key to the value it was last given |
| AuthCallback.PairRoundTrip | src/app/auth/callback/page.tsx:12 | a part `k=v` without other `=` reads back as key k and value v |
| AuthCallback.DoubleHashKeepsSecond | src/app/auth/callback/page.tsx:10 | only one `#` is stripped: `##k=v` stores the key `#k` |
| AuthCallback.LaterKeyWins | src/app/auth/callback/page.tsx:11-14 | of two parts with the same key, the later one's value is kept |
| ClockText.DecimalText | src/app/api/stats/detail/route.ts:83-84 | `String(n)` is a non-empty string of decimal digits that reads back as n, with no leading zero, one digit exactly when n < 10 |
| ClockText.PadStart2 | src/app/api/stats/detail/route.ts:83-84 | `padStart(2, '0')` gives length max(2, \|s\|), ends with s and fills the front with '0' |
| ClockText.TwoDigits | src/app/api/stats/detail/route.ts:83-84 | a value below 100 renders as exactly its two decimal digits |
| ClockText.ClockChars | src/app/api/stats/detail/route.ts:82-85 | a minute of the day renders as the tens and units of its hour, `:`, then the tens and units of its minute |
| ClockText.ClockRoundTrip | src/app/api/stats/detail/route.ts:82-85 | every minute of the day renders as five characters `HH:MM` and parses back to the same minute |
| ClockText.SevenOClock | src/app/api/stats/detail/route.ts:82-85 | minute 420 renders as "07:00" |
| StatsDetail.Minutes | src/app/api/stats/detail/route.ts:37 | total minutes are the integer nearest to the total seconds over 60 |
| StatsDetail.SharePctBounds | src/app/api/stats/detail/route.ts:49 | a type's share lies in [0, 100] and is the integer nearest to 100 * count / activities |
| StatsDetail.Shares | src/app/api/stats/detail/route.ts:49 | each ranked entry gets its name, count and percentage, in the same order |
| StatsDetail.SharesTotal | src/app/api/stats/detail/route.ts:48-49 | adding percentages keeps the counts' total |
| StatsDetail.TypeDistributionSpec | src/app/api/stats/detail/route.ts:42-50 | one entry per type (null as 'other') with its row count and share; the counts total the rows; larger counts first, ties in first-appearance order |
| StatsDetail.DayName | src/app/api/stats/detail/route.ts:14-17 | the weekday name is one of the seven names of the report |
| StatsDetail.DayNameNextDay | src/app/api/stats/detail/route.ts:14-17 | one day later gives the next name in Sunday-first order |
| StatsDetail.DayNameWeekly | src/app/api/stats/detail/route.ts:14-17 | the name repeats every seven days |
| StatsDetail.DayNameExamples | src/app/api/stats/detail/route.ts:14-17 | 1970-01-01 is a Thursday and 2024-01-01 a Monday |
| StatsDetail.WeekdayTallyCounts | src/app/api/stats/detail/route.ts:53-57 | the map seeded with the seven names keeps exactly those keys and counts each day's rows |
| StatsDetail.WeekdayCounts | src/app/api/stats/detail/route.ts:58-59 | seven entries Mon to Sun in that order, each with its day's row count |
| StatsDetail.WeekdayCountsSum | src/app/api/stats/detail/route.ts:52-59 | the seven counts, empty days included, add up to the number of rows |
| StatsDetail.MinutesOfDay | src/app/api/stats/detail/route.ts:75-78 | each row's UTC minute of the day, in order |
| StatsDetail.AvgStartMinute | src/app/api/stats/detail/route.ts:82 | the rounded mean start minute is a minute of the day and the integer nearest to the mean |
| StatsDetail.AvgStartTimeSpec | src/app/api/stats/detail/route.ts:74-87 | the average start time is null exactly without rows; otherwise it is a well-formed `HH:MM` whose minute is the rounded mean of the UTC start minutes |
| StatsDetail.AvgStartTimeExample | src/app/api/stats/detail/route.ts:74-87 | starts at 06:00 and 08:00 UTC average to "07:00" |
| StatsDetail.BucketKeys | src/app/api/stats/detail/route.ts:92 | each row's duration bucket, or short when it is null |
| StatsDetail.CommonDurationBucketSpec | src/app/api/stats/detail/route.ts:89-96 | the usual bucket is null exactly without rows; otherwise it is held by as many rows as any bucket and is the first such bucket seen |
| StatsDetail.StreakDays | src/app/api/stats/detail/route.ts:99-101 | each row's UTC date, as a day number |
| StatsDetail.LongestStreakDaysSpec | src/app/api/stats/detail/route.ts:98-113 | the streak is the longest run of consecutive UTC dates with an activity; it is 0 exactly without rows, otherwise between 1 and the number of distinct dates |
| StatsDetail.Detail | src/app/api/stats/detail/route.ts:115-124 | the report counts the rows, has an outdoor share in [0, 100], seven weekday and three time-of-day entries, and its start time and streak are absent or zero exactly without rows |
| Streak.SortedDistinct | src/app/api/stats/detail/route.ts:99-102 | `[...new Set(days)].sort()` is strictly increasing and holds exactly the given dates, no more of them than were given |
| Streak.DistinctCardinality | src/app/api/stats/detail/route.ts:99-102 | a strictly increasing list holds as many distinct dates as its length |
| Streak.ScanComputesLongestRun | src/app/api/stats/detail/route.ts:103-113 | the loop keeps `longest` equal to the longest run of consecutive dates seen so far and `current` equal to the run ending at the last date |
| Streak.ScanPreservesInvariant | src/app/api/stats/detail/route.ts:104-112 | one turn of the loop keeps that invariant |
| Streak.LongestStreakSpec | src/app/api/stats/detail/route.ts:98-113 | for any list of dates the result is the longest run of consecutive dates, 0 exactly for no dates, otherwise between 1 and the number of distinct dates |
| Streak.StreakExample | src/app/api/stats/detail/route.ts:98-113 | 2024-01-01, 01-02, 01-03 and 01-05 give a streak of 3 |
| StatsSummary.AvgDurationMin | src/app/api/stats/summary/route.ts:33-37 | the average duration is 0 without rows, otherwise the integer nearest to total seconds / rows / 60 |
| StatsSummary.AvgDurationMinBounds | src/app/api/stats/summary/route.ts:33-37 | when every duration lies in [0, maxMin minutes] so does the average |
| StatsSummary.TopTypeSpec | src/app/api/stats/summary/route.ts:42-48 | the top type is undefined exactly without rows; otherwise it is a type (null as 'other') held by as many rows as any other, and the first such type seen |
| StatsSummary.Summary | src/app/api/stats/summary/route.ts:29-61 | the totals count the rows, the outdoor share lies in [0, 100], and the chart has three entries counting no more than the rows |
| StatsSummary.SummaryAgreesWithDetail | src/app/api/stats/summary/route.ts:29-61 | on the same rows the summary and the detail report agree on the activity count, the outdoor share, the chart and the top type (the first entry of the type distribution) |
| Insights.Percent | src/app/api/insights/route.ts:5-7 | 0 for a total of 0, otherwise the integer nearest to 100 * part / total |
| Insights.PercentBounds | src/app/api/insights/route.ts:5-7 | a part of the total is between 0 and 100 percent |
| Insights.TypeProperties | src/app/api/insights/route.ts:25-28 | the property key of each row's type, "null" for a null type |
| Insights.TimeProperties | src/app/api/insights/route.ts:32-35 | the property key of each row's time of day, "null" for a null one |
| Insights.InsightsOf | src/app/api/insights/route.ts:16-49 | the insights are null exactly without rows; otherwise the total is the row count and the outdoor share lies in [0, 100] |
| Insights.TopKeysSpec | src/app/api/insights/route.ts:24-36 | the top type and top time of day are each held by as many rows as any other value and are the first such seen, null values counting together as "null" |
| Insights.AgreesWithSummary | src/app/api/insights/route.ts:20-41 | on the same rows the insights and the summary agree on the average duration and the outdoor share, and on the top type when every row has a type |
| Insights.MissingTypeExample | src/app/api/insights/route.ts:25-29 | two untyped rows and a run give the top type "null" here, where the summary reports 'other' |
| SyncNormalize.MapType | src/app/api/strava/sync/route.ts:32-43 | Run, Walk, Hike and Swim map to run, walk, hike and swim (endurance) and Yoga to yoga (mindful); the stored type is always one of the nine stored names, 'other' exactly for an unlisted Strava type; the category is strength exactly for the four strength types, mindful exactly for Yoga, endurance otherwise |
| SyncNormalize.MapTypeMerges | src/app/api/strava/sync/route.ts:35-41 | Ride and VirtualRide map to ride; Workout, Crossfit and HIIT map to hiit; WeightTraining maps to strength |
| SyncNormalize.ToDurationBucket | src/app/api/strava/sync/route.ts:21-25 | short exactly below 1200 s, medium exactly in [1200, 2700) s, long from 2700 s on |
| SyncNormalize.PickDurationBucketAgrees | src/app/api/strava/sync/route.ts:21-25 | the library's minute-based bucket agrees with the sync's second-based bucket on whole minutes |
| SyncNormalize.ToTimeOfDay | src/app/api/strava/sync/route.ts:26-31 | morning exactly before UTC hour 12, afternoon exactly in [12, 18), evening from 18 on |
| SyncNormalize.ToTimeOfDayAgreesWithLocal | src/app/api/strava/sync/route.ts:26-31 | on the same hour the server's UTC bucket and the client's local bucket agree |
| SyncNormalize.ToTimeOfDayByMinute | src/app/api/strava/sync/route.ts:26-31 | the bucket by the minute of the UTC day: morning before 720, afternoon before 1080 |
| SyncNormalize.NormalizeActivity | src/app/api/strava/sync/route.ts:161-179 | the row keeps the id, type, start and distance of the activity; its type and category are those of `mapType`; it is indoor exactly when `trainer` is true; its duration is within a half second of the moving (else elapsed, else 0) time, and its buckets derive from duration and start |
| SyncNormalize.DurationSource | src/app/api/strava/sync/route.ts:164 | a present moving time wins even when it is 0; the elapsed time is used only without it; 0 without both |
| SyncNormalize.OutdoorIgnoresType | src/app/api/strava/sync/route.ts:165 | outdoor depends on the trainer flag alone (a virtual ride included), and an absent flag means outdoor |
| SyncNormalize.SyncedRowsFillChart | src/app/api/strava/sync/route.ts:177 | rows written by the sync all carry a time of day, so the three chart entries count every one of them |
| SyncToken.ExpirySeconds | src/app/api/strava/sync/route.ts:105-107 | the expiry in seconds is present exactly when the column is set, and is the floor of its milliseconds over 1000 |
| SyncToken.NeedsRefreshByMillis | src/app/api/strava/sync/route.ts:104-109 | the token is renewed before fetching exactly when a stored expiry outside the epoch's first second lies before the start of second now + 60 |
| SyncToken.RefreshAccessToken | src/app/api/strava/sync/route.ts:46-71 | the refresh fails exactly without a stored refresh token, on a failed request, or without an access token in the reply; otherwise it returns that token and writes it back (when the update succeeds) with the new refresh token, or the old one when the reply omits it, and with the reply's expiry in milliseconds, or null when the reply has none or 0 |
| SyncToken.WriteBackRoundTrip | src/app/api/strava/sync/route.ts:57-67 | the row written keeps a refresh token, and its expiry reads back as the reply's seconds, so the next sync renews exactly when that instant is under a minute away; without an expiry the next sync never renews first |
| SyncToken.PrepareToken | src/app/api/strava/sync/route.ts:101-116 | without a near expiry the stored token is used unchanged; with one, the step fails exactly when the refresh fails and otherwise uses the refreshed token |
| SyncToken.SecondRefreshRestoresOldToken | src/app/api/strava/sync/route.ts:64 | a second refresh whose reply omits the refresh token writes back the one the connection had when loaded, undoing the first refresh's new one |
| SyncPipeline.FetchPages | src/app/api/strava/sync/route.ts:119-157 | request n asks for page 1 + the full pages so far; only a full page or the first 401 leads to another request; it ends with the activities of every page, a failed retry refresh, or the failing status; bearer tokens switch to the refreshed one after the first 401 |
| SyncPipeline.NormalizeAll | src/app/api/strava/sync/route.ts:161-180 | one normalised row per fetched activity, in order |
| SyncPipeline.UpsertLookup | src/app/api/strava/sync/route.ts:182-184 | after the upsert an id is present exactly when it was before or some row has it; it maps to the last row with that id, or keeps its old row |
| SyncPipeline.UpsertIdempotent | src/app/api/strava/sync/route.ts:182-184 | upserting the same rows again changes nothing |
| SyncPipeline.UpsertKeepsKeys | src/app/api/strava/sync/route.ts:182-184 | a table whose rows sit under their own ids stays that way |
| SyncPipeline.SaveAndStamp | src/app/api/strava/sync/route.ts:159-198 | nothing fetched skips the upsert; a failed upsert answers an error and changes nothing; otherwise the answer counts the fetched activities, and the stamp is written only when its update succeeds |
| SyncPipeline.StampDoesNotMatter | src/app/api/strava/sync/route.ts:192-198 | whether the stamp succeeds changes neither the answer nor the table |
| SyncPipeline.Sync | src/app/api/strava/sync/route.ts:87-206 | no connection answers an error without requests; a failed renewal answers an error before any request; otherwise the fetch as above, and the answer is the import count exactly when the last reply was a page and the upsert (if any) succeeded; the table is the upsert of the fetched rows on an import, unchanged when nothing was fetched; the row written by the renewal before the loop survives to the end unless a retry refresh overwrites it with its own write-back, built from the connection as loaded; `last_synced_at` changes only on an import whose stamp succeeds |
| SyncPipeline.TwoPageExample | src/app/api/strava/sync/route.ts:119-198 | a page of 50 and a page of 12 import 62 activities in two requests, for pages 1 and 2; the table afterwards is the upsert of the normalised rows of both pages, and the connection is stamped |
| SyncPipeline.StaleRefreshTokenExample | src/app/api/strava/sync/route.ts:104-151 | after a renewal stored refresh token "r1", a 401 and a retry refresh without a refresh token leave the row with "r0" |

## Left out

- HTTP and authentication: handlers, the 401 for an unauthenticated caller, response JSON shapes and error strings.
- Database queries are modelled as their result. This covers the 60-day `start_time` window and the user filter of the reports, and the `connections` lookups.
- The first connection query of the sync route (`src/app/api/strava/sync/route.ts:79-86`) is shadowed by the second and is not modelled.
- The connection used is the one the second query returns, passed as a parameter. That query does not filter by user, and the model does not add the filter.
- The `after` parameter of the activity requests and their URL and headers: only the page number and the bearer token of each request are kept.
- Strava's replies are a finite sequence of inputs. A request beyond its end fails like a network error. This is what keeps the model of `while (true)` finite.
- The `status || 500` mapping of the error response: `FetchError` keeps the status as it was, absent or not.
- The outer `catch` of the sync route (thrown database or parsing errors) and all `console` logging.
- Upsert: a batch is applied row by row, so a repeated id keeps its last row. PostgreSQL rejects an `ON CONFLICT DO UPDATE` batch that touches the same id twice. That failure is covered only by the `upsertOk` input.
- Numbers: JavaScript numbers are exact integers (counts, seconds, epoch seconds) or exact reals (`readinessScore`, Strava's optional durations and distance). Floating-point rounding, NaN and infinities are not modelled.
- Ratios that the source computes in floating point before `Math.round` are rounded exactly here.
- Dates: an ISO timestamp is its epoch second, from 1970 on. `new Date(...)` parsing and `toISOString()` formatting are not modelled.
- A day's `YYYY-MM-DD` text is its day number. Distinct dates are distinct numbers, the text sorts like the numbers, and consecutive dates differ by one.
- `decodeURIComponent` in `parseHash` is the identity, so its error on a malformed escape is not modelled.
- Object key order in `insights`: `Object.entries` lists integer-like keys first in numeric order. The model keeps insertion order, which is right for the stored type and time-of-day names.
- Insights.TopKeysSpec: names of `Object.prototype` properties (`__proto__`, `constructor`, `toString`, …) are counted here as ordinary keys. The route's plain-object counter does not count them that way: `__proto__` is never recorded, and the others start from a function, so their count becomes a string and the comparator yields NaN. The model is exact for the stored type names and the time-of-day names, which are the only values the sync writes.
- Insights.AgreesWithSummary: the top-type agreement with the summary's `Map` holds in the model for every type name. In the route it fails for names of `Object.prototype` properties (`__proto__`, `constructor`, …), which the insights object does not count as ordinary keys. It is exact for the stored type names.
- The insights route reads the rows of every user. The model takes those rows as given.
- `bucketByTimeOfDay` reads `getHours()` in the viewer's time zone. The hour is its input.
- Middleware: the `matcher` configuration (`middleware.off.ts:26-28`) is not modelled. The file name marks the middleware as disabled.
- The rest of the auth callback page is not modelled: React state, the session exchange and navigation.
- The OAuth callback route, the client components and the pages are not part of this model.
- SyncToken.NeedsRefresh: an absent `expires_at` never triggers the renewal before fetching, because `exp && …` is false for null. This follows the code: a row whose `expires_at` is null keeps using the stored token until Strava answers 401.
- SyncToken.NeedsRefresh: an expiry in the first second of 1970 floors to 0, which is falsy, so it also never triggers a renewal.
- StatsDetail.DayName: its contract states only that the name is one of the seven. The day-by-day behaviour is stated by `DayNameNextDay`, `DayNameWeekly` and `DayNameExamples`.
