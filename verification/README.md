# crosselo in Dafny

crosselo keeps score of a group playing the NYT mini crossword. It has two parts:

- A Rust web worker (src/) that shows:
  - an elo leaderboard;
  - a podium of the fastest solves;
  - per-user time plots;
  - a list of recent puzzle days;
  - a head-to-head comparison of two players;
  - the live upstream leaderboard.
- Python ingest scripts (scripts/) that:
  - fetch each day's results;
  - rank them;
  - accumulate per-player wins, games and total time.

This project models the logic that runs on those records once they are fetched and decoded. The model is built from immutable datatypes and pure functions. Contracts and lemmas state what each step promises.

The modules follow the source:

- **Models**: the records `ResultEntry`, `LeaderboardEntry` and `HeadToHeadData` of src/models.rs, and `UserData` with the two fields `fetch_user_data` fills in (src/database.rs:168-171). The `percentiles` and `top_times` fields that src/models.rs also declares are not set by that code.
- **Stats**: the truncating mean and `compute_percentiles` (src/util.rs).
- **Plots**: the two Plotly figures of src/util.rs, reduced to a description:
  - the div id and title;
  - the y-axis range;
  - the list of traces.
- **LiveFeed**: the decode loop of `fetch_live_leaderboard` (src/util.rs).
- **Database**: post-query processing in src/database.rs:
  - the Saturday filter;
  - the stable elo sort;
  - the podium cut;
  - the head-to-head sentence and record.
- **Handlers**: src/lib.rs:
  - `%20` decoding;
  - the default table name;
  - the pairing of the head-to-head parameters;
  - the ten recent dates;
  - the index, recent and head-to-head handlers, with the database calls passed in as their decoded results.
- **Filters**: the `convert_time_to_mm_ss` and `unpack_time` template filters (src/templates.rs).
- **Ingest**: scripts/utils.py:
  - `to_iso`;
  - `daterange`;
  - the ranking in `fetch_leaderboard`;
  - the feed filter;
  - `format_time`.
- **UpdateDb**: scripts/update_db.py:
  - `fetch_today_results_with_rank`;
  - the counting part of `compute_stats`.
- **Helper modules**:
  - **Dates**: a proleptic Gregorian calendar, i.e. day numbers, weekdays, day steps and strict "YYYY-MM-DD" text.
  - **Digits**: decimal rendering and parsing.
  - **Ints**: Rust's `i32` wrap-around and truncating division.
  - **Sorting**: a stable insertion sort over a total preorder.
  - **Strings**: the lexicographic order of Rust's `String::cmp`.
  - **Seqs**: subsequences.
  - **Wrappers**: `Option` and `Result`.

## How the model handles integers, failures and I/O

- **Rust integer arithmetic.** Rust's `/` and `%` truncate toward zero; the model writes them out as `Ints.TruncDiv` and `Ints.TruncRem`. Python's `divmod` floors, which is what Dafny's own `/` and `%` do for a positive divisor. `as i32` and the doubled or tripled axis bound wrap modulo 2^32; the model writes this out as `Ints.WrapI32`.
- **Errors and panics.** `Result` and `Option` values model what the source returns. A panic is an explicit outcome: `Plots.Panic` and `Handlers.Response.Panicked`.
  - A plot of an empty sequence divides by zero in `get_average_time`. This happens before the loop's own "Need more times" check can run. So `ScatterPlot` and `BoxPlot` return `Err(DivisionByZero)` exactly when some input sequence is empty.
  - In `handle_h2h`, a user without results therefore panics the request.
- **I/O becomes parameters.** Each database query or upstream call is a parameter holding its decoded result, with `None` for a failed call:
  - `fetchLeaderboard`, `userTimes`, `h2h` and `mostRecent` in Handlers;
  - `rowsOn` in UpdateDb;
  - `data` in LiveFeed.
- **Foreign code becomes parameters.** `linreg::linear_regression` succeeding on a sequence of times is the parameter `fits`. Rust's `{:.1}` rendering of a float is the parameter `tenths`.

## Model

| member | source | states |
|---|---|---|
| Stats.AverageTime | src/util.rs:11-13 | The mean is the sum divided by the count, truncated toward zero: the remainder is below the count and has the sign of the sum. The result is an `i32`. It needs a non-empty input, since Rust divides by `len`. |
| Stats.AverageWithinTimes | src/util.rs:11-13 | The truncated mean lies between the smallest and the largest time. |
| Stats.SelectPercentiles | src/util.rs:155-159 | The loop fails exactly when some percentile's index `p*len/100` reaches the length of the data. Otherwise it gives one time per percentile, in request order, each read at that index. |
| Stats.ComputePercentiles | src/util.rs:150-161 | Fails with "Index out of bounds" exactly when some index reaches the length. On success, entry `i` is the time for the `i`-th percentile counted from the end of the request (the reversal). |
| Stats.HundredthPercentileFails | src/util.rs:156-157 | A request containing 100 always fails, whatever the data. |
| Stats.PercentilesOfEmpty | src/util.rs:154-161 | With empty data, every non-empty request fails. An empty request returns `Ok([])`. |
| Stats.PercentileIndexInRange | src/util.rs:156 | Below 100, the index stays inside non-empty data. |
| Stats.PercentilesDescend | src/util.rs:154-161 | Time-ordered data with ascending percentiles gives times in descending order. |
| Plots.MaxAverage | src/util.rs:16-20 | The largest per-sequence mean: no mean exceeds it, one sequence attains it, and it is 0 (`unwrap_or(0)`) for no sequences. |
| Plots.SortByDateCorrect | src/util.rs:66 | Sorting by date gives a permutation in ascending date order, and entries with equal dates keep their order (a stable sort). |
| Plots.AllScatterTracesAt | src/util.rs:84-92 | Sequence `i` contributes traces `2i` and `2i+1`: its times as a line over its dates, then its trendline. |
| Plots.ScatterLoop | src/util.rs:61-93 | The loop gives nothing when the regression fails on some sequence. Otherwise it gives all the traces, in input order. |
| Plots.ScatterPlot | src/util.rs:15-98 | Panics exactly when a sequence is empty, and shows the placeholder exactly when a regression fails. Otherwise it returns the "scatter-plot" figure with y range `[0, 2*max mean]` (wrapped to `i32`) and the date-sorted traces of every sequence. |
| Plots.ScatterAxisRange | src/util.rs:16-55 | When it fits in `i32`, the scatter y range is `[0, 2*max mean]`. With no sequences it is `[0, 0]` with no traces. |
| Plots.BoxTraces | src/util.rs:127-143 | One box per sequence, in input order, named after its first entry's user and holding its times in order. |
| Plots.BoxPlot | src/util.rs:100-148 | Panics exactly when a sequence is empty. Otherwise it returns the "box-plot" figure with y range `[0, 3*max mean]` (wrapped to `i32`) and one box per sequence. The "Need more times" branch is never reached. |
| Plots.BoxAxisRange | src/util.rs:101-118 | When it fits in `i32`, the box y range is `[0, 3*max mean]`. With no sequences it is `[0, 0]` with no traces. |
| LiveFeed.DecodeLiveLeaderboard | src/util.rs:180-199 | No `data` array gives `NoResults`. Otherwise the decode succeeds exactly when every ranked entry has an `i64` time and a string name. On success it yields the ranked entries, in feed order, with the time cut to `i32` and an empty date. On failure the error belongs to the first undecodable ranked entry. |
| LiveFeed.DecodeEntries | src/util.rs:181-199 | The loop over the array: entries whose rank is not an `i32` string are skipped, not defaulted. Its outcome and errors are as above. |
| Digits.ParseI32 | src/util.rs:183 | `str::parse::<i32>`: the text parses exactly when it is an optional `+` or `-` followed by one or more ASCII digits whose value fits in `i32` (magnitude up to 2^31 - 1, or 2^31 after `-`). The result is that value, negated after `-`. Empty text, a lone sign and any other first character fail. |
| Digits.ParseShowInt | src/util.rs:183 | Parsing the decimal display of any `i32` gives it back. |
| Digits.PadIntReadsBack | scripts/utils.py:118 | A sign-aware zero-padded number (`{:02d}`) reads back: as plain digits when non-negative, and otherwise as `-` followed by the digits of its magnitude. |
| Database.ExcludeSaturday | src/database.rs:158-166 | The result is an order-preserving subsequence. An entry is kept exactly when its date parses as "%Y-%m-%d" and is not a Saturday. Kept entries keep their multiplicity. |
| Database.ExcludeSaturdayIdempotent | src/database.rs:158-166 | Filtering the filtered list changes nothing. |
| Database.FetchUserData | src/database.rs:155-171 | `all_times` is the decoded list unchanged. `times_excluding_saturday` is the in-order subsequence of exactly the results whose date parses and is not a Saturday, each kept as often as it occurs. |
| Database.SortByEloCorrect | src/database.rs:199 | The leaderboard is a permutation of the rows, ordered by non-increasing elo, and rows of equal elo keep their order. |
| Sorting.SortByCorrect | src/database.rs:199 | `sort_by` under a total preorder: a permutation, sorted, and stable on equivalent elements. |
| Database.Podium | src/database.rs:126 | The first `min(10, n)` rows, unchanged and in order. |
| Database.PodiumIsFastest | src/database.rs:113-128 | On rows ordered by time, no row left out is faster than a kept row. At most ten rows are all kept. |
| Database.SpeedVerb | src/database.rs:237-241 | "faster" exactly when the average difference is negative, so a difference of 0 reads "slower". |
| Database.DescriptionReadsRight | src/database.rs:243-249 | The sentence starts "On average, {user1} is ". It ends " seconds faster than {user2}." exactly when the average difference is negative. |
| Database.FetchH2hData | src/database.rs:233-256 | Some exactly when the record decoded. The names are the arguments and the description is the new sentence. Wins, ties, total and average are copied unchanged. |
| Dates.FormatParse | src/database.rs:161 | The strict "%Y-%m-%d" parse accepts only canonical text: formatting a parsed date gives the input back. |
| Dates.ParseFormat | src/lib.rs:156 | Parsing a formatted date with a year in 0..9999 gives the date back. |
| Dates.WeekdayOfNext | src/database.rs:162 | The weekday advances by one each calendar day. |
| Dates.CalendarAnchors | src/database.rs:162 | The numbering matches the civil calendar: 2024-01-06 is a Saturday and 1970-01-01 a Thursday. |
| Dates.AddDays | src/lib.rs:155 | `date - Duration::days(i)`: a valid date exactly `n` days from the start. |
| Dates.AddDaysUnique | src/lib.rs:155 | Only one valid date lies exactly `n` days from a given one. |
| Handlers.DecodeSpacesLeavesNone | src/lib.rs:99 | After `replace("%20", " ")`, no "%20" is left. |
| Handlers.DecodeSpacesKeepsPlain | src/lib.rs:170 | Text without "%20" is unchanged. |
| Handlers.DecodeSpacesSteps | src/lib.rs:170 | Decoding step by step: empty text stays empty, a leading "%20" becomes one space, and any other leading character is copied. |
| Handlers.TableName | src/lib.rs:73-76 | The `db_name` parameter verbatim, or "all" when it is absent. |
| Handlers.H2hUsers | src/lib.rs:169-181 | A pair exactly when both parameters are present, each with "%20" decoded. |
| Handlers.RecentDates | src/lib.rs:153-159 | Exactly ten strings, where entry `i` is the most recent date minus `i` days, formatted. |
| Handlers.RecentDatesConsecutive | src/lib.rs:153-159 | Entry 0 is the most recent date itself. Entry `i` parses back to that date minus `i` days. Entry `i+1` is the calendar day before entry `i`. |
| Handlers.RecentDatesCrossBoundaries | src/lib.rs:155 | Stepping back crosses leap-day, common-February and year boundaries correctly. |
| Handlers.HandleIndex | src/lib.rs:72-88 | Returns the 500 error exactly when the table's query fails. When it succeeds the response is always the leaderboard page of that table's rows ordered by elo, and never a panic. |
| Handlers.HandleRecent | src/lib.rs:146-162 | Returns the 500 error exactly when the newest date is unavailable. Otherwise the response is always the page of the ten dates counting back from the newest, which comes first. |
| Handlers.H2hPageOf | src/lib.rs:183-205 | Each user-data failure gives its own error. A user without results panics (the box plot divides by zero). The page is rendered exactly when both users' results are fetched and non-empty. It then holds the user list, the head-to-head record (or nothing) and the two-user box plot, with one box per user. |
| Handlers.PairBoxPlot | src/lib.rs:190-191 | The two-user box plot panics exactly when either user has no results. Otherwise it has the two users' boxes, in order. |
| Handlers.HandleH2h | src/lib.rs:164-206 | A failure of the username query gives the 500 error. Without both route parameters the page gets only the user list. With both, the decoded names are used for every fetch. |
| Handlers.FailedH2hStillRenders | src/lib.rs:170-205 | For any route names, once "%20" is decoded and both users' results are non-empty, a failed head-to-head fetch still renders the page, with no data. |
| Filters.ConvertTimeToMmSs | src/templates.rs:6-10 | The rendering has at least five characters (`{:02}` padding on both fields). |
| Filters.MmSsReadsBack | src/templates.rs:6-10 | For `s >= 0`: the minutes field reads `s/60` and the seconds field is two digits reading `s%60`. Together they read back as `60*minutes + seconds == s`. |
| Filters.MmSsInjective | src/templates.rs:6-10 | Different non-negative times render differently. |
| Filters.MmSsLength | src/templates.rs:9 | For `s >= 0`, the output has exactly five characters exactly when `s < 6000`. |
| Filters.NegativeTimeRendering | src/templates.rs:7-9 | Truncating division keeps the sign in the seconds field: -5 renders "00:-5" and -65 renders "-1:-5". |
| Filters.UnpackTime | src/templates.rs:20-25 | "--" exactly when there is no score. Otherwise it is the score's time through `convert_time_to_mm_ss`. |
| Ingest.ToIso | scripts/utils.py:11-12 | For years 1000..9999 the text is the canonical "YYYY-MM-DD" and parses back to the date. Below 1000 the C library leaves the year unpadded, so the text is shorter and does not parse. |
| Ingest.DateRange | scripts/utils.py:21-23 | `days + 1` dates when `end` is not before `start`, and none otherwise. Entry `n` is `start` plus `n` days. |
| Ingest.DateRangeSteps | scripts/utils.py:21-23 | The range is inclusive at both ends and steps one calendar day at a time. It is non-empty exactly when `start <= end`. |
| Ingest.RankAt | scripts/utils.py:60-66 | The rank `times.index(time) + 1` is between 1 and the row's position plus 1. It points at a row with the same time, and no earlier row has that time. |
| Ingest.FetchLeaderboard | scripts/utils.py:60-72 | One row per result, in order, with the username and time copied and the first-index rank. |
| Ingest.TiesShareRank | scripts/utils.py:60-66 | Rows with equal times share a rank. |
| Ingest.WinnersTieTheFirst | scripts/utils.py:60-66 | Rank 1 goes to exactly the rows tied with the first row. |
| Ingest.CompetitionRanking | scripts/utils.py:55-66 | On rows ordered by time, the rank is 1 plus the number of strictly faster rows. |
| Ingest.KeepSolved | scripts/utils.py:93-97 | Returns exactly the entries with a truthy `secondsSpentSolving`, in feed order and with their multiplicities. The comprehension raises (None) exactly when some `score` is not an object. |
| Ingest.FormatTime | scripts/utils.py:118-120 | The seconds field is always two digits reading `s mod 60` (floored), whatever the sign. The minutes field reads `s div 60` (floored) for a non-negative time. For a negative time it is `-` followed by the digits of the magnitude of `s div 60`. |
| Ingest.FormatTimeMatchesFilter | scripts/utils.py:118-120 | For non-negative times the script's rendering equals the page filter's. |
| Ingest.FormatTimeOfNegative | scripts/utils.py:118-120 | For negative times they differ: -5 is "-1:55" in the script and "00:-5" on the page. |
| UpdateDb.RankToday | scripts/update_db.py:36-51 | Same length and order. Each row keeps its username, time and date and gets the first-index rank. |
| UpdateDb.StoredRanksAgree | scripts/update_db.py:38-49 | Ranking the stored rows again gives the ranks they were stored with. |
| UpdateDb.UsernamesOf | scripts/update_db.py:79-80 | The usernames seen are exactly those of the leaderboard rows. |
| UpdateDb.RecordRows | scripts/update_db.py:90-94 | For every user, games played go up by the number of that user's rows, wins by the number of rank-1 rows, and total time by the sum of their times. Every username is added. |
| UpdateDb.RecordDay | scripts/update_db.py:76-94 | One date's update is as above. An empty leaderboard changes nothing. |
| UpdateDb.WinsAtMostPlayed | scripts/update_db.py:90-93 | On any list of rows, a user's wins never exceed their games. |
| UpdateDb.RecordDayKeepsWinsBounded | scripts/update_db.py:78-94 | wins <= played for every user is preserved by each date's update. |
| UpdateDb.DayWins | scripts/update_db.py:88-92 | A user's wins on a day are that user's rows tied with the fastest time, so all tied winners win. |
| UpdateDb.RecordDays | scripts/update_db.py:71-94 | Over a list of dates, the counters grow by the per-user totals of all those dates' rows, and wins <= played is kept. |
| UpdateDb.ComputeStats | scripts/update_db.py:64-115 | One entry per username ever seen, from the prior set plus every leaderboard in the date range. Each entry carries that user's accumulated wins, games and total time, and wins <= games when that held before. |
| Models.Times | src/util.rs:133 | The times of a list of results, position by position. |
| Ints.WrapI32 | src/util.rs:192 | `as i32`: the result is an `i32` congruent to the input modulo 2^32, and equal to it when it already fits. |
| Ints.TruncRem | src/templates.rs:7-8 | Rust's `%` for a positive divisor: `a == (a/b)*b + r`, with the remainder taking the sign of `a`. |

## Left out

- HTTP routing, the worker entry point, Askama rendering and the CSS are left out: they are plumbing and presentation. Pages are reduced to the data handed to the template.
- The Postgrest/Supabase queries and serde/JSON decoding of response bodies (including scripts/db.py) are left out because they are I/O. Their decoded results are parameters.
- The NYT API requests, the retries and sleep of `fetch_today_leaderboard`, and its `None` after the last retry are left out because they involve the network and the clock.
- Plotly's HTML serialisation, opacity, jitter, colours and the layout builders are left out. `linear_regression` is the opaque predicate `fits`, and the trendline's values are not computed because they are floating point.
- Rust's `{:.1}` float formatting is the opaque parameter `tenths`. The `round` and `convert_decimal_to_percentage` filters are not modelled because they are floating point.
- Plots.ScatterPlot: the source sorts each caller's sequence by date in place (mutable slices, src/util.rs:66). `handle_user` then hands the date-sorted `all_times` to its template (src/lib.rs:106-114). The model returns only the plot and does not return the reordered sequences; `Plots.SortByDate` states the order they would have.
- Database.SortByEloCorrect: elo is a Dafny `real`, so the NaN case of `partial_cmp(..).unwrap_or(Equal)` is not modelled.
- Stats.ComputePercentiles: the index is the exact `p*len/100` rounded down (negative percentiles saturate to 0, as `as usize` does). The f64 product of the source can land one lower for some `p`, and this is not modelled.
- Stats.AverageTime: its precondition requires that the `i32` sum of the times does not overflow; inputs whose sum overflows are not modelled.
- TrueSkill ratings, mu/sigma, the elo formula and the float `average_time` of `compute_stats` are left out, because they come from an external library and use floats. The `KeyError` such a lookup could raise is left out too.
- Time zones and the clock of `today_eastern` are left out. The current date is not an input of any modelled operation.
- Dates.Parse is strict "YYYY-MM-DD": exactly four year digits and two-digit month and day. chrono's `%Y-%m-%d` parser also accepts some looser forms, such as unpadded fields and signed years; that leniency is not modelled.
- `handle_user`, `handle_podium`, `handle_history` and `handle_today` are covered only through the helpers they call (plots, podium, live decode); their response wrapping is not modelled.
- The source files come from different revisions: for example, the user page template and `UserData` disagree on field names. The model follows each file's own code and does not reconcile them.
