# heytea.dev, verified

A Dafny model of the parts of heytea.dev whose logic is more than plumbing, with proofs of what they promise.
Verify it with `dafny verify dfyconfig.toml`.

## What is modelled

**The finder page's script** (`LongestIncreasing`, `ListReorder`, `Finder`, `LineReader`, `StreamedFinder`).
`lisPositions` is shown to find a longest increasing subsequence for every array of integers; `reorderRows` to put the
list in the new order, on its incremental path with the fewest `insertBefore` calls that any sequence of single moves
could use. The page is a class whose variables
`rows`, `ordered` and `visibleRows` may hold one and the same array, as in the script, and every run of filter, append
and location events is covered. `appendRows` pushes to `rows` before it concatenates to `visibleRows`; while the two
are one array, the new rows then stand twice in `visibleRows`. `Page.Valid` carries exactly what saves the script: such
an array is longer than `rows`, so the length test in `render` sends it down the replacing path, and whenever
`reorderRows` is reached `visibleRows` is the displayed list (its precondition, proved at the call in `Page.Render`).
With text already in the search box when the page loads, the list starts unfiltered: `Page.Run` states exactly when it
is filtered, and `UnfilteredAtStart` builds the failing page. The reader of the row stream is shown to append the same
batches however the response is cut into chunks. A row that waits in an unfinished batch when the browser's location
arrives is passed over and keeps the distance it has (`PassedOverRow`); `Stream.Run` says exactly when every row has the
distance of the last place.

**Wait-time history** (`History`, `Comparison`, `ComparisonWindow`). The two loops that sweep samples and minutes
together agree with a full scan at every minute; every value shown divides the way between two values sampled within the
allowed gap as the time does (`ValueAtIs`). The request only reads samples since 20 minutes before its range, and `WindowAgreesIff` says exactly when that
shows, for every point of the range: a sample just before the window no longer keeps a value after it from standing
alone, and at the first point of a range that starts within a minute it may be missed even where both samples are in
reach (`FirstPointDiffers`). At a sample's own time its value is not always shown (`InterpolateAtSample`): a sample
before it that is more than 20 minutes older leaves the minute empty, one less than a second older takes its place.
The comparison curve is the mean over distinct earlier days (`AverageIsMean`). It is promised to cover seven (`crates/site/src/routes.rs:795`,
`docs/operations.md:28`); late in the day it can cover eight (`EightDaysCompared`), and `ComparisonWindow.CountBound`
says of the samples read exactly when.

**The poller's scheduler** (`WaitSchedule`, `Pacing`, `Cooldown`, `Rate`, `MainLoop`, `LoadsCost`, `Freshness`). One
load's batches hold each tracked shop with a provider once; dispatches keep their distance and their turn over every
sequence of ticks and cooldowns; in the whole machine of polls, records and loads, cooldowns never shorten and a denied
provider is left alone for the full cooldown. A load forgets when a provider was last asked (`ReloadBreaksPacing`,
`ReloadPacedIff`). `docs/operations.md:28` promises that each region stays within its configured rate;
`LoadsCost.RateKeptIff` shows that all runs of the main loop keep it exactly if it is one a second or more, whatever the
intervals: below that a single load is enough to break it. What is kept in every run and every configuration is the
bound of `MainLoopKeepsRate`: one request for each second, or the allowance and two requests for each gap between loads
that a minute takes (two in all with a catalog interval of a minute or more, which the run of `LoadsCostTwo` reaches).
A load also forgets which batch was next: batch k is never sent if every load comes at most k spacings after the
schedule of the one before was due, and can be otherwise (`Freshness.EverSentIff`). `Cooldown` and `Rate` allow polls,
records and loads in any order; `MainLoop` refines them to the order of the loop.

**The minifiers** (`Minify`, `MinifySource`, `MinifyUnique`, `MinifyTokens`). Both loops equal a lexer followed by a
printer. The lexer yields the one sequence of tokens that splits the source into tokens, white space and comments. Two things hold
exactly if no code `/` is separated by space and comments alone from a code `*` (or, in JavaScript, `/`): the minified
text lexes to the source's tokens, apart where they were apart and need a space (`TokensKeptIff`; `SpacingKept` spells out
which do), and minifying it again changes nothing (`IdempotentIff`). Otherwise a comment is made: of the four tokens of `a / *b` one comes back
(`CommentMade`). An unclosed last string does no harm. CSS meaning is not kept in general: `0 .` becomes `0.`
(`SpaceBeforeDotIsLost`).

**Managed shops and slugs** (`ManagedSet`, `Slugs`). After a refresh the active shops are exactly the wanted ones, the
result counts the rows changed, and a second refresh does nothing. Stored slugs never change. `slugify` gives a
well-formed slug, and one that is its own slug, exactly when the name has an ASCII letter or digit or the id is not
negative. The fallback slug can itself be taken, and then the whole catalog is rolled back, however often it comes in
that order (`FallbackCanBeTaken`); `CommitsIff` says from the table and the list exactly which catalogs commit.

**Smaller pieces** (`LocationPages`, `Encodings`, `Sessions`). The first page and the stream of the rest, sorted
separately, are one stable sort of the snapshot; the series printer and the percent encoder have readers that undo
them; the SSH server's permits add up in every interleaving.

`Wrappers`, `Sequences`, `StableSort`, `Texts`, `Decimals` and `Geography` are shared vocabulary. Sorting by the host
languages' libraries is modelled by a stable insertion sort; `StableSort.StableSortUnique` shows that no stable sort
can give anything else.

Where the documentation and the code differ the model follows the code: `docs/poller.md:59` describes a per-shop retry
of failed batches that `fetch_wait_job` (`crates/poller/src/main.rs:331-346`) does not make.

## Model

| member | source | states |
|---|---|---|
| LongestIncreasing.LisPositions | crates/site/templates/finder.js:102-123 | For every array, terminates with positions of non-negative, strictly increasing values, and no such set of positions is larger |
| LongestIncreasing.LowerBound | crates/site/templates/finder.js:108-114 | The inner binary search finds the first tail whose value is not below the given one |
| ListReorder.ReorderRows | crates/site/templates/finder.js:129-147 | The list ends in the new order; if more than a quarter of the rows are to move by replacing all, else by n minus LIS-length single moves from the old order to the new, and no other sequence of moves between them is shorter |
| ListReorder.MovesNeeded | crates/site/templates/finder.js:129-147 | Any sequence of single-node moves from one order to another has at least n minus LIS-length moves |
| ListReorder.PreviousIndexesAre | crates/site/templates/finder.js:130-131 | The index map sends each displayed row to its place and knows no others |
| Finder.CompareDistanceIsLexicographic | crates/site/templates/finder.js:247-250 | The `||` chain of differences, with its infinities and NaN, is the lexicographic order by distance (unknown last), open, wait, name, index |
| Finder.CompareDistanceIsPreorder | crates/site/templates/finder.js:247-250 | The comparator is total and transitive, so sorting by it is well defined |
| Finder.SortedCopy | crates/site/templates/finder.js:264 | `rows.slice().sort(compareDistance)`: a new array, the stable sort of the rows by their present keys, in order by the rows' own fields; the old one unchanged |
| Finder.Page.constructor | crates/site/templates/finder.js:66-69 | At load all three variables hold the served rows, and the list is in step exactly if every row's text contains the term |
| Finder.Page.Render | crates/site/templates/finder.js:149-159 | On both paths the list and `visibleRows` become what `Finder.VisibleIs` describes: the rows of `ordered` that match the term, in order |
| Finder.VisibleIs | crates/site/templates/finder.js:151 | What is shown for a term: exactly the rows whose search text contains it, each once, in the order they have among all |
| Finder.Page.ApplyFilter | crates/site/templates/finder.js:161-165 | A new term filters the list; the same term leaves it alone |
| Finder.Page.AppendRows | crates/site/templates/finder.js:167-177 | Rows are added at the end; the list is in step with term and order again, aliasing notwithstanding |
| Finder.Page.UseBrowserLocation | crates/site/templates/finder.js:258-265 | Every row has its distance from the place, `ordered` is sorted by it, and the list shows the matching rows in that order |
| Finder.Page.UpdateBrowserDistance | crates/site/templates/finder.js:92-100 | A row without coordinates has no distance, any other its distance in miles |
| Finder.Page.Handle | crates/site/templates/finder.js:161-265 | Every event keeps the page valid; one that renders brings list, order and term in step, any other leaves that as it was |
| Finder.Page.Run | crates/site/templates/finder.js:66-265 | After any run of events the list holds exactly the rows whose text contains the last term, in the order of `ordered`, exactly if it was in step at the start or some event rendered |
| Finder.UnfilteredAtStart | crates/site/templates/finder.js:66-69 | A page with text in the search box that starts unfiltered |
| LineReader.Loader.PushLine | crates/site/templates/finder.js:216-225 | One line adds at most one row and flushes a batch of 100; malformed lines add nothing |
| LineReader.Loader.LoadText | crates/site/templates/finder.js:226-230 | The text path appends the reference batches |
| LineReader.Loader.LoadStream | crates/site/templates/finder.js:231-244 | For every way of cutting the response into chunks, the same batches as splitting the whole text |
| LineReader.ScanConcat | crates/site/templates/finder.js:237-239 | Only the unfinished line takes part in what a further chunk completes |
| LineReader.SplitIsExact | crates/site/templates/finder.js:238-239 | Splitting gives lines without newlines that make up the text again |
| LineReader.BatchesAreRows | crates/site/templates/finder.js:211-225 | The batches are the rows of the lines in order, each of 1 to 100 rows, all but the last of 100 |
| StreamedFinder.Stream.Receive | crates/site/templates/finder.js:203-221 | A new row gets the distance of the place known when it arrives, waits in the batch, and goes to the page with the hundredth |
| StreamedFinder.Stream.Locate | crates/site/templates/finder.js:258-265 | The page's rows get the new distances; those that wait are passed over and keep theirs |
| StreamedFinder.Stream.Handle | crates/site/templates/finder.js:161-265 | Every arrival keeps the page valid, each row once, and known which rows were passed over |
| StreamedFinder.Stream.Run | crates/site/templates/finder.js:161-265 | After any run every row has the distance of the last place exactly if the rows that waited when it came had it already; and always if none did |
| StreamedFinder.PassedOverRow | crates/site/templates/finder.js:207-265 | A row that waits when the location arrives and joins the page with the distance it was served with |
| History.InterpolatedHistoryPoints | crates/api/src/db.rs:415-449 | One point a minute from start to end, of a minute's length: each field is the full scan's value of that field, the whole minimum and maximum are the pickup wait rounded, halves away from zero, within 32 bits |
| History.InterpolatedPickupValues | crates/api/src/db.rs:451-470 | At every minute the value the full scan gives |
| History.Sweep | crates/api/src/db.rs:424-428 | The shared inner loop stops where the neighbours are the last sample before and the first at or after the target |
| History.LastBeforeIs | crates/api/src/db.rs:427 | The sample before is the latest of those strictly earlier than the target |
| History.FirstFromIs | crates/api/src/db.rs:428 | The sample after is the earliest of those at or after the target |
| History.LoopsAgree | crates/api/src/db.rs:415-470 | The history and pickup-only loops agree minute by minute; points are contiguous and end with the one that holds the end |
| History.InterpolateBounds | crates/api/src/db.rs:472-511 | A minute has a value exactly under the gap rules; it lies between its samples' values, each less than 1201 seconds away |
| History.InterpolateMonotone | crates/api/src/db.rs:481-497 | Between one pair of samples the value moves monotonically from the earlier one's towards the later one's |
| History.InterpolateIsLinear | crates/api/src/db.rs:481-497 | Between a pair of samples the value divides the way from the earlier value to the later as the whole seconds passed divide those of the gap; without a whole second between them it is the earlier value |
| History.ValueAtIs | crates/api/src/db.rs:472-511 | What every value shown is: such a blend of the two samples next to the minute, or the value of the only one of them that has any |
| History.InterpolateAtSample | crates/api/src/db.rs:481-509 | At a sample's own time its value is shown, exactly unless the sample before has a value and is over 1200 whole seconds older, or less than one and differs |
| History.NothingAfterLongGap | crates/api/src/db.rs:486-488 | Two samples 21 minutes apart: the minute of the second shows nothing |
| History.ValueAtIsSupported | crates/api/src/db.rs:472-511 | Every value of the scan lies between the values of two samples next to its minute, each less than 1201 seconds from it |
| History.ValueAtIff | crates/api/src/db.rs:472-511 | Told from the samples: a minute has a value exactly if a sample next to it has one and is less than 1201 seconds from it, and no gap between two such samples is wider |
| History.FloorMinuteIs | crates/api/src/db.rs:534-538 | The latest whole minute not after the time, before the epoch too |
| History.HistoryForSlug | crates/api/src/db.rs:283-290 | The points of a request are the whole minutes from that of its start to that of now, made of the samples since 20 minutes before the start; each shows the pickup wait all samples would give exactly unless the loss of the sample before it shows |
| History.WindowAgreesIff | crates/api/src/db.rs:284-290 | For every minute from the window's begin on, the first point's included, and every field: the value is that of all samples exactly unless the loss of the sample before it shows |
| History.WindowClosesGap | crates/api/src/db.rs:284-290 | Two samples 21 minutes apart whose gap the window fills with the later value |
| History.FirstPointDiffers | crates/api/src/db.rs:284-290 | Two samples in reach of each other whose blend the first point of a range misses |
| Comparison.GroupByDay | crates/api/src/db.rs:381-388 | The ordered map holds, for each earlier day, that day's samples in order |
| Comparison.InterpolatedComparisonPoints | crates/api/src/db.rs:390-412 | One point for each minute with values, in order; its count is the number of earlier days with a value then and its average their mean |
| Comparison.CollectedShape | crates/api/src/db.rs:402-412 | Points are at strictly increasing minutes, one for each non-empty bucket and no other |
| Comparison.EarlierDaysAre | crates/api/src/db.rs:382-388 | The days compared are the distinct days before today that have a sample, in order |
| Comparison.CountIsDays | crates/api/src/db.rs:402-410 | A point's minute is below 1440 and its count is the number of distinct earlier days with a value then |
| Comparison.AverageIsMean | crates/api/src/db.rs:402-410 | A point's average times its count is the sum of the values of the earlier days that have one at its minute, taken over the set of days |
| Comparison.MinutesIff | crates/api/src/db.rs:390-412 | A minute has a point exactly if it is one of the 1440 and some earlier day has a value then |
| Comparison.CountsAddUp | crates/api/src/db.rs:394-410 | The counts sum to the number of values of all days at all minutes |
| Comparison.AverageIsSupported | crates/api/src/db.rs:402-410 | A point's average lies between the pickup values of two samples used for it: next to its minute on a day averaged there, within reach, before today |
| Comparison.TodayDoesNotCount | crates/api/src/db.rs:383-387 | Leaving out today's samples changes no bucket |
| ComparisonWindow.CountBound | crates/api/src/db.rs:373-388 | Without clock changes a point counts at most eight days; eight exactly if each of the seven days before today reaches its minute by its samples and a sample of the extra 20 minutes reaches it on the day before; never before 23:20 |
| ComparisonWindow.EighthDayIff | crates/api/src/db.rs:373-388 | The eighth day has a value exactly if a pickup sample of the extra 20 minutes is next to the minute and within reach; no gap is too wide there |
| ComparisonWindow.EighthDayIsShort | crates/api/src/db.rs:373-380 | The eighth day has no value before 23:20, only its last 20 minutes being read |
| ComparisonWindow.EightDaysCompared | crates/api/src/db.rs:373-410 | A point at 23:59 that counts eight days |
| ComparisonWindow.ComparisonPoints | crates/api/src/db.rs:367-413 | Query window and loops together: every point is a mean over days, with that bound on its count |
| WaitSchedule.CooldownKeyInjective | crates/poller/src/upstream.rs:446-462 | No two providers share a cooldown key, though two share a region code |
| WaitSchedule.ProviderIff | crates/poller/src/upstream.rs:844-865 | A shop has a provider exactly if its country and, in China, its city are those the provider serves |
| WaitSchedule.GroupShopIdsByProvider | crates/poller/src/main.rs:496-511 | Each provider's group is its shops in order; a provider without shops has none |
| WaitSchedule.ChunksAre | crates/poller/src/main.rs:242-248 | Batches are never empty nor over size, all but the last are full, and together they are the ids in order |
| WaitSchedule.LoadWaitSchedules | crates/poller/src/main.rs:229-268 | One schedule for each provider with shops, as `WaitSchedule.LoadedAllIs` describes them |
| WaitSchedule.LoadedAllIs | crates/poller/src/main.rs:229-268 | What a load makes: a schedule for exactly the providers that serve a tracked shop, in their order; its batches hold their shops, at most 10 or, for the Chinese provider, 100 each, and start from the first; due times lie evenly in one spacing, of which the configured number make a minute |
| WaitSchedule.LoadedPartition | crates/poller/src/main.rs:233-268 | The schedules of one load hold every tracked shop with a provider exactly once, and nothing else |
| WaitSchedule.LoadedIsValid | crates/poller/src/main.rs:244-264 | A loaded schedule has a batch to send and a positive spacing |
| Pacing.PollOne | crates/poller/src/main.rs:279-292 | One schedule's turn: not due, skipped for cooldown, or sent, with due time and batch moved on accordingly |
| Pacing.PollDueWaitBatches | crates/poller/src/main.rs:270-292 | One tick does that to every schedule, in order, and collects the jobs |
| Pacing.DispatchesPaced | crates/poller/src/main.rs:279-292 | Between two loads, whatever the ticks and cooldowns, dispatches j and i of a provider are at least j - i spacings apart |
| Pacing.DueTickPostpones | crates/poller/src/main.rs:284-288 | A due tick, sent or skipped, holds the provider back for a full spacing |
| Pacing.AtMostPerWindow | crates/poller/src/main.rs:279-292 | Between two loads a half-open window of k spacings holds at most k dispatches |
| Pacing.AtMostPerMinute | crates/poller/src/main.rs:322-324 | Between two loads a provider gets in any minute at most the configured number of requests, or one if that is 0 |
| Pacing.RoundRobin | crates/poller/src/main.rs:289-290 | The i-th dispatch sends the batch i turns on; skipped ticks lose none |
| Pacing.EachShopOnce | crates/poller/src/main.rs:289-291 | Any as many dispatches in a row as there are batches ask for each shop of the provider exactly once |
| Pacing.ServedWithin | crates/poller/src/main.rs:279-292 | With ticks at most d apart and no cooldown, dispatch m comes within m * (spacing + d) of the first |
| Pacing.SentAgain | crates/poller/src/main.rs:279-292 | Then a batch is sent again within (number of batches) * (spacing + d), between two loads |
| Pacing.ReloadPacedIff | crates/poller/src/main.rs:255-264 | After a load the first request keeps its distance from the last, for all ticks, exactly if the new due time does |
| Pacing.ReloadBreaksPacing | crates/poller/src/main.rs:255-264 | At six a minute, a provider asked at 0 and loaded anew at 1, as the first group, is asked again at 1, not a spacing later |
| Freshness.EverSentIff | crates/poller/src/main.rs:255-292 | Over runs with loads, some ticks get batch k sent exactly if one load's schedule is due more than k spacings before the next load |
| Freshness.IncludesIff | crates/poller/src/main.rs:261-290 | After a load batch k is sent exactly if more than k batches are |
| Freshness.NotSentBefore | crates/poller/src/main.rs:255-292 | In the poller's machine no poll up to k spacings after a loaded schedule is due sends its batch k |
| Cooldown.Poller.RecordResultCooldown | crates/poller/src/persistence.rs:100-129 | The upsert keeps the later of two ends; only 403, 405 and 429 trip it |
| Cooldown.RecordedIs | crates/poller/src/persistence.rs:100-129 | A 403, 405 or 429 holds its slot until the later of its own end and the one before; any other result, and any other slot, changes nothing |
| Cooldown.Poller.Reload | crates/poller/src/main.rs:128-131 | Replaces the schedules by those of the tracked shops, as a step of the machine |
| Cooldown.Poller.PollDue | crates/poller/src/main.rs:270-320 | Reads cooldowns, polls, and records results in any order of completion, cut short by any error, as a step of the machine |
| Cooldown.FinishedIs | crates/poller/src/main.rs:293-320 | Results are recorded one for each completed request, in the order of completion |
| Cooldown.CooldownsNeverShorten | crates/poller/src/persistence.rs:108-118 | Over every run no cooldown ends earlier than it once was to |
| Cooldown.CooldownsComeFromDenials | crates/poller/src/main.rs:463-494 | Over every run each cooldown ends when it did at the start or as long after a recorded 403, 405 or 429 of its own as configured; none is made up or drawn out |
| Cooldown.PollSendsIff | crates/poller/src/main.rs:277-292 | A poll sends the next batch of a schedule exactly if it is due and its provider has no wait-time cooldown that ends after they are read |
| Cooldown.CoolingIsQuiet | crates/poller/src/main.rs:277-287 | While a provider's cooldown has not ended no poll sends it anything, whatever else happens |
| Cooldown.DeniedProviderIsLeftAlone | crates/poller/src/main.rs:463-494 | A recorded 403, 405 or 429 keeps wait batches from its provider for the full cooldown, through records and loads |
| Cooldown.OthersUnaffected | crates/poller/src/upstream.rs:460-462 | A denial from one provider changes no other provider's cooldown |
| Cooldown.SentIsDispatches | crates/poller/src/main.rs:279-292 | What the machine sends for a schedule between loads is what the schedule's own run of ticks dispatches |
| Rate.PollOfProvider | crates/poller/src/main.rs:279-292 | A poll sends a provider at most one batch, not before it is due, and puts it off by a spacing |
| Rate.RunKeepsRate | crates/poller/src/main.rs:270-324 | Over every run, loads included, a provider gets in any minute at most its allowance and one request more for each load between the first and last of them that replaces schedules |
| Rate.LoadedIsPaced | crates/poller/src/main.rs:229-268 | A load makes one schedule to a provider, all with the configured spacing |
| Rate.RequestsBetweenLoads | crates/poller/src/main.rs:255-264 | Requests fall in time between the loads that precede and follow them in the run |
| Rate.SpreadLoadsKeepRate | crates/poller/src/main.rs:270-324 | If of any three replacing loads the last is a gap after the first, loads cost a provider at most two requests for each gap a minute takes |
| Rate.LogIsRequests | crates/poller/src/main.rs:289-291 | The requests counted are those of the log of everything sent |
| MainLoop.RunPlausible | crates/poller/src/main.rs:95-165 | Every run of the loop is one the results above speak of |
| MainLoop.RunTimely | crates/poller/src/main.rs:97-135 | Each replacing load but perhaps the first waits for another attempt and success of the catalog, so of three such loads the last is a catalog interval and a retry interval after the first |
| MainLoop.RunSlow | crates/poller/src/main.rs:95-173 | Replacing loads are a sleep apart |
| MainLoop.RequestsSlow | crates/poller/src/main.rs:95-173 | Requests to a provider are a sleep apart |
| MainLoop.MainLoopKeepsRate | crates/poller/src/main.rs:95-173 | In every run of the loop and every configuration, a provider gets in any minute at most 60 requests, and at most its allowance and two requests for each of as many catalog intervals, retry intervals or pairs of sleeps as take a minute; two in all with a catalog interval of a minute or more |
| LoadsCost.RateKeptIff | crates/poller/src/main.rs:95-173 | All runs of the loop keep the configured number of requests a minute exactly if that is 60 or more, whatever the intervals |
| LoadsCost.LoadsCostTwo | crates/poller/src/main.rs:95-173 | A run of the loop that sends a provider eight requests in a minute at six a minute, as many as that bound allows |
| MainLoop.AttemptsApart | crates/poller/src/main.rs:100-108 | Attempts at the catalog are a retry interval apart, failed or not |
| MainLoop.PollsIff | crates/poller/src/main.rs:97-112 | A pass attempts the catalog exactly if a catalog interval has passed since its last success and a retry interval since the last attempt, and polls the notices exactly if theirs has |
| MainLoop.NoAttemptAfterSuccess | crates/poller/src/main.rs:97-105 | No attempt at the catalog comes within a catalog interval of its last success |
| MainLoop.NoticesApart | crates/poller/src/main.rs:109-114 | Polls of the notices are a notice interval apart |
| MainLoop.Service.PollCatalog | crates/poller/src/main.rs:96-125 | The timers and the recorded results of the loop's first half |
| MainLoop.Service.LoadIfWanted | crates/poller/src/main.rs:127-135 | Schedules are loaded when there are none or the catalog asked for it; a failed load changes nothing |
| MainLoop.Service.Pass | crates/poller/src/main.rs:95-165 | One pass of the loop is one step of the model and sends what the model says |
| MainLoop.Service.Serve | crates/poller/src/main.rs:95-174 | The loop run over any list of passes: in its log of what was sent no provider has more in a minute than that bound |
| Minify.TrimSpace | crates/site/build.rs:137-141 | Removes the final spaces, no more and no less |
| Minify.Trim | crates/site/build.rs:73 | `str::trim`: the stretch without the white space at both ends |
| Minify.MinifyCss | crates/site/build.rs:19-74 | The CSS loop prints the source's tokens, a space only between two identifier characters that were apart |
| Minify.MinifyJs | crates/site/build.rs:76-135 | The JavaScript loop does so with its own comments, quotes and spacing rules, which `MinifyTokens.SpacingKept` spells out |
| MinifySource.LexSplits | crates/site/build.rs:25-72 | The source is the tokens in order, verbatim, with white space or whole comments between them exactly where they count as apart; no comment starts at a token, and a string runs to its closing quote or the end |
| MinifyUnique.SplitsIff | crates/site/build.rs:25-72 | No other sequence of tokens splits the source so |
| MinifyTokens.MinifiedIsPrinted | crates/site/build.rs:73 | The final trim removes nothing but trailing space of a last, unclosed string |
| MinifyTokens.TrimTakesNothingIff | crates/site/build.rs:73 | It removes nothing at all exactly if the last token does not end in white space, as only an unclosed string can |
| MinifyTokens.TokensKept | crates/site/build.rs:76-135 | If no code `/` is separated only by space or comments from what makes it a comment, the minified text lexes to the source's tokens in order, apart exactly where a space is needed |
| MinifyTokens.TokensKeptIff | crates/site/build.rs:19-135 | It does exactly under that condition |
| MinifyTokens.CommentMade | crates/site/build.rs:76-135 | JavaScript `a / *b` becomes `a/*b`, of whose four tokens one is left |
| MinifyTokens.SpacingKept | crates/site/build.rs:150-168 | Under that condition any two neighbouring tokens come back, and are apart exactly if they were and their space matters: both are ASCII letters, digits, `_`, `$` or `-`; in JavaScript also if both are `+` or both `-`, or if such a character is followed by `[`, `(`, `{` or a string |
| MinifyTokens.MinifiedLength | crates/site/build.rs:19-135 | The minified text is exactly as long as its tokens and one space for each pair that must stay apart |
| MinifyTokens.IdentifiersKept | crates/site/build.rs:150-168 | Under that condition no two words are fused and none is split |
| MinifyTokens.IdempotentIff | crates/site/build.rs:19-135 | Minifying again changes nothing exactly if no code `/` is separated only by space or comments from what makes it a comment |
| MinifyTokens.SpaceBeforeDotIsLost | crates/site/build.rs:150-154 | A CSS space before a dot is lost |
| ManagedSet.Tables.Upsert | migrations/0002_managed_tracking.sql:75-122 | Inserts or updates exactly the wanted shops whose row differs, and counts them |
| ManagedSet.Tables.Deactivate | migrations/0002_managed_tracking.sql:124-161 | Deactivates exactly the active rows of shops no longer wanted, and counts them |
| ManagedSet.Tables.Refresh | migrations/0002_managed_tracking.sql:67-165 | Every row is as wanted; the result is the number of rows inserted or changed |
| ManagedSet.RefreshTwice | migrations/0002_managed_tracking.sql:67-165 | The second of two refreshes returns 0 |
| ManagedSet.RefreshIsIdempotent | migrations/0002_managed_tracking.sql:67-165 | A second refresh, at any time and in any row order, leaves the table as it is |
| ManagedSet.DesiredIff | migrations/0002_managed_tracking.sql:75-110 | A shop is wanted exactly if not disabled and overridden on, or not overridden off and within the radius of an enabled region; an override is the source |
| ManagedSet.ReasonIs | migrations/0002_managed_tracking.sql:75-110 | The reason: the labels of exactly the regions in range, one each, in order, joined by `, `; an override's note, or `manual override`; or both, if they differ, in order, joined by `; ` |
| ManagedSet.ActiveAreDesired | migrations/0002_managed_tracking.sql:111-161 | After a refresh the active shops are exactly the wanted ones, with their source and reason; rows of others keep theirs, and none is lost or made up |
| ManagedSet.UpdateTimes | migrations/0002_managed_tracking.sql:113-161 | Rows not counted keep their update time; counted ones get the refresh's |
| Slugs.SlugWellFormedIff | crates/poller/src/upstream.rs:979-1000 | Non-empty lower-case alphanumeric parts joined by single hyphens, exactly if the name has something to offer or the id has no sign |
| Slugs.SlugIs | crates/poller/src/upstream.rs:979-1000 | The slug is the name's stretches of ASCII letters and digits, each letter in lower case, joined by hyphens; without any, `shop-` and the id |
| Slugs.SlugOfSlug | crates/poller/src/upstream.rs:979-1000 | A well-formed slug is its own slug |
| Slugs.SlugifyIdempotentIff | crates/poller/src/upstream.rs:979-1000 | Idempotent under the same exact condition |
| Slugs.Catalog.Persist | crates/poller/src/persistence.rs:131-207 | All shops get their slugs, told from the table and the list, or the table stays as it was; they do exactly if no shop of the list is refused |
| Slugs.RefusedIff | crates/poller/src/persistence.rs:391-414 | A new shop is refused exactly if both its slug and the slug with its id are taken |
| Slugs.CommitsIff | crates/poller/src/persistence.rs:131-207 | Told from the table and the list: a catalog commits exactly if no new shop in it finds both its slugs held by the table or by new shops before it |
| Slugs.CommittedIs | crates/poller/src/persistence.rs:391-414 | What a committed catalog stores: no slug changes, and each new shop gets its own slug, or that with its id if the first is held by the table or by new shops before it |
| Slugs.UncontestedCommits | crates/poller/src/persistence.rs:391-414 | With ids without sign, it commits if no new shop's `suggested-id` is in the table or suggested by another new shop |
| Slugs.StoredAllKeeps | crates/poller/src/persistence.rs:139-166 | A catalog stores every shop, changes no slug and keeps slugs unique |
| Slugs.SlugsAreStable | crates/poller/src/persistence.rs:131-207 | Over any run of catalogs, failed ones included, no stored slug changes and no two shops share one |
| Slugs.FallbackCanBeTaken | crates/poller/src/persistence.rs:409-410 | Three shops that in one order are never stored, however often the catalog comes, and in another are |
| LocationPages.OrderIsLexicographic | crates/site/src/templates.rs:393-425 | From a known place nearest first and shops without coordinates on the globe last; then, and without a place, open shops, the shorter wait with an unknown one last, the name |
| LocationPages.CompareTextIs | crates/site/src/templates.rs:408-413 | Names compare by the first character that differs, a prefix first |
| LocationPages.OrderFits | crates/site/src/templates.rs:393-413 | The comparison is a weak order: antisymmetric, transitive, with transitive ties |
| LocationPages.SortLocations | crates/site/src/templates.rs:393-400 | Sorts the slice in place, stably, into that order |
| LocationPages.FirstPage | crates/site/src/templates.rs:239-261 | At most 100 rows of the sorted list, and the offset to go on from exactly if there are more |
| LocationPages.Stream | crates/site/src/templates.rs:311-324 | The sorted list from the offset on, each row with its place; nothing for an offset beyond the end |
| LocationPages.SortedAgree | crates/site/src/templates.rs:326-328 | Two handlers that sort one snapshot separately get the same list |
| LocationPages.PageThenStream | crates/site/src/routes.rs:118-127 | Page and stream together are the stable sort of the snapshot into that order, each location once and at its streamed index |
| StableSort.StableSortUnique | crates/site/src/templates.rs:393-400 | Any stable sort of a list is the model's |
| Encodings.SeriesRoundTrip | crates/site/src/templates.rs:530-536 | `parseSeries` (dashboard.js:44-53) reads back every series that `series_data` prints |
| Encodings.SvgDataUri | crates/site/src/templates.rs:550-577 | Percent- and UTF-8-decoding the body (section 2.1 of RFC 3986, section 3 of RFC 3629) gives the trimmed text; the body holds only upper-case escapes, brackets and path characters other than `&` and `'`; it is a path (section 3.3) exactly if the text has no bracket |
| Encodings.PercentRoundTrip | crates/site/src/templates.rs:552-575 | The same for every sequence of bytes |
| Encodings.Utf8RoundTrip | crates/site/src/templates.rs:552 | Decoding the UTF-8 bytes of a text gives the text back |
| Sessions.StepKeeps | crates/ssh-tui/src/main.rs:151-259 | Every event keeps the count of permits and the ownership of sessions |
| Sessions.PermitsAddUp | crates/ssh-tui/src/main.rs:151-259 | In every interleaving free permits, sessions and opens in flight make up the limit; with all handlers dropped and removals run, every permit is free |
| Sessions.RejectedIffFull | crates/ssh-tui/src/main.rs:156-159 | In every reachable state an open is turned away exactly if sessions and opens in flight use up the limit; otherwise it takes one permit for its channel |
| Sessions.GoneForGood | crates/ssh-tui/src/main.rs:251-259 | A dropped handler's session cannot come back after its removal has run |
| Sessions.SessionEnds | crates/ssh-tui/src/main.rs:199-259 | A close, exec or quit, a failed render or a removal takes the session out, frees its permit and touches no other session |
| Sessions.OnlyEndsRemove | crates/ssh-tui/src/main.rs:199-259 | Nothing else takes a session out |
| Sessions.OpenedIs | crates/ssh-tui/src/main.rs:160-170 | An open that gets the lock puts in the session of its channel and hands it the permit |
| Sessions.CancelledIs | crates/ssh-tui/src/main.rs:156-170 | An open that is cancelled gives its permit back |
| Sessions.DroppedIsRemoved | crates/ssh-tui/src/main.rs:251-259 | The removal that a dropped handler spawned can always run, and whenever it does the session is gone and stays away |
| Sessions.Shared.NewHandler | crates/ssh-tui/src/main.rs:127-133 | Every connection gets a number of its own |
| Sessions.Shared.TryAcquire | crates/ssh-tui/src/main.rs:156-159 | Takes a permit if there is one |
| Sessions.Shared.InsertSession | crates/ssh-tui/src/main.rs:160-170 | Puts the session in the map; one it replaces gives its permit back |
| Sessions.Shared.CancelOpen | crates/ssh-tui/src/main.rs:156-170 | An open cancelled while it waits for the lock gives its permit back |
| Sessions.Shared.RemoveSession | crates/ssh-tui/src/main.rs:199-248 | Removing a session gives its permit back; removing none changes nothing |
| Sessions.Shared.Drop | crates/ssh-tui/src/main.rs:251-255 | Dropping a handler only spawns a removal |
| Sessions.Shared.RunSpawned | crates/ssh-tui/src/main.rs:251-259 | The removal a dropped handler spawned |
| Sessions.Shared.Handle | crates/ssh-tui/src/main.rs:127-259 | The code of each event is the step of the model |
| Sessions.Shared.Serve | crates/ssh-tui/src/main.rs:127-259 | Any interleaving of that code keeps the sum of permits and the limit, and frees every permit when all handlers are gone |

## Left out

- HTTP routes and headers, OpenAPI, the SDK, the CLI and MCP servers, SQL execution and notifications, GeoIP, HTML and terminal rendering, axis scaling, nix and CI files: plumbing or one-branch facts.
- The publication of status updates at the end of the main loop's pass.
- MainLoop.MainLoopKeepsRate: the system clock and the monotonic clock are taken to be one that never runs backwards; a request counts as sent when its tick is.
- Upstream requests, JSON decoding and the distance formulas: any answer, any parser and any distance function.
- Time zones and daylight saving: the local day of an instant and the midnight of a day are parameters, with no assumption on them but in `ComparisonWindow.CountBound`, which speaks of eight days of 24 hours.
- Floating-point rounding: values, distances and clocks are reals, and spacing is exact.
- Integer widths of session ids, shop ids, counters and configured intervals, which nothing here brings near their limits.
- StreamedFinder.Stream.Run: which rows arrive, and when, is given; `LineReader` shows what a response makes of them.
- ListReorder.ReorderRows: a row and its list item are one thing here; children of the list that are no rows (the placeholder for an empty list) and a missing list are not modelled.
- Finder.CompareDistanceIsLexicographic: `localeCompare` is a given rank of names, and a row's own numbers are finite or missing.
- LineReader.Loader.LoadStream: byte decoding is not modelled; chunks arrive as text, with a replacement character when the response ends inside a character.
- Minify.MinifyJs: regular-expression literals and nested templates are outside the lexer that the script implements, and so outside the claim about tokens.
- ManagedSet.Tables.Refresh: the collation of text and the order in which the database visits rows are parameters; the statement is one atomic step.
- History.HistoryForSlug: samples later than now, which the query leaves out, do not exist when it runs; the seven-day range reads samples already averaged to a minute, by the same rule.
- Slugs.Catalog.Persist: only the slug column of the table; the other columns are overwritten by every catalog.
- Encodings.SeriesRoundTrip: `Number` is modelled on decimal integers and the empty text, which is all the printer makes.
- LocationPages.Stream: rows are not serialized; a row whose serialization fails would be left out of the stream.
- Sessions.StepKeeps: `channel_close` removes the handler's session whichever channel closes, as the code does; window size and search input of a session are not modelled.
