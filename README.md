# gogrowatt statistics, parsing and API errors in Dafny

This project models the computational core of gogrowatt, a Go client and
set of command-line tools for the Growatt solar-inverter API. It covers
three Go files.

- `internal/stats/stats.go` is the statistics engine.
  - It turns the 5-minute power samples of one day into 24 hourly buckets
    (`HourlyStats`: sample count, running minimum and maximum, sum, mean,
    sample standard deviation and the raw values).
  - It folds many days into per-hour cross-day aggregates
    (`AggregatedHourStats`: min and max over the raw readings; average,
    median and standard deviation of the per-day hourly means).
  - It finds the peak hour, estimates the total and daily-average energy,
    and flattens days into CSV rows.
- `pkg/growatt/plant.go` turns raw power readings into parsed samples
  (date, time of day, hour, minute). It also turns the API's JSON maps
  of readings into time-sorted slices.
- `pkg/growatt/errors.go` defines the Growatt API error type, its message
  format, the predefined errors, and the three classifiers
  (permission denied, plant not found, rate limited) that look through
  wrapped errors.

Modules:

- `Wrappers` (wrappers.dfy): `Option` and `Result`.
- `GoStrings` (gostrings.dfy): the Go standard-library behaviour the core
  relies on. This covers `strings.Split` and `strings.Contains`, byte-wise
  string `<`, `strconv.Atoi` (an optional sign, decimal digits, 64-bit range)
  and `%d`.
- `Sorting` (sorting.dfy): an in-place sort of an `array` under any strict
  weak order. It stands for `sort.Slice` and `sort.Float64s`. Go's sort
  routine is not specified beyond its result, so this is an insertion sort
  proved to give a sorted permutation.
- `Errors` (errors.dfy): errors.go.
- `Plant` (plant.dfy): `ParsePowerData` and the map-to-sorted-slice
  conversions of plant.go.
- `Stats` (stats.dfy): stats.go.
  - The structs the Go code updates in place are classes:
    `HourlyStats` (`AddValue`, `Finalize`), `DailyStats` (an array of 24
    nullable `HourlyStats`) and `MultiDayStats`.
  - Each class method is specified against a pure function of the old state
    (`Snapshot() == Added(old(Snapshot()), power)`), and the promised
    properties are lemmas about those functions.
  - The functions `DayOf` and `DaysOf` read a heap `DailyStats` as a value
    (`Day`). `AggregateDays` and `GetHourlyRows` are proved equal to pure
    functions of those values (`HoursOverDays`, `Peak`, `TotalEnergy`, `Rows`).

Numbers are mathematical reals. `math.MaxFloat64` is its exact value, and it
is used as the starting sentinel of the running minimum and maximum.
`math.Sqrt` is a parameter `sqrt`; lemmas that need it to be a square root
require `IsSqrt(sqrt)`.

## Model

| member | source | states |
|---|---|---|
| Stats.HourlyStats.constructor | internal/stats/stats.go:52-60 | a new bucket has the given hour, no samples, an empty value list, sum 0, and the sentinels Min = MaxFloat64 and Max = -MaxFloat64 |
| Stats.HourlyStats.AddValue | internal/stats/stats.go:62-74 | the new state is the old bucket with one more sample, the power added to the sum and appended to the values, and Min/Max replaced only when the power is strictly smaller/larger |
| Stats.HourlyStats.Finalize | internal/stats/stats.go:76-86 | the new state is the finalized old state: Min and Max become 0 for an empty bucket; otherwise Mean = Sum / Samples and StdDev is the sample standard deviation of the values around that mean |
| Stats.AccumulationInvariant | internal/stats/stats.go:53-74 | after adding any sequence of readings to a new bucket: Samples is their count, Values is exactly that sequence, Sum is their sum, Min/Max are their running minimum/maximum, and Mean and StdDev are still 0 |
| Stats.AccumulatedExtremes | internal/stats/stats.go:68-73 | for a non-empty run of finite readings, Min and Max are among the values, and every value lies between them |
| Stats.RunningMinIsMinimum | internal/stats/stats.go:68-70 | the running minimum is at most every value, and it is one of the values when there is one and all are finite |
| Stats.RunningMaxIsMaximum | internal/stats/stats.go:71-73 | the running maximum is at least every value, and it is one of the values when there is one and all are finite |
| Stats.FinalizedSummary | internal/stats/stats.go:77-86 | a finalized bucket over readings vs: an empty one reports all of Min, Max, Mean and StdDev as 0; otherwise Min/Max are the extremes, Mean = Sum(vs)/\|vs\| and StdDev = StdDevOf(vs, Mean) |
| Stats.FinalizedBounds | internal/stats/stats.go:77-86 | for a non-empty bucket, Min <= Mean <= Max and StdDev >= 0 |
| Stats.FinalizeIdempotent | internal/stats/stats.go:77-86 | finalizing twice gives the same bucket as finalizing once |
| Stats.MeanBetweenExtremes | internal/stats/stats.go:84 | the mean of a non-empty sequence lies between its running minimum and maximum |
| Stats.HourlyStatsExample | internal/stats/stats_test.go:97-131 | hour 12 with readings 100..500 gives 5 samples, Min 100, Max 500, Sum 1500 and Mean 300 |
| Stats.HourlyStatsExampleSpread | internal/stats/stats_test.go:133-136 | the same readings give a non-zero standard deviation |
| Stats.EmptyHourExample | internal/stats/stats_test.go:139-150 | finalizing an empty bucket gives Min 0, Max 0 and no samples |
| Stats.CalculateStdDev | internal/stats/stats.go:88-102 | the result equals StdDevOf: 0 for fewer than two values, otherwise sqrt(sum of squared deviations / (n-1)) |
| Stats.SumSquaresZero | internal/stats/stats.go:94-98 | the sum of squared deviations is non-negative, and it is zero exactly when every value equals the mean |
| Stats.StdDevNonNegative | internal/stats/stats.go:88-102 | the standard deviation is never negative |
| Stats.StdDevZeroIffConstant | internal/stats/stats.go:88-102 | it is 0 for fewer than two values; from two values on, it is 0 exactly when every value equals the mean |
| Stats.StdDevExample | internal/stats/stats_test.go:36-41 | for 2,4,4,4,5,5,7,9 around mean 5, the squared result is 32/7 and the result lies in (2.138, 2.139) |
| Stats.SortedRealsAscending | internal/stats/stats.go:110-112 | the sorted copy is in ascending order (and, by its own contract, a permutation of the input) |
| Stats.AscendingUnique | internal/stats/stats.go:112 | two ascending arrangements of one multiset are equal, so the sorted copy does not depend on the sort routine |
| Stats.CalculateMedian | internal/stats/stats.go:104-119 | copying into an array, sorting in place and taking the middle gives Median(values), and the caller's values are not changed |
| Stats.MedianOfArrangement | internal/stats/stats.go:110-118 | the median of any values is the middle of any ascending arrangement of them |
| Stats.MedianPermutationInvariant | internal/stats/stats.go:110-112 | the median depends only on the multiset of values, not on their order |
| Stats.MedianOddCount | internal/stats/stats.go:118 | for an odd number of values, the median is the exact middle one |
| Stats.MedianEvenCount | internal/stats/stats.go:115-116 | for an even non-zero number of values, the median is the mean of the two middle ones |
| Stats.MedianBounds | internal/stats/stats.go:105-119 | a non-empty input has a value at most the median and a value at least the median |
| Stats.MedianOfNone | internal/stats/stats.go:106-108 | the median of no values is 0 |
| Stats.MedianOfOne | internal/stats/stats_test.go:65-69 | the median of the single value 5 is 5 |
| Stats.DailyStats.constructor | internal/stats/stats.go:127-129 | a new day has the given date and 24 empty (nil) hour slots |
| Stats.NewDay | internal/stats/stats.go:131-134 | every one of the 24 slots holds its own fresh, empty bucket for that hour |
| Stats.AddSamples | internal/stats/stats.go:136-141 | afterwards, each hour's bucket is the new bucket with exactly that hour's readings added, in input order; samples whose hour is outside 0..23 are dropped |
| Stats.FinalizeSlots | internal/stats/stats.go:143-146 | afterwards, each bucket is the finalized summary of its hour's readings |
| Stats.AggregateToHourly | internal/stats/stats.go:121-149 | null exactly for empty input; otherwise a fresh day dated by the first sample, whose 24 distinct, fresh slots hold HourSummary(h, readings of hour h) |
| Stats.PowersAtAppend | internal/stats/stats.go:137-141 | bucketing distributes over concatenation: an hour's readings from a + b are those from a followed by those from b |
| Stats.PowersAtFromHour | internal/stats/stats.go:137-141 | an hour never gets more readings than there are samples, and each reading it gets comes from a sample of that hour with that power |
| Stats.HoursPartitionSamples | internal/stats/stats.go:137-141 | the 24 hours together receive exactly the samples whose hour is in 0..23 |
| Stats.MultiDayStats.constructor | internal/stats/stats.go:157-161 | the result object holds exactly the given dates, day count, hourly aggregates, totals and peak |
| Stats.NewAggregates | internal/stats/stats.go:163-171 | each hour h gets an empty aggregate with the sentinels Min = MaxFloat64 and Max = -MaxFloat64 |
| Stats.AccumulateDays | internal/stats/stats.go:173-195 | the aggregates equal FoldDays over the days for every hour: nil and zero-sample hours are skipped; Min/Max are tightened; each contributing day appends its hourly mean |
| Stats.FoldDaysTrace | internal/stats/stats.go:173-195 | SampleDays counts the contributing days, and Values lists their hourly means in day order |
| Stats.NoSampleDaysIffNoContribution | internal/stats/stats.go:177-179 | an hour has no sample days exactly when no day has a non-nil bucket with samples for it |
| Stats.FoldDaysBounds | internal/stats/stats.go:185-190 | the cross-day Min/Max keep their sentinels when no day contributes; otherwise they bound every contributing day's Min/Max |
| Stats.FoldDaysExtremesAttained | internal/stats/stats.go:185-190 | when some day contributes and the bucket extremes are finite, the cross-day Min is some contributing day's Min, and the Max is some contributing day's Max |
| Stats.FinalizeHour | internal/stats/stats.go:199-215 | an hour with no sample days gets Min = Max = 0 and zero statistics; otherwise Average is the sum loop over Values divided by their count, with the Median and sample StdDev of Values |
| Stats.SumOf | internal/stats/stats.go:209-212 | the summing loop gives Sum(values) |
| Stats.HourOverDaysSummary | internal/stats/stats.go:197-216 | a finalized hour is all zeros exactly when no day contributed; otherwise Min and Max are the raw extremes, and Average, Median and StdDev are taken over the per-day means |
| Stats.FinalizeHours | internal/stats/stats.go:197-222 | the hourly aggregates are the finalized ones, and (PeakHour, PeakPowerAvg) is the forward strict-greater scan Peak over their averages |
| Stats.PeakIsFirstMaximum | internal/stats/stats.go:198-221 | the peak value is >= 0 and at least every hour's average. If it is positive, it is the average of the peak hour, and every earlier hour is strictly lower (lowest hour wins ties). If it is 0, the peak hour is 0 |
| Stats.PeakNonNegative | internal/stats/stats.go:198 | the peak average never drops below its starting value 0 |
| Stats.EstimateEnergy | internal/stats/stats.go:224-235 | the total is TotalEnergy: for each day, the sum over non-nil slots of Mean / 1000 |
| Stats.TotalEnergyAppend | internal/stats/stats.go:226-235 | total energy is additive over concatenated day ranges |
| Stats.SlotEnergyOfEmptyDay | internal/stats/stats.go:228-233 | a day with only nil slots contributes no energy |
| Stats.SlotEnergyNonNegative | internal/stats/stats.go:228-233 | a day whose buckets have non-negative means contributes non-negative energy |
| Stats.AggregateDays | internal/stats/stats.go:151-242 | null exactly for no days; otherwise start/end date from the first/last day, DaysAnalyzed = \|days\|, ByHour = HoursOverDays, the peak = Peak of the hourly averages, TotalProduction = TotalEnergy and DailyAverage = TotalProduction / \|days\|; the days are only read |
| Stats.GetHourlyRows | internal/stats/stats.go:254-276 | the rows equal Rows of the days: day by day, hour by hour, one row per non-nil slot; the days are only read |
| Stats.SlotRowsFaithful | internal/stats/stats.go:258-272 | each row of a day comes from a non-nil slot, in ascending hour order. It carries the day's date, the slot's hour, and that bucket's Min, Max, Mean (as Avg) and Samples. Every non-nil slot yields exactly one row |
| Stats.RowsAppend | internal/stats/stats.go:258-273 | the rows of two concatenated day ranges are the rows of the first followed by the rows of the second |
| Stats.RowsOfOneDay | internal/stats/stats.go:259-272 | the rows of a single day are its slot rows |
| Stats.SlotRowsAllSet | internal/stats/stats.go:259-272 | when every slot of a day is non-nil, the day yields one row per slot, and row h is built from the bucket of hour h |
| Stats.RowsCount | internal/stats/stats.go:255-276 | days whose 24 slots are all non-nil yield exactly 24 rows per day |
| Stats.FullDayRows | internal/stats/stats_test.go:305-349 | a single day with all 24 buckets set gives 24 rows, and row h carries hour h with that bucket's Samples, Min, Max and Mean |
| Sorting.SortInPlace | internal/stats/stats.go:112 | after the in-place sort, the array is sorted under the strict weak order and is a permutation of its old contents |
| Plant.FormatDateParses | pkg/growatt/plant.go:157-160 | the "2006-01-02" text of any calendar date with a year in 0..9999 is a date IsValidDate accepts, and its year, month and day fields read back as that date |
| Plant.ValidDateFormatsBack | pkg/growatt/plant.go:157-160 | conversely, every text IsValidDate accepts is the "2006-01-02" formatting of its own year, month and day, so the date string determines the parsed date and the reverse |
| Plant.ParsePowerData | pkg/growatt/plant.go:155-199 | fails exactly when the date is not a valid YYYY-MM-DD calendar date, with an error naming the date; otherwise returns ParsedPoints, which parses each reading in order and skips the unparsable ones |
| Plant.ParsedIsSubsequence | pkg/growatt/plant.go:162-196 | there are no more parsed points than readings; each is what the reading at its source index parses to, the source indices strictly increase, and each point keeps the date and the power of its reading |
| Plant.ParsedIsComplete | pkg/growatt/plant.go:163-196 | every reading that parses is kept: its index is among the source indices, so only unparsable readings are dropped |
| Plant.ParsedCount | pkg/growatt/plant.go:174-187 | all readings kept when every one parses, none when none does |
| Plant.ParsePointKeeps | pkg/growatt/plant.go:174-195 | a parsed point carries the date, the reading's power and the time part of the reading's time, and its hour and minute are what Atoi gives for the first two colon fields of that time part |
| Plant.TimePartShape | pkg/growatt/plant.go:166-172 | a time text with exactly one space is a space-free date part, a space and a space-free time part, which is what TimePart returns |
| Plant.TimePartBySpaces | pkg/growatt/plant.go:166-172 | a time with exactly one space is cut to the piece after it; any other time is kept whole |
| Plant.ParsePointFromFields | pkg/growatt/plant.go:174-195 | when the time part has two colon fields that Atoi accepts, the reading parses to those hour and minute values |
| Plant.ParsePointRoundTrip | pkg/growatt/plant.go:166-195 | a time "H:M" built from any 64-bit hour and minute (optionally with more ":..." and a "date " prefix) parses back to that hour and minute, with Time the "H:M..." part |
| Plant.ParsePointClock | pkg/growatt/plant.go:174-195 | a two-digit "HH:MM" time parses to the decimal values of its digits |
| Plant.ParsePointLeadingZeros | pkg/growatt/plant_test.go:220-257 | "06:05" parses to hour 6, minute 5 |
| Plant.ParsePointNoon | pkg/growatt/plant_test.go:220-257 | "12:30" parses to hour 12, minute 30 |
| Plant.ParsePointHourTooLarge | pkg/growatt/plant.go:179-195 | the hour is not range-checked: "25:00" parses to hour 25 |
| Plant.ParsePointNegativeHour | pkg/growatt/plant.go:179-195 | Atoi accepts a sign: "-1:5" parses to hour -1, minute 5 |
| Plant.ParsePointNoColon | pkg/growatt/plant.go:174-177 | a time with no colon (and no space) is skipped |
| Plant.CollectEntries | pkg/growatt/plant.go:72-78 | the collected pairs are exactly the map's entries, each listed once, in an order the model leaves open |
| Plant.SortedEntries | pkg/growatt/plant.go:72-83 | the result lists exactly the map's entries, in strictly ascending key order |
| Plant.PowerPoints | pkg/growatt/plant.go:71-83 | one point per map entry, each with the power stored under its time, every time present, sorted by time |
| Plant.EnergyPoints | pkg/growatt/plant.go:135-147 | one point per map entry, each with the energy stored under its date, every date present, sorted by date |
| Plant.ByKeyIsStrictWeakOrder | pkg/growatt/plant.go:81-83 | comparing entries by key with Go's string < is a strict weak order, which is what the sort requires |
| GoStrings.LexLessIrreflexive | pkg/growatt/plant.go:82 | no string is less than itself under Go's byte-wise < |
| GoStrings.LexLessTransitive | pkg/growatt/plant.go:82 | Go's string < is transitive |
| GoStrings.LexLessTotal | pkg/growatt/plant.go:82 | two different strings are always ordered one way or the other |
| GoStrings.SplitLength | pkg/growatt/plant.go:168-175 | strings.Split yields one more piece than there are separators |
| GoStrings.SplitPiecesFree | pkg/growatt/plant.go:168-175 | no piece of a split contains the separator |
| GoStrings.JoinSplit | pkg/growatt/plant.go:168-175 | joining the pieces with the separator gives back the string |
| GoStrings.AtoiAccepts | pkg/growatt/plant.go:179-187 | an optional "+" or "-" followed by one or more decimal digits whose signed value fits in an int64 parses to that value |
| GoStrings.AtoiShape | pkg/growatt/plant.go:179-187 | conversely, every text Atoi accepts is such an optional sign and a non-empty run of digits, and the result is their signed value |
| GoStrings.AtoiItoa | pkg/growatt/plant.go:179-187 | Atoi reads back the decimal text of every 64-bit integer |
| GoStrings.NatDigitsValue | pkg/growatt/errors.go:16 | the decimal text of n is all digits and denotes n |
| Errors.NewAPIError | pkg/growatt/errors.go:62-65 | the error carries exactly the given code and message |
| Errors.ApiErrorStringExample | pkg/growatt/errors_test.go:8-23 | code 10011 renders as "growatt api error 10011: " followed by the message |
| Errors.ErrorStringAfterPrefix | pkg/growatt/errors.go:15-17 | APIError.Error() is the fixed prefix "growatt api error ", then the decimal code, a colon, a space and the message |
| Errors.PlantErrorStringExample | pkg/growatt/errors.go:15-17 | code 10012 renders as "growatt api error 10012: " followed by the message |
| Errors.PredefinedErrorTexts | pkg/growatt/errors.go:19-25 | the four predefined errors read "growatt api error 10011: permission denied" / "…10011: invalid token" / "…10012: plant not found" / "…10012: frequently access (rate limited)", each being the prefix, its code and its message |
| Errors.ErrorStringInjective | pkg/growatt/errors.go:15-17 | two API errors with the same text have the same code and message |
| Errors.ItoaInjective | pkg/growatt/errors.go:16 | distinct codes print differently |
| Errors.AsApiIsFirstInChain | pkg/growatt/errors.go:36-37 | errors.As finds an API error exactly when the wrap chain holds one, and what it finds is the first one in the chain |
| Errors.FirstApiAtIsAsApi | pkg/growatt/errors.go:36-37 | if position k of the unwrap chain holds an APIError and no earlier position does, errors.As yields the APIError at k |
| Errors.FirstApiFound | pkg/growatt/errors.go:36-37 | errors.As succeeds exactly when the chain has a first APIError position, and then yields the APIError there |
| Errors.PermissionDeniedByChain | pkg/growatt/errors.go:34-41 | IsPermissionDenied holds exactly when the first APIError on the unwrap chain has code 10011 |
| Errors.PlantNotFoundByChain | pkg/growatt/errors.go:43-50 | IsPlantNotFound holds exactly when the first APIError on the unwrap chain has code 10012 and its message does not contain "frequently" |
| Errors.RateLimitedByChain | pkg/growatt/errors.go:52-60 | IsRateLimited holds exactly when the first APIError on the unwrap chain has code 10012 and its message contains "frequently" (the exact text "error_frequently_access" contains it too) |
| Errors.WrappingPreservesClass | pkg/growatt/errors.go:34-60 | wrapping an error with context changes none of the three classifications |
| Errors.NonApiErrorsUnclassified | pkg/growatt/errors.go:34-60 | an error whose chain holds no API error is none of permission denied, plant not found or rate limited |
| Errors.PermissionDeniedExcludesOthers | pkg/growatt/errors.go:35-60 | a permission-denied error (code 10011) is never plant-not-found or rate-limited |
| Errors.PlantNotFoundXorRateLimited | pkg/growatt/errors.go:44-60 | no error is both plant-not-found and rate-limited, and an API error with code 10012 is exactly one of them |
| Errors.PredefinedErrorsClassify | pkg/growatt/errors.go:19-60 | ErrPermissionDenied and ErrInvalidToken are permission denied; ErrPlantNotFound is plant-not-found and not rate-limited; ErrFrequentAccess is rate-limited and not plant-not-found |

## Left out

- Floating point: all numbers are reals. Rounding, overflow to infinity and NaN are not modelled, and sums and means are exact.
- `math.Sqrt` is the parameter `sqrt`. Properties of the standard deviation other than its defining formula assume `IsSqrt(sqrt)`.
- Stats.StdDevExample: states the bounds 2.138 < r < 2.139 (and r² = 32/7) instead of the test's tolerance of 0.01 around 2.138.
- Stats.AccumulatedExtremes: proved only for readings within ±MaxFloat64. Readings beyond the float range would leave the sentinel in place, which cannot happen with real float64 values.
- Stats.FoldDaysExtremesAttained: same restriction, on the contributing buckets' Min and Max.
- Stats.AggregateToHourly: the date is the first sample's date string. `time.Time.Format("2006-01-02")` is not modelled; the string is the same one that `ParsePowerData` validated.
- Stats.AggregateToHourly: the three loops are the phase methods `NewDay`, `AddSamples` and `FinalizeSlots`.
- Stats.AggregateDays: the loops are the phase methods `NewAggregates`, `AccumulateDays`, `FinalizeHours` (with `FinalizeHour` and `SumOf`) and `EstimateEnergy`.
- Stats.AggregateDays: the energy is summed before the hours are finalized, not after. The days are only read, so the order cannot be observed.
- Stats.AggregateDays: `MultiDayStats` is built once, at the end, from the computed fields.
- Stats.AggregateDays: the `DaysAnalyzed > 0` guard is always true once the empty case has returned, so `DailyAverage` is always the quotient.
- `AggregatedHourStats` values are held by value in a sequence and copied into a fresh `ByHour` array, not as 24 separately allocated `*AggregatedHourStats`. In the Go code no two of them are ever shared or aliased.
- `Samples` and `SampleDays` are `nat`. They only ever count up from 0; Go's `int` overflow is not modelled.
- Sorting.SortInPlace: an insertion sort stands for Go's `sort.Slice` / `sort.Float64s`. Only their result is specified: a sorted permutation, unique for a strict total order such as string or real `<`.
- Plant.ParsePowerData: `time.Parse("2006-01-02", …)` is the predicate `IsValidDate` (four-digit year, two-digit month 1..12, two-digit day within the month, Gregorian leap years). The parsed `time.Time` is kept as the date string, which `FormatDateParses` and `ValidDateFormatsBack` show to be in one-to-one correspondence with the calendar dates of years 0..9999, and the wrapped error is `DateError(date)` without the `fmt.Errorf` text.
- Plant.PowerPoints / Plant.EnergyPoints: Go's map iteration order is unspecified. The model collects the entries in an order it leaves open; sorting then makes the result independent of it.
- The HTTP requests, JSON decoding (`parseResponse`, `FlexString`), the rest of `GetPlantPower`, `GetPlantEnergy` and `GetPlantPowerRange`, and client.go, device.go, types.go and the command-line programs are not part of this model.
- Errors: Go's `error` interface and `errors.As` are the `Error` datatype, whose `Wrapped` case stands for `fmt.Errorf("…: %w", err)`. The context text of a wrapped error is kept, but its formatting is not modelled.
- Errors: the client errors `ErrNoToken`, `ErrInvalidDate` and `ErrEmptyResponse` (errors.go:28-32) are plain `errors.New` values. They are modelled only as the `Other` case, which no classifier accepts.
- Errors.IsRateLimited: the `== "error_frequently_access"` test is modelled as written. It is subsumed by the `Contains(…, "frequently")` test.
- The median and parse tests' concrete inputs are stated in general form (ascending odd/even-length sequences, any two-digit clock time), with the literal times as parameters.
