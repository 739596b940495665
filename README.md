# Villa availability and quotes, modelled in Dafny

This project models the villa service of a rental back end: `src/services/villa.service.js`. The service answers two questions over a calendar. The calendar holds one document per villa and day, with that day's rate and availability.

- **fetchAvailableVillas** lists villas. With a check-in and a check-out date it lists the villas bookable for every night of the stay. Each gets its subtotal and its average nightly price. Without both dates it lists every villa at its base price. Either list can be filtered by location. The list is sorted by a numeric field in either direction, then cut into one page.
- **fetchVillaQuote** prices one villa for a stay, night by night. A night with a calendar row takes that row's rate and flag. A night without one takes the villa's base price and counts as available. When every night is available, 18% GST is added. Otherwise the subtotal, GST and total are all 0, while the breakdown still shows each night.

The repositories become sequences passed in: the villa collection (`seq<Villa>`) and the calendar collection (`seq<CalendarRow>`). Each query becomes a filter over them, with the same half-open date range `[check_in, check_out)`. Dates are whole day numbers. A supplied date is a `DateArg` that either parses or does not. An absent or empty query value is `None`.

The service's loops are methods proved against specification functions:

| method | loop in the service | specification function |
|---|---|---|
| `Aggregation.GroupByVilla` | the tally per villa | `TallyOf` |
| `Sorting.SortInPlace` | `data.sort` | `StableSort` |
| `Quoting.IndexByDate` | `calendarMap` | `LastOn` |
| `Quoting.FetchVillaQuote` | the nightly loop | `QuoteOf` |
| `Listing.FetchAvailableVillas` | the whole listing | `AvailableVillas` |

The lemmas then prove what the service promises about those functions.

Some properties need the calendar's unique index on (villa, date), at `src/models/VillaCalendar.js:38-41`. Those lemmas take it as a precondition (`UniquePerVillaAndDate`). The operations themselves do not need it. Without it, the quote's index keeps the last row of each date, exactly as the service's map does. Lemmas that identify a villa by its id also assume distinct villa ids (`DistinctIds`), which the primary key guarantees.

Files and modules:

- `domain.dfy` (`Domain`): villas, calendar rows, date arguments, errors, the stay check both operations share, and the repository filters.
- `pricing.dfy` (`Pricing`): the two roundings, the average nightly price and the GST.
- `aggregation.dfy` (`Aggregation`): the grouping loop of the dated listing and its selection test.
- `sorting.dfy` (`Sorting`): the comparator and the stable in-place sort.
- `listing.dfy` (`Listing`): fetchAvailableVillas.
- `quote.dfy` (`Quoting`): fetchVillaQuote.
- `consistency.dfy` (`Consistency`): how a listed villa's summary agrees with its quote.

Three behaviours of the code a reader might not expect:

- The quote checks the dates before it looks up the villa. A bad stay therefore reports a date error, never "villa_id not found".
- Only the exact string `"desc"` reverses the order.
- `page` and `limit` are not checked to be positive. A page of 0 yields an empty page, and so does a limit of 0.

## Model

| member | source | states |
|---|---|---|
| Domain.MessagesDistinct | src/services/villa.service.js:139-159 | The four errors throw four different messages: two errors share a message exactly when they are the same error. |
| Domain.CheckStay | src/services/villa.service.js:27-34 | The stay is refused with "Invalid date format" when either date does not parse. It is refused with "check_out must be after check_in" when the day difference is not positive. Otherwise the result is that positive number of nights, and check-in plus nights is check-out. |
| Domain.RowsInRange | src/services/villa.service.js:37-42 | The listing's calendar query returns exactly the rows dated in `[check_in, check_out)`. |
| Domain.FindById | src/services/villa.service.js:156-159 | The lookup finds a villa of the collection with the requested id. When it finds none, no villa has that id. |
| Domain.FilterKeepsUnique | src/models/VillaCalendar.js:38-41 | Both calendar queries keep the uniqueness of (villa, date) that the index guarantees. |
| Aggregation.GroupByVilla | src/services/villa.service.js:53-70 | The grouping loop, which starts a villa's tally at 0 nights, subtotal 0 and available, ends with the tallies of `TallyOf` over all rows in the stay. |
| Aggregation.TallyOfCounts | src/services/villa.service.js:53-70 | A villa has a tally exactly when it has a row in the stay. Its tally counts its rows and sums their rates. It is available exactly when none of its rows is unavailable. |
| Aggregation.BookableIffAvailableEveryNight | src/services/villa.service.js:72-75 | With unique (villa, date) rows, a villa passes the test `isAvailable && nights === nights` exactly when every night of the stay has an available row for it. Both directions are proved, so a missing night excludes the villa. |
| Pricing.AveragePerNight | src/services/villa.service.js:91 | The average is the subtotal divided by the nights, rounded half up. It is stated as bounds, `r*n <= s + n/2 < (r+1)*n`. |
| Pricing.AverageExample | src/services/villa.service.js:91 | 600 over 3 nights averages 200, 601 over 2 averages 301, and 600 over 7 averages 86. |
| Pricing.Gst | src/services/villa.service.js:196-197 | GST is 18% of the subtotal, rounded half up, stated as bounds around `0.18 * subtotal`. |
| Pricing.GstExample | src/services/villa.service.js:196-197 | GST on 600 is 108, and GST on 25 is 5 (4.5 rounds up). |
| Sorting.StableSortCorrect | src/services/villa.service.js:117-120 | The sorted data is a permutation of the input. It is ordered by the comparator, with keys `x[sort] \|\| 0`: non-decreasing for ascending, non-increasing for descending. Summaries with equal keys keep their prior relative order. |
| Sorting.InsertNext | src/services/villa.service.js:117-120 | One pass of the in-place sort inserts the next element into the sorted prefix, after the last element it need not precede. The rest of the array is untouched. |
| Sorting.SortInPlace | src/services/villa.service.js:117-120 | Sorting the data array in place leaves it equal to `StableSort` of its old contents. |
| Listing.Paginate | src/services/villa.service.js:125-126 | The page never holds more than `limit` items. Page 0 is empty. From page 1 on, the page is the window of the data starting at `(page - 1) * limit`, clamped to the data's end. |
| Listing.SortAndPaginate | src/services/villa.service.js:117-134 | Sorting the data in an array and slicing it gives meta `(page, limit, total)` and the page of the stable sort. |
| Listing.FetchAvailableVillas | src/services/villa.service.js:5-136 | The listing's result (the error, or meta and page) equals `AvailableVillas` over the two collections. |
| Listing.ListingRejectsBadDates | src/services/villa.service.js:23-34 | With both dates supplied, a date that does not parse, or a check-out not after check-in, fails with its own error, whatever the collections hold. The listing never fails with "villa_id not found". |
| Listing.NoRowsInStayEmptyListing | src/services/villa.service.js:43-49 | A valid stay with no calendar row in range gives an empty page and a total of 0. |
| Listing.DatedListingByTally | src/services/villa.service.js:72-81 | A villa is in the dated listing exactly when its tally passes the selection test and its location matches. |
| Listing.DatedListingMembership | src/services/villa.service.js:72-93 | With unique (villa, date) rows, a villa is in the dated listing exactly when every night has an available row for it and it is at the requested location (an empty location matches all). |
| Listing.DatedListingSummaries | src/services/villa.service.js:83-93 | Every dated summary carries the id, name and location of a villa of the collection. It reports the requested nights and a subtotal equal to the sum of the villa's rates over the stay. Its average is that sum over the nights, rounded half up. |
| Listing.UndatedListing | src/services/villa.service.js:99-111 | Without both dates, exactly the villas at the location are listed. Every listed summary is the summary of a villa at the location, and every villa at the location has one. Each has null nights and subtotal, its own name and location, and its base price (0 when absent) as the average. |
| Listing.DefaultQueryListing | src/services/villa.service.js:5-13 | With the defaults (page 1, limit 10, no dates, no location), meta is page 1, limit 10 and a total of every villa in the collection. The page is exactly the first `min(10, villas)` summaries of the sorted listing, and each is the summary of a villa of the collection. |
| Listing.ListingOrder | src/services/villa.service.js:117-120 | The listed data is a permutation of the pre-sort data. It is ordered by the sort key, descending for "desc" and ascending otherwise. Equal keys keep their prior order. |
| Listing.ListingPage | src/services/villa.service.js:125-134 | meta echoes page and limit and counts the whole listed data. The page holds at most `limit` items. From page 1 on, it has the clamped window length and holds exactly the listed items from `(page - 1) * limit` on. Page 0 is empty. |
| Quoting.QuoteRows | src/services/villa.service.js:161-167 | The quote's calendar query returns exactly the villa's rows dated in the stay. |
| Quoting.LastOn | src/services/villa.service.js:169-172 | The entry for a date is a row of that date when there is one, and is absent exactly when no row has that date. |
| Quoting.IndexByDate | src/services/villa.service.js:169-172 | The date index holds a date exactly when some row has it, and then holds the last such row. |
| Quoting.Subtotal | src/services/villa.service.js:174-187 | The running subtotal is a number (not NaN) exactly when every night has a rate. |
| Quoting.FetchVillaQuote | src/services/villa.service.js:139-216 | The quote's result (the error, or the quote with its breakdown, availability and totals) equals `QuoteOf` over the two collections. |
| Quoting.QuoteRejectsBadDates | src/services/villa.service.js:140-159 | Checks run in the service's order: a missing date, then an unparsable date, then a non-positive stay. "villa_id not found" comes exactly when the dates pass and no villa has the id. |
| Quoting.NightsFromCalendar | src/services/villa.service.js:178-193 | With unique rows, night i is day `check_in + i`. A night with a row takes that row's rate and flag. A night without one takes the base price and is available. |
| Quoting.QuoteBreakdown | src/services/villa.service.js:174-194 | The quote has `nights` entries, in day order from check-in, each priced and flagged as in `NightsFromCalendar`. |
| Quoting.QuoteTotals | src/services/villa.service.js:196-214 | The quote is available exactly when every night is. GST is reported as 18%. When available, the subtotal is the running subtotal, GST is `Gst` of it and the total is their sum. Otherwise subtotal, GST and total are all 0. |
| Quoting.QuoteSubtotalFromCalendar | src/services/villa.service.js:174-187 | With unique rows and a row on every night, the running subtotal is the sum of the rates of the villa's rows in the stay. |
| Quoting.FullyAvailableQuoteExample | src/services/villa.service.js:174-214 | Three available nights at 100, 200 and 300 quote as available, with subtotal 600, GST 108 and total 708. |
| Quoting.UnavailableNightQuoteExample | src/services/villa.service.js:174-214 | One unavailable night makes the quote unavailable with all totals 0. The breakdown still shows that night's rate and flag, and a night without a row shows the base price. |
| Consistency.StayRowsAgree | src/services/villa.service.js:161-167 | A villa's rows within the listing's calendar query are exactly the quote's calendar query for that villa. |
| Consistency.AvailableEveryNightQuotePrice | src/services/villa.service.js:161-214 | With unique rows, a villa with an available row on every night gets an available quote. It counts the nights of the stay. Its subtotal is the sum of the villa's rates in the stay, and its total adds the GST on that sum. |
| Consistency.ListedSummaryFacts | src/services/villa.service.js:53-93 | With unique rows and distinct ids, a villa in the dated listing exists in the collection and has an available row on every night. Its summary reports the stay's nights and the sum of its rates in the stay. |
| Consistency.ListedVillaQuote | src/services/villa.service.js:53-214 | With unique rows and distinct ids, every villa in the dated listing gets a quote for the same stay. The quote is available and counts the same nights. The listed subtotal and the quote's subtotal are both the sum of the villa's rates in the stay. The quote's total adds the GST on that sum. |

## Left out

- Date parsing, validity, time zones and `YYYY-MM-DD` formatting (dayjs): dates are whole day numbers, and "does not parse" is a flag on the argument. The echoed `check_in`/`check_out` are these arguments, not the original strings.
- The database: each query is a filter over a sequence. The dated listing's villa query returns villas in collection order, not in the order of the id list. An id that is not a valid ObjectId (a cast error in `findById`) is not modelled, because ids are naturals.
- The HTTP layer (`src/controllers/villa.controller.js`, `src/routes/villa.routes.js`, `src/app.js`) maps thrown errors to HTTP 400. It is plumbing. The seeding script `src/seed/seed.js` writes random data and is not part of this model.
- Pricing.AveragePerNight: it rounds the exact quotient half up, while JavaScript rounds a floating-point quotient. The two agree whenever subtotal and nights stay far below 2^52, where the float quotient is exact enough not to cross a half.
- Pricing.Gst: it takes exactly 18/100 of the subtotal and rounds half up, while JavaScript multiplies by the float 0.18. Where 18% of a whole subtotal is exactly a half, the float product is that same half, so both round up alike. The two can differ only for very large subtotals, from about 10^15 on, where the float product can land on the other side of a half.
- Quoting.QuoteTotals: `gst_rate` is reported as the whole percentage 18, not the float 0.18.
- Rates, base prices and subtotals are whole numbers. The calendar schema (`src/models/VillaCalendar.js:23-27`) accepts any non-negative number as a rate. Fractional rates, the floating-point sums they give at `src/services/villa.service.js:69` and `:187`, and the rounding of those sums at lines 91 and 197 are not modelled.
- NaN: an undefined base price makes a night's rate undefined. The JavaScript subtotal then becomes NaN. That is modelled only as an absent amount (`None`) that every later sum and GST keeps absent.
- The villa schema (`src/models/Villa.js:7-19`) declares no `base_price` path, so a stored villa normally has none. The base price is an optional input here, which covers both the schema as written and a villa that does carry a price.
- Sorting on a field other than nights, subtotal and avg_price_per_night is modelled as a single key, 0, so the sort keeps the order. That is exact for a field no summary carries, and for name or location when no value looks like a number: the subtraction then gives NaN, which the sort treats as 0.
- Sorting on name or location when some values are numeric strings is not modelled. The subtraction coerces them, so "10" and "9" sort as numbers. A mix of numeric and non-numeric values gives an inconsistent comparator, whose order the engine chooses. Sorting on `id`, whose ObjectId could coerce to a number, is not modelled either.
- The engine's sort algorithm (TimSort in V8) is replaced by an insertion sort. Both are stable with the same comparator, so they produce the same array.
- Query-string coercion of `page` and `limit`: both are naturals. A negative page, or a non-numeric string, is not modelled.
- Concurrency and request isolation: both operations only read, and the model has no shared state.
