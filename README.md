# Rental billing ledger, modelled in Dafny

This project models the billing ledger of a small rental-management web app
(`App.tsx`). The ledger is a list of `Reading` records, one per room and
month. Each record holds the electricity and water meter values at the
start and end of the month, the month's extra fees, whether it was paid,
and an optional proof-of-payment image. On that list the app performs six
operations, all modelled here:

- **Month keys** (`period.dfy`). `getPrevMonth` / `getNextMonth` read a
  `"YYYY-MM"` key and let JavaScript's `Date` normalise the month.
  - for years 0..99, `Date` reads the year as 1900..1999;
  - the result is printed with a two-digit month;
  - a key that does not read as two numbers prints as `"NaN-NaN"`.
- **Rollover** (`rollover.dfy`). When a month is opened and its record count
  differs from the number of rooms, each room without a record gets a seeded
  one. The seed comes from that room's record for the previous month.
- **Correction** (`ledger.dfy`). `updateReading` rewrites one field of the
  (room, month) record. For the two closing meter values it also rewrites
  the starting value of the same room's next-month record. It goes exactly
  one month forward.
- **Tariff** (`tariff.dfy`). `calculateRoomTotal` computes the bill:
  - rent, plus usage clamped at zero times the global rates, plus the
    service and other fees, plus the record's own fees;
  - a missing record gives rent plus the two fees.
- **Summary** (`stats.dfy`). The `stats` fold over the month's records
  computes the expected total, the part collected, and the rest.
- **Export** (`export.dfy`). The text of the CSV export is a byte-order
  mark, a header line, and one line per room.

The loops that the source writes are Dafny methods, each proved against a
specification function:

- the rollover's `forEach` is `Rollover.Run`, specified by `Rollover.After`;
- the `stats` accumulation is `Stats.Compute`, specified by `Stats.Expected`
  and `Stats.Collected`;
- the `csvContent +=` loop is `Export.BuildCsv`, specified by
  `Export.CsvText`.

The lemmas are stated about those functions. The expression-only code
(month arithmetic, `updateReading`'s two `map` passes, the tariff) is modelled
as functions. Money and meter values are unbounded integers.

## Behaviour of the code that a reader may not expect

The model keeps each of these as the code has it.

- The rollover seeds a record's starting water value from the prior record's
  *starting* water value (`prevData.prevWater`, App.tsx:89), not from its
  closing one. Electricity is carried over closing-to-starting. So a new
  month's electricity usage starts at zero, while its water usage starts
  equal to the previous month's water usage (`Rollover.SeedUsage`).
- The rollover runs only when the month's record count differs from the
  number of rooms (App.tsx:74). It is a count test, not a coverage test.
  Two records of one room can stand in for a room that has none, and then
  nothing is added (`Rollover.CountGuardCanSkipARoom`).
- A room with no record for the month still gets a line in the export. The
  line is empty, because `[].join(",")` is `""` (App.tsx:125, 134). The room
  is not left out (`Export.EmptyLineIffNoReading`).
- The export's usage columns are the plain differences `curr - prev`
  (App.tsx:126-127) and can be negative. The total column uses the clamped
  usage of `calculateRoomTotal` (`Export.ExportUsageNotClamped`).
- A correction goes exactly one month forward, but only if that record
  already exists. A later edit to an earlier month is not carried further
  (`Ledger.UpdateStopsAfterOneMonth`).
- `Date` reads years 0..99 as 1900..1999. So the previous month of
  `"0100-01"` is `"99-12"`, and the next month of that is `"2000-01"`
  (`Period.TwoDigitYearBreaksRoundTrip`). The round-trip lemmas therefore
  start at year 101.

## Model

| member | source | states |
|---|---|---|
| `Decimal.IntToString` | App.tsx:129 | an integer cell's text starts with '-' exactly when the number is negative; the digits read back as its absolute value, with no leading zero (only 0 itself prints as "0") |
| `Decimal.IndexOfIsFirstIndex` | App.tsx:11 | the position where `split('-')` cuts is the first-match search for '-' |
| `Period.ParseSplit` | App.tsx:11 | `split('-')` taking `[y, m]`: the year is the text before the first '-', the month the text up to the next '-' or the end; the key reads as those two numbers when both are digit strings and is unreadable otherwise |
| `Period.ParseNoDash` | App.tsx:11 | a key with no '-' is unreadable: the split has one part, so `m` is `undefined`, which `new Date` turns into NaN |
| `Period.ParseJoined` | App.tsx:11 | two digit strings joined by '-' read back as their two values |
| `Period.PadTwo` | App.tsx:13 | `padStart(2, '0')`: a text of two or more characters is unchanged; a shorter one is left-filled with '0' to length 2 and ends with the original text |
| `Period.Format` | App.tsx:13 | the printed key reads back as the same year and month, and always ends in '-' and two digits |
| `Period.DateMonth` | App.tsx:12 | `new Date(y, monthIndex, 1)` lands on a month in 1..12 that is the same number of months from year 0, after years 0..99 are shifted to 1900..1999 |
| `Period.PrevMonth` | App.tsx:10-14 | an unreadable key gives "NaN-NaN"; otherwise the result reads as the `Date`-normalised month index m-2 and has a two-digit month |
| `Period.NextMonth` | App.tsx:16-20 | an unreadable key gives "NaN-NaN"; otherwise the result reads as the `Date`-normalised month index m and has a two-digit month |
| `Period.DateShiftIsCalendarShift` | App.tsx:12 | on a calendar month, the `Date` shifts are the calendar's previous and next month, with the December/January wrap across years |
| `Period.PrevOfFormat` | App.tsx:10-14 | on a canonical key from year 100 up, getPrevMonth prints the calendar's previous month |
| `Period.NextOfFormat` | App.tsx:16-20 | on a canonical key from year 100 up, getNextMonth prints the calendar's next month |
| `Period.PrevNextRoundTrip` | App.tsx:10-20 | for every canonical key from year 101 up, next(prev(p)) == p and prev(next(p)) == p |
| `Period.NextMonthMovesOn` | App.tsx:16-20 | the next month of any key other than "NaN-NaN" is a different key |
| `Period.MonthAfterNextIsNew` | App.tsx:16-20 | from a canonical key, the month after next differs from both the key and its next month |
| `Period.PrevMonthOfJanuary` | App.tsx:10-14 | getPrevMonth("2024-01") == "2023-12" |
| `Period.NextMonthOfDecember` | App.tsx:16-20 | getNextMonth("2023-12") == "2024-01" |
| `Period.TwoDigitYearBreaksRoundTrip` | App.tsx:12 | prev("0100-01") == "99-12" and next("99-12") == "2000-01": the two-digit-year reading breaks the round trip below year 101 |
| `Sequences.FirstWhere` | App.tsx:79 | `Array.find`: none exactly when no element satisfies the predicate; otherwise the element at the first position that satisfies it |
| `Sequences.FirstWhereSkips` | App.tsx:163 | `find` gives the same answer with or without an element that fails the predicate, wherever that element stands |
| `Ledger.Find` | App.tsx:79 | none exactly when no record has the (roomId, month) key; otherwise the first record of the list with that key |
| `Ledger.FindRoom` | App.tsx:163 | none exactly when no room has the id; otherwise the first room of the list with that id |
| `Ledger.FindByRoom` | App.tsx:124 | none exactly when no record has the room id; otherwise the first record of the list with that id |
| `Ledger.CurrentReadingsMembers` | App.tsx:73 | the month filter keeps exactly the records of the list whose month is the given one |
| `Ledger.CurrentReadingsCount` | App.tsx:73-74 | the filter keeps each record of the month as many times as the ledger holds it, and drops every other, so the guard's `length` counts the month's records with repetition |
| `Ledger.FindInCurrent` | App.tsx:121-124 | looking a room up in the filtered month gives the same answer as looking up its full key in the whole ledger |
| `Ledger.UpdateReading` | App.tsx:101-111 | the list keeps its length |
| `Ledger.UpdateKeepsKeys` | App.tsx:103-107 | every record keeps its position, room id and month |
| `Ledger.UpdateRewritesTarget` | App.tsx:103 | every record of the (roomId, selected month) key gets the new field value |
| `Ledger.UpdateCarriesMeterForward` | App.tsx:104-107 | a closing meter edit sets prevElectricity / prevWater of every record of the (roomId, next month) key to the edited value, and changes nothing else in it |
| `Ledger.UpdateLeavesOthers` | App.tsx:103-109 | every other record is unchanged; for fees, payment and evidence even the next month's records are unchanged |
| `Ledger.UpdateStopsAfterOneMonth` | App.tsx:105-107 | from a canonical month, the month-after-next record is unchanged |
| `Rollover.Run` | App.tsx:72-99 | the loop that copies the list and pushes seeds yields exactly `After`: the old list when the count matches, otherwise the old list followed by one seed for each room that had no record |
| `Rollover.SeedsAreSeeds` | App.tsx:78-94 | each appended record is for the selected month, for a listed room that had no record for it in the original list, and is that room's seed |
| `Rollover.SeedsCover` | App.tsx:78-94 | each listed room had a record for the month in the original list or has one among the appended records |
| `Rollover.RolloverCovers` | App.tsx:74-96 | when the count guard lets the run through, every room has a record for the month afterwards |
| `Rollover.RolloverAppendsSeeds` | App.tsx:76-93 | the old list is an unchanged prefix; each appended record is such a missing room's seed, with starting and closing electricity equal to the prior closing value, closing water equal to the prior closing value, starting water equal to the prior starting value, 0 when there is no prior record, no fees, unpaid, and no image |
| `Rollover.SeedUsage` | App.tsx:87-90 | a seed shows zero electricity usage, and water usage equal to the prior record's water usage |
| `Rollover.RolloverKeepsKeysUnique` | App.tsx:78-94 | with unique room ids, a ledger without duplicate (roomId, month) keys stays without them |
| `Rollover.RolloverNoOp` | App.tsx:74-96 | when every room already has a record, or the month already holds as many records as there are rooms, the ledger is returned unchanged |
| `Rollover.CountGuardCanSkipARoom` | App.tsx:73-74 | a concrete ledger where the count matches while a room has no record, and the run adds nothing |
| `Rollover.RolloverIdempotent` | App.tsx:72-99 | running the rollover on its own result changes nothing |
| `Rollover.RolloverOrderIndependent` | App.tsx:78-95 | any reordering of the rooms leaves the old prefix and appends the same multiset of records |
| `Tariff.Usage` | App.tsx:115-116 | usage is never negative, is at least curr - prev, and is either 0 or curr - prev |
| `Tariff.RoomTotal` | App.tsx:114 | without a reading the total is rent + service fee + other fee |
| `Tariff.TotalWithReading` | App.tsx:115-117 | with a reading the total is the no-reading total plus the clamped usages times their rates plus the record's own fees |
| `Tariff.TotalAtLeastBaseline` | App.tsx:113-118 | with non-negative rates a reading bills at least the no-reading total plus its own fees |
| `Tariff.MeterRollbackBillsNothing` | App.tsx:115-116 | meters that went backwards bill no usage at all |
| `Tariff.TotalMonotoneInMeters` | App.tsx:115-117 | with non-negative rates, higher closing meter values never lower the total |
| `Tariff.ExampleTotal` | App.tsx:113-118 | rent 3,500,000 with the default rates, meters 100 to 150 and 10 to 13, and fees 50,000 give 3,950,000 |
| `Tariff.ExampleUsageFloor` | App.tsx:115 | a meter going from 100 down to 80 has usage 0 |
| `Stats.Compute` | App.tsx:160-171 | the fold's total is the sum of the room totals over the month's records whose room exists, collected is that sum over paid records, and unpaid is total - collected |
| `Stats.ExpectedSplits` | App.tsx:166-170 | the total is the collected sum plus the sum over unpaid records, so `unpaid` is exactly what the unpaid records owe |
| `Stats.CollectedWithinTotal` | App.tsx:161-170 | with non-negative rents, rates and fees, 0 <= collected <= total and unpaid >= 0 |
| `Stats.UnknownRoomAddsNothing` | App.tsx:163-164 | a record whose room id matches no room adds nothing to either figure, wherever it stands among the month's records |
| `Stats.RoomWithoutReadingAddsNothing` | App.tsx:162-168 | inserting a room that has no record for the month anywhere in the room list changes neither figure; its no-reading total is not counted |
| `Stats.OtherMonthsIgnored` | App.tsx:158 | a record of another month, inserted anywhere in the ledger, leaves the month's records exactly as they were |
| `Export.RowsAt` | App.tsx:123-130 | the export has one row per room, in room order |
| `Export.BuildCsv` | App.tsx:132-134 | the `+=` loop produces the mark, the joined header and one joined row plus "\n" per row |
| `Export.RowContents` | App.tsx:123-130 | a room's row is empty exactly when the month has no record for it; otherwise it is the ten cells: name, both electricity values, `curr - prev`, both water values, `curr - prev`, rent, the tariff total, and the paid label |
| `Export.EmptyLineIffNoReading` | App.tsx:125-134 | a room's line text is empty exactly when the month has no record for it |
| `Export.ExportUsageNotClamped` | App.tsx:126-128 | when the electricity meter went backwards, the usage cell is the negative difference and prints with '-', while the billed usage is 0 |
| `Export.CsvLayout` | App.tsx:132-134 | the text starts with U+FEFF and, when no room name holds a line break, has exactly one "\n" per room plus the header's |

## Left out

- Rendering, view modes and tabs (App.tsx:188-398): presentation only.
- Persistence to `localStorage` and the JSON round trips (App.tsx:31-69): browser I/O.
- Parsing stored rates with `Number(...) || default` (App.tsx:32-35): parsing glue. The rates are a parameter; `Tariff.DefaultRates` holds the fallback values.
- The wall-clock month (App.tsx:51-54): the selected month is a parameter.
- When the rollover effect runs (its dependencies, App.tsx:99) and React's state queue. The count guard reads `readings` and the update reads `prev`; they are modelled as the same list.
- The object identity that `hasChanged ? newReadings : prev` (App.tsx:96) preserves: the model returns an equal value, and identity matters only to React's re-rendering.
- The Blob, object URL and link click of the export (App.tsx:136-143): browser I/O. The model stops at the text.
- `handleReceiptUpload`'s FileReader (App.tsx:146-156): browser I/O. The data URI is an opaque string.
- `handleAuth` (App.tsx:173-185): a string comparison plus view switching.
- `analyzeRentalData` (services/geminiService.ts:7-34): a network call to an external service.
- `CURRENCY_FORMATTER` (constants.ts:14-17): locale formatting inside `Intl`.
- The per-room rate fields (types.ts:6-8): nothing reads them, so `Ledger.Room` omits them.
- `updateReading` with the field `roomId` or `month`: no caller passes them, so `Ledger.Change` has no such case.
- Period.Parse: `Number()` also accepts surrounding blanks, signs, decimals, exponents and hex, which the month picker never produces. The model reads only digit strings and sends anything else to the "NaN-NaN" branch.
- Period.DateMonth: does not model `Date`'s range limit. Months past September 275760 would print "NaN-NaN".
- Decimal.IntToString: does not model JavaScript's exponent notation for magnitudes of 10^21 and more.
- Ledger.UpdateRewritesTarget: stated for keys other than "NaN-NaN". That key is its own next month, so a meter edit there also overwrites the record's starting value.
- Period.PrevNextRoundTrip: stated from year 101, below which `Date`'s two-digit-year reading breaks it (see `Period.TwoDigitYearBreaksRoundTrip`).
- JavaScript floating point: every value involved is integral, so money and meters are unbounded integers.
