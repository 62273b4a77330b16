# Hotel room booking: the reservation engine in Dafny

This project models the reservation engine of a hotel booking service: the
AWS Lambda `lambda_handler` in `lambdas/roombooking/handler.py`, together with
its helpers `_body_from_event`, `_normalize_room_type` and `_date_seq`. The
handler takes one booking request. It checks the guest name, the check-in
date, the number of nights (1 to 24) and the room type (`seaView` or
`gardenView`, in several spellings), and derives the stay dates. It then
reads the availability table once per stay date. Each count is stored as a
decimal string. The handler turns the request away if a date has no record
(404), if a count is below one (404) or if a count is not an integer (500).
Otherwise it sends one DynamoDB transaction. The transaction holds one
conditional decrement per stay date, each conditioned on the exact text it
read, plus a conditional put of the booking item. A cancelled transaction is
a retryable 409; any other `ClientError` is a 500.

The model has these modules:

- `Optional`, `Json`: optional values, and the JSON values the handler gets,
  including Python's truthiness and `dict.get`.
- `Decimal`: Python's `int()` on text (an optional sign, then ASCII digits)
  and `str()` on integers.
- `Calendar`: proleptic Gregorian dates, `strptime(s, "%Y-%m-%d")`,
  `isoformat()`, day ordinals, and adding days with the overflow past
  9999-12-31.
- `DynamoDb`: the two tables, `TransactWriteItems` as a function, and a
  `Store` class whose `GetItem` and `TransactWrite` methods change the tables
  in place.
- `RoomBooking`: the handler's stages as functions, the whole handler as the
  function `Handle`, and the imperative `LambdaHandler` (with its loops
  `ReadAvailability` and `BuildDecrements`), proved equal to `Handle`.
- `RoomBookingProofs`, `HandlerProofs`, `RequestProofs`: what one invocation
  promises.
- `Concurrency`: invocations planned on older tables, and commits in any
  order.

An uncaught Python exception is an outcome of its own (`Raised`), named by
its exception class. Three inputs are parameters of `Handle` and
`LambdaHandler`:

- the booking id, which the source draws from `uuid.uuid4()`;
- an optional error code for the write, standing for any `ClientError` the
  service returns that the model does not derive from the request: throttling,
  and also the `ValidationException` DynamoDB gives for an item over 400 KB
  or a transaction over 4 MB;
- the tables themselves.

## Model

| member | source | states |
|---|---|---|
| Json.Get | lambdas/roombooking/handler.py:66-69 | `dict.get`: the value under the key, or null when the key is absent |
| Json.GetOr | lambdas/roombooking/handler.py:24 | `dict.get(key, default)`: the default exactly when the key is absent |
| Decimal.ParseInt | lambdas/roombooking/handler.py:75 | `int(text)`: succeeds exactly on one or more digits, optionally after one sign; all-digit text gives its decimal value, `-` negates it and `+` keeps it |
| Decimal.NatToString | lambdas/roombooking/handler.py:133 | `str(n)` for n >= 0: non-empty digits, no leading zero, with decimal value n |
| Decimal.IntToString | lambdas/roombooking/handler.py:133 | `str(n)`: non-empty, with a leading minus exactly when n is negative |
| Decimal.IntToStringCanonical | lambdas/roombooking/handler.py:133 | `str(n)` is the shortest decimal text: only digits with value n for n >= 0, a minus and the digits of -n otherwise, never a `+` or a leading zero |
| Decimal.ParseIntToString | lambdas/roombooking/handler.py:103-133 | `int(str(n)) == n`: a count the handler writes reads back as that count |
| Decimal.IntToStringInjective | lambdas/roombooking/handler.py:133 | distinct counts are written as distinct texts |
| Calendar.DaysInMonth | lambdas/roombooking/handler.py:85 | every month has 28 to 31 days |
| Calendar.MonthField | lambdas/roombooking/handler.py:85 | the `%m` field accepts only months 1 to 12 |
| Calendar.DayField | lambdas/roombooking/handler.py:85 | the `%d` field accepts only days 1 to 31 |
| Calendar.ParseDate | lambdas/roombooking/handler.py:42 | `strptime(s, "%Y-%m-%d")`: any date it accepts is a real calendar date |
| Calendar.MonthFieldSpelling | lambdas/roombooking/handler.py:85 | `%m` reads a text as month m exactly when it is m in two digits, or in one digit for months 1 to 9 |
| Calendar.DayFieldSpelling | lambdas/roombooking/handler.py:85 | `%d` reads a text as day d exactly when it is d in two digits, or for days 1 to 9 one digit, alone or after a space |
| Calendar.ParsedDateSpelling | lambdas/roombooking/handler.py:85 | every accepted text is the four year digits, a dash, a month spelling and a dash and a day spelling, and denotes that year, month and day |
| Calendar.ParseDateSpelling | lambdas/roombooking/handler.py:85 | every such text of a real date is accepted as that date, so `2025-1-5` and `2025-01- 5` are 5 January 2025 |
| Calendar.NextDay | lambdas/roombooking/handler.py:43 | the next day: absent exactly at 9999-12-31, otherwise valid, later, with ordinal one more |
| Calendar.AddDays | lambdas/roombooking/handler.py:43 | `d + timedelta(days=k)`: OverflowError (None) exactly when the ordinal would pass that of 9999-12-31; otherwise a valid date whose ordinal is k more, later than d when k > 0 |
| Calendar.IsoFormat | lambdas/roombooking/handler.py:43 | `isoformat()`: ten characters, `YYYY-MM-DD` with dashes at 4 and 7 and every other place a digit; the three digit groups have the values of the year, month and day, so each is zero-padded |
| Calendar.ParseIsoFormat | lambdas/roombooking/handler.py:42-43 | parsing the ISO text of a date gives back that date |
| Calendar.IsoFormatInjective | lambdas/roombooking/handler.py:43 | distinct dates have distinct ISO texts |
| Calendar.OrdinalAtMostLast | lambdas/roombooking/handler.py:43 | no valid date lies after 9999-12-31, and only that date has its ordinal |
| Calendar.DaysBeforeNextYear | lambdas/roombooking/handler.py:43 | the days before year y + 1 are those before y plus the length of y |
| DynamoDb.TransactWriteItems | lambdas/roombooking/handler.py:147-152 | all or nothing: no change unless it commits; a service error comes back with its code; with no service error, a transaction that is empty, too long or names an item twice is a ValidationException, one with a failing condition is cancelled, and one whose every condition holds commits, applying every action (size limits are left to the error parameter) |
| DynamoDb.ApplyAllCell | lambdas/roombooking/handler.py:126-135 | after a commit, each updated cell holds its new value and every other cell of an existing item keeps its value |
| DynamoDb.ApplyAllKeys | lambdas/roombooking/handler.py:126-135 | a commit adds to the availability table exactly the items that some update names and that were absent |
| DynamoDb.ApplyAllBookings | lambdas/roombooking/handler.py:137-145 | updates leave the booking table alone; the final put adds exactly its item |
| DynamoDb.Store.GetItem | lambdas/roombooking/handler.py:98 | `get_item` returns the stored item exactly when there is one |
| DynamoDb.Store.TransactWrite | lambdas/roombooking/handler.py:148 | checks for repeated items, then every condition, and only then applies every action; its result and new tables are those of TransactWriteItems |
| RoomBooking.PropertiesToMap | lambdas/roombooking/handler.py:26 | the dict comprehension over `properties` fails only with AttributeError or TypeError |
| RoomBooking.BodyFromEvent | lambdas/roombooking/handler.py:16-27 | extracting the body fails only with AttributeError or TypeError |
| RoomBooking.StripLeft | lambdas/roombooking/handler.py:33 | removes exactly the leading whitespace: a suffix of the input, made only of whitespace before it, and starting with a non-whitespace character |
| RoomBooking.StripRight | lambdas/roombooking/handler.py:33 | removes exactly the trailing whitespace, in the same terms |
| RoomBooking.Strip | lambdas/roombooking/handler.py:33 | `s.strip()`: no longer than s, and neither starting nor ending with whitespace; StripLeft and StripRight say exactly what is removed |
| RoomBooking.Lower | lambdas/roombooking/handler.py:33 | lower-casing keeps the length and lowers each character in place |
| RoomBooking.Canonical | lambdas/roombooking/handler.py:33 | the canonical text holds no underscore and no space; CanonicalIsLowerLetters and NormalizeBySpelling give its content |
| RoomBooking.NormalizeRoomType | lambdas/roombooking/handler.py:30-38 | None or empty text give None; the result is seaView exactly when the canonical text is one of the three sea-view spellings, and gardenView exactly when it is one of the three garden-view spellings |
| RoomBooking.DayRun | lambdas/roombooking/handler.py:43 | when it exists: n consecutive valid dates from d, day by day and strictly increasing (DayRunFits says when it exists) |
| RoomBooking.IsoAll | lambdas/roombooking/handler.py:43 | the list comprehension: element i is the ISO text of date i |
| RoomBooking.DateSeq | lambdas/roombooking/handler.py:41-43 | `_date_seq`: ValueError exactly when the start does not parse, OverflowError exactly when the run passes 9999-12-31, otherwise as many dates as nights (none for a negative count) |
| RoomBooking.IntOfJson | lambdas/roombooking/handler.py:75 | `int(str(v))`: a number is itself, text is parsed, anything else is not an integer |
| RoomBooking.ValidateRequest | lambdas/roombooking/handler.py:66-91 | an accepted request has 1 to 24 nights, parsed from the body's field; a truthy guest name taken as given; a check-in date that parses, echoed as given; and the room type its text normalises to. Every rejection returned as a response is a 400 |
| RoomBooking.ReadCount | lambdas/roombooking/handler.py:99-109 | no record exactly when the item or its room-type attribute is absent; unreadable exactly when that attribute is not a string or its text is not an integer; low when the text parses to a count below one; in stock, with the stored text, when it parses to at least one |
| RoomBooking.Classify | lambdas/roombooking/handler.py:98-109 | a date's reading on the table: no record exactly when the date or its room-type attribute is absent, and in stock only with the stored text; the rest is ReadCount |
| RoomBooking.PreReadDates | lambdas/roombooking/handler.py:96-109 | the pre-read ends early only with a 500; when nothing is missing or low, every date has a snapshot |
| RoomBooking.Decrements | lambdas/roombooking/handler.py:118-135 | one update per date, in order, on the date's item, conditioned on the text read and setting the count read minus one; the 409 race outcome exactly when some snapshot is below one |
| RoomBooking.NewBookingItem | lambdas/roombooking/handler.py:137-144 | the booking item carries the id, guest name, check-in text, room type and stay dates as given, and `str(nights)` as the nights text, which `int()` reads back as the nights |
| RoomBooking.Transaction | lambdas/roombooking/handler.py:117-145 | the transaction is the plan's updates followed by the put of the booking item, one action more than the updates; TransactionShape proves its size limit and distinct targets |
| RoomBooking.Decide | lambdas/roombooking/handler.py:111-135 | once every date is read, a refusal is a 404 (missing or insufficient dates) or the 409 of the race guard |
| RoomBooking.RequestOf | lambdas/roombooking/handler.py:65-91 | reading and checking the request ends early only with a 400 response, AttributeError or TypeError |
| RoomBooking.PlanRequest | lambdas/roombooking/handler.py:93-135 | from a valid request, the stages before the write end early only with a 404, 409 or 500 response, or with ValueError or OverflowError from the stay dates |
| RoomBooking.PlanBooking | lambdas/roombooking/handler.py:65-135 | everything before the write ends early only with a 400, 404, 409 or 500 response or one of the listed exceptions, and a plan carries the request the event gives; PlanStages, PlanShape and PlanStopsAreErrors state the rest |
| RoomBooking.Commit | lambdas/roombooking/handler.py:147-161 | the write ends in a 200, 409 or 500 or the ParamValidationError; a 200 leaves exactly the tables after the transaction, anything else leaves them unchanged; CommitOutcome and CommitEffect give the mapping and the effect |
| RoomBooking.Handle | lambdas/roombooking/handler.py:62-161 | one invocation: any response has status 200, 400, 404, 409 or 500, and nothing changes unless it is the 200; CommitOutcome, BookingEffect and PreCheckOutcome say which outcome and what a booking writes |
| RoomBooking.PreReadStopPersists | lambdas/roombooking/handler.py:102-105 | once a count is unreadable, the outcome of the whole loop is that 500 |
| RoomBooking.ReadAvailability | lambdas/roombooking/handler.py:96-109 | the loop of `get_item` calls computes exactly PreReadDates on the stored table |
| RoomBooking.BuildDecrements | lambdas/roombooking/handler.py:118-135 | the loop that builds the updates computes exactly Decrements |
| RoomBooking.LambdaHandler | lambdas/roombooking/handler.py:62-161 | its outcome and the tables it leaves are those of Handle on the tables it started from |
| RoomBookingProofs.PreReadSortsEveryDate | lambdas/roombooking/handler.py:96-114 | the pre-read stops exactly when some date is unreadable, and then with the 500 that names the first one; otherwise every date is in exactly the list its reading calls for, with its count |
| RoomBookingProofs.RaceGuardNeverFires | lambdas/roombooking/handler.py:120-124 | after a clean pre-read every stay date has a snapshot and the race guard never fires |
| RoomBookingProofs.StayDatesAreConsecutive | lambdas/roombooking/handler.py:41-43 | the stay dates start at the check-in date, follow one another day by day, parse back, and are pairwise distinct |
| RoomBookingProofs.DayRunFits | lambdas/roombooking/handler.py:43 | a run of n days fits exactly when its last day is not after 9999-12-31 |
| RoomBookingProofs.DayRunIsAddDays | lambdas/roombooking/handler.py:43 | element i of the run is `d + timedelta(days=i)` |
| RoomBookingProofs.StayDatesFit | lambdas/roombooking/handler.py:41-43 | `_date_seq` raises ValueError iff the start does not parse, and OverflowError iff the last night passes 9999-12-31; element i is the ISO text of start + i days |
| RoomBookingProofs.InStockCell | lambdas/roombooking/handler.py:103-109 | a date read as in stock holds exactly the snapshot text, which parses to a count of at least one |
| RoomBookingProofs.SnapshotDecrements | lambdas/roombooking/handler.py:120-135 | decrements built from the in-stock snapshots of their dates are conditioned on the stored text and write the count minus one |
| RoomBookingProofs.CleanSnapshots | lambdas/roombooking/handler.py:96-114 | after a pre-read with nothing missing or low, every date has the snapshot of its in-stock reading |
| RoomBookingProofs.DecrementsFollowReads | lambdas/roombooking/handler.py:120-135 | after a clean pre-read, each update is conditioned on the exact text stored and writes that count minus one |
| RoomBookingProofs.PlanStages | lambdas/roombooking/handler.py:65-135 | a booking that reaches the write passed every stage: validation, stay dates, a clean pre-read and the decrements |
| RoomBookingProofs.PlanShape | lambdas/roombooking/handler.py:65-135 | a planned booking has 1 to 24 nights, that many stay dates, and decrements as read |
| RoomBookingProofs.DistinctDecrementsThenPut | lambdas/roombooking/handler.py:118-145 | updates on distinct dates followed by one put name no item twice |
| RoomBookingProofs.PlanTransactionShape | lambdas/roombooking/handler.py:118-145 | the transaction of a plan whose decrements name its distinct stay dates in order is those decrements then the put, has nights + 1 actions and names no item twice |
| RoomBookingProofs.TransactionShape | lambdas/roombooking/handler.py:118-145 | the transaction is the decrements then the booking put, has nights + 1 <= 25 actions (within DynamoDB's limit of 100), and names no item twice |
| HandlerProofs.PlanStopsAreErrors | lambdas/roombooking/handler.py:65-135 | every outcome before the write is one of the known errors, never a 200 |
| HandlerProofs.PlannedConditionsHold | lambdas/roombooking/handler.py:130-145 | on the tables it was planned on, every condition holds except possibly the put's, which holds iff the id is new |
| HandlerProofs.CommitOutcome | lambdas/roombooking/handler.py:62-161 | an invocation ends in a known status or exception; it books iff the plan reaches the write with a string guest name, no fault and a fresh id; otherwise the tables are unchanged; a cancellation is the 409 and any other fault a 500 carrying its code; an id collision is the 409 |
| HandlerProofs.PlanCommitOutcome | lambdas/roombooking/handler.py:147-152 | the same for one well-formed plan: statuses, fault mapping, and no change unless booked |
| HandlerProofs.DecrementedCells | lambdas/roombooking/handler.py:126-135 | after the commit, each stay date's count is its old count minus one, stored as a decimal string |
| HandlerProofs.UntouchedCells | lambdas/roombooking/handler.py:126-135 | every other cell is unchanged, and no date is added or removed |
| HandlerProofs.CommitEffect | lambdas/roombooking/handler.py:147-161 | a confirmed commit returns the confirmation, adds exactly the booking item under a fresh id, and decrements each stay date by one |
| HandlerProofs.BookingEffect | lambdas/roombooking/handler.py:117-161 | a confirmed booking echoes the id, name, check-in text, nights, room type and stay dates; adds exactly its item under a fresh id; lowers each stay date's count by one; and changes nothing else |
| HandlerProofs.PreReadFinds | lambdas/roombooking/handler.py:96-114 | the pre-read stops iff some count is unreadable; it reports missing dates iff there are some, and shortages iff there are some |
| HandlerProofs.PreCheckOutcome | lambdas/roombooking/handler.py:96-114 | the first unreadable date gives a 500; otherwise a 404 listing exactly the dates with no record; otherwise a 404 listing exactly the dates below one with their counts; each leaves the tables unchanged; otherwise the booking goes on to the write |
| RequestProofs.PropertiesBecomeMap | lambdas/roombooking/handler.py:26 | a properties list becomes a map iff every entry is an object with a hashable name; its keys are the string names, each mapped to the value of the last entry of that name |
| RequestProofs.BodyFromEventShapes | lambdas/roombooking/handler.py:24-27 | no request body, or a falsy value under application/json, gives `{}`; an object without a properties list is used as is; a hashable properties list becomes the map of its last values; any other truthy value is returned as is, and the handler's first `.get` raises AttributeError |
| RequestProofs.StripKeepsLetters | lambdas/roombooking/handler.py:33 | for text whose only whitespace is the space, stripping keeps every letter, in order |
| RequestProofs.CanonicalIsLowerLetters | lambdas/roombooking/handler.py:33 | for such text, the canonical form is its letters lower-cased: spaces, underscores and case make no difference |
| RequestProofs.NormalizeBySpelling | lambdas/roombooking/handler.py:30-38 | for such text, the room type depends only on its lower-cased letters |
| RequestProofs.OtherFieldsKept | lambdas/roombooking/handler.py:66-69 | replacing the nights field leaves the other three fields as they were |
| RequestProofs.NightsDecides | lambdas/roombooking/handler.py:71-82 | with the other fields valid: falsy nights is the missing-field 400; no integer or one below 1 is the positive-integer 400; above 24 is the too-large 400; 1 to 24 is accepted as is |
| RequestProofs.NightsSeenAlike | lambdas/roombooking/handler.py:71-82 | validation sees the nights value only through its truthiness and `int(str(...))`: two values alike in both get the same verdict |
| RequestProofs.NumberNights | lambdas/roombooking/handler.py:71-82 | a number is accepted iff 1 <= n <= 24; 0 is the missing-field 400; a negative number the positive-integer 400; 25 or more the too-large 400 |
| RequestProofs.TextOfNumberNights | lambdas/roombooking/handler.py:75 | the decimal text of a non-zero number is judged exactly like the number |
| RequestProofs.TextNotPositiveNights | lambdas/roombooking/handler.py:74-79 | non-empty text that is not a positive integer gets the positive-integer 400 |
| RequestProofs.ZeroTextIsNotPositive | lambdas/roombooking/handler.py:71-79 | with the other fields valid, the text "0" gets the positive-integer 400, while the number 0, being falsy, gets the missing-field 400 |
| RequestProofs.ValidationOrder | lambdas/roombooking/handler.py:71-91 | the checks run in order: a falsy field is the missing-field 400 whatever the others hold, and only then; then the nights; then an unparsable check-in date even when the room type is bad too; then a non-text room type raises AttributeError; then a room type that normalises to None is the room-type 400 |
| Concurrency.PlannedConditionsAgainst | lambdas/roombooking/handler.py:130-145 | against newer tables, a plan's conditions hold iff every stay-date cell still reads as planned and the id is free |
| Concurrency.PlanCommit | lambdas/roombooking/handler.py:147-151 | a plan committed against newer tables books iff nothing it read has changed and the id is free; otherwise it is the 409 and nothing changes |
| Concurrency.SnapshotCommit | lambdas/roombooking/handler.py:96-151 | the same for the plan the handler makes from an event on older tables |
| Concurrency.AppliedCount | lambdas/roombooking/handler.py:126-135 | a commit that writes a cell lowers its count from c >= 1 to c - 1; one that does not write it leaves it |
| Concurrency.WrittenCell | lambdas/roombooking/handler.py:126-135 | after a commit, the cell an update writes holds that update's new value |
| Concurrency.OneAttempt | lambdas/roombooking/handler.py:147-151 | one write attempt either commits and takes exactly one room from a count of at least one, or leaves the count as it was |
| Concurrency.NoOverbooking | lambdas/roombooking/handler.py:120-151 | over any sequence of attempts that decrement by one, the count ends at n minus the number of commits that took a room, and that number is at most n |
| Concurrency.NoOverbookingStep | lambdas/roombooking/handler.py:120-151 | one more attempt keeps the count at n minus the rooms taken, and the rooms taken at most n |
| Concurrency.DecrementsLowerByOne | lambdas/roombooking/handler.py:120-135 | decrements as read followed by the put decrement every cell by exactly one |
| Concurrency.HandlerLowersByOne | lambdas/roombooking/handler.py:117-145 | every transaction the handler builds, on any tables, decrements every cell by exactly one |
| Concurrency.CompetingBookings | lambdas/roombooking/handler.py:96-152 | bookings planned on any snapshots, committed in any order with any faults, confirm a date and room type at most as often as its starting count |
| Concurrency.FirstTakesLast | lambdas/roombooking/handler.py:126-151 | the first booking to commit on a count of 1 leaves it reading 0, a changed cell that the pre-check classes as low |
| Concurrency.LastUnitPlans | lambdas/roombooking/handler.py:126-151 | LastUnit for two plans made on the same tables |
| Concurrency.StillReadable | lambdas/roombooking/handler.py:99-109 | after a confirmed commit, every date another plan read as in stock still has a record whose count reads as an integer |
| Concurrency.RetryInsufficient | lambdas/roombooking/handler.py:96-114 | a request whose stay dates all read as integers, one of them 0, gets the insufficient 404 listing that date with 0, and no table changes |
| Concurrency.LastUnit | lambdas/roombooking/handler.py:96-151 | two bookings planned on the same tables, both for the last room of a date: after the first is confirmed, the second is the 409 and changes nothing, the count reads 0, and a retry of the second request, under any id and fault, is the insufficient 404 listing the date with 0, changing nothing |

## Left out

- I/O: the `print` of the event, the `_resp` envelope and `json.dumps` are not modelled; an outcome is the status with a structured body.
- The booking id is a parameter; `uuid.uuid4()` is not modelled, so ids are not shown to be fresh. CommitOutcome shows what a collision does.
- The write's `ClientError` code is a parameter; which errors occur, and when, is outside the model.
- DynamoDb.TransactWriteItems: DynamoDB's size limits (400 KB per item, 4 MB per transaction) are not derived from the request; the handler bounds no `guestName`, so a long enough name draws a `ValidationException` and the 500 of line 152, which the model reaches only through the error parameter.
- Faults of `get_item` (line 98, outside every `try`) and write faults that are not a `ClientError` (a connection or timeout error from botocore) escape the handler uncaught; `Store.GetItem` and `TransactWrite` cannot fail in that way, so these paths are not modelled.
- Real concurrency is not modelled: interleaving appears as plans made on older tables, and commits in any order (Concurrency).
- The environment table names (lines 10-11) and the boto3 client are not modelled; the two tables are the `Store`.
- Decimal.ParseInt: `int()`'s leading and trailing whitespace, underscores between digits and non-ASCII digits are not modelled; text with any of them counts as not an integer.
- RoomBooking.Lower: only ASCII letters are lower-cased; Python's full Unicode case mapping is not modelled.
- Calendar.ParseDate: `%Y`, `%m` and `%d` accept ASCII digits only; Python's regex `\d` also matches other Unicode digits.
- Json: JSON numbers are integers; floats, and `str()` of them, are not modelled.
- RoomBooking.PropertiesToMap: entries named by null, a boolean or a number become keys that no string lookup reaches, so the map leaves them out.
- The text of the 500 `details` field is the error code, not the whole of `str(e)`.
- DynamoDb: only string and number attributes are modelled; a count of another type counts as unreadable, as `["S"]` fails on it.
- RequestProofs.NormalizeBySpelling: proved only for text whose only whitespace is the plain space.
- The number 0 for nights is falsy, so the handler reports it as a missing field; the text "0" fails the positive-integer check. The check-in date is echoed as given, and the stay dates are in ISO form.
