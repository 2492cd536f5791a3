# Cash-office back end: a Dafny model

This project models the core of an airline ticket office's back end. Cashiers
open a **shift** on a **cash desk** of their airport. They sell **tickets**
for **flight fares**, in the currency the customer pays in. Each sale converts
the fare's base price with the latest **exchange rate**, counts a seat against
the fare's limit, credits the desk's **account** in that currency, and books a
SALE **transaction** in the ledger. The project also models:

- the database schema those operations run on (enums, check constraints,
  unique keys, foreign keys);
- the older single-currency **till** model, kept as a separate module;
- the seed-data generator that drafts airports, flights and fares.

The database is a `Store` of tables. Each table is a `seq` of rows, and a
row's id is its position: ids autoincrement and nothing in this subsystem
deletes a row. An unordered `.first()` is read as the lowest id. Every service
operation is a total function that returns either the new store with a
result, or an error. An error means nothing was written, because each service
returns before it commits. Money is `real`. The current time is a parameter
`now`. Every random draw of the generator is a parameter: a draw for
`randint(lo, hi)` or `choice(xs)` is an arbitrary `nat` reduced into range,
so each outcome of the generator corresponds to some choice of draws.

Modules:

- `Results`: the `Option` and `Result` types.
- `Text`: `str.strip()`.
- `Tables`: `.first()`, `.filter_by().all()` and list comprehensions over tables.
- `Schema`: rows, enums and their stored labels, and the constraints the
  database enforces (`SchemaValid`).
- `Invariants`: the rules the services keep on top of the schema (`Valid`):
  - at most one open shift per cashier and per desk;
  - one account per (desk, currency);
  - seats sold within the fare's limit;
  - one ticket per (flight, seat);
  - every account balance equals the sum of its ledger entries;
  - every entry is in its account's currency.
- `ShiftService`, `TicketService`, `CashDeskService`: the current services.
- `LegacyModels`, `TillService`: the till model and its service.
- `CsvGenerator`: the seed-data generator.

## Model

| member | source | states |
|---|---|---|
| Text.Strip | app/services/ticket_service.py:61-62 | Whitespace is every character `str.isspace()` accepts, Unicode included. The stripped text has no whitespace at either end. It is a contiguous slice of the input, and everything cut off on either side is whitespace. |
| Text.StripIdempotent | app/services/cash_desk_service.py:49 | Stripping an already stripped name changes nothing. |
| Text.StripFileSeparator | app/services/ticket_service.py:61-62 | The information separators FS to US count as whitespace for `strip()`, so a seat written with a leading FS is stored without it. |
| Tables.FindFirst | app/services/shift_service.py:51 | `.first()` finds nothing exactly when no row matches. Otherwise it returns a matching row with no earlier match. |
| Tables.FilterIds | app/services/cash_desk_service.py:159 | `.filter_by().all()` returns exactly the ids of the matching rows, each once, in increasing order. |
| Tables.Keep | app/services/shift_service.py:20-24 | A list comprehension keeps exactly the elements that satisfy the condition. A list without repeats stays without repeats. |
| Schema.ParseRole | app/migrations/versions/3672c4b7381d_test_migration.py:34 | The four stored labels of the `role` enum are accepted, each as the role it labels, and nothing else is. |
| Schema.ParseShiftStatus | app/migrations/versions/3672c4b7381d_test_migration.py:71 | The labels "open" and "closed" are accepted, each as its status, and nothing else is. |
| Schema.ParseTicketStatus | app/migrations/versions/3672c4b7381d_test_migration.py:122 | The labels "sold" and "refunded" are accepted, each as its status, and nothing else is. |
| Schema.ParseTransactionType | app/migrations/versions/3672c4b7381d_test_migration.py:134 | The four transaction-type labels are accepted, each as its type, and nothing else is. |
| Invariants.LedgerSumAppend | app/services/ticket_service.py:74-87 | Booking an entry moves its own account's ledger sum by the entry's amount and leaves every other account's sum alone. |
| Invariants.LedgerSumUnused | app/services/cash_desk_service.py:128 | An account that no entry is booked on has a ledger sum of zero, matching the 0.0 opening balance. |
| Invariants.EmptyStoreValid | app/migrations/versions/3672c4b7381d_test_migration.py:19-144 | The freshly migrated, empty database satisfies every constraint and invariant. |
| Invariants.SchemaAllowsDuplicateOpenShiftsAndAccounts | app/migrations/versions/3672c4b7381d_test_migration.py:54-77 | A store can meet every database constraint while holding two open shifts for one cashier, two open shifts on one desk, and two accounts for one (desk, currency). The index is not unique and the accounts table has no unique key, so only the services enforce these rules. |
| ShiftService.OpenDeskIds | app/services/shift_service.py:18-19 | The set holds exactly the desks that have an open shift, in any airport. |
| ShiftService.AvailableDeskIds | app/services/shift_service.py:17-24 | A desk is listed exactly when it exists, belongs to the airport, is active and has no open shift. Each is listed once. |
| ShiftService.AvailableCashDesks | app/services/shift_service.py:17-24 | Every listed desk is free, belongs to the airport, and is shown with its own name. Every free desk of the airport is listed, and none twice. |
| ShiftService.OpenShift | app/services/shift_service.py:43-66 | Refuses, in this order: a non-cashier, a cashier with no airport, a desk that is missing, belongs to another airport or is inactive, a cashier who already has an open shift, and a busy desk. Each refusal is forced when its check is the first to fail. A cashier's open shift is reported by its id, the lowest such id; a busy desk is reported by its name. Succeeds exactly when all checks pass. On success it appends one open shift at `now` and changes nothing else. |
| ShiftService.OpenShiftPreservesValid | app/services/shift_service.py:51-56 | Opening a shift keeps the store valid. In particular every cashier and every desk still has at most one open shift. |
| ShiftService.CloseShift | app/services/shift_service.py:83-90 | Fails exactly when the cashier has no open shift. Otherwise it closes one of the cashier's open shifts at `now` and changes nothing else. |
| ShiftService.CloseShiftPreservesValid | app/services/shift_service.py:83-88 | Closing a shift keeps the store valid, including the status/closing-time check. |
| ShiftService.CloseShiftLeavesNoOpenShift | app/services/shift_service.py:83-88 | In a valid store, after a close the cashier has no open shift, so a second close fails. |
| ShiftService.OpenThenClose | app/services/shift_service.py:57-88 | Right after a cashier opens a shift, closing succeeds for that cashier and closes exactly the shift just opened. |
| TicketService.LatestRate | app/services/ticket_service.py:32-35 | Finds a rate exactly when one exists for the (base, target) pair. The rate found has the latest `valid_at` among them. |
| TicketService.CheckSale | app/services/ticket_service.py:15-53 | The guards, in the order `sell_ticket` checks them: an open shift, a fare of that flight, a seat left on it, the seat free, a rate unless the currencies agree, and an account of the shift's desk in the sale currency. Each failing guard forces its own error: a missing rate forces `RateNotFound`, and a missing account forces `AccountNotFound` for the sale currency. A plan is made exactly when every guard passes. It carries the recorded rate and the amount: the base price when the currencies agree, otherwise the base price times the rate. |
| TicketService.SellTicketAsWritten | app/services/ticket_service.py:9-101 | As the code stands, a sale goes through exactly when the guards pass with the raw seat number, yet it stores the stripped seat. The entry it books carries no ticket id. |
| TicketService.SellTicket | app/services/ticket_service.py:9-101 | A sale goes through exactly when every guard of `sell_ticket` passes. The seat check uses the stripped seat. Each failing guard forces its own error, in order. `RateNotFound` comes exactly when the currencies differ and no rate row covers them. `AccountNotFound` comes exactly when the shift's desk has no account in the sale currency. A sale appends exactly one ticket and one ledger entry and keeps the earlier rows. |
| TicketService.SaleRecordsTicket | app/services/ticket_service.py:57-68 | The ticket is SOLD at `now`, on an open shift of the selling cashier. It stores the stripped name and seat, the base price, the recorded rate, and the converted price: the base price itself when the currencies agree. |
| TicketService.SaleBooksEntry | app/services/ticket_service.py:74-87 | The sale books a SALE entry of the ticket's price, in the sale currency, referring to the new ticket. The entry is on the account of the shift's desk in that currency, and the price is added to that account's balance. |
| TicketService.SaleCountsSeat | app/services/ticket_service.py:71-101 | The fare gains exactly one sold seat. Tables other than tickets, fares, accounts and transactions are untouched. The receipt echoes the passenger and seat as given, with the new ticket id, the flight number and the charged price. |
| TicketService.SaleIsStep | app/services/ticket_service.py:57-91 | A successful sale makes exactly one sale step. It appends one ticket on a seat no ticket of the flight holds and one ledger entry, adds the entry to its account's balance, and counts one more seat on a fare that had room. Nothing else in the store changes. |
| TicketService.SaleStepKeepsSchema | app/services/ticket_service.py:57-91 | A sale's writes keep every database constraint. |
| TicketService.SaleStepKeepsLedger | app/services/ticket_service.py:74-87 | A sale's writes keep every balance equal to its ledger sum, and every entry in its account's currency. |
| TicketService.SaleStepKeepsSeats | app/services/ticket_service.py:24-29 | A sale's writes keep seats sold within every fare's limit and keep at most one ticket per (flight, seat). |
| TicketService.SellTicketPreservesValid | app/services/ticket_service.py:24-29 | A sale keeps the store valid. Seats never oversell, and no seat of a flight is sold twice. |
| TicketService.SaleNeedsDeskAccount | app/services/ticket_service.py:48-53 | With one open shift per cashier, a sale is booked on the cashier's open shift. An account exists for that shift's desk in the sale currency. |
| TicketService.AsWrittenSeatCheckPasses | app/services/ticket_service.py:28-29 | With "12A" of flight 0 sold, the as-written guards let " 12A" through on that flight. |
| TicketService.AsWrittenSellsSeatTwice | app/services/ticket_service.py:28-29 | From a valid store with "12A" sold, the as-written sale of " 12A" succeeds and leaves two tickets for the same seat of the flight. |
| TicketService.AsWrittenEntryLosesTicket | app/services/ticket_service.py:85 | The entry of an as-written sale says it refers to a ticket, but it holds no ticket id. |
| TicketService.CorrectedRefusesSeatTwice | app/services/ticket_service.py:28-29 | The corrected seat check refuses that same sale with "seat taken". |
| TicketService.EuroSaleConverts | app/services/ticket_service.py:40-45 | A 50 USD fare sold in EUR at a rate of 0.90 costs 45 EUR. The ticket keeps 50 as its base price and 0.90 as its rate, and the EUR account is credited 45. |
| CashDeskService.CreateCashDesk | app/services/cash_desk_service.py:46-61 | Fails exactly when the airport is missing. Otherwise it appends a desk with the stripped name, that airport and the given activity flag, changes nothing else, and returns the new desk's id and fields. |
| CashDeskService.CreateCashDeskPreservesValid | app/services/cash_desk_service.py:48-54 | Creating a desk keeps the store valid. |
| CashDeskService.UpdateCashDesk | app/services/cash_desk_service.py:85-93 | Reports a missing desk first, then a missing airport. It succeeds exactly when both exist, rewrites only that desk's name (stripped), airport and activity flag, and changes nothing else. |
| CashDeskService.UpdateCashDeskPreservesValid | app/services/cash_desk_service.py:85-93 | Updating a desk keeps the store valid. |
| CashDeskService.CreateCashDeskAccount | app/services/cash_desk_service.py:118-140 | Refuses, in this order, a missing desk, a currency other than USD, EUR or UAH, and a currency the desk already has an account in. Otherwise it appends a zero-balance account stamped `now` and changes nothing else. |
| CashDeskService.CreateCashDeskAccountPreservesValid | app/services/cash_desk_service.py:122-132 | Creating an account keeps the store valid. In particular a desk still has one account per currency, and the new balance agrees with its empty ledger. |
| CashDeskService.CashDeskAccounts | app/services/cash_desk_service.py:157-169 | Fails exactly when the desk is missing. Otherwise it lists exactly that desk's accounts, each once, with their currency, balance and last update. |
| LegacyModels.RoleOf | app/models.py:7-10 | The values "cashier", "admin" and "accountant" name the three legacy roles, each its own, and no other string names one. |
| LegacyModels.NewTill | app/models.py:30-33 | A till created with the column defaults is active, has taken nothing, has no closing time, and meets its check constraint. |
| LegacyModels.NewLegacyTicket | app/models.py:68-69 | A legacy ticket created with the column defaults has the status "sold" and is stamped `now`. |
| LegacyModels.TillIndexAllowsTwoActive | app/models.py:39-42 | The till table's own constraints admit two active tills for one cashier, because the index on (cashier, active) is not unique. |
| TillService.ListTills | app/services/till_service.py:20-35 | A filtered till query, listed: every entry is a till that passes the filter, shown with its own row. Every till that passes is listed, and none is listed twice. |
| TillService.OwnTills | app/services/till_service.py:19-20 | The cashier query lists exactly the caller's tills, each once. |
| TillService.AllTills | app/services/till_service.py:19-35 | For the "cashier" role, exactly the caller's tills are listed, each once. For any other role, every till is listed, in id order. |
| TillService.CheckOpenTill | app/services/till_service.py:50-60 | Reports a till exactly when some till of any cashier is active. The reported till is active. |
| TillService.OpenTill | app/services/till_service.py:77-97 | Refused exactly when any till is active, whoever holds it. Otherwise it appends an active till of the caller at `now`, with a zero total. |
| TillService.OpenTillLeavesOneActive | app/services/till_service.py:77-89 | After a successful open, exactly one till is active (the new one), and every till still meets the check constraint. |
| TillService.CloseTill | app/services/till_service.py:115-129 | Fails exactly when the caller has no active till, even if another cashier's till is active. Otherwise it deactivates one of the caller's active tills, stamps it closed at `now`, and changes no other till. |
| TillService.CloseTillPreserves | app/services/till_service.py:115-123 | When at most one till was active, as `OpenTill` keeps it, closing leaves no till active and the check constraint holds. |
| TillService.CloseTillKeepsChecked | app/services/till_service.py:115-123 | Closing a till keeps the table's check constraint on every till, with no assumption about how many tills are active. |
| TillService.CashierOpenTill | app/services/till_service.py:147-150 | Returns an active till of the caller exactly when the caller has one. |
| CsvGenerator.RandInt | app/generate_csv_data.py:224 | `randint(lo, hi)` fails exactly on an empty range. Otherwise its result lies in lo..hi. |
| CsvGenerator.Choice | app/generate_csv_data.py:178 | `choice(xs)` fails exactly on an empty list. Otherwise it returns an element of the list. |
| CsvGenerator.Sample | app/generate_csv_data.py:124 | `sample(xs, k)` fails exactly when k exceeds the population. Otherwise it returns k elements of the population, and a population without repeats gives a sample without repeats. |
| CsvGenerator.SampleWithoutReplacement | app/generate_csv_data.py:124 | `sample` draws without replacement: for every population and every draw, no element occurs in the sample more often than in the population. |
| CsvGenerator.AvailableAirports | app/generate_csv_data.py:106-107 | The offered airports are exactly the real airports whose code is not yet taken, each offered once. |
| CsvGenerator.RealAirportCodesUnique | app/generate_csv_data.py:41-62 | The twenty real airports have twenty different IATA codes. |
| CsvGenerator.AddedAirports | app/generate_csv_data.py:123-135 | min(requested, available) real airports are added. Each has a code that no stored airport has, and no two share a code. |
| CsvGenerator.NewAirports | app/generate_csv_data.py:102-138 | The stored airports stay as they are. After them come `min(wanted, available)` real airports whose codes no stored airport has. If the stored codes were distinct, all codes in the new list are distinct. |
| CsvGenerator.FlightNumber | app/generate_csv_data.py:173 | A flight number is "FL" followed by three digits, and those digits spell the drawn number. |
| CsvGenerator.FlightNumberInjective | app/generate_csv_data.py:173 | Two draws give the same flight number exactly when they draw the same number, so there are 900 flight numbers. |
| CsvGenerator.FreshNumber | app/generate_csv_data.py:172-176 | The rejection loop returns the first try whose number is unused, after which all earlier tries were used numbers. It fails only when every try hits a used number. |
| CsvGenerator.Destination | app/generate_csv_data.py:179 | The destination is a listed airport whose code differs from the origin's. The draw fails, with `IndexError`, exactly when every listed airport has the origin's code. |
| CsvGenerator.Schedule | app/generate_csv_data.py:180-183 | A flight departs between now and thirty days on and lands one to four whole hours later. It flies a listed aircraft model and has 100 to 300 seats. |
| CsvGenerator.DraftFlight | app/generate_csv_data.py:172-183 | Drafting succeeds exactly when some try finds an unused number and some listed airport has a code other than the drawn origin's. A failure is `DrawsExhausted` when no try is fresh, and `IndexError` when only the destination is missing. A drafted flight has a number not yet used, and its origin and destination are listed airports with different codes. It departs within thirty days of now and arrives one to four whole hours later, with a known aircraft and 100 to 300 seats. |
| CsvGenerator.NewFlights | app/generate_csv_data.py:151-206 | The draw records are drafted in turn, each against the stored numbers and the numbers drafted before it. The loop succeeds exactly when every draft does, and otherwise returns the error of the first failing draft. No new number clashes with a stored flight or with another new flight, and every flight is well drafted. |
| CsvGenerator.DrawLimits | app/generate_csv_data.py:223-225 | The n-1 drawn limits each lie in 10..capacity//n. The draw fails exactly when that range is empty and some draw is needed. |
| CsvGenerator.SeatLimitsPartition | app/generate_csv_data.py:221-232 | The split fails exactly when randint gets an empty range, or when a single fare has fewer than ten seats (indexing the empty list). Otherwise there is one limit per fare, the limits add up to the capacity, each is at least ten, and the drawn limits are kept as drawn, so the redistribution branch never changes one. |
| CsvGenerator.FareNamesAsWritten | app/generate_csv_data.py:235 | Names drawn from the doubled name list fail only when more than six are asked for. Otherwise the result is n fare names, each occurring at most as often as in the doubled list. |
| CsvGenerator.AsWrittenFareNamesRepeat | app/generate_csv_data.py:235 | One draw from the doubled list names two fares of a flight "Economy". |
| CsvGenerator.DoubledPoolRepeats | app/generate_csv_data.py:235 | For any name list, sampling two from the doubled list can return its first name twice. |
| CsvGenerator.FareNamesFor | app/generate_csv_data.py:235 | Names drawn from the plain list are pairwise different fare names, for up to three fares. |
| CsvGenerator.FareRows | app/generate_csv_data.py:237-251 | Fare k gets name k, price k, a known currency, limit k and nothing sold. |
| CsvGenerator.FaresFor | app/generate_csv_data.py:217-251 | A flight with at least 100 seats always gets one to three fares for its number. Their names differ, each is in USD or EUR with nothing sold, and their seat limits are at least ten each and add up to the flight's capacity. |

## Left out

- Logging, CSV file writing, session commit and rollback, and the generic `except Exception` handlers are not modelled. The model has no failing connection. Every current-schema insert checks its foreign keys first, so those handlers catch only database failures. The one exception is `open_till_for_cashier`, described in the next line.
- TillService.OpenTill: `open_till_for_cashier` inserts a till for the caller's id without looking the user up. For an unknown user the `tills.cashier_id` foreign key rejects the commit, and the handler returns "Failed to open till". The model returns `Ok` there, because the legacy till table is modelled without a users table.
- DECIMAL column scales (prices to 2 places, rates to 4) are not modelled. Money is exact `real`, and `Decimal(str(x))` conversions are the identity.
- Clocks: `datetime.now(timezone.utc)` and the column time-stamp defaults are the parameter `now`.
- The transaction `description` text and `created_at` column, and the cashier name and e-mail joined into till listings, are not modelled.
- `.all()` and `.first()` without ORDER BY are read in id order. The database promises no order.
- The `IntegrityError` branches of `create_cash_desk` and `update_cash_desk` are not modelled. No unique key exists on the desk name, but a `None` for the NOT NULL `is_active` column passed to `update_cash_desk` raises one. The model's `isActive` is a `bool`, so it cannot express that call.
- Column widths and DECIMAL precision are not modelled. Seat numbers take at most 10 characters, passenger and desk names at most 100, and fare prices, ticket prices and ledger amounts at most DECIMAL(10,2). Balances take at most DECIMAL(12,2). An insert beyond these fails in the database, where the model succeeds.
- String comparison follows Dafny's exact `==`, not the database collation. SQL Server's default collations ignore case and trailing blanks, so there the seat lookup of `sell_ticket` treats "12a" and "12A " as seat "12A" and refuses the sale, where the model sells it. The same holds for the other string lookups (currency codes, airport codes).
- The role enum differs between the migration (four values, including SALES_MANAGER) and the legacy models (three values). Both are modelled separately and not reconciled.
- `not user.airport_id` treats airport id 0 as missing. Ids start at 1, and the model tests only for presence.
- When the fare and sale currencies agree but a base-to-base rate row exists, the ticket records that row's rate while charging the base price. The model keeps this behaviour.
- `update_cash_desk` does not check for an open shift on the desk, so deactivating or moving a busy desk is allowed. The model keeps this.
- The other services (authentication, flights), the routes, `get_all_cash_desks` and the CSV importer are not part of this model.
- `generate_smart_csv` only composes the three generator steps, so it has no member of its own. The stored flights it rewrites with blank columns are not modelled.
- Faker's departure draw is modelled as whole seconds between now and thirty days on. `round(random.uniform(50, 500), 2)` is floating point, so fare prices are given values.
- `get_existing_airports` and `get_existing_flights` return empty lists when the database fails. This is not modelled.
- CsvGenerator.FreshNumber: a finite list of tries ends in `DrawsExhausted`, where `generate_flights_csv` keeps drawing. It would loop forever once all 900 numbers are used.
- CsvGenerator.NewAirports: `num_new_airports` is a `nat`. `random.sample` with a negative count raises `ValueError`, which is not modelled.

## Findings

| source | as written | input that shows it | evidently intended | confidence | as-written member | corrected member |
|---|---|---|---|---|---|---|
| app/services/ticket_service.py:28 | The seat check looks up the raw `seat_number`, but the ticket stores `seat_number.strip()` | Seat "12A" of flight 0 is sold, then " 12A" is sold on the same flight: the check passes and a second ticket for "12A" is stored | Look up the stripped seat number, so each seat of a flight is sold once | not executed | TicketService.AsWrittenSellsSeatTwice | TicketService.CorrectedRefusesSeatTwice |
| app/services/ticket_service.py:85 | `reference_id=ticket.id` is read before the ticket is added to the session, so it is None | Any successful sale, e.g. " 12A" above: the entry has reference type "ticket" and no reference id | The entry refers to the ticket just sold | not executed | TicketService.AsWrittenEntryLosesTicket | TicketService.SaleBooksEntry |
| app/generate_csv_data.py:235 | Fare names come from `random.sample(fare_names * 2, n)`, so a name can occur twice | n = 2 with the draws picking positions 0 and then 2 of the remaining pool: two fares named "Economy" | Names unique per flight, as the comment says: sample from the plain list of three names | not executed | CsvGenerator.AsWrittenFareNamesRepeat | CsvGenerator.FaresFor |
