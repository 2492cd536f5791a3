/** Selling a ticket: the guard chain of `sell_ticket`, the exchange-rate
    lookup and price conversion, and the four writes of a successful sale
    (seat count, account balance, ticket row, ledger entry). */
module TicketService {
  import opened Results
  import opened Text
  import opened Tables
  import opened Schema
  import opened Invariants
  import ShiftService

  datatype SaleError =
    | NoOpenShift
    | FareNotFound                      // no such fare, or it belongs to another flight
    | SoldOut
    | SeatTaken
    | RateNotFound
    | AccountNotFound(currency: Currency)
    | Internal                          // the fare's flight row is missing

  /** What the caller gets back.  Passenger and seat are echoed as given,
      not stripped. */
  datatype Receipt = Receipt(ticketId: Id, flightNumber: string, passenger: string,
                             seat: string, price: real, currency: Currency)

  /** Which revision of the sale is meant: the code as it stands, or with
      the two defects recorded under Findings repaired. */
  datatype Revision = AsWritten | Corrected

  // ---------------------------------------------------------------- exchange rate

  predicate RateFor(r: ExchangeRate, base: Currency, target: Currency) {
    r.base == base && r.target == target
  }

  /** `ExchangeRate.query.filter_by(base, target).order_by(valid_at.desc()).first()`:
      the matching row with the greatest `valid_at`; among rows with equal
      `valid_at` the earliest row is taken. */
  function LatestRate(rates: seq<ExchangeRate>, base: Currency, target: Currency): (r: Option<Id>)
    ensures r.None? <==> forall i :: 0 <= i < |rates| ==> !RateFor(rates[i], base, target)
    ensures r.Some? ==> r.value < |rates| && RateFor(rates[r.value], base, target)
    ensures r.Some? ==> forall i :: 0 <= i < |rates| && RateFor(rates[i], base, target) ==>
                          rates[i].validAt <= rates[r.value].validAt
  {
    if |rates| == 0 then None
    else
      var last := |rates| - 1;
      var earlier := LatestRate(rates[..last], base, target);
      if !RateFor(rates[last], base, target) then earlier
      else if earlier.None? || rates[earlier.value].validAt < rates[last].validAt then Some(last)
      else earlier
  }

  /** The rate recorded on the ticket: the latest row's rate, or 1. */
  function RecordedRate(rates: seq<ExchangeRate>, base: Currency, target: Currency): real {
    match LatestRate(rates, base, target)
    case Some(k) => rates[k].rate
    case None => 1.0
  }

  // ---------------------------------------------------------------- seat check

  /** The key the seat-uniqueness query compares against the stored
      (stripped) seat numbers. */
  function SeatQueryKey(rev: Revision, seat: string): string {
    match rev
    case AsWritten => seat
    case Corrected => Strip(seat)
  }

  ghost predicate SeatHeld(tickets: seq<Ticket>, flight: Id, seat: string) {
    exists i :: 0 <= i < |tickets| && tickets[i].flightId == flight && tickets[i].seat == seat
  }

  // ---------------------------------------------------------------- sell_ticket

  // ---------------------------------------------------------------- when a sale goes through

  /** `shift` is the cashier's open shift that `sell_ticket` picks up: the
      lowest-numbered one. */
  ghost predicate FirstOpenShift(shifts: seq<Shift>, cashier: Id, shift: Id) {
    && shift < |shifts| && shifts[shift].cashierId == cashier && shifts[shift].status == Open
    && forall j :: 0 <= j < shift ==> !(shifts[j].cashierId == cashier && shifts[j].status == Open)
  }

  /** The first four guards pass: the cashier is on shift, the fare exists
      for the flight, it has a seat left and nobody holds the seat. */
  ghost predicate SeatFree(rev: Revision, st: Store, cashier: Id, flight: Id, fareId: Id, seat: string) {
    && ShiftService.CashierHasOpenShift(st.shifts, cashier)
    && fareId < |st.fares| && st.fares[fareId].flightId == flight
    && st.fares[fareId].seatsSold < st.fares[fareId].seatLimit
    && !SeatHeld(st.tickets, flight, SeatQueryKey(rev, seat))
  }

  /** A price in `base` can be charged in `target`: no conversion is
      needed, or some rate row covers the pair. */
  ghost predicate RateKnown(rates: seq<ExchangeRate>, base: Currency, target: Currency) {
    base == target || exists i :: 0 <= i < |rates| && RateFor(rates[i], base, target)
  }

  /** The desk of the cashier's open shift keeps an account in `currency`. */
  ghost predicate DeskAccountExists(st: Store, cashier: Id, currency: Currency) {
    exists s: Id, a: int :: FirstOpenShift(st.shifts, cashier, s) && 0 <= a < |st.accounts|
                   && st.accounts[a].deskId == st.shifts[s].deskId && st.accounts[a].currency == currency
  }

  /** Only one shift is the first open one, so when that shift's desk has
      no account in `currency`, no open shift of the cashier supplies one. */
  lemma NoDeskAccount(st: Store, cashier: Id, currency: Currency, shift: Id)
    requires FirstOpenShift(st.shifts, cashier, shift)
    requires forall a :: 0 <= a < |st.accounts| ==>
               !(st.accounts[a].deskId == st.shifts[shift].deskId && st.accounts[a].currency == currency)
    ensures !DeskAccountExists(st, cashier, currency)
  {
    forall s: Id, a: int | FirstOpenShift(st.shifts, cashier, s) && 0 <= a < |st.accounts|
      ensures !(st.accounts[a].deskId == st.shifts[s].deskId && st.accounts[a].currency == currency)
    {
      if s < shift {
        assert false;
      } else if shift < s {
        assert false;
      }
    }
  }

  /** Every guard of `sell_ticket` passes, and the fare's flight row exists. */
  ghost predicate SaleAllowed(rev: Revision, st: Store, cashier: Id, flight: Id, fareId: Id,
                              seat: string, currency: Currency) {
    && SeatFree(rev, st, cashier, flight, fareId, seat)
    && RateKnown(st.rates, st.fares[fareId].baseCurrency, currency)
    && DeskAccountExists(st, cashier, currency)
    && flight < |st.flights|
  }

  /** What the guards of a sale settle before anything is written. */
  datatype Plan = Plan(shiftId: Id, accountId: Id, rate: real, amount: real)

  /** The guard chain of `sell_ticket`, in the order it checks them: each
      failing guard yields its own error, and the sale is planned exactly
      when every guard passes. */
  function CheckSale(rev: Revision, st: Store, cashier: Id, flight: Id, fareId: Id,
                     seat: string, currency: Currency): (r: Result<Plan, SaleError>)
    ensures r.Ok? <==> SaleAllowed(rev, st, cashier, flight, fareId, seat, currency)
    ensures (SeatFree(rev, st, cashier, flight, fareId, seat)
             && !RateKnown(st.rates, st.fares[fareId].baseCurrency, currency)) ==> r == Err(RateNotFound)
    ensures (SeatFree(rev, st, cashier, flight, fareId, seat)
             && RateKnown(st.rates, st.fares[fareId].baseCurrency, currency)
             && !DeskAccountExists(st, cashier, currency)) ==> r == Err(AccountNotFound(currency))
    ensures r.Err? && r.error.AccountNotFound? ==>
              r.error.currency == currency && !DeskAccountExists(st, cashier, currency)
    ensures !ShiftService.CashierHasOpenShift(st.shifts, cashier) ==> r == Err(NoOpenShift)
    ensures (ShiftService.CashierHasOpenShift(st.shifts, cashier)
             && (fareId >= |st.fares| || st.fares[fareId].flightId != flight)) ==> r == Err(FareNotFound)
    ensures (ShiftService.CashierHasOpenShift(st.shifts, cashier)
             && fareId < |st.fares| && st.fares[fareId].flightId == flight
             && st.fares[fareId].seatsSold >= st.fares[fareId].seatLimit) ==> r == Err(SoldOut)
    ensures (ShiftService.CashierHasOpenShift(st.shifts, cashier)
             && fareId < |st.fares| && st.fares[fareId].flightId == flight
             && st.fares[fareId].seatsSold < st.fares[fareId].seatLimit
             && SeatHeld(st.tickets, flight, SeatQueryKey(rev, seat))) ==> r == Err(SeatTaken)
    ensures r == Err(RateNotFound) ==>
              && fareId < |st.fares|
              && st.fares[fareId].baseCurrency != currency
              && forall i :: 0 <= i < |st.rates| ==> !RateFor(st.rates[i], st.fares[fareId].baseCurrency, currency)
    ensures r.Ok? ==>
              var p := r.value;
              && fareId < |st.fares| && flight < |st.flights|
              && st.fares[fareId].flightId == flight
              && st.fares[fareId].seatsSold < st.fares[fareId].seatLimit
              && !SeatHeld(st.tickets, flight, SeatQueryKey(rev, seat))
              && p.shiftId < |st.shifts| && st.shifts[p.shiftId].status == Open
              && st.shifts[p.shiftId].cashierId == cashier
              && p.accountId < |st.accounts|
              && st.accounts[p.accountId].deskId == st.shifts[p.shiftId].deskId
              && st.accounts[p.accountId].currency == currency
    ensures r.Ok? ==>
              var fare := st.fares[fareId];
              && (fare.baseCurrency == currency || LatestRate(st.rates, fare.baseCurrency, currency).Some?)
              && r.value.rate == RecordedRate(st.rates, fare.baseCurrency, currency)
              && (fare.baseCurrency == currency ==> r.value.amount == fare.basePrice)
              && (fare.baseCurrency != currency ==> r.value.amount == fare.basePrice * r.value.rate)
  {
    match FindFirst(st.shifts, (sh: Shift) => sh.cashierId == cashier && sh.status == Open)
    case None => Err(NoOpenShift)
    case Some(shiftId) =>
      if fareId >= |st.fares| || st.fares[fareId].flightId != flight then Err(FareNotFound)
      else
        var fare := st.fares[fareId];
        var key := SeatQueryKey(rev, seat);
        if fare.seatsSold >= fare.seatLimit then Err(SoldOut)
        else if FindFirst(st.tickets, (t: Ticket) => t.flightId == flight && t.seat == key).Some? then
          Err(SeatTaken)
        else if LatestRate(st.rates, fare.baseCurrency, currency).None? && fare.baseCurrency != currency then
          Err(RateNotFound)
        else
          var rate := RecordedRate(st.rates, fare.baseCurrency, currency);
          var amount := if fare.baseCurrency != currency then fare.basePrice * rate else fare.basePrice;
          var desk := st.shifts[shiftId].deskId;
          match FindFirst(st.accounts, (a: Account) => a.deskId == desk && a.currency == currency)
          case None =>
            NoDeskAccount(st, cashier, currency, shiftId);
            Err(AccountNotFound(currency))
          case Some(acc) =>
            assert FirstOpenShift(st.shifts, cashier, shiftId);
            // `sell_ticket` reaches `flight_fare.flight` only while building
            // the ledger entry; a missing row raises and the sale is rolled back
            if flight >= |st.flights| then Err(Internal)
            else Ok(Plan(shiftId, acc, rate, amount))
  }

  /** The writes of a sale that passed its guards. */
  function ApplySale(rev: Revision, st: Store, p: Plan, flight: Id, fareId: Id,
                     passenger: string, seat: string, currency: Currency, now: Time): (Store, Receipt)
    requires p.accountId < |st.accounts| && fareId < |st.fares| && flight < |st.flights|
  {
    var fare := st.fares[fareId];
    var ticketId := |st.tickets|;
    var ticket := Ticket(flight, fareId, p.shiftId, Strip(passenger), Strip(seat), p.amount,
                         currency, fare.basePrice, p.rate, now, Sold);
    var account := st.accounts[p.accountId].(balance := st.accounts[p.accountId].balance + p.amount,
                                             lastUpdated := now);
    var reference := if rev == Corrected then Some(ticketId) else None;
    var entry := Transaction(p.shiftId, p.accountId, Sale, p.amount, currency, Some("ticket"), reference);
    var post := st.(tickets := st.tickets + [ticket],
                    fares := st.fares[fareId := fare.(seatsSold := fare.seatsSold + 1)],
                    accounts := st.accounts[p.accountId := account],
                    transactions := st.transactions + [entry]);
    (post, Receipt(ticketId, st.flights[flight].number, passenger, seat, p.amount, currency))
  }

  lemma ApplySaleEffects(rev: Revision, st: Store, p: Plan, flight: Id, fareId: Id,
                         passenger: string, seat: string, currency: Currency, now: Time)
    requires p.accountId < |st.accounts| && fareId < |st.fares| && flight < |st.flights|
    ensures var post := ApplySale(rev, st, p, flight, fareId, passenger, seat, currency, now).0;
            && |post.tickets| == |st.tickets| + 1 && post.tickets[..|st.tickets|] == st.tickets
            && |post.transactions| == |st.transactions| + 1
            && post.transactions[..|st.transactions|] == st.transactions
            && post.tickets[|st.tickets|]
               == Ticket(flight, fareId, p.shiftId, Strip(passenger), Strip(seat), p.amount,
                         currency, st.fares[fareId].basePrice, p.rate, now, Sold)
            && post.transactions[|st.transactions|]
               == Transaction(p.shiftId, p.accountId, Sale, p.amount, currency, Some("ticket"),
                              if rev == Corrected then Some(|st.tickets|) else None)
    ensures var post := ApplySale(rev, st, p, flight, fareId, passenger, seat, currency, now).0;
            && post.accounts == st.accounts[p.accountId := st.accounts[p.accountId].(
                                  balance := st.accounts[p.accountId].balance + p.amount, lastUpdated := now)]
            && post.fares == st.fares[fareId := st.fares[fareId].(seatsSold := st.fares[fareId].seatsSold + 1)]
            && post.(tickets := st.tickets, transactions := st.transactions,
                     accounts := st.accounts, fares := st.fares) == st
  {
  }

  /** `sell_ticket` as the code stands: the seat check compares the raw seat
      number, and the ledger entry's `reference_id` is read before the
      ticket has an id. */
  function SellTicketAsWritten(st: Store, cashier: Id, flight: Id, fareId: Id,
                               passenger: string, seat: string, currency: Currency, now: Time)
    : (r: Result<(Store, Receipt), SaleError>)
    ensures r.Ok? <==> SaleAllowed(AsWritten, st, cashier, flight, fareId, seat, currency)
    ensures r.Ok? ==> !SeatHeld(st.tickets, flight, seat)
    ensures r.Ok? ==> |r.value.0.tickets| == |st.tickets| + 1
                      && r.value.0.tickets[|st.tickets|].seat == Strip(seat)
    ensures r.Ok? ==> |r.value.0.transactions| == |st.transactions| + 1
                      && r.value.0.transactions[|st.transactions|].referenceId.None?
  {
    match CheckSale(AsWritten, st, cashier, flight, fareId, seat, currency)
    case Err(e) => Err(e)
    case Ok(p) => Ok(ApplySale(AsWritten, st, p, flight, fareId, passenger, seat, currency, now))
  }

  /** `sell_ticket` with the seat check on the stored (stripped) seat
      number and the ledger entry pointing at the new ticket. */
  function SellTicket(st: Store, cashier: Id, flight: Id, fareId: Id,
                      passenger: string, seat: string, currency: Currency, now: Time)
    : (r: Result<(Store, Receipt), SaleError>)
    // the guards, in the order `sell_ticket` checks them; the sale goes
    // through exactly when all of them pass
    ensures r.Ok? <==> SaleAllowed(Corrected, st, cashier, flight, fareId, seat, currency)
    ensures !ShiftService.CashierHasOpenShift(st.shifts, cashier) ==> r == Err(NoOpenShift)
    ensures (ShiftService.CashierHasOpenShift(st.shifts, cashier)
             && (fareId >= |st.fares| || st.fares[fareId].flightId != flight)) ==> r == Err(FareNotFound)
    ensures (ShiftService.CashierHasOpenShift(st.shifts, cashier)
             && fareId < |st.fares| && st.fares[fareId].flightId == flight
             && st.fares[fareId].seatsSold >= st.fares[fareId].seatLimit) ==> r == Err(SoldOut)
    ensures (ShiftService.CashierHasOpenShift(st.shifts, cashier)
             && fareId < |st.fares| && st.fares[fareId].flightId == flight
             && st.fares[fareId].seatsSold < st.fares[fareId].seatLimit
             && SeatHeld(st.tickets, flight, Strip(seat))) ==> r == Err(SeatTaken)
    ensures r == Err(RateNotFound) ==>
              && fareId < |st.fares|
              && st.fares[fareId].baseCurrency != currency
              && forall i :: 0 <= i < |st.rates| ==> !RateFor(st.rates[i], st.fares[fareId].baseCurrency, currency)
    ensures (SeatFree(Corrected, st, cashier, flight, fareId, seat)
             && !RateKnown(st.rates, st.fares[fareId].baseCurrency, currency)) ==> r == Err(RateNotFound)
    ensures (SeatFree(Corrected, st, cashier, flight, fareId, seat)
             && RateKnown(st.rates, st.fares[fareId].baseCurrency, currency)
             && !DeskAccountExists(st, cashier, currency)) ==> r == Err(AccountNotFound(currency))
    ensures r.Err? && r.error.AccountNotFound? ==>
              r.error.currency == currency && !DeskAccountExists(st, cashier, currency)
    // a sale appends one ticket and one ledger entry
    ensures r.Ok? ==>
              && fareId < |st.fares| && flight < |st.flights|
              && |r.value.0.tickets| == |st.tickets| + 1 && r.value.0.tickets[..|st.tickets|] == st.tickets
              && |r.value.0.transactions| == |st.transactions| + 1
              && r.value.0.transactions[..|st.transactions|] == st.transactions
  {
    match CheckSale(Corrected, st, cashier, flight, fareId, seat, currency)
    case Err(e) => Err(e)
    case Ok(p) =>
      ApplySaleEffects(Corrected, st, p, flight, fareId, passenger, seat, currency, now);
      Ok(ApplySale(Corrected, st, p, flight, fareId, passenger, seat, currency, now))
  }

  /** A successful sale is the plan of its guards, applied. */
  lemma SaleIsPlanned(st: Store, cashier: Id, flight: Id, fareId: Id, passenger: string,
      seat: string, currency: Currency, now: Time, post: Store, receipt: Receipt)
    requires SellTicket(st, cashier, flight, fareId, passenger, seat, currency, now) == Ok((post, receipt))
    ensures CheckSale(Corrected, st, cashier, flight, fareId, seat, currency).Ok?
    ensures var p := CheckSale(Corrected, st, cashier, flight, fareId, seat, currency).value;
            (post, receipt) == ApplySale(Corrected, st, p, flight, fareId, passenger, seat, currency, now)
  {
  }

  /** A sale records a sold ticket on an open shift of the cashier, at the
      converted price, with the base price and the rate used. */
  lemma SaleRecordsTicket(st: Store, cashier: Id, flight: Id, fareId: Id, passenger: string,
      seat: string, currency: Currency, now: Time, post: Store, receipt: Receipt)
    requires SellTicket(st, cashier, flight, fareId, passenger, seat, currency, now) == Ok((post, receipt))
    ensures fareId < |st.fares| && |post.tickets| == |st.tickets| + 1
    ensures var fare := st.fares[fareId];
            var t := post.tickets[|st.tickets|];
            && t.shiftId < |st.shifts| && st.shifts[t.shiftId].status == Open
            && st.shifts[t.shiftId].cashierId == cashier
            && t == Ticket(flight, fareId, t.shiftId, Strip(passenger), Strip(seat), t.price, currency,
                           fare.basePrice, RecordedRate(st.rates, fare.baseCurrency, currency), now, Sold)
            && (fare.baseCurrency == currency ==> t.price == fare.basePrice)
            && (fare.baseCurrency != currency ==> t.price == fare.basePrice * t.exchangeRate)
  {
    SaleIsPlanned(st, cashier, flight, fareId, passenger, seat, currency, now, post, receipt);
    var p := CheckSale(Corrected, st, cashier, flight, fareId, seat, currency).value;
    ApplySaleEffects(Corrected, st, p, flight, fareId, passenger, seat, currency, now);
    var t := post.tickets[|st.tickets|];
    assert t.shiftId == p.shiftId && t.price == p.amount && t.exchangeRate == p.rate;
  }

  /** A sale books one SALE entry of the ticket's price, on the account of
      the shift's desk in the sale currency, and adds it to that balance. */
  lemma SaleBooksEntry(st: Store, cashier: Id, flight: Id, fareId: Id, passenger: string,
      seat: string, currency: Currency, now: Time, post: Store, receipt: Receipt)
    requires SellTicket(st, cashier, flight, fareId, passenger, seat, currency, now) == Ok((post, receipt))
    ensures |post.tickets| == |st.tickets| + 1 && |post.transactions| == |st.transactions| + 1
    ensures var t := post.tickets[|st.tickets|];
            var e := post.transactions[|st.transactions|];
            && t.shiftId < |st.shifts|
            && e == Transaction(t.shiftId, e.accountId, Sale, t.price, currency, Some("ticket"), Some(|st.tickets|))
            && e.accountId < |st.accounts|
            && st.accounts[e.accountId].deskId == st.shifts[t.shiftId].deskId
            && st.accounts[e.accountId].currency == currency
            && post.accounts == st.accounts[e.accountId := st.accounts[e.accountId].(
                                  balance := st.accounts[e.accountId].balance + t.price,
                                  lastUpdated := now)]
  {
    SaleIsPlanned(st, cashier, flight, fareId, passenger, seat, currency, now, post, receipt);
    var p := CheckSale(Corrected, st, cashier, flight, fareId, seat, currency).value;
    ApplySaleEffects(Corrected, st, p, flight, fareId, passenger, seat, currency, now);
  }

  /** A sale counts one more seat on the fare and touches no other table. */
  lemma SaleCountsSeat(st: Store, cashier: Id, flight: Id, fareId: Id, passenger: string,
      seat: string, currency: Currency, now: Time, post: Store, receipt: Receipt)
    requires SellTicket(st, cashier, flight, fareId, passenger, seat, currency, now) == Ok((post, receipt))
    ensures fareId < |st.fares| && flight < |st.flights| && |post.tickets| == |st.tickets| + 1
    ensures var fare := st.fares[fareId];
            && post.fares == st.fares[fareId := fare.(seatsSold := fare.seatsSold + 1)]
            && post.(tickets := st.tickets, transactions := st.transactions,
                     accounts := st.accounts, fares := st.fares) == st
            && receipt == Receipt(|st.tickets|, st.flights[flight].number, passenger, seat,
                                  post.tickets[|st.tickets|].price, currency)
  {
    SaleIsPlanned(st, cashier, flight, fareId, passenger, seat, currency, now, post, receipt);
    var p := CheckSale(Corrected, st, cashier, flight, fareId, seat, currency).value;
    ApplySaleEffects(Corrected, st, p, flight, fareId, passenger, seat, currency, now);
  }

  /** The shape of a sale's writes, stated on states alone: one ticket
      appended on a free seat, one entry appended and added to its account,
      one more seat counted on a fare that had room. */
  ghost predicate SaleStep(st: Store, post: Store, fareId: Id, t: Ticket, e: Transaction, now: Time) {
    && fareId < |st.fares| && st.fares[fareId].seatsSold < st.fares[fareId].seatLimit
    && e.accountId < |st.accounts|
    && t.flightId < |st.flights| && t.fareId < |st.fares| && t.shiftId < |st.shifts|
    && e.shiftId < |st.shifts| && e.currency == st.accounts[e.accountId].currency
    && !SeatHeld(st.tickets, t.flightId, t.seat)
    && post.tickets == st.tickets + [t]
    && post.transactions == st.transactions + [e]
    && post.fares == st.fares[fareId := st.fares[fareId].(seatsSold := st.fares[fareId].seatsSold + 1)]
    && post.accounts == st.accounts[e.accountId := st.accounts[e.accountId].(
                          balance := st.accounts[e.accountId].balance + e.amount, lastUpdated := now)]
    && post.(tickets := st.tickets, transactions := st.transactions,
             accounts := st.accounts, fares := st.fares) == st
  }

  lemma SaleStepKeepsSchema(st: Store, post: Store, fareId: Id, t: Ticket, e: Transaction, now: Time)
    requires SchemaValid(st) && SaleStep(st, post, fareId, t, e, now)
    ensures SchemaValid(post)
  {
    assert forall i :: 0 <= i < |st.accounts| ==> post.accounts[i].deskId == st.accounts[i].deskId;
    assert forall i :: 0 <= i < |st.fares| ==> post.fares[i].flightId == st.fares[i].flightId;
    assert forall i :: 0 <= i < |st.tickets| ==> post.tickets[i] == st.tickets[i];
    assert forall i :: 0 <= i < |st.transactions| ==> post.transactions[i] == st.transactions[i];
    assert ForeignKeysHold(post);
  }

  lemma {:induction false} SaleStepKeepsLedger(st: Store, post: Store, fareId: Id, t: Ticket, e: Transaction, now: Time)
    requires LedgerBalanced(st) && EntriesInAccountCurrency(st) && SaleStep(st, post, fareId, t, e, now)
    ensures LedgerBalanced(post) && EntriesInAccountCurrency(post)
  {
    forall a | 0 <= a < |post.accounts|
      ensures post.accounts[a].balance == LedgerSum(post.transactions, a)
    {
      LedgerSumAppend(st.transactions, e, a);
    }
    forall i | 0 <= i < |post.transactions| && post.transactions[i].accountId < |post.accounts|
      ensures post.transactions[i].currency == post.accounts[post.transactions[i].accountId].currency
    {
      if i < |st.transactions| {
        assert post.transactions[i] == st.transactions[i];
      }
    }
  }

  lemma SaleStepKeepsSeats(st: Store, post: Store, fareId: Id, t: Ticket, e: Transaction, now: Time)
    requires ServiceInvariants(st) && SaleStep(st, post, fareId, t, e, now)
    ensures OneAccountPerDeskCurrency(post.accounts) && SeatsWithinLimits(post.fares)
    ensures OneTicketPerSeat(post.tickets)
  {
    var n := |st.tickets|;
    assert forall i :: 0 <= i < |st.accounts| ==>
      post.accounts[i].deskId == st.accounts[i].deskId && post.accounts[i].currency == st.accounts[i].currency;
    forall i, j | 0 <= i < j < |post.tickets|
      ensures (post.tickets[i].flightId, post.tickets[i].seat) != (post.tickets[j].flightId, post.tickets[j].seat)
    {
      if j == n {
        assert post.tickets[i] == st.tickets[i];
      } else {
        assert post.tickets[i] == st.tickets[i] && post.tickets[j] == st.tickets[j];
      }
    }
  }

  /** A sale keeps the store valid; in particular seats sold stay within the
      fare's limit, no seat of a flight is sold twice, and every account's
      balance stays equal to the sum of its ledger entries. */
  lemma SellTicketPreservesValid(st: Store, cashier: Id, flight: Id, fareId: Id, passenger: string,
                                 seat: string, currency: Currency, now: Time)
    requires Valid(st)
    ensures SellTicket(st, cashier, flight, fareId, passenger, seat, currency, now).Ok? ==>
              Valid(SellTicket(st, cashier, flight, fareId, passenger, seat, currency, now).value.0)
  {
    var r := SellTicket(st, cashier, flight, fareId, passenger, seat, currency, now);
    if r.Ok? {
      var post := r.value.0;
      SaleIsStep(st, cashier, flight, fareId, passenger, seat, currency, now, post, r.value.1);
      SaleStepKeepsValid(st, post, fareId, post.tickets[|st.tickets|], post.transactions[|st.transactions|], now);
    }
  }

  /** A successful sale is a sale step from the old store to the new one. */
  lemma SaleIsStep(st: Store, cashier: Id, flight: Id, fareId: Id, passenger: string,
                   seat: string, currency: Currency, now: Time, post: Store, receipt: Receipt)
    requires SellTicket(st, cashier, flight, fareId, passenger, seat, currency, now) == Ok((post, receipt))
    ensures |post.tickets| == |st.tickets| + 1 && |post.transactions| == |st.transactions| + 1
    ensures SaleStep(st, post, fareId, post.tickets[|st.tickets|], post.transactions[|st.transactions|], now)
  {
    SaleIsPlanned(st, cashier, flight, fareId, passenger, seat, currency, now, post, receipt);
    var p := CheckSale(Corrected, st, cashier, flight, fareId, seat, currency).value;
    ApplySaleEffects(Corrected, st, p, flight, fareId, passenger, seat, currency, now);
    assert SeatQueryKey(Corrected, seat) == Strip(seat);
    var t := post.tickets[|st.tickets|];
    var e := post.transactions[|st.transactions|];
    assert post.tickets == st.tickets + [t];
    assert post.transactions == st.transactions + [e];
  }

  /** A sale step keeps every invariant of the store. */
  lemma SaleStepKeepsValid(st: Store, post: Store, fareId: Id, t: Ticket, e: Transaction, now: Time)
    requires Valid(st) && SaleStep(st, post, fareId, t, e, now)
    ensures Valid(post)
  {
    SaleStepKeepsSchema(st, post, fareId, t, e, now);
    SaleStepKeepsLedger(st, post, fareId, t, e, now);
    SaleStepKeepsSeats(st, post, fareId, t, e, now);
  }

  /** With one open shift per cashier, a sale is booked on the cashier's
      open shift, and succeeds only if that shift's desk has an account in
      the sale currency. */
  lemma SaleNeedsDeskAccount(st: Store, cashier: Id, flight: Id, fareId: Id, passenger: string,
                             seat: string, currency: Currency, now: Time, shift: Id,
                             post: Store, receipt: Receipt)
    requires OneOpenShiftPerCashier(st.shifts)
    requires shift < |st.shifts| && st.shifts[shift].status == Open && st.shifts[shift].cashierId == cashier
    requires SellTicket(st, cashier, flight, fareId, passenger, seat, currency, now) == Ok((post, receipt))
    ensures |post.tickets| == |st.tickets| + 1 && post.tickets[|st.tickets|].shiftId == shift
    ensures exists a :: 0 <= a < |st.accounts| && st.accounts[a].deskId == st.shifts[shift].deskId
                                               && st.accounts[a].currency == currency
  {
    SaleBooksEntry(st, cashier, flight, fareId, passenger, seat, currency, now, post, receipt);
    SaleRecordsTicket(st, cashier, flight, fareId, passenger, seat, currency, now, post, receipt);
    var s := post.tickets[|st.tickets|].shiftId;
    var a := post.transactions[|st.transactions|].accountId;
    assert st.shifts[s].cashierId == st.shifts[shift].cashierId;
    assert st.accounts[a].deskId == st.shifts[shift].deskId && st.accounts[a].currency == currency;
  }

  // ---------------------------------------------------------------- a seat sold twice

  /** One sold ticket, seat "12A" of flight 0, on the open shift of cashier 0. */
  function OneSeatSoldStore(): Store {
    Store(
      [Airport("KBP", "Boryspil", "Kyiv"), Airport("LWO", "Lviv", "Lviv")],
      [User("Cashier", "cashier@example.com", Cashier, Some(0))],
      [CashDesk(0, "Desk 1", true)],
      [Account(0, "USD", 100.0, 0)],
      [Shift(0, 0, 0, None, Open)],
      [Flight("FL100", 0, 1, 10, 20, "Boeing 737", 100)],
      [Fare(0, "Economy", 100.0, "USD", 10, 1)],
      [Ticket(0, 0, 0, "Ann", "12A", 100.0, "USD", 100.0, 1.0, 5, Sold)],
      [Transaction(0, 0, Sale, 100.0, "USD", Some("ticket"), Some(0))],
      [])
  }

  lemma OneSeatSoldStoreValid()
    ensures Valid(OneSeatSoldStore())
  {
    var st := OneSeatSoldStore();
    assert ChecksHold(st);
    assert UniqueKeysHold(st);
    assert ForeignKeysHold(st);
    assert LedgerSum(st.transactions, 0) == 100.0;
    assert LedgerBalanced(st);
  }

  lemma StripLeadingSpaceSeat()
    ensures Strip(" 12A") == "12A"
  {
    var s := " 12A";
    assert IsSpace(s[0]) && !IsSpace(s[1]) && !IsSpace(s[3]);
    assert SkipSpaces(s, 1) == 1;
    assert SkipSpaces(s, 0) == 1;
    assert SkipSpacesBack(s, 1, 4) == 4;
    assert s[1..4] == "12A";
  }

  lemma OneSeatSoldFacts()
    ensures ShiftService.CashierHasOpenShift(OneSeatSoldStore().shifts, 0)
    ensures !SeatHeld(OneSeatSoldStore().tickets, 0, " 12A")
    ensures SeatHeld(OneSeatSoldStore().tickets, 0, "12A")
  {
    var st := OneSeatSoldStore();
    assert st.shifts[0].cashierId == 0 && st.shifts[0].status == Open;
    assert st.tickets[0].seat != " 12A";
    assert st.tickets[0].flightId == 0 && st.tickets[0].seat == "12A";
  }

  lemma AsWrittenSeatCheckPasses()
    ensures CheckSale(AsWritten, OneSeatSoldStore(), 0, 0, 0, " 12A", "USD") == Ok(Plan(0, 0, 1.0, 100.0))
  {
    OneSeatSoldFacts();
    var st := OneSeatSoldStore();
    assert FindFirst(st.shifts, (sh: Shift) => sh.cashierId == 0 && sh.status == Open) == Some(0);
    assert FindFirst(st.accounts, (a: Account) => a.deskId == 0 && a.currency == "USD") == Some(0);
    assert LatestRate(st.rates, "USD", "USD") == None;
  }

  /** As written, selling " 12A" passes the seat check (no stored seat is
      " 12A") and stores a second ticket for seat "12A" of the same flight. */
  lemma AsWrittenSellsSeatTwice()
    ensures Valid(OneSeatSoldStore())
    ensures SellTicketAsWritten(OneSeatSoldStore(), 0, 0, 0, "Bob", " 12A", "USD", 6).Ok?
    ensures !OneTicketPerSeat(SellTicketAsWritten(OneSeatSoldStore(), 0, 0, 0, "Bob", " 12A", "USD", 6).value.0.tickets)
  {
    var st := OneSeatSoldStore();
    OneSeatSoldStoreValid();
    StripLeadingSpaceSeat();
    AsWrittenSeatCheckPasses();
    var p := Plan(0, 0, 1.0, 100.0);
    assert SellTicketAsWritten(st, 0, 0, 0, "Bob", " 12A", "USD", 6)
        == Ok(ApplySale(AsWritten, st, p, 0, 0, "Bob", " 12A", "USD", 6));
    var post := ApplySale(AsWritten, st, p, 0, 0, "Bob", " 12A", "USD", 6).0;
    assert post.tickets[1].seat == "12A";
    assert post.tickets[0].seat == post.tickets[1].seat && post.tickets[0].flightId == post.tickets[1].flightId;
  }

  /** As written, the ledger entry of that sale records no ticket id, so
      the entry cannot be traced back to the ticket it was booked for. */
  lemma AsWrittenEntryLosesTicket()
    ensures var r := SellTicketAsWritten(OneSeatSoldStore(), 0, 0, 0, "Bob", " 12A", "USD", 6);
            && r.Ok? && |r.value.0.transactions| == |OneSeatSoldStore().transactions| + 1
            && r.value.0.transactions[|OneSeatSoldStore().transactions|].referenceType == Some("ticket")
            && r.value.0.transactions[|OneSeatSoldStore().transactions|].referenceId == None
  {
    AsWrittenSellsSeatTwice();
  }

  /** The corrected check refuses the same sale. */
  lemma CorrectedRefusesSeatTwice()
    ensures SellTicket(OneSeatSoldStore(), 0, 0, 0, "Bob", " 12A", "USD", 6) == Err(SeatTaken)
  {
    OneSeatSoldFacts();
    StripLeadingSpaceSeat();
  }

  // ---------------------------------------------------------------- a sale in another currency

  /** An open shift on desk 0 with an empty EUR account, a 50 USD fare and
      a USD to EUR rate of 0.90. */
  function EuroSaleStore(): Store {
    Store(
      [Airport("KBP", "Boryspil", "Kyiv"), Airport("LWO", "Lviv", "Lviv")],
      [User("Cashier", "cashier@example.com", Cashier, Some(0))],
      [CashDesk(0, "Desk 1", true)],
      [Account(0, "EUR", 0.0, 0)],
      [Shift(0, 0, 0, None, Open)],
      [Flight("FL100", 0, 1, 10, 20, "Boeing 737", 100)],
      [Fare(0, "Economy", 50.0, "USD", 10, 0)],
      [],
      [],
      [ExchangeRate("USD", "EUR", 0.90, 0)])
  }

  /** Selling the 50 USD fare in EUR at 0.90 charges 45 EUR, keeps 50 as the
      base price and 0.90 as the rate on the ticket, and credits 45 to the
      EUR account. */
  lemma EuroSaleConverts()
    ensures var r := SellTicket(EuroSaleStore(), 0, 0, 0, "Ann", "1A", "EUR", 5);
            && r.Ok? && |r.value.0.tickets| == 1
            && r.value.0.tickets[0].price == 45.0 && r.value.0.tickets[0].currency == "EUR"
            && r.value.0.tickets[0].priceInBase == 50.0 && r.value.0.tickets[0].exchangeRate == 0.90
            && r.value.0.accounts[0].balance == 45.0
  {
    var st := EuroSaleStore();
    assert FindFirst(st.shifts, (sh: Shift) => sh.cashierId == 0 && sh.status == Open) == Some(0);
    assert LatestRate(st.rates, "USD", "EUR") == Some(0);
    assert FindFirst(st.accounts, (a: Account) => a.deskId == 0 && a.currency == "EUR") == Some(0);
    var p := Plan(0, 0, 0.90, 45.0);
    assert CheckSale(Corrected, st, 0, 0, 0, "1A", "EUR") == Ok(p);
    ApplySaleEffects(Corrected, st, p, 0, 0, "Ann", "1A", "EUR", 5);
  }
}
