/** The relational schema created by the initial migration: one datatype
    per table, the enum types with the labels the database stores, and the
    constraints the database itself enforces (check constraints, unique
    keys, foreign keys).  Every table is a sequence of rows; a row's primary
    key is its position, so an insert appends and nothing is ever deleted. */
module Schema {
  import opened Results
  import opened Tables

  type Id = nat
  /** A timestamp; the model only compares and copies them. */
  type Time = int
  /** A three-letter currency code such as "USD". */
  type Currency = string

  datatype UserRole = Cashier | Admin | Accountant | SalesManager
  datatype ShiftStatus = Open | Closed
  datatype TicketStatus = Sold | Refunded
  datatype TransactionType = Sale | Refund | Deposit | Withdrawal

  datatype Airport = Airport(code: string, name: string, location: string)

  /** Password hash, `password_changed` and `created_at` play no part in the
      business rules and are not modelled. */
  datatype User = User(name: string, email: string, role: UserRole, airportId: Option<Id>)

  datatype CashDesk = CashDesk(airportId: Id, name: string, isActive: bool)

  datatype Account = Account(deskId: Id, currency: Currency, balance: real, lastUpdated: Time)

  datatype Shift = Shift(deskId: Id, cashierId: Id, openedAt: Time, closedAt: Option<Time>, status: ShiftStatus)

  datatype Flight = Flight(number: string, originId: Id, destinationId: Id,
                           departure: Time, arrival: Time, aircraft: string, seatCapacity: int)

  datatype Fare = Fare(flightId: Id, name: string, basePrice: real, baseCurrency: Currency,
                       seatLimit: int, seatsSold: int)

  datatype Ticket = Ticket(flightId: Id, fareId: Id, shiftId: Id, passenger: string, seat: string,
                           price: real, currency: Currency, priceInBase: real, exchangeRate: real,
                           soldAt: Time, status: TicketStatus)

  /** `reference_type` / `reference_id` form a weak back-reference to the row
      that caused the entry; the free-text `description` is not modelled. */
  datatype Transaction = Transaction(shiftId: Id, accountId: Id, kind: TransactionType, amount: real,
                                     currency: Currency, referenceType: Option<string>,
                                     referenceId: Option<Id>)

  datatype ExchangeRate = ExchangeRate(base: Currency, target: Currency, rate: real, validAt: Time)

  datatype Store = Store(
    airports: seq<Airport>,
    users: seq<User>,
    desks: seq<CashDesk>,
    accounts: seq<Account>,
    shifts: seq<Shift>,
    flights: seq<Flight>,
    fares: seq<Fare>,
    tickets: seq<Ticket>,
    transactions: seq<Transaction>,
    rates: seq<ExchangeRate>)

  // ---------------------------------------------------------------- enum labels

  /** The labels of the `role` enum type. */
  function RoleLabel(r: UserRole): string {
    match r
    case Cashier => "CASHIER"
    case Admin => "ADMIN"
    case Accountant => "ACCOUNTANT"
    case SalesManager => "SALES_MANAGER"
  }

  /** Reading a stored `role` label: exactly the four labels are accepted,
      each as the role it labels. */
  function ParseRole(s: string): (r: Option<UserRole>)
    ensures forall x :: r == Some(x) <==> RoleLabel(x) == s
  {
    if s == "CASHIER" then Some(Cashier)
    else if s == "ADMIN" then Some(Admin)
    else if s == "ACCOUNTANT" then Some(Accountant)
    else if s == "SALES_MANAGER" then Some(SalesManager)
    else None
  }

  /** The labels of the `shift_status` enum type. */
  function ShiftStatusLabel(st: ShiftStatus): string {
    match st
    case Open => "open"
    case Closed => "closed"
  }

  function ParseShiftStatus(s: string): (r: Option<ShiftStatus>)
    ensures forall x :: r == Some(x) <==> ShiftStatusLabel(x) == s
  {
    if s == "open" then Some(Open)
    else if s == "closed" then Some(Closed)
    else None
  }

  /** The labels of the `ticket_status` enum type. */
  function TicketStatusLabel(st: TicketStatus): string {
    match st
    case Sold => "sold"
    case Refunded => "refunded"
  }

  function ParseTicketStatus(s: string): (r: Option<TicketStatus>)
    ensures forall x :: r == Some(x) <==> TicketStatusLabel(x) == s
  {
    if s == "sold" then Some(Sold)
    else if s == "refunded" then Some(Refunded)
    else None
  }

  /** The labels of the `transaction_type` enum type. */
  function TransactionTypeLabel(t: TransactionType): string {
    match t
    case Sale => "sale"
    case Refund => "refund"
    case Deposit => "deposit"
    case Withdrawal => "withdrawal"
  }

  function ParseTransactionType(s: string): (r: Option<TransactionType>)
    ensures forall x :: r == Some(x) <==> TransactionTypeLabel(x) == s
  {
    if s == "sale" then Some(Sale)
    else if s == "refund" then Some(Refund)
    else if s == "deposit" then Some(Deposit)
    else if s == "withdrawal" then Some(Withdrawal)
    else None
  }

  // ---------------------------------------------------------------- constraints

  /** `check_shift_status`: a shift that is not open has a closing time. */
  predicate ShiftChecked(sh: Shift) {
    sh.status == Open || sh.closedAt.Some?
  }

  /** `check_origin_destination`. */
  predicate FlightChecked(f: Flight) {
    f.originId != f.destinationId
  }

  ghost predicate ChecksHold(st: Store) {
    && (forall i :: 0 <= i < |st.shifts| ==> ShiftChecked(st.shifts[i]))
    && (forall i :: 0 <= i < |st.flights| ==> FlightChecked(st.flights[i]))
  }

  /** The three unique keys: airport code, user e-mail, flight number. */
  ghost predicate UniqueKeysHold(st: Store) {
    && UniqueBy(st.airports, (a: Airport) => a.code)
    && UniqueBy(st.users, (u: User) => u.email)
    && UniqueBy(st.flights, (f: Flight) => f.number)
  }

  ghost predicate ForeignKeysHold(st: Store) {
    && (forall i :: 0 <= i < |st.users| && st.users[i].airportId.Some? ==>
          st.users[i].airportId.value < |st.airports|)
    && (forall i :: 0 <= i < |st.desks| ==> st.desks[i].airportId < |st.airports|)
    && (forall i :: 0 <= i < |st.accounts| ==> st.accounts[i].deskId < |st.desks|)
    && (forall i :: 0 <= i < |st.shifts| ==>
          st.shifts[i].deskId < |st.desks| && st.shifts[i].cashierId < |st.users|)
    && (forall i :: 0 <= i < |st.flights| ==>
          st.flights[i].originId < |st.airports| && st.flights[i].destinationId < |st.airports|)
    && (forall i :: 0 <= i < |st.fares| ==> st.fares[i].flightId < |st.flights|)
    && (forall i :: 0 <= i < |st.tickets| ==>
          && st.tickets[i].flightId < |st.flights|
          && st.tickets[i].fareId < |st.fares|
          && st.tickets[i].shiftId < |st.shifts|)
    && (forall i :: 0 <= i < |st.transactions| ==>
          st.transactions[i].shiftId < |st.shifts| && st.transactions[i].accountId < |st.accounts|)
  }

  /** Everything the database itself enforces.  Note what is absent: no
      unique key on (cash_desk_id, currency_code), and the index on
      (cashier_id, status) of `shifts` is not unique. */
  ghost predicate SchemaValid(st: Store) {
    ChecksHold(st) && UniqueKeysHold(st) && ForeignKeysHold(st)
  }
}
