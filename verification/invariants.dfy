/** The business invariants the services keep on top of the schema: one
    open shift per cashier and per cash desk, one account per (desk,
    currency), no overselling, one ticket per seat of a flight, and the
    ledger rule that an account's balance is the sum of its entries. */
module Invariants {
  import opened Results
  import opened Tables
  import opened Schema

  /** The signed sum of the ledger entries booked on `account`. */
  function LedgerSum(txs: seq<Transaction>, account: Id): real
  {
    if |txs| == 0 then 0.0
    else
      var last := txs[|txs| - 1];
      LedgerSum(txs[..|txs| - 1], account) + (if last.accountId == account then last.amount else 0.0)
  }

  /** Appending an entry moves the sum of its own account by its amount
      and leaves every other account's sum alone. */
  lemma {:induction false} LedgerSumAppend(txs: seq<Transaction>, t: Transaction, account: Id)
    ensures LedgerSum(txs + [t], account)
            == LedgerSum(txs, account) + (if t.accountId == account then t.amount else 0.0)
  {
    assert (txs + [t])[..|txs|] == txs;
  }

  /** An account no entry is booked on sums to zero. */
  lemma {:induction false} LedgerSumUnused(txs: seq<Transaction>, account: Id)
    requires forall i :: 0 <= i < |txs| ==> txs[i].accountId != account
    ensures LedgerSum(txs, account) == 0.0
  {
    if |txs| > 0 {
      LedgerSumUnused(txs[..|txs| - 1], account);
    }
  }

  ghost predicate OneOpenShiftPerCashier(shifts: seq<Shift>) {
    UniqueAmong(shifts, (sh: Shift) => sh.status == Open, (sh: Shift) => sh.cashierId)
  }

  ghost predicate OneOpenShiftPerDesk(shifts: seq<Shift>) {
    UniqueAmong(shifts, (sh: Shift) => sh.status == Open, (sh: Shift) => sh.deskId)
  }

  ghost predicate OneAccountPerDeskCurrency(accounts: seq<Account>) {
    UniqueBy(accounts, (a: Account) => (a.deskId, a.currency))
  }

  ghost predicate SeatsWithinLimits(fares: seq<Fare>) {
    forall i :: 0 <= i < |fares| ==> 0 <= fares[i].seatsSold <= fares[i].seatLimit
  }

  ghost predicate OneTicketPerSeat(tickets: seq<Ticket>) {
    UniqueBy(tickets, (t: Ticket) => (t.flightId, t.seat))
  }

  /** balance == sum(transaction amounts) for every account. */
  ghost predicate LedgerBalanced(st: Store) {
    forall a :: 0 <= a < |st.accounts| ==> st.accounts[a].balance == LedgerSum(st.transactions, a)
  }

  /** Every entry is in the currency of the account it is booked on. */
  ghost predicate EntriesInAccountCurrency(st: Store) {
    forall i :: 0 <= i < |st.transactions| && st.transactions[i].accountId < |st.accounts| ==>
      st.transactions[i].currency == st.accounts[st.transactions[i].accountId].currency
  }

  ghost predicate ServiceInvariants(st: Store) {
    && OneOpenShiftPerCashier(st.shifts)
    && OneOpenShiftPerDesk(st.shifts)
    && OneAccountPerDeskCurrency(st.accounts)
    && SeatsWithinLimits(st.fares)
    && OneTicketPerSeat(st.tickets)
    && LedgerBalanced(st)
    && EntriesInAccountCurrency(st)
  }

  /** The state-validity predicate every service operation preserves. */
  ghost predicate Valid(st: Store) {
    SchemaValid(st) && ServiceInvariants(st)
  }

  /** The empty database is valid. */
  lemma EmptyStoreValid()
    ensures Valid(Store([], [], [], [], [], [], [], [], [], []))
  {
  }

  /** A store meeting every database constraint that holds two open shifts
      of one cashier on one desk and two accounts for one (desk, currency). */
  function DuplicatesStore(): Store {
    Store(
      [Airport("KBP", "Boryspil", "Kyiv")],
      [User("c", "c@example.com", Cashier, Some(0))],
      [CashDesk(0, "Desk 1", true)],
      [Account(0, "USD", 0.0, 0), Account(0, "USD", 0.0, 0)],
      [Shift(0, 0, 0, None, Open), Shift(0, 0, 1, None, Open)],
      [], [], [], [], [])
  }

  /** The schema does not enforce the shift and account rules, so both
      rest on the service guards alone. */
  lemma SchemaAllowsDuplicateOpenShiftsAndAccounts()
    ensures SchemaValid(DuplicatesStore())
    ensures !OneOpenShiftPerCashier(DuplicatesStore().shifts)
    ensures !OneOpenShiftPerDesk(DuplicatesStore().shifts)
    ensures !OneAccountPerDeskCurrency(DuplicatesStore().accounts)
  {
    var st := DuplicatesStore();
    DuplicatesStoreSchemaValid();
    assert st.shifts[0].cashierId == st.shifts[1].cashierId;
    assert st.shifts[0].deskId == st.shifts[1].deskId;
    assert (st.accounts[0].deskId, st.accounts[0].currency) == (st.accounts[1].deskId, st.accounts[1].currency);
  }

  lemma DuplicatesStoreSchemaValid()
    ensures SchemaValid(DuplicatesStore())
  {
    var st := DuplicatesStore();
    assert ChecksHold(st);
    assert UniqueKeysHold(st);
    assert ForeignKeysHold(st);
  }
}
