/** The older single-currency model: user roles, tills (a cashier's
    session holding one running total) and tickets sold from a till.  It
    is kept apart from the shift/ledger model and is not reconciled with it. */
module LegacyModels {
  import opened Results
  import Schema

  type Id = Schema.Id
  type Time = Schema.Time

  /** The role enum of the legacy model; it has no sales-manager value. */
  datatype Role = Cashier | Admin | Accountant

  function RoleValue(r: Role): string {
    match r
    case Cashier => "cashier"
    case Admin => "admin"
    case Accountant => "accountant"
  }

  /** `Role(value)`: exactly the three values name a role. */
  function RoleOf(s: string): (r: Option<Role>)
    ensures forall x :: r == Some(x) <==> RoleValue(x) == s
  {
    if s == "cashier" then Some(Cashier)
    else if s == "admin" then Some(Admin)
    else if s == "accountant" then Some(Accountant)
    else None
  }

  datatype Till = Till(cashierId: Id, openedAt: Time, closedAt: Option<Time>, isActive: bool, totalAmount: real)

  /** `check_till_status`: an inactive till has a closing time. */
  predicate TillChecked(t: Till) {
    t.isActive || t.closedAt.Some?
  }

  /** A till row as inserted with the column defaults: active, nothing
      taken yet, not closed. */
  function NewTill(cashier: Id, now: Time): (t: Till)
    ensures t.isActive && t.totalAmount == 0.0 && t.closedAt.None?
    ensures TillChecked(t)
  {
    Till(cashier, now, None, true, 0.0)
  }

  /** A legacy ticket; `status` is free text ("sold" or "returned"). */
  datatype LegacyTicket = LegacyTicket(tillId: Id, flightId: Id, passenger: string, passport: string,
                                       price: real, status: string, soldAt: Time)

  /** A legacy ticket as inserted with the column defaults. */
  function NewLegacyTicket(till: Id, flight: Id, passenger: string, passport: string, price: real, now: Time)
    : (t: LegacyTicket)
    ensures t.status == "sold" && t.soldAt == now
  {
    LegacyTicket(till, flight, passenger, passport, price, "sold", now)
  }

  ghost predicate TillsChecked(tills: seq<Till>) {
    forall i :: 0 <= i < |tills| ==> TillChecked(tills[i])
  }

  /** At most one active till in the whole table. */
  ghost predicate AtMostOneActive(tills: seq<Till>) {
    forall i, j :: 0 <= i < j < |tills| && tills[i].isActive ==> !tills[j].isActive
  }

  /** The index on (cashier_id, is_active) is not unique: the table's own
      constraint admits two active tills of one cashier, so "one open till"
      rests on the service check alone. */
  lemma TillIndexAllowsTwoActive()
    ensures TillsChecked([NewTill(0, 0), NewTill(0, 1)])
    ensures !AtMostOneActive([NewTill(0, 0), NewTill(0, 1)])
  {
    var tills := [NewTill(0, 0), NewTill(0, 1)];
    assert tills[0].isActive && tills[1].isActive;
  }
}
