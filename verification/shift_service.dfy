/** The current shift lifecycle: which cash desks of an airport are free,
    opening a shift on a desk, closing the cashier's shift. */
module ShiftService {
  import opened Results
  import opened Tables
  import opened Schema
  import opened Invariants

  datatype ShiftError =
    | NotCashier                       // user missing, or not a cashier
    | NoAirport                        // cashier has no home airport
    | DeskUnavailable                  // desk missing, elsewhere, or inactive
    | CashierShiftOpen(shiftId: Id)    // the cashier's already open shift
    | DeskBusy(deskName: string)       // the desk is in another open shift
    | NoOpenShift

  datatype DeskSummary = DeskSummary(id: Id, name: string)
  datatype Opened = Opened(shiftId: Id, deskName: string)

  // ---------------------------------------------------------------- reference predicates

  ghost predicate CashierHasOpenShift(shifts: seq<Shift>, cashier: Id) {
    exists i :: 0 <= i < |shifts| && shifts[i].status == Open && shifts[i].cashierId == cashier
  }

  ghost predicate DeskHasOpenShift(shifts: seq<Shift>, desk: Id) {
    exists i :: 0 <= i < |shifts| && shifts[i].status == Open && shifts[i].deskId == desk
  }

  ghost predicate IsCashier(st: Store, user: Id) {
    user < |st.users| && st.users[user].role == Cashier
  }

  /** A desk a cashier with home airport `airport` may take. */
  ghost predicate DeskUsableFrom(st: Store, desk: Id, airport: Id) {
    desk < |st.desks| && st.desks[desk].airportId == airport && st.desks[desk].isActive
  }

  /** A desk listed as free for `airport`. */
  ghost predicate DeskAvailable(st: Store, airport: Id, desk: Id) {
    DeskUsableFrom(st, desk, airport) && !DeskHasOpenShift(st.shifts, desk)
  }

  // ---------------------------------------------------------------- get_available_cash_desks

  /** The desk ids of all open shifts, in every airport. */
  function OpenDeskIds(shifts: seq<Shift>): (r: set<Id>)
    ensures forall d :: d in r <==> DeskHasOpenShift(shifts, d)
  {
    set i | 0 <= i < |shifts| && shifts[i].status == Open :: shifts[i].deskId
  }

  /** The ids of the free cash desks of an airport, each once. */
  function AvailableDeskIds(st: Store, airport: Id): (r: seq<Id>)
    ensures forall d :: d in r <==> DeskAvailable(st, airport, d)
    ensures Distinct(r)
  {
    var active := FilterIds(st.desks, (d: CashDesk) => d.airportId == airport && d.isActive);
    var open := OpenDeskIds(st.shifts);
    assert forall d :: DeskUsableFrom(st, d, airport) ==> d in active;
    Keep<Id>(active, (i: Id) => i !in open)
  }

  /** The listed desks `ids`, each with its name. */
  function Summaries(desks: seq<CashDesk>, ids: seq<Id>): (r: seq<DeskSummary>)
    requires forall k :: 0 <= k < |ids| ==> ids[k] < |desks|
    ensures |r| == |ids|
    ensures forall k :: 0 <= k < |r| ==> r[k].id == ids[k] && r[k].name == desks[ids[k]].name
  {
    seq(|ids|, (k: int) requires 0 <= k < |ids| => DeskSummary(ids[k], desks[ids[k]].name))
  }

  /** The free cash desks of an airport: each listed once, with its name. */
  function AvailableCashDesks(st: Store, airport: Id): (r: seq<DeskSummary>)
    ensures forall k :: 0 <= k < |r| ==>
      DeskAvailable(st, airport, r[k].id) && r[k].name == st.desks[r[k].id].name
    ensures forall d :: DeskAvailable(st, airport, d) ==> exists k :: 0 <= k < |r| && r[k].id == d
    ensures forall k, l :: 0 <= k < l < |r| ==> r[k].id != r[l].id
  {
    var ids := AvailableDeskIds(st, airport);
    assert forall k :: 0 <= k < |ids| ==> DeskAvailable(st, airport, ids[k]);
    var r := Summaries(st.desks, ids);
    forall d | DeskAvailable(st, airport, d)
      ensures exists k :: 0 <= k < |r| && r[k].id == d
    {
      var k :| 0 <= k < |ids| && ids[k] == d;
      assert r[k].id == d;
    }
    r
  }

  // ---------------------------------------------------------------- open_shift

  function OpenShift(st: Store, user: Id, desk: Id, now: Time): (r: Result<(Store, Opened), ShiftError>)
    ensures !IsCashier(st, user) ==> r == Err(NotCashier)
    ensures IsCashier(st, user) && st.users[user].airportId.None? ==> r == Err(NoAirport)
    ensures (IsCashier(st, user) && st.users[user].airportId.Some?
             && !DeskUsableFrom(st, desk, st.users[user].airportId.value)) ==> r == Err(DeskUnavailable)
    ensures (IsCashier(st, user) && st.users[user].airportId.Some?
             && DeskUsableFrom(st, desk, st.users[user].airportId.value)
             && CashierHasOpenShift(st.shifts, user)) ==> r.Err? && r.error.CashierShiftOpen?
    ensures (IsCashier(st, user) && st.users[user].airportId.Some?
             && DeskUsableFrom(st, desk, st.users[user].airportId.value)
             && !CashierHasOpenShift(st.shifts, user)
             && DeskHasOpenShift(st.shifts, desk)) ==> r == Err(DeskBusy(st.desks[desk].name))
    // the shift reported is the cashier's lowest-numbered open shift
    ensures r.Err? && r.error.CashierShiftOpen? ==>
              var i := r.error.shiftId;
              && i < |st.shifts| && st.shifts[i].cashierId == user && st.shifts[i].status == Open
              && forall j :: 0 <= j < i ==> !(st.shifts[j].cashierId == user && st.shifts[j].status == Open)
    ensures r.Err? && r.error.DeskBusy? ==>
              DeskHasOpenShift(st.shifts, desk) && !CashierHasOpenShift(st.shifts, user)
    ensures r.Ok? <==>
              && IsCashier(st, user) && st.users[user].airportId.Some?
              && DeskUsableFrom(st, desk, st.users[user].airportId.value)
              && !CashierHasOpenShift(st.shifts, user)
              && !DeskHasOpenShift(st.shifts, desk)
    ensures r.Ok? ==>
              var post := r.value.0; var o := r.value.1;
              && post.shifts == st.shifts + [Shift(desk, user, now, None, Open)]
              && post.(shifts := st.shifts) == st
              && o == Opened(|st.shifts|, st.desks[desk].name)
  {
    if user >= |st.users| || st.users[user].role != Cashier then Err(NotCashier)
    else if st.users[user].airportId.None? then Err(NoAirport)
    else if desk >= |st.desks| || st.desks[desk].airportId != st.users[user].airportId.value
            || !st.desks[desk].isActive then Err(DeskUnavailable)
    else match FindFirst(st.shifts, (sh: Shift) => sh.cashierId == user && sh.status == Open)
      case Some(i) => Err(CashierShiftOpen(i))
      case None =>
        if FindFirst(st.shifts, (sh: Shift) => sh.deskId == desk && sh.status == Open).Some? then
          Err(DeskBusy(st.desks[desk].name))
        else
          var shift := Shift(desk, user, now, None, Open);
          Ok((st.(shifts := st.shifts + [shift]), Opened(|st.shifts|, st.desks[desk].name)))
  }

  /** Opening a shift keeps the store valid: in particular at most one open
      shift per cashier and per desk. */
  lemma OpenShiftPreservesValid(st: Store, user: Id, desk: Id, now: Time)
    requires Valid(st)
    ensures OpenShift(st, user, desk, now).Ok? ==> Valid(OpenShift(st, user, desk, now).value.0)
  {
    var r := OpenShift(st, user, desk, now);
    if r.Ok? {
      var post := r.value.0;
      var s := post.shifts;
      var n := |st.shifts|;
      assert s[n].cashierId == user && s[n].deskId == desk;
      assert OneOpenShiftPerCashier(s) by {
        forall i, j | 0 <= i < j < |s| && s[i].status == Open && s[j].status == Open
          ensures s[i].cashierId != s[j].cashierId
        {
          if j == n {
            assert s[i] == st.shifts[i];
          } else {
            assert s[i] == st.shifts[i] && s[j] == st.shifts[j];
          }
        }
      }
      assert OneOpenShiftPerDesk(s) by {
        forall i, j | 0 <= i < j < |s| && s[i].status == Open && s[j].status == Open
          ensures s[i].deskId != s[j].deskId
        {
          if j == n {
            assert s[i] == st.shifts[i];
          } else {
            assert s[i] == st.shifts[i] && s[j] == st.shifts[j];
          }
        }
      }
      assert ForeignKeysHold(post) by {
        assert forall i :: 0 <= i < |st.shifts| ==> s[i] == st.shifts[i];
      }
      assert ChecksHold(post) by {
        assert forall i :: 0 <= i < |st.shifts| ==> s[i] == st.shifts[i];
      }
    }
  }

  // ---------------------------------------------------------------- close_shift

  function CloseShift(st: Store, user: Id, now: Time): (r: Result<(Store, Id), ShiftError>)
    ensures r.Err? <==> !CashierHasOpenShift(st.shifts, user)
    ensures r.Err? ==> r.error == NoOpenShift
    ensures r.Ok? ==>
              var post := r.value.0; var i := r.value.1;
              && i < |st.shifts| && st.shifts[i].cashierId == user && st.shifts[i].status == Open
              && post.shifts == st.shifts[i := st.shifts[i].(status := Closed, closedAt := Some(now))]
              && post.(shifts := st.shifts) == st
  {
    match FindFirst(st.shifts, (sh: Shift) => sh.cashierId == user && sh.status == Open)
    case None => Err(NoOpenShift)
    case Some(i) =>
      var closed := st.shifts[i].(status := Closed, closedAt := Some(now));
      Ok((st.(shifts := st.shifts[i := closed]), i))
  }

  lemma CloseShiftPreservesValid(st: Store, user: Id, now: Time)
    requires Valid(st)
    ensures CloseShift(st, user, now).Ok? ==> Valid(CloseShift(st, user, now).value.0)
  {
    var r := CloseShift(st, user, now);
    if r.Ok? {
      var post := r.value.0;
      var i := r.value.1;
      assert forall k :: 0 <= k < |st.shifts| && k != i ==> post.shifts[k] == st.shifts[k];
      assert ChecksHold(post);
      assert ForeignKeysHold(post);
    }
  }

  /** In a valid store, after a successful close the cashier has no open
      shift left, so closing again fails. */
  lemma CloseShiftLeavesNoOpenShift(st: Store, user: Id, now: Time)
    requires Valid(st)
    requires CloseShift(st, user, now).Ok?
    ensures !CashierHasOpenShift(CloseShift(st, user, now).value.0.shifts, user)
    ensures CloseShift(CloseShift(st, user, now).value.0, user, now) == Err(NoOpenShift)
  {
    var post := CloseShift(st, user, now).value.0;
    var i := CloseShift(st, user, now).value.1;
    forall k | 0 <= k < |post.shifts| && post.shifts[k].status == Open
      ensures post.shifts[k].cashierId != user
    {
      assert k != i;
      assert post.shifts[k] == st.shifts[k];
      if k < i {
        assert st.shifts[k].cashierId != st.shifts[i].cashierId;
      } else {
        assert st.shifts[i].cashierId != st.shifts[k].cashierId;
      }
    }
  }

  /** Open then close: the shift just opened is the one closed. */
  lemma OpenThenClose(st: Store, user: Id, desk: Id, openedAt: Time, closedAt: Time)
    requires OpenShift(st, user, desk, openedAt).Ok?
    ensures var post := OpenShift(st, user, desk, openedAt).value.0; var o := OpenShift(st, user, desk, openedAt).value.1;
            CloseShift(post, user, closedAt).Ok? && CloseShift(post, user, closedAt).value.1 == o.shiftId
  {
    var post := OpenShift(st, user, desk, openedAt).value.0; var o := OpenShift(st, user, desk, openedAt).value.1;
    var r := CloseShift(post, user, closedAt);
    assert post.shifts[|st.shifts|].cashierId == user;
    assert CashierHasOpenShift(post.shifts, user);
  }
}
