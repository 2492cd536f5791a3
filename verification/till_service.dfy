/** The legacy till lifecycle: listing tills, asking whether any till is
    open, opening a till (refused while ANY till is active) and closing the
    caller's own active till. */
module TillService {
  import opened Results
  import opened Tables
  import opened LegacyModels

  datatype TillError = AnotherTillOpen | NoOpenTill

  datatype Listed = Listed(id: Id, till: Till)

  ghost predicate AnyActive(tills: seq<Till>) {
    exists i :: 0 <= i < |tills| && tills[i].isActive
  }

  ghost predicate HasActiveTill(tills: seq<Till>, cashier: Id) {
    exists i :: 0 <= i < |tills| && tills[i].isActive && tills[i].cashierId == cashier
  }

  /** The tills satisfying `p`, in id order: each listed with its own row,
      every such till listed, none twice. */
  function ListTills(tills: seq<Till>, p: Till -> bool): (r: seq<Listed>)
    ensures forall k :: 0 <= k < |r| ==> r[k].id < |tills| && r[k].till == tills[r[k].id] && p(r[k].till)
    ensures forall i :: 0 <= i < |tills| && p(tills[i]) ==> exists k :: 0 <= k < |r| && r[k].id == i
    ensures forall k, l :: 0 <= k < l < |r| ==> r[k].id != r[l].id
  {
    var ids := FilterIds(tills, p);
    var r := seq(|ids|, (k: int) requires 0 <= k < |ids| => Listed(ids[k], tills[ids[k]]));
    forall i | 0 <= i < |tills| && p(tills[i])
      ensures exists k :: 0 <= k < |r| && r[k].id == i
    {
      var k :| 0 <= k < |ids| && ids[k] == i;
      assert r[k].id == i;
    }
    r
  }

  /** The caller's own tills, each once, with its row. */
  function OwnTills(tills: seq<Till>, user: Id): (r: seq<Listed>)
    ensures forall k :: 0 <= k < |r| ==> r[k].id < |tills| && r[k].till == tills[r[k].id]
    ensures forall k :: 0 <= k < |r| ==> r[k].till.cashierId == user
    ensures forall i :: 0 <= i < |tills| && tills[i].cashierId == user ==> exists k :: 0 <= k < |r| && r[k].id == i
    ensures forall k, l :: 0 <= k < l < |r| ==> r[k].id != r[l].id
  {
    var mine := (t: Till) => t.cashierId == user;
    var r := ListTills(tills, mine);
    assert forall i :: 0 <= i < |tills| && tills[i].cashierId == user ==> mine(tills[i]);
    assert forall k :: 0 <= k < |r| ==> mine(r[k].till);
    r
  }

  /** Every till, in id order, with its row. */
  function EveryTill(tills: seq<Till>): (r: seq<Listed>)
    ensures |r| == |tills|
    ensures forall i :: 0 <= i < |tills| ==> r[i] == Listed(i, tills[i])
  {
    seq(|tills|, (i: int) requires 0 <= i < |tills| => Listed(i, tills[i]))
  }

  /** `get_all_tills`: a caller whose role string is "cashier" sees each
      of their own tills once and nothing else; any other role sees every
      till, in id order. */
  function AllTills(tills: seq<Till>, user: Id, role: string): (r: seq<Listed>)
    ensures forall k :: 0 <= k < |r| ==> r[k].id < |tills| && r[k].till == tills[r[k].id]
    ensures forall k, l :: 0 <= k < l < |r| ==> r[k].id != r[l].id
    ensures role == "cashier" ==>
              && (forall k :: 0 <= k < |r| ==> r[k].till.cashierId == user)
              && (forall i :: 0 <= i < |tills| && tills[i].cashierId == user ==>
                    exists k :: 0 <= k < |r| && r[k].id == i)
    ensures role != "cashier" ==> |r| == |tills| && forall i :: 0 <= i < |r| ==> r[i] == Listed(i, tills[i])
  {
    if role == "cashier" then OwnTills(tills, user) else EveryTill(tills)
  }

  /** `check_open_till`: reports a till exactly when some till is active. */
  function CheckOpenTill(tills: seq<Till>): (r: Option<Listed>)
    ensures r.Some? <==> AnyActive(tills)
    ensures r.Some? ==> r.value.id < |tills| && r.value.till == tills[r.value.id] && r.value.till.isActive
  {
    match FindFirst(tills, (t: Till) => t.isActive)
    case None => None
    case Some(i) => Some(Listed(i, tills[i]))
  }

  /** `open_till_for_cashier`: refused while any till of any cashier is
      active; otherwise appends a fresh till for the caller. */
  function OpenTill(tills: seq<Till>, user: Id, now: Time): (r: Result<(seq<Till>, Listed), TillError>)
    ensures r.Err? <==> AnyActive(tills)
    ensures r.Err? ==> r.error == AnotherTillOpen
    ensures r.Ok? ==>
              && r.value.0 == tills + [Till(user, now, None, true, 0.0)]
              && r.value.1 == Listed(|tills|, Till(user, now, None, true, 0.0))
  {
    if FindFirst(tills, (t: Till) => t.isActive).Some? then Err(AnotherTillOpen)
    else
      var till := NewTill(user, now);
      Ok((tills + [till], Listed(|tills|, till)))
  }

  /** After a successful open exactly one till is active, the new one, and
      the table's check constraint still holds. */
  lemma OpenTillLeavesOneActive(tills: seq<Till>, user: Id, now: Time)
    requires TillsChecked(tills)
    requires OpenTill(tills, user, now).Ok?
    ensures var post := OpenTill(tills, user, now).value.0;
            && AtMostOneActive(post) && TillsChecked(post)
            && post[|tills|].isActive
            && forall i :: 0 <= i < |post| && post[i].isActive ==> i == |tills|
  {
    var post := OpenTill(tills, user, now).value.0;
    assert forall i :: 0 <= i < |tills| ==> post[i] == tills[i];
  }

  /** `close_till_for_cashier`: closes the caller's own active till; it does
      not close another cashier's till. */
  function CloseTill(tills: seq<Till>, user: Id, now: Time): (r: Result<(seq<Till>, Id), TillError>)
    ensures r.Err? <==> !HasActiveTill(tills, user)
    ensures r.Err? ==> r.error == NoOpenTill
    ensures r.Ok? ==>
              var i := r.value.1;
              && i < |tills| && tills[i].isActive && tills[i].cashierId == user
              && r.value.0 == tills[i := tills[i].(isActive := false, closedAt := Some(now))]
  {
    match FindFirst(tills, (t: Till) => t.cashierId == user && t.isActive)
    case None => Err(NoOpenTill)
    case Some(i) => Ok((tills[i := tills[i].(isActive := false, closedAt := Some(now))], i))
  }

  /** Closing keeps the table's check constraint, whatever else holds. */
  lemma CloseTillKeepsChecked(tills: seq<Till>, user: Id, now: Time)
    requires TillsChecked(tills)
    requires CloseTill(tills, user, now).Ok?
    ensures TillsChecked(CloseTill(tills, user, now).value.0)
  {
    var post := CloseTill(tills, user, now).value.0;
    var c := CloseTill(tills, user, now).value.1;
    forall i | 0 <= i < |post|
      ensures TillChecked(post[i])
    {
      if i != c {
        assert post[i] == tills[i];
      }
    }
  }

  /** When the table had at most one active till, closing leaves none
      active, so the invariant `OpenTill` keeps survives. */
  lemma CloseTillPreserves(tills: seq<Till>, user: Id, now: Time)
    requires TillsChecked(tills) && AtMostOneActive(tills)
    requires CloseTill(tills, user, now).Ok?
    ensures var post := CloseTill(tills, user, now).value.0;
            && TillsChecked(post) && AtMostOneActive(post) && !AnyActive(post)
  {
    var post := CloseTill(tills, user, now).value.0;
    var c := CloseTill(tills, user, now).value.1;
    forall i | 0 <= i < |post|
      ensures !post[i].isActive
    {
      if i != c {
        assert post[i] == tills[i];
      }
    }
  }

  /** `get_cashier_open_till`: the caller's active till, or an error. */
  function CashierOpenTill(tills: seq<Till>, user: Id): (r: Result<Listed, TillError>)
    ensures r.Err? <==> !HasActiveTill(tills, user)
    ensures r.Err? ==> r.error == NoOpenTill
    ensures r.Ok? ==> && r.value.id < |tills| && r.value.till == tills[r.value.id]
                      && r.value.till.isActive && r.value.till.cashierId == user
  {
    match FindFirst(tills, (t: Till) => t.cashierId == user && t.isActive)
    case None => Err(NoOpenTill)
    case Some(i) => Ok(Listed(i, tills[i]))
  }
}
