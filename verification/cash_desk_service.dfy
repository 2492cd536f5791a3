/** Provisioning of cash desks and of their per-currency accounts. */
module CashDeskService {
  import opened Results
  import opened Text
  import opened Tables
  import opened Schema
  import opened Invariants

  datatype DeskError =
    | AirportNotFound
    | DeskNotFound
    | UnsupportedCurrency
    | AccountExists(currency: Currency)

  datatype DeskInfo = DeskInfo(id: Id, name: string, airportId: Id, isActive: bool)
  datatype AccountInfo = AccountInfo(id: Id, currency: Currency, balance: real, lastUpdated: Time)

  /** The currencies an account may be opened in. */
  const AllowedCurrencies: seq<Currency> := ["USD", "EUR", "UAH"]

  ghost predicate HasAccount(accounts: seq<Account>, desk: Id, currency: Currency) {
    exists i :: 0 <= i < |accounts| && accounts[i].deskId == desk && accounts[i].currency == currency
  }

  // ---------------------------------------------------------------- create_cash_desk

  function CreateCashDesk(st: Store, name: string, airport: Id, isActive: bool)
    : (r: Result<(Store, DeskInfo), DeskError>)
    ensures r.Err? <==> airport >= |st.airports|
    ensures r.Err? ==> r.error == AirportNotFound
    ensures r.Ok? ==>
              && r.value.0.desks == st.desks + [CashDesk(airport, Strip(name), isActive)]
              && r.value.0.(desks := st.desks) == st
              && r.value.1 == DeskInfo(|st.desks|, Strip(name), airport, isActive)
  {
    if airport >= |st.airports| then Err(AirportNotFound)
    else
      var desk := CashDesk(airport, Strip(name), isActive);
      Ok((st.(desks := st.desks + [desk]), DeskInfo(|st.desks|, desk.name, airport, isActive)))
  }

  lemma CreateCashDeskPreservesValid(st: Store, name: string, airport: Id, isActive: bool)
    requires Valid(st)
    ensures CreateCashDesk(st, name, airport, isActive).Ok? ==>
              Valid(CreateCashDesk(st, name, airport, isActive).value.0)
  {
    var r := CreateCashDesk(st, name, airport, isActive);
    if r.Ok? {
      var post := r.value.0;
      assert forall i :: 0 <= i < |st.desks| ==> post.desks[i] == st.desks[i];
      assert ForeignKeysHold(post);
    }
  }

  // ---------------------------------------------------------------- update_cash_desk

  function UpdateCashDesk(st: Store, desk: Id, name: string, airport: Id, isActive: bool)
    : (r: Result<Store, DeskError>)
    ensures desk >= |st.desks| ==> r == Err(DeskNotFound)
    ensures desk < |st.desks| && airport >= |st.airports| ==> r == Err(AirportNotFound)
    ensures r.Ok? <==> desk < |st.desks| && airport < |st.airports|
    ensures r.Ok? ==>
              && r.value.desks == st.desks[desk := CashDesk(airport, Strip(name), isActive)]
              && r.value.(desks := st.desks) == st
  {
    if desk >= |st.desks| then Err(DeskNotFound)
    else if airport >= |st.airports| then Err(AirportNotFound)
    else Ok(st.(desks := st.desks[desk := CashDesk(airport, Strip(name), isActive)]))
  }

  lemma UpdateCashDeskPreservesValid(st: Store, desk: Id, name: string, airport: Id, isActive: bool)
    requires Valid(st)
    ensures UpdateCashDesk(st, desk, name, airport, isActive).Ok? ==>
              Valid(UpdateCashDesk(st, desk, name, airport, isActive).value)
  {
    var r := UpdateCashDesk(st, desk, name, airport, isActive);
    if r.Ok? {
      assert ForeignKeysHold(r.value);
    }
  }

  // ---------------------------------------------------------------- create_cash_desk_account

  function CreateCashDeskAccount(st: Store, desk: Id, currency: Currency, now: Time)
    : (r: Result<(Store, AccountInfo), DeskError>)
    ensures desk >= |st.desks| ==> r == Err(DeskNotFound)
    ensures desk < |st.desks| && currency !in AllowedCurrencies ==> r == Err(UnsupportedCurrency)
    ensures (desk < |st.desks| && currency in AllowedCurrencies
             && HasAccount(st.accounts, desk, currency)) ==> r == Err(AccountExists(currency))
    ensures r.Ok? <==> desk < |st.desks| && currency in AllowedCurrencies && !HasAccount(st.accounts, desk, currency)
    ensures r.Ok? ==>
              && r.value.0.accounts == st.accounts + [Account(desk, currency, 0.0, now)]
              && r.value.0.(accounts := st.accounts) == st
              && r.value.1 == AccountInfo(|st.accounts|, currency, 0.0, now)
  {
    if desk >= |st.desks| then Err(DeskNotFound)
    else if currency !in AllowedCurrencies then Err(UnsupportedCurrency)
    else if FindFirst(st.accounts, (a: Account) => a.deskId == desk && a.currency == currency).Some? then
      Err(AccountExists(currency))
    else
      var account := Account(desk, currency, 0.0, now);
      Ok((st.(accounts := st.accounts + [account]), AccountInfo(|st.accounts|, currency, 0.0, now)))
  }

  /** Opening an account keeps the store valid: (desk, currency) stays
      unique and the new account's zero balance is the sum of its (no)
      ledger entries. */
  lemma CreateCashDeskAccountPreservesValid(st: Store, desk: Id, currency: Currency, now: Time)
    requires Valid(st)
    ensures CreateCashDeskAccount(st, desk, currency, now).Ok? ==>
              Valid(CreateCashDeskAccount(st, desk, currency, now).value.0)
  {
    var r := CreateCashDeskAccount(st, desk, currency, now);
    if r.Ok? {
      AccountAddedKeepsValid(st, r.value.0, desk, currency, now);
    }
  }

  /** Appending a zero-balance account for a desk that has none in that
      currency keeps the store valid. */
  lemma AccountAddedKeepsValid(st: Store, post: Store, desk: Id, currency: Currency, now: Time)
    requires Valid(st) && desk < |st.desks| && !HasAccount(st.accounts, desk, currency)
    requires post == st.(accounts := st.accounts + [Account(desk, currency, 0.0, now)])
    ensures Valid(post)
  {
    var n := |st.accounts|;
    assert forall i :: 0 <= i < n ==> post.accounts[i] == st.accounts[i];
    assert ForeignKeysHold(post);
    assert OneAccountPerDeskCurrency(post.accounts) by {
      forall i, j | 0 <= i < j < |post.accounts|
        ensures (post.accounts[i].deskId, post.accounts[i].currency)
             != (post.accounts[j].deskId, post.accounts[j].currency)
      {
        if j == n {
          assert post.accounts[i] == st.accounts[i];
        }
      }
    }
    assert LedgerBalanced(post) by {
      LedgerSumUnused(st.transactions, n);
    }
  }

  // ---------------------------------------------------------------- get_cash_desk_accounts

  function CashDeskAccounts(st: Store, desk: Id): (r: Result<seq<AccountInfo>, DeskError>)
    ensures r.Err? <==> desk >= |st.desks|
    ensures r.Err? ==> r.error == DeskNotFound
    ensures r.Ok? ==> forall k :: 0 <= k < |r.value| ==>
              var info := r.value[k];
              && info.id < |st.accounts| && st.accounts[info.id].deskId == desk
              && info == AccountInfo(info.id, st.accounts[info.id].currency, st.accounts[info.id].balance,
                                     st.accounts[info.id].lastUpdated)
    ensures r.Ok? ==> forall i :: 0 <= i < |st.accounts| && st.accounts[i].deskId == desk ==>
              exists k :: 0 <= k < |r.value| && r.value[k].id == i
    ensures r.Ok? ==> forall k, l :: 0 <= k < l < |r.value| ==> r.value[k].id != r.value[l].id
  {
    if desk >= |st.desks| then Err(DeskNotFound)
    else
      var ids := FilterIds(st.accounts, (a: Account) => a.deskId == desk);
      var infos := seq(|ids|, (k: int) requires 0 <= k < |ids| =>
                     var a := st.accounts[ids[k]];
                     AccountInfo(ids[k], a.currency, a.balance, a.lastUpdated));
      assert forall k :: 0 <= k < |ids| ==> infos[k].id == ids[k];
      Ok(infos)
  }
}
