/** The account handlers (handler/account.go; duplicated in
    api/handlers.go): list with passwords masked, add, soft-delete by
    renaming, and whole-record update. The table is a sequence in key order. */
module AccountHandler {
  import opened Wrappers
  import opened Records
  import Store

  /** A reply together with the list it carries. */
  datatype Listing = Listing(response: Response, data: seq<Account>)

  /** The account table after a request, and the reply. */
  datatype Outcome = Outcome(accounts: seq<Account>, response: Response)

  /** Every password replaced by the mask. */
  function Mask(accounts: seq<Account>): (r: seq<Account>)
    ensures |r| == |accounts|
    ensures forall i :: 0 <= i < |r| ==> r[i].password == PasswordEncoded
    ensures forall i :: 0 <= i < |r| ==> r[i].(password := accounts[i].password) == accounts[i]
  {
    seq(|accounts|, i requires 0 <= i < |accounts| => accounts[i].(password := PasswordEncoded))
  }

  /** `GetAllAccounts`: the live accounts in key order, passwords masked;
      `listErr` is the error of the `Find`. */
  function GetAllAccounts(accounts: seq<Account>, listErr: Option<string>): (l: Listing)
    ensures listErr.Some? ==> l == Listing(Fail(AccountListGetFail, listErr), [])
    ensures listErr.None? ==>
      && l.response == Done(AccountListGetSuccess)
      && |l.data| == |Store.LiveAccounts(accounts)|
      && forall i :: 0 <= i < |l.data| ==>
           l.data[i] == Store.LiveAccounts(accounts)[i].(password := PasswordEncoded)
  {
    if listErr.Some? then Listing(Fail(AccountListGetFail, listErr), [])
    else Listing(Done(AccountListGetSuccess), Mask(Store.LiveAccounts(accounts)))
  }

  /** Every live account, and only those, is listed, in key order. */
  lemma {:induction false} LiveAccountsExact(accounts: seq<Account>)
    ensures forall a :: a in Store.LiveAccounts(accounts) <==> a in accounts && a.deletedAt.None?
    ensures Store.AccountsValid(accounts) ==> Store.AccountsValid(Store.LiveAccounts(accounts))
    decreases |accounts|
  {
    if |accounts| > 0 {
      LiveAccountsExact(accounts[1..]);
      assert accounts == [accounts[0]] + accounts[1..];
      if Store.AccountsValid(accounts) {
        var rest := Store.LiveAccounts(accounts[1..]);
        assert Store.AccountsValid(accounts[1..]);
        forall j | 0 <= j < |rest| ensures accounts[0].id < rest[j].id {
          assert rest[j] in accounts[1..];
        }
      }
    }
  }

  /** Masking twice is masking once, and a listing never reveals a password. */
  lemma MaskIdempotent(accounts: seq<Account>)
    ensures Mask(Mask(accounts)) == Mask(accounts)
    ensures forall a :: a in Mask(accounts) ==> a.password == PasswordEncoded
  {
  }

  /** The key `Create` hands out: one past the largest key. */
  function NextAccountId(accounts: seq<Account>): (id: nat)
    requires Store.AccountsValid(accounts)
    ensures id > 0 && forall i :: 0 <= i < |accounts| ==> accounts[i].id < id
  {
    if |accounts| == 0 then 1 else accounts[|accounts| - 1].id + 1
  }

  /** `AddAccount`: `Create` stores the request under a fresh key (the
      request's own id and soft-delete marker are not modelled, see README);
      `createErr` covers every rejection, the unique address included. */
  function AddAccount(accounts: seq<Account>, req: Account, createErr: Option<string>): (o: Outcome)
    requires Store.AccountsValid(accounts)
    ensures Store.AccountsValid(o.accounts)
    ensures createErr.Some? ==> o == Outcome(accounts, Fail(AccountAddFail, createErr))
    ensures createErr.None? ==>
      && o.response == Done(AccountAddSuccess)
      && |o.accounts| == |accounts| + 1 && o.accounts[..|accounts|] == accounts
      && o.accounts[|accounts|] == req.(id := o.accounts[|accounts|].id, deletedAt := None)
  {
    if createErr.Some? then Outcome(accounts, Fail(AccountAddFail, createErr))
    else
      var row := req.(id := NextAccountId(accounts), deletedAt := None);
      Outcome(accounts + [row], Done(AccountAddSuccess))
  }

  /** An added address that no live account used before is found again by
      the address lookup, at the new row. */
  lemma AddedAccountIsFound(accounts: seq<Account>, req: Account)
    requires Store.AccountsValid(accounts)
    requires forall i :: 0 <= i < |accounts| ==> !(accounts[i].email == req.email && accounts[i].deletedAt.None?)
    ensures Store.FirstAccountByEmail(AddAccount(accounts, req, None).accounts, req.email) == Some(|accounts|)
  {
    var after := AddAccount(accounts, req, None).accounts;
    FirstMatchAt(after, req.email, |accounts|);
  }

  /** The lookup returns the first live match. */
  lemma FirstMatchAt(accounts: seq<Account>, email: string, k: nat)
    requires k < |accounts| && accounts[k].email == email && accounts[k].deletedAt.None?
    requires forall i :: 0 <= i < k ==> !(accounts[i].email == email && accounts[i].deletedAt.None?)
    ensures Store.FirstAccountByEmail(accounts, email) == Some(k)
  {
  }

  /** The row a keyed write reaches: the live row with that key. With key 0
      gorm puts no key condition on the statement, so every live row. */
  predicate Targets(a: Account, id: nat) {
    a.deletedAt.None? && (id == 0 || a.id == id)
  }

  /** The patch `DeleteAccount` hands to `Updates`. */
  function SoftDeletePatch(email: string, now: string): Account {
    Account(0, email + now, "", "", 0, 0, Some(now))
  }

  /** Applied with `Updates`, the patch renames and soft-deletes the account;
      its empty password, server and zero status are skipped. */
  lemma SoftDeletePatchApplied(a: Account, email: string, now: string)
    ensures UpdatesAccount(a, SoftDeletePatch(email, now))
            == a.(email := (if email + now == "" then a.email else email + now), deletedAt := Some(now))
  {
  }

  /** `DeleteAccount`: the targeted rows are renamed to the request's address
      followed by the time stamp and soft-deleted; `writeErr` is the error of
      the write. */
  function DeleteAccount(accounts: seq<Account>, req: Account, now: string, writeErr: Option<string>): (o: Outcome)
    ensures writeErr.Some? ==> o == Outcome(accounts, Fail(AccountDeleteFail, writeErr))
    ensures writeErr.None? ==>
      && o.response == Done(AccountDeleteSuccess)
      && |o.accounts| == |accounts|
      && forall i :: 0 <= i < |accounts| ==>
           o.accounts[i] == if Targets(accounts[i], req.id)
                            then accounts[i].(email := if req.email + now == "" then accounts[i].email else req.email + now,
                                              deletedAt := Some(now))
                            else accounts[i]
    ensures Store.AccountsValid(accounts) ==> Store.AccountsValid(o.accounts)
  {
    if writeErr.Some? then Outcome(accounts, Fail(AccountDeleteFail, writeErr))
    else
      var patch := SoftDeletePatch(req.email, now);
      Outcome(seq(|accounts|, i requires 0 <= i < |accounts| =>
                if Targets(accounts[i], req.id) then UpdatesAccount(accounts[i], patch) else accounts[i]),
              Done(AccountDeleteSuccess))
  }

  /** A deleted account disappears from the listing, and no longer answers
      to its old address unless another live row has it. */
  lemma DeletedAccountHidden(accounts: seq<Account>, req: Account, now: string, k: nat)
    requires k < |accounts| && accounts[k].id == req.id && req.id != 0
    ensures var after := DeleteAccount(accounts, req, now, None).accounts;
      && after[k] !in Store.LiveAccounts(after)
      && Store.FirstAccountByEmail(after, accounts[k].email) != Some(k)
  {
    var after := DeleteAccount(accounts, req, now, None).accounts;
    LiveAccountsExact(after);
  }

  /** `UpdateAccount`: `Save` writes every field of the request over the live
      row with its key; `saveErr` is the error of the write. */
  function UpdateAccount(accounts: seq<Account>, req: Account, saveErr: Option<string>): (o: Outcome)
    ensures saveErr.Some? ==> o == Outcome(accounts, Fail(AccountUpdateFail, saveErr))
    ensures saveErr.None? ==>
      && o.response == Done(AccountUpdateSuccess)
      && |o.accounts| == |accounts|
      && forall i :: 0 <= i < |accounts| ==>
           o.accounts[i] == if accounts[i].id == req.id && accounts[i].deletedAt.None? then req else accounts[i]
  {
    if saveErr.Some? then Outcome(accounts, Fail(AccountUpdateFail, saveErr))
    else
      Outcome(Store.MapLiveAccount(accounts, req.id, (a: Account) => req.(id := a.id)), Done(AccountUpdateSuccess))
  }

  /** Updating is idempotent, and keeps keys in order. */
  lemma UpdateAccountIdempotent(accounts: seq<Account>, req: Account)
    requires Store.AccountsValid(accounts) && req.deletedAt.None?
    ensures var once := UpdateAccount(accounts, req, None).accounts;
      && UpdateAccount(once, req, None).accounts == once
      && Store.AccountsValid(once)
  {
  }
}
