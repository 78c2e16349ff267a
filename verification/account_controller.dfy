/**
 * The account controller: the administrators' list, registration, sign-in
 * and sign-out, and the bulk block, unblock and delete actions. Each request
 * gets a controller bound to the identity store and the request's context;
 * `modelState` and `tempMessage` stand for ModelState and TempData["message"].
 * Store answers (`createResult`, `results`, `passwordAccepted`,
 * `updateResult`) and the clock (`now`) are inputs.
 */
module Accounts {
  import opened Wrappers
  import opened Forms
  import opened Identity
  import opened Http
  import opened Moderation

  /** Which page an action ends on: its own form again, or a redirect. */
  datatype ActionResult = ViewResult | RedirectToAction(actionName: string)

  /** A row of the administrators' list (`UserRoleViewModel`). */
  datatype UserRole = UserRole(id: Id, user: Account, roleName: Option<string>)

  /**
   * The account registration builds from a valid form: the form's login and
   * email, both present and within the length bound, registered at `now` and
   * never signed in.
   */
  function NewAccount(m: RegisterViewModel, maxStringLength: nat, now: int): (a: Account)
    requires RegisterValid(m, maxStringLength)
    ensures m.login == Some(a.userName) && m.email == Some(a.email)
    ensures !IsBlank(a.userName) && |a.userName| <= maxStringLength
    ensures !IsBlank(a.email) && |a.email| <= maxStringLength
    ensures a.registrationDate == now && a.lastLoginDate == None
  {
    Account(m.login.value, m.email.value, now, None)
  }

  class AccountController {
    const store: IdentityStore
    const http: HttpContext
    const maxStringLength: nat
    var modelState: seq<ModelError>
    var tempMessage: Option<string>

    ghost predicate Valid()
      reads this, store
    {
      store.Valid()
    }

    /** The state a bulk action changes, as the value its specification folds over. */
    function Current(): Progress
      reads this, store, http
    {
      Progress(store.Model(), modelState, http.session, http.events)
    }

    constructor (store: IdentityStore, http: HttpContext, maxStringLength: nat)
      ensures this.store == store && this.http == http && this.maxStringLength == maxStringLength
      ensures modelState == [] && tempMessage == None
    {
      this.store, this.http, this.maxStringLength := store, http, maxStringLength;
      modelState, tempMessage := [], None;
    }

    /**
     * `Index`: one row per account, in listing order, whose role is the banned
     * role exactly when the account is in it.
     */
    method Index() returns (userRoles: seq<UserRole>)
      requires Valid()
      ensures |userRoles| == |store.order|
      ensures forall i | 0 <= i < |userRoles| ::
        && userRoles[i].id == store.order[i]
        && userRoles[i].user == store.accounts[store.order[i]]
        && userRoles[i].roleName == (if store.order[i] in store.banned then Some(store.bannedRole) else None)
      ensures forall id | id in store.accounts :: exists i | 0 <= i < |userRoles| :: userRoles[i].id == id
      ensures forall i, j | 0 <= i < j < |userRoles| :: userRoles[i].id != userRoles[j].id
    {
      userRoles := [];
      var users := store.order;
      for k := 0 to |users|
        invariant |userRoles| == k
        invariant forall i | 0 <= i < k ::
          userRoles[i] == UserRole(users[i], store.accounts[users[i]],
                                   if users[i] in store.banned then Some(store.bannedRole) else None)
      {
        var user := users[k];
        var isInRole := user in store.banned;
        userRoles := userRoles + [UserRole(user, store.accounts[user], if isInRole then Some(store.bannedRole) else None)];
      }
    }

    /**
     * `Create(RegisterViewModel)`: an invalid form changes nothing; otherwise
     * the store's create decides: on success exactly the new account, never
     * signed in yet, is added and the caller is sent to the list; on failure
     * every store error is reported under the empty key and the form is shown
     * again. The session is never touched. `newId` is the key the store assigns.
     */
    method Create(model: RegisterViewModel, now: int, newId: Id, createResult: IdentityResult) returns (result: ActionResult)
      requires Valid() && newId !in store.accounts
      requires createResult.Succeeded? && model.login.Some? && model.email.Some? ==>
        !HasName(store.accounts, model.login.value) && !HasEmail(store.accounts, model.email.value)
      modifies this, store
      ensures Valid() && store.roles == old(store.roles) && tempMessage == old(tempMessage)
      ensures !RegisterValid(model, maxStringLength) ==>
        result == ViewResult && store.Model() == old(store.Model()) && modelState == old(modelState)
      ensures RegisterValid(model, maxStringLength) && createResult.Succeeded? ==>
        && result == RedirectToAction("Index")
        && store.Model() == Created(old(store.Model()), newId, NewAccount(model, maxStringLength, now))
        && store.accounts[newId].lastLoginDate == None
        && modelState == old(modelState)
      ensures RegisterValid(model, maxStringLength) && createResult.Failed? ==>
        && result == ViewResult
        && store.Model() == old(store.Model())
        && modelState == old(modelState) + StoreErrors(createResult.errors)
    {
      if !RegisterValid(model, maxStringLength) {
        return ViewResult;
      }
      var user := NewAccount(model, maxStringLength, now);
      store.Create(newId, user, createResult);
      if createResult.Succeeded? {
        return RedirectToAction("Index");
      }
      AddErrorsFromResult(createResult);
      return ViewResult;
    }

    /**
     * `Login(LoginViewModel)`: an invalid form changes nothing. Otherwise, with
     * `d` the decision for the login name: an unknown name and a refused
     * password add the same single error; a banned account gets the blocked
     * notice before any password check, with no sign-out; any other account is
     * signed out before sign-in is tried, and on success is signed in, has its
     * last-login date set to `now` (kept when the store's update succeeds), and
     * is sent to the list.
     */
    method Login(model: LoginViewModel, now: int, passwordAccepted: bool, updateResult: IdentityResult)
      returns (result: ActionResult)
      requires Valid()
      modifies this, store, http
      ensures Valid() && store.roles == old(store.roles)
      ensures !LoginValid(model, maxStringLength) ==>
        result == ViewResult && Current() == old(Current()) && tempMessage == old(tempMessage)
      ensures LoginValid(model, maxStringLength) ==>
        var d := Decide(old(store.Model()), model.login.value, passwordAccepted);
        && result == (if d.Authenticated? then RedirectToAction("Index") else ViewResult)
        && modelState == old(modelState) + LoginErrors(d)
        && tempMessage == (if d.Blocked? then Some(BlockedMessage(d.userName)) else old(tempMessage))
        && http.events == old(http.events) + SessionEvents(d)
        && http.session == (match d
                            case UnknownLogin => old(http.session)
                            case Blocked(_) => old(http.session)
                            case WrongPassword => None
                            case Authenticated(_, name) => Some(name))
        && store.Model() == (if d.Authenticated? && updateResult.Succeeded?
                             then Updated(old(store.Model()), d.id, old(store.accounts)[d.id].(lastLoginDate := Some(now)))
                             else old(store.Model()))
    {
      if !LoginValid(model, maxStringLength) {
        return ViewResult;
      }
      var found := FindByName(store.Model(), model.login.value);
      if found.None? {
        AddLoginError();
        return ViewResult;
      }
      var id := found.value;
      var user := store.accounts[id];
      if id in store.banned {
        tempMessage := Some(BlockedMessage(user.userName));
        return ViewResult;
      }
      http.SignOut();
      if passwordAccepted {
        http.SignIn(user.userName);
        store.Update(id, user.(lastLoginDate := Some(now)), updateResult);
        return RedirectToAction("Index");
      }
      AddLoginError();
      return ViewResult;
    }

    /** `Logout`: ends the session unconditionally and sends the caller to the sign-in page. */
    method Logout() returns (result: ActionResult)
      modifies http
      ensures http.session == None && http.events == old(http.events) + [SignedOut]
      ensures result == RedirectToAction("Login")
    {
      http.SignOut();
      return RedirectToAction("Login");
    }

    /**
     * `BlockAll`: the bulk loop with the add-to-banned-role store call;
     * `results[i]` is the store's answer for `selectedUsers[i]`.
     */
    method BlockAll(selectedUsers: seq<Id>, results: seq<IdentityResult>) returns (result: ActionResult)
      requires Valid() && |results| == |selectedUsers| && store.bannedRole in store.roles
      modifies this, store
      ensures Valid() && store.roles == old(store.roles) && tempMessage == old(tempMessage)
      ensures Current() == Run(Block, http.identity, old(Current()), selectedUsers, results)
      ensures result == RedirectToAction("Index")
    {
      for k := 0 to |selectedUsers|
        invariant Valid() && store.roles == old(store.roles) && tempMessage == old(tempMessage)
        invariant Current() == Run(Block, http.identity, old(Current()), selectedUsers[..k], results[..k])
      {
        assert selectedUsers[..k + 1][..k] == selectedUsers[..k] && results[..k + 1][..k] == results[..k];
        var id := selectedUsers[k];
        if id !in store.accounts {
          continue;
        }
        var r := results[k];
        store.AddToRole(id, r);
        if !r.Succeeded? {
          AddErrorsFromResult(r);
        }
      }
      assert selectedUsers[..|selectedUsers|] == selectedUsers && results[..|results|] == results;
      return RedirectToAction("Index");
    }

    /** `UnblockAll`: the bulk loop with the remove-from-banned-role store call. */
    method UnblockAll(selectedUsers: seq<Id>, results: seq<IdentityResult>) returns (result: ActionResult)
      requires Valid() && |results| == |selectedUsers|
      modifies this, store
      ensures Valid() && store.roles == old(store.roles) && tempMessage == old(tempMessage)
      ensures Current() == Run(Unblock, http.identity, old(Current()), selectedUsers, results)
      ensures result == RedirectToAction("Index")
    {
      for k := 0 to |selectedUsers|
        invariant Valid() && store.roles == old(store.roles) && tempMessage == old(tempMessage)
        invariant Current() == Run(Unblock, http.identity, old(Current()), selectedUsers[..k], results[..k])
      {
        assert selectedUsers[..k + 1][..k] == selectedUsers[..k] && results[..k + 1][..k] == results[..k];
        var id := selectedUsers[k];
        if id !in store.accounts {
          continue;
        }
        var r := results[k];
        store.RemoveFromRole(id, r);
        if !r.Succeeded? {
          AddErrorsFromResult(r);
        }
      }
      assert selectedUsers[..|selectedUsers|] == selectedUsers && results[..|results|] == results;
      return RedirectToAction("Index");
    }

    /**
     * `DeleteAll`: the bulk loop with the delete store call, followed for every
     * resolved account by `LogoutUser`, whether or not the delete succeeded.
     */
    method DeleteAll(selectedUsers: seq<Id>, results: seq<IdentityResult>) returns (result: ActionResult)
      requires Valid() && |results| == |selectedUsers|
      modifies this, store, http
      ensures Valid() && store.roles == old(store.roles) && tempMessage == old(tempMessage)
      ensures Current() == Run(Delete, http.identity, old(Current()), selectedUsers, results)
      ensures result == RedirectToAction("Index")
    {
      for k := 0 to |selectedUsers|
        invariant Valid() && store.roles == old(store.roles) && tempMessage == old(tempMessage)
        invariant Current() == Run(Delete, http.identity, old(Current()), selectedUsers[..k], results[..k])
      {
        assert selectedUsers[..k + 1][..k] == selectedUsers[..k] && results[..k + 1][..k] == results[..k];
        var id := selectedUsers[k];
        if id !in store.accounts {
          continue;
        }
        var user := store.accounts[id];
        var r := results[k];
        store.Delete(id, r);
        if !r.Succeeded? {
          AddErrorsFromResult(r);
        }
        LogoutUser(user);
      }
      assert selectedUsers[..|selectedUsers|] == selectedUsers && results[..|results|] == results;
      return RedirectToAction("Index");
    }

    /** `AddLoginError`: the one generic sign-in error. */
    method AddLoginError()
      modifies this
      ensures modelState == old(modelState) + [InvalidLogin] && tempMessage == old(tempMessage)
    {
      modelState := modelState + [InvalidLogin];
    }

    /** `AddErrorsFromResult`: every error of the result, in order, under the empty key. */
    method AddErrorsFromResult(result: IdentityResult)
      modifies this
      ensures modelState == old(modelState) + StoreErrors(result.Errors()) && tempMessage == old(tempMessage)
    {
      var errors := result.Errors();
      for k := 0 to |errors|
        invariant modelState == old(modelState) + StoreErrors(errors[..k]) && tempMessage == old(tempMessage)
      {
        assert StoreErrors(errors[..k + 1]) == StoreErrors(errors[..k]) + [ModelError("", errors[k])];
        modelState := modelState + [ModelError("", errors[k])];
      }
      assert errors[..|errors|] == errors;
    }

    /** `LogoutUser`: signs the caller out when `user` is the caller's own account. */
    method LogoutUser(user: Account)
      modifies http
      ensures http.session == (if http.identity == Some(user.userName) then None else old(http.session))
      ensures http.events == old(http.events) + (if http.identity == Some(user.userName) then [SignedOut] else [])
    {
      if http.identity == Some(user.userName) {
        http.SignOut();
      }
    }
  }
}
