/**
 * What the account controller's actions do, stated on values: the ModelState
 * entries it adds, the sign-in decision, and the per-item step of the bulk
 * block, unblock and delete loops folded over the selected ids.
 */
module Moderation {
  import opened Wrappers
  import opened Identity
  import opened Http

  /** An entry of ModelState: a property name, or "" for the whole form, and the message. */
  datatype ModelError = ModelError(key: string, message: string)

  /** `AddLoginError`'s one entry, shared by the unknown-login and the wrong-password paths. */
  const InvalidLogin := ModelError("Login", "Invalid Login or password")

  /** `AddErrorsFromResult`'s entries: every store error, in order, under the empty key. */
  function StoreErrors(errors: seq<string>): (r: seq<ModelError>)
    ensures |r| == |errors|
    ensures forall i | 0 <= i < |r| :: r[i] == ModelError("", errors[i])
  {
    if errors == [] then [] else [ModelError("", errors[0])] + StoreErrors(errors[1..])
  }

  /** The notice shown, through TempData, to a blocked account that tries to sign in. */
  function BlockedMessage(userName: string): (r: string)
    ensures |r| == |userName| + 19
    ensures r[6..6 + |userName|] == userName
  {
    "User '" + userName + "' was blocked"
  }

  /** The path `Login` takes once the form is valid. */
  datatype LoginDecision =
    | UnknownLogin
    | Blocked(userName: string)
    | WrongPassword
    | Authenticated(id: Id, userName: string)

  /**
   * The sign-in decision for `login`, where `passwordAccepted` is what
   * `PasswordSignInAsync` would answer. The banned role is consulted before
   * the password, so a blocked account is blocked whatever the password.
   */
  function Decide(u: Users, login: string, passwordAccepted: bool): (d: LoginDecision)
    requires WellFormed(u)
    ensures d.UnknownLogin? <==> !HasName(u.accounts, login)
    ensures d.Blocked? <==> exists id | id in u.accounts && id in u.banned :: u.accounts[id].userName == login
    ensures d.Blocked? ==> d.userName == login
    ensures d.WrongPassword? <==> !passwordAccepted && ActiveAccount(u, login)
    ensures d.Authenticated? <==> passwordAccepted && ActiveAccount(u, login)
    ensures d.Authenticated? ==>
      d.id in u.accounts && d.id !in u.banned && u.accounts[d.id].userName == login && d.userName == login
  {
    match FindByName(u, login)
    case None => UnknownLogin
    case Some(id) =>
      if id in u.banned then Blocked(u.accounts[id].userName)
      else if passwordAccepted then Authenticated(id, u.accounts[id].userName)
      else WrongPassword
  }

  /** The ModelState entries a valid sign-in form adds on each path. */
  function LoginErrors(d: LoginDecision): (r: seq<ModelError>)
    ensures r == [] || r == [InvalidLogin]
    ensures r == [InvalidLogin] <==> d.UnknownLogin? || d.WrongPassword?
  {
    if d.UnknownLogin? || d.WrongPassword? then [InvalidLogin] else []
  }

  /** The session operations on each path: an account that gets past the ban check is signed out before sign-in is tried. */
  function SessionEvents(d: LoginDecision): (r: seq<Event>)
    ensures SignedOut in r <==> d.WrongPassword? || d.Authenticated?
    ensures forall name :: SignedIn(name) in r <==> d.Authenticated? && name == d.userName
    ensures r != [] ==> r[0] == SignedOut
    ensures NextInvoked !in r
  {
    match d
    case UnknownLogin => []
    case Blocked(_) => []
    case WrongPassword => [SignedOut]
    case Authenticated(_, name) => [SignedOut, SignedIn(name)]
  }

  /**
   * The error entries alone do not tell an unknown login from a wrong
   * password for an existing account: both add the same single error, and
   * neither signs anyone in. The session operations do differ; see
   * `SignOutRevealsKnownLogin`.
   */
  lemma SameErrorForUnknownAndWrongPassword(u: Users, unknown: string, known: string, passwordAccepted: bool)
    requires WellFormed(u) && !HasName(u.accounts, unknown) && ActiveAccount(u, known)
    ensures LoginErrors(Decide(u, unknown, passwordAccepted)) == LoginErrors(Decide(u, known, false)) == [InvalidLogin]
    ensures SignedIn(unknown) !in SessionEvents(Decide(u, unknown, passwordAccepted))
    ensures SignedIn(known) !in SessionEvents(Decide(u, known, false))
  {
  }

  /**
   * The session operations do tell the two apart: an unknown login leaves the
   * caller's session alone, while a wrong password for an existing, non-banned
   * account signs the caller out before the password is checked.
   */
  lemma SignOutRevealsKnownLogin(u: Users, unknown: string, known: string, passwordAccepted: bool)
    requires WellFormed(u) && !HasName(u.accounts, unknown) && ActiveAccount(u, known)
    ensures SessionEvents(Decide(u, unknown, passwordAccepted)) == []
    ensures SessionEvents(Decide(u, known, false)) == [SignedOut]
  {
  }

  /** A banned account is turned away before its password matters, with no error entry and no session change. */
  lemma BlockedBeforePasswordCheck(u: Users, id: Id, passwordAccepted: bool)
    requires WellFormed(u) && id in u.banned
    ensures Decide(u, u.accounts[id].userName, passwordAccepted) == Blocked(u.accounts[id].userName)
    ensures LoginErrors(Decide(u, u.accounts[id].userName, passwordAccepted)) == []
    ensures SessionEvents(Decide(u, u.accounts[id].userName, passwordAccepted)) == []
  {
  }

  datatype BulkAction = Block | Unblock | Delete

  /** What the bulk loops change: the store, ModelState, the session and the session operations. */
  datatype Progress = Progress(users: Users, errors: seq<ModelError>, session: Option<string>, events: seq<Event>)

  /** The store call of each bulk action, on success. */
  function Apply(action: BulkAction, u: Users, id: Id): Users {
    match action
    case Block => AddedToRole(u, id)
    case Unblock => RemovedFromRole(u, id)
    case Delete => Deleted(u, id)
  }

  /**
   * One iteration of a bulk loop: an id that does not resolve is skipped; a
   * resolved one gets the store call, whose failure adds that result's errors;
   * a delete then signs the caller out when the account was the caller's own,
   * whether or not the delete succeeded. `identity` is the caller's name.
   */
  function Step(action: BulkAction, identity: Option<string>, p: Progress, id: Id, result: IdentityResult): (r: Progress)
    ensures id !in p.users.accounts ==> r == p
    ensures r.session == p.session || r.session == None
    ensures action != Delete ==> r.session == p.session && r.events == p.events
  {
    if id !in p.users.accounts then p
    else
      var user := p.users.accounts[id];
      var users := if result.Succeeded? then Apply(action, p.users, id) else p.users;
      var errors := p.errors + (if result.Succeeded? then [] else StoreErrors(result.errors));
      if action == Delete && identity == Some(user.userName) then Progress(users, errors, None, p.events + [SignedOut])
      else Progress(users, errors, p.session, p.events)
  }

  /** A whole bulk loop: the steps over `ids` in order, `results[i]` being the store's answer for `ids[i]`. */
  function Run(action: BulkAction, identity: Option<string>, p: Progress, ids: seq<Id>, results: seq<IdentityResult>): (r: Progress)
    requires |ids| == |results|
    ensures r.session == p.session || r.session == None
    ensures action != Delete ==> r.session == p.session && r.events == p.events
    decreases |ids|
  {
    if ids == [] then p
    else
      var n := |ids| - 1;
      Step(action, identity, Run(action, identity, p, ids[..n], results[..n]), ids[n], results[n])
  }

  /** A bulk loop keeps the store's invariant. */
  lemma {:induction false} RunKeepsWellFormed(action: BulkAction, identity: Option<string>, p: Progress,
                                              ids: seq<Id>, results: seq<IdentityResult>)
    requires WellFormed(p.users) && |ids| == |results|
    ensures WellFormed(Run(action, identity, p, ids, results).users)
    decreases |ids|
  {
    if ids != [] {
      var n := |ids| - 1;
      RunKeepsWellFormed(action, identity, p, ids[..n], results[..n]);
      var before := Run(action, identity, p, ids[..n], results[..n]);
      if ids[n] in before.users.accounts && results[n].Succeeded? {
        match action
        case Block => assert WellFormed(AddedToRole(before.users, ids[n]));
        case Unblock => assert WellFormed(RemovedFromRole(before.users, ids[n]));
        case Delete => assert WellFormed(Deleted(before.users, ids[n]));
      }
    }
  }

  /** The ids whose store call succeeded on a resolved account. */
  function Applied(accounts: map<Id, Account>, ids: seq<Id>, results: seq<IdentityResult>): set<Id>
    requires |ids| == |results|
    decreases |ids|
  {
    if ids == [] then {}
    else
      var n := |ids| - 1;
      Applied(accounts, ids[..n], results[..n]) + (if ids[n] in accounts && results[n].Succeeded? then {ids[n]} else {})
  }

  /** An id is applied exactly when it resolves and the store succeeded for one of its occurrences. */
  lemma {:induction false} AppliedMembers(accounts: map<Id, Account>, ids: seq<Id>, results: seq<IdentityResult>, x: Id)
    requires |ids| == |results|
    ensures x in Applied(accounts, ids, results) <==>
            x in accounts && exists i | 0 <= i < |ids| :: ids[i] == x && results[i].Succeeded?
    decreases |ids|
  {
    if ids != [] {
      var n := |ids| - 1;
      AppliedMembers(accounts, ids[..n], results[..n], x);
      assert forall i | 0 <= i < n :: ids[..n][i] == ids[i] && results[..n][i] == results[i];
    }
  }

  /** The errors a loop over fixed accounts reports: each resolved item's own store errors, in input order. */
  function FailedErrors(accounts: map<Id, Account>, ids: seq<Id>, results: seq<IdentityResult>): seq<ModelError>
    requires |ids| == |results|
    decreases |ids|
  {
    if ids == [] then []
    else
      var n := |ids| - 1;
      FailedErrors(accounts, ids[..n], results[..n]) + (if ids[n] in accounts then StoreErrors(results[n].Errors()) else [])
  }

  /** Some selected id names the caller's own account. */
  ghost predicate SelfTargeted(accounts: map<Id, Account>, identity: Option<string>, ids: seq<Id>) {
    exists i | 0 <= i < |ids| :: ids[i] in accounts && identity == Some(accounts[ids[i]].userName)
  }

  /** Running the loop over two batches in turn is running it over their concatenation. */
  lemma {:induction false} RunConcat(action: BulkAction, identity: Option<string>, p: Progress,
                                     ids1: seq<Id>, results1: seq<IdentityResult>,
                                     ids2: seq<Id>, results2: seq<IdentityResult>)
    requires |ids1| == |results1| && |ids2| == |results2|
    ensures Run(action, identity, p, ids1 + ids2, results1 + results2)
            == Run(action, identity, Run(action, identity, p, ids1, results1), ids2, results2)
    decreases |ids2|
  {
    if ids2 == [] {
      assert ids1 + ids2 == ids1 && results1 + results2 == results1;
    } else {
      var n := |ids2| - 1;
      RunConcat(action, identity, p, ids1, results1, ids2[..n], results2[..n]);
      SplitLast(ids1, ids2);
      SplitLast(results1, results2);
      RunSnoc(action, identity, p, ids1 + ids2[..n], results1 + results2[..n], ids2[n], results2[n]);
    }
  }

  lemma SplitLast<T>(a: seq<T>, b: seq<T>)
    requires b != []
    ensures a + b == (a + b[..|b| - 1]) + [b[|b| - 1]]
  {
  }

  /** The loop over a selection with one more id is one more step. */
  lemma RunSnoc(action: BulkAction, identity: Option<string>, p: Progress,
                ids: seq<Id>, results: seq<IdentityResult>, id: Id, result: IdentityResult)
    requires |ids| == |results|
    ensures Run(action, identity, p, ids + [id], results + [result])
            == Step(action, identity, Run(action, identity, p, ids, results), id, result)
  {
    assert (ids + [id])[..|ids|] == ids && (results + [result])[..|ids|] == results;
  }

  /** One iteration of BlockAll or UnblockAll, component by component. */
  lemma RoleStep(action: BulkAction, identity: Option<string>, p: Progress, id: Id, result: IdentityResult)
    requires action != Delete
    ensures var q := Step(action, identity, p, id, result);
      var hit := if id in p.users.accounts && result.Succeeded? then {id} else {};
      && q.users.accounts == p.users.accounts && q.users.order == p.users.order
      && q.users.banned == (if action == Block then p.users.banned + hit else p.users.banned - hit)
      && q.errors == p.errors + (if id in p.users.accounts then StoreErrors(result.Errors()) else [])
      && q.session == p.session && q.events == p.events
  {
  }

  /**
   * BlockAll and UnblockAll: exactly the resolved ids whose store call
   * succeeded join (leave) the banned role; membership of every other id is
   * kept and accounts are untouched.
   */
  lemma {:induction false} RoleRunMembership(action: BulkAction, identity: Option<string>, p: Progress,
                                             ids: seq<Id>, results: seq<IdentityResult>)
    requires |ids| == |results| && action != Delete
    ensures var q := Run(action, identity, p, ids, results);
      && q.users.accounts == p.users.accounts && q.users.order == p.users.order
      && q.users.banned == if action == Block then p.users.banned + Applied(p.users.accounts, ids, results)
                           else p.users.banned - Applied(p.users.accounts, ids, results)
    decreases |ids|
  {
    if ids != [] {
      var n := |ids| - 1;
      RoleRunMembership(action, identity, p, ids[..n], results[..n]);
      RoleStep(action, identity, Run(action, identity, p, ids[..n], results[..n]), ids[n], results[n]);
    }
  }

  /**
   * BlockAll and UnblockAll report each resolved item's own store errors, in
   * input order, and leave the session alone.
   */
  lemma {:induction false} RoleRunErrors(action: BulkAction, identity: Option<string>, p: Progress,
                                         ids: seq<Id>, results: seq<IdentityResult>)
    requires |ids| == |results| && action != Delete
    ensures var q := Run(action, identity, p, ids, results);
      && q.errors == p.errors + FailedErrors(p.users.accounts, ids, results)
      && q.session == p.session && q.events == p.events
    decreases |ids|
  {
    if ids != [] {
      var n := |ids| - 1;
      RoleRunErrors(action, identity, p, ids[..n], results[..n]);
      RoleRunMembership(action, identity, p, ids[..n], results[..n]);
      var before := Run(action, identity, p, ids[..n], results[..n]);
      RoleStep(action, identity, before, ids[n], results[n]);
      var extra := if ids[n] in p.users.accounts then StoreErrors(results[n].Errors()) else [];
      assert Run(action, identity, p, ids, results).errors == before.errors + extra;
      assert FailedErrors(p.users.accounts, ids, results) == FailedErrors(p.users.accounts, ids[..n], results[..n]) + extra;
      AppendAssoc(p.errors, FailedErrors(p.users.accounts, ids[..n], results[..n]), extra);
    }
  }

  lemma AppendAssoc<T>(a: seq<T>, b: seq<T>, c: seq<T>)
    ensures (a + b) + c == a + (b + c)
  {
  }

  /** One iteration of DeleteAll, component by component. */
  lemma DeleteStep(identity: Option<string>, p: Progress, id: Id, result: IdentityResult)
    ensures var q := Step(Delete, identity, p, id, result);
      var hit := if id in p.users.accounts && result.Succeeded? then {id} else {};
      && q.users.accounts == p.users.accounts - hit
      && q.users.banned == p.users.banned - hit
      && q.errors == p.errors + (if id in p.users.accounts then StoreErrors(result.Errors()) else [])
      && q.session == (if id in p.users.accounts && identity == Some(p.users.accounts[id].userName) then None else p.session)
  {
  }

  /** DeleteAll removes exactly the resolved ids whose delete succeeded, with their role membership. */
  lemma {:induction false} DeleteAllRemoves(identity: Option<string>, p: Progress, ids: seq<Id>, results: seq<IdentityResult>)
    requires |ids| == |results|
    ensures var q := Run(Delete, identity, p, ids, results);
      && q.users.accounts == p.users.accounts - Applied(p.users.accounts, ids, results)
      && q.users.banned == p.users.banned - Applied(p.users.accounts, ids, results)
    decreases |ids|
  {
    if ids != [] {
      var n := |ids| - 1;
      DeleteAllRemoves(identity, p, ids[..n], results[..n]);
      DeleteStep(identity, Run(Delete, identity, p, ids[..n], results[..n]), ids[n], results[n]);
    }
  }

  /**
   * DeleteAll ends the caller's session exactly when one of the selected ids
   * resolved to the caller's own account, even if that delete failed.
   */
  lemma {:induction false} DeleteAllSignsOutSelf(identity: Option<string>, p: Progress, ids: seq<Id>, results: seq<IdentityResult>)
    requires |ids| == |results|
    ensures Run(Delete, identity, p, ids, results).session
            == if SelfTargeted(p.users.accounts, identity, ids) then None else p.session
    decreases |ids|
  {
    if ids != [] {
      var n := |ids| - 1;
      var accounts := p.users.accounts;
      var before := Run(Delete, identity, p, ids[..n], results[..n]);
      DeleteAllSignsOutSelf(identity, p, ids[..n], results[..n]);
      DeleteAllRemoves(identity, p, ids[..n], results[..n]);
      DeleteStep(identity, before, ids[n], results[n]);
      assert forall i | 0 <= i < n :: ids[..n][i] == ids[i];
      if ids[n] in accounts && ids[n] !in before.users.accounts && identity == Some(accounts[ids[n]].userName) {
        // an earlier occurrence of the same id was deleted, and it was the caller's too
        AppliedMembers(accounts, ids[..n], results[..n], ids[n]);
        var j :| 0 <= j < n && ids[..n][j] == ids[n] && results[..n][j].Succeeded?;
        assert ids[..n][j] in accounts && identity == Some(accounts[ids[..n][j]].userName);
      }
      if SelfTargeted(accounts, identity, ids) && !SelfTargeted(accounts, identity, ids[..n]) {
        var i :| 0 <= i < |ids| && ids[i] in accounts && identity == Some(accounts[ids[i]].userName);
        assert i == n;
      }
      if SelfTargeted(accounts, identity, ids[..n]) {
        var i :| 0 <= i < n && ids[..n][i] in accounts && identity == Some(accounts[ids[..n][i]].userName);
        assert ids[i] in accounts && identity == Some(accounts[ids[i]].userName);
      }
    }
  }

  /** In a batch without repeated ids, the last id was not deleted by an earlier item. */
  lemma DistinctLastNotApplied(accounts: map<Id, Account>, ids: seq<Id>, results: seq<IdentityResult>)
    requires |ids| == |results| && ids != [] && Distinct(ids)
    ensures Distinct(ids[..|ids| - 1])
    ensures ids[|ids| - 1] !in Applied(accounts, ids[..|ids| - 1], results[..|ids| - 1])
  {
    var n := |ids| - 1;
    AppliedMembers(accounts, ids[..n], results[..n], ids[n]);
  }

  /** With distinct ids, DeleteAll's errors are each resolved item's own store errors, in input order. */
  lemma {:induction false} DeleteAllErrors(identity: Option<string>, p: Progress, ids: seq<Id>, results: seq<IdentityResult>)
    requires |ids| == |results| && Distinct(ids)
    ensures Run(Delete, identity, p, ids, results).errors == p.errors + FailedErrors(p.users.accounts, ids, results)
    decreases |ids|
  {
    if ids != [] {
      var n := |ids| - 1;
      DistinctLastNotApplied(p.users.accounts, ids, results);
      DeleteAllErrors(identity, p, ids[..n], results[..n]);
      DeleteAllRemoves(identity, p, ids[..n], results[..n]);
      var before := Run(Delete, identity, p, ids[..n], results[..n]);
      assert ids[n] in before.users.accounts <==> ids[n] in p.users.accounts;
      DeleteStep(identity, before, ids[n], results[n]);
      var extra := if ids[n] in p.users.accounts then StoreErrors(results[n].Errors()) else [];
      assert Run(Delete, identity, p, ids, results).errors == before.errors + extra;
      assert FailedErrors(p.users.accounts, ids, results) == FailedErrors(p.users.accounts, ids[..n], results[..n]) + extra;
      AppendAssoc(p.errors, FailedErrors(p.users.accounts, ids[..n], results[..n]), extra);
    }
  }

  /** Banning an account and then unbanning it restores the store, and the account can sign in again. */
  lemma BanThenUnbanRestores(identity: Option<string>, p: Progress, id: Id)
    requires WellFormed(p.users) && id in p.users.accounts && id !in p.users.banned
    ensures var banned := Run(Block, identity, p, [id], [Succeeded]);
      var restored := Run(Unblock, identity, banned, [id], [Succeeded]);
      var name := p.users.accounts[id].userName;
      && banned.users == AddedToRole(p.users, id)
      && Decide(banned.users, name, true) == Blocked(name)
      && restored.users == p.users
      && Decide(restored.users, name, true) == Authenticated(id, name)
  {
    RoleRunMembership(Block, identity, p, [id], [Succeeded]);
    var banned := Run(Block, identity, p, [id], [Succeeded]);
    RoleRunMembership(Unblock, identity, banned, [id], [Succeeded]);
  }
}
