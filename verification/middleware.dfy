/**
 * The two request interceptors that revoke sessions. `InvokeLogout` is the
 * one registered in the pipeline; `InvokeLogoutBanned` is an older variant
 * kept in the repository but not registered.
 */
module Middleware {
  import opened Wrappers
  import opened Identity
  import opened Http
  import opened Moderation

  /**
   * The registered interceptor's test: the caller's name ("" when there is
   * none) must resolve to an account outside the banned role, or the session
   * is revoked. It fails closed: a name that no longer resolves is revoked.
   */
  function RevokesSession(u: Users, identity: Option<string>): (r: bool)
    requires WellFormed(u)
    ensures r <==> !ActiveAccount(u, identity.GetOr(""))
  {
    var userName := identity.GetOr("");
    var userInDb := FindByName(u, userName);
    userInDb.None? || userInDb.value in u.banned
  }

  /**
   * One `InvokeAsync` of the registered interceptor: sign-out when the test
   * says so, then the next stage exactly once. The store is only read. A
   * session that started as the caller's own survives only for an existing,
   * non-banned account. Sign-out does not change the request's identity, so
   * the next stage still runs as the caller.
   */
  method InvokeLogout(context: HttpContext, store: IdentityStore)
    requires store.Valid()
    modifies context
    ensures var revoke := RevokesSession(store.Model(), context.identity);
      && context.session == (if revoke then None else old(context.session))
      && context.events == old(context.events) + (if revoke then [SignedOut] else []) + [NextInvoked]
    ensures old(context.session) == context.identity && context.session.Some? ==>
      ActiveAccount(store.Model(), context.session.value)
    ensures unchanged(store)
  {
    var userName := context.identity.GetOr("");
    var userInDb := FindByName(store.Model(), userName);
    if userInDb.None? || FindByName(store.Model(), userName).value in store.banned {
      context.SignOut();
    }
    context.InvokeNext();
  }

  /** What the older interceptor finds for the caller. */
  datatype BannedCheck =
    | NoIdentity   // no identity name: nothing is looked up
    | NotBanned    // the account exists outside the banned role
    | Banned       // the account is in the banned role
    | NullUser     // the name no longer resolves; the role check is handed a null user

  /** The older interceptor's case analysis. */
  function LogoutBannedCheck(u: Users, identity: Option<string>): (c: BannedCheck)
    requires WellFormed(u)
    ensures c == NoIdentity <==> identity.None?
    ensures c == NullUser <==> identity.Some? && !HasName(u.accounts, identity.value)
    ensures c == Banned <==>
      identity.Some? && exists id | id in u.accounts && id in u.banned :: u.accounts[id].userName == identity.value
    ensures c == NotBanned <==> identity.Some? && ActiveAccount(u, identity.value)
  {
    match identity
    case None => NoIdentity
    case Some(userName) =>
      match FindByName(u, userName)
      case None => NullUser
      case Some(id) => if id in u.banned then Banned else NotBanned
  }

  /** How an `InvokeAsync` ends: normally, or with an exception that skips the next stage. */
  datatype Completion = Completed | Faulted

  /**
   * One `InvokeAsync` of the older interceptor: only a banned account's
   * session is revoked; with no identity nothing is looked up. For a name that
   * no longer resolves the role check receives a null user and throws, so the
   * request faults before the next stage.
   */
  method InvokeLogoutBanned(context: HttpContext, store: IdentityStore) returns (completion: Completion)
    requires store.Valid()
    modifies context
    ensures var check := LogoutBannedCheck(store.Model(), context.identity);
      && completion == (if check == NullUser then Faulted else Completed)
      && context.session == (if check == Banned then None else old(context.session))
      && context.events == old(context.events) + (if check == Banned then [SignedOut] else [])
                           + (if check == NullUser then [] else [NextInvoked])
    ensures unchanged(store)
  {
    var userName := context.identity;
    if userName.Some? {
      var user := FindByName(store.Model(), userName.value);
      if user.None? {
        // IsInRoleAsync(null, role) throws ArgumentNullException, which leaves InvokeAsync.
        return Faulted;
      }
      if user.value in store.banned {
        context.SignOut();
      }
    }
    context.InvokeNext();
    completion := Completed;
  }

  /**
   * A session whose account was deleted: the older interceptor faults on it,
   * where the registered one revokes it.
   */
  lemma DeletedAccountFaultsOlderVariant(u: Users, userName: string)
    requires WellFormed(u) && !HasName(u.accounts, userName)
    ensures LogoutBannedCheck(u, Some(userName)) == NullUser
    ensures RevokesSession(u, Some(userName))
  {
  }

  /**
   * Once BlockAll has added an account to the banned role, the interceptor
   * ends that account's session during its next request. The interceptor runs
   * after authorization and then calls the next stage anyway, so that
   * request's action still runs under the old identity; only the request after
   * it arrives without the session.
   */
  lemma BanRevokesNextRequest(identity: Option<string>, p: Progress, ids: seq<Id>, results: seq<IdentityResult>, k: nat)
    requires WellFormed(p.users) && |ids| == |results|
    requires k < |ids| && ids[k] in p.users.accounts && results[k].Succeeded?
    ensures var q := Run(Block, identity, p, ids, results);
      WellFormed(q.users) && RevokesSession(q.users, Some(p.users.accounts[ids[k]].userName))
  {
    RunKeepsWellFormed(Block, identity, p, ids, results);
    RoleRunMembership(Block, identity, p, ids, results);
    AppliedMembers(p.users.accounts, ids, results, ids[k]);
  }

  /**
   * Once DeleteAll has deleted an account, its name resolves to nothing, so
   * the interceptor ends that account's session during its next request. That
   * request's action still runs under the old identity, as for a ban.
   */
  lemma DeleteRevokesNextRequest(identity: Option<string>, p: Progress, ids: seq<Id>, results: seq<IdentityResult>, k: nat)
    requires WellFormed(p.users) && |ids| == |results|
    requires k < |ids| && ids[k] in p.users.accounts && results[k].Succeeded?
    ensures var q := Run(Delete, identity, p, ids, results);
      WellFormed(q.users) && !HasName(q.users.accounts, p.users.accounts[ids[k]].userName)
      && RevokesSession(q.users, Some(p.users.accounts[ids[k]].userName))
  {
    RunKeepsWellFormed(Delete, identity, p, ids, results);
    DeleteAllRemoves(identity, p, ids, results);
    AppliedMembers(p.users.accounts, ids, results, ids[k]);
  }

  /**
   * After UnblockAll has removed an account from the banned role, the
   * interceptor keeps that account's session on its next request.
   */
  lemma UnbanKeepsNextRequest(identity: Option<string>, p: Progress, ids: seq<Id>, results: seq<IdentityResult>, k: nat)
    requires WellFormed(p.users) && |ids| == |results|
    requires k < |ids| && ids[k] in p.users.accounts && results[k].Succeeded?
    ensures var q := Run(Unblock, identity, p, ids, results);
      WellFormed(q.users) && !RevokesSession(q.users, Some(p.users.accounts[ids[k]].userName))
  {
    RunKeepsWellFormed(Unblock, identity, p, ids, results);
    RoleRunMembership(Unblock, identity, p, ids, results);
    AppliedMembers(p.users.accounts, ids, results, ids[k]);
    var q := Run(Unblock, identity, p, ids, results);
    assert ids[k] in q.users.accounts && ids[k] !in q.users.banned;
  }
}
