/**
 * The identity store behind `UserManager` and `RoleManager`: accounts in a
 * listing order, membership in the banned role, and role names. The database
 * promises no listing order; the model lists accounts in creation order. The store's own
 * operations are library code; each is modelled as an oracle whose result is
 * an input and which changes the store only when that result is `Succeeded`.
 */
module Identity {
  import opened Wrappers

  type Id = string

  /** A row of the users table: the identity user's name and email plus the two dates the application adds. */
  datatype Account = Account(userName: string, email: string, registrationDate: int, lastLoginDate: Option<int>)

  /** `IdentityResult`: success, or failure with the store's error descriptions. */
  datatype IdentityResult = Succeeded | Failed(errors: seq<string>) {
    /** `IdentityResult.Errors`: empty on success. */
    function Errors(): seq<string> {
      if Succeeded? then [] else errors
    }
  }

  /** The abstract value of the user store. `banned` is the set of accounts in the banned role. */
  datatype Users = Users(accounts: map<Id, Account>, order: seq<Id>, banned: set<Id>)

  predicate Distinct(s: seq<Id>) {
    forall i, j | 0 <= i < j < |s| :: s[i] != s[j]
  }

  ghost predicate UniqueNames(accounts: map<Id, Account>) {
    forall a, b | a in accounts && b in accounts && accounts[a].userName == accounts[b].userName :: a == b
  }

  /**
   * The store's invariant: `order` lists every account exactly once, only
   * accounts can be in the banned role, and user names are unique.
   */
  ghost predicate WellFormed(u: Users) {
    && (forall i | 0 <= i < |u.order| :: u.order[i] in u.accounts)
    && (forall id | id in u.accounts :: id in u.order)
    && Distinct(u.order)
    && u.banned <= u.accounts.Keys
    && UniqueNames(u.accounts)
  }

  ghost predicate HasName(accounts: map<Id, Account>, name: string) {
    exists id | id in accounts :: accounts[id].userName == name
  }

  ghost predicate HasEmail(accounts: map<Id, Account>, email: string) {
    exists id | id in accounts :: accounts[id].email == email
  }

  /** Some account carries `name` and is not in the banned role. */
  ghost predicate ActiveAccount(u: Users, name: string) {
    exists id | id in u.accounts :: u.accounts[id].userName == name && id !in u.banned
  }

  /** The first account in `order` whose user name is `name`. */
  function FindIn(accounts: map<Id, Account>, order: seq<Id>, name: string): (r: Option<Id>)
    ensures r.Some? ==> r.value in order && r.value in accounts && accounts[r.value].userName == name
    ensures r.None? ==> forall i | 0 <= i < |order| && order[i] in accounts :: accounts[order[i]].userName != name
  {
    if order == [] then None
    else if order[0] in accounts && accounts[order[0]].userName == name then Some(order[0])
    else FindIn(accounts, order[1..], name)
  }

  /** `FindByNameAsync`: on a well-formed store, the one account with that name, if any. */
  function FindByName(u: Users, name: string): (r: Option<Id>)
    requires WellFormed(u)
    ensures r.None? <==> !HasName(u.accounts, name)
    ensures forall id | id in u.accounts :: r == Some(id) <==> u.accounts[id].userName == name
  {
    FindIn(u.accounts, u.order, name)
  }

  /** `order` without `x`. */
  function RemoveId(s: seq<Id>, x: Id): (r: seq<Id>)
    ensures forall y :: y in r <==> y in s && y != x
    ensures Distinct(s) ==> Distinct(r)
  {
    if s == [] then []
    else if s[0] == x then RemoveId(s[1..], x)
    else
      var rest := RemoveId(s[1..], x);
      assert Distinct(s) ==> s[0] !in s[1..] && Distinct(s[1..]) by {
        if Distinct(s) {
          forall i, j | 0 <= i < j < |s[1..]| ensures s[1..][i] != s[1..][j] {
            assert s[1..][i] == s[i + 1] && s[1..][j] == s[j + 1];
          }
        }
      }
      [s[0]] + rest
  }

  /**
   * The store after `CreateAsync` succeeded: the id maps to the new account
   * and every other account keeps its value. The model appends the id to its
   * listing order.
   */
  function Created(u: Users, id: Id, a: Account): (r: Users)
    ensures WellFormed(u) && id !in u.accounts && !HasName(u.accounts, a.userName) ==> WellFormed(r)
    ensures r.accounts == u.accounts[id := a] && r.order == u.order + [id] && r.banned == u.banned
  {
    Users(u.accounts[id := a], u.order + [id], u.banned)
  }

  /** The store after `DeleteAsync` succeeded; the account's role membership goes with it. */
  function Deleted(u: Users, id: Id): (r: Users)
    ensures WellFormed(u) ==> WellFormed(r)
    ensures r.accounts == u.accounts - {id} && r.banned == u.banned - {id}
  {
    var order := RemoveId(u.order, id);
    assert WellFormed(u) ==> forall i | 0 <= i < |order| :: order[i] in u.order && order[i] != id;
    Users(u.accounts - {id}, order, u.banned - {id})
  }

  /** The store after `AddToRoleAsync(user, BannedRole)` succeeded. */
  function AddedToRole(u: Users, id: Id): (r: Users)
    ensures WellFormed(u) && id in u.accounts ==> WellFormed(r)
    ensures r.accounts == u.accounts && r.order == u.order && r.banned == u.banned + {id}
  {
    u.(banned := u.banned + {id})
  }

  /** The store after `RemoveFromRoleAsync(user, BannedRole)` succeeded. */
  function RemovedFromRole(u: Users, id: Id): (r: Users)
    ensures WellFormed(u) ==> WellFormed(r)
    ensures r.accounts == u.accounts && r.order == u.order && r.banned == u.banned - {id}
  {
    u.(banned := u.banned - {id})
  }

  /** The store after `UpdateAsync` succeeded on an account whose user name is kept. */
  function Updated(u: Users, id: Id, a: Account): (r: Users)
    ensures WellFormed(u) && id in u.accounts && a.userName == u.accounts[id].userName ==> WellFormed(r)
    ensures r.accounts == u.accounts[id := a] && r.order == u.order && r.banned == u.banned
  {
    u.(accounts := u.accounts[id := a])
  }

  /**
   * The identity database. `bannedRole` is `AppRoles.BannedRole`, bound from
   * configuration at start-up.
   */
  class IdentityStore {
    var accounts: map<Id, Account>
    var order: seq<Id>
    var banned: set<Id>
    var roles: set<string>
    const bannedRole: string

    function Model(): Users
      reads this
    {
      Users(accounts, order, banned)
    }

    ghost predicate Valid()
      reads this
    {
      WellFormed(Model())
    }

    constructor (bannedRole: string)
      ensures Valid() && Model() == Users(map[], [], {}) && roles == {}
      ensures this.bannedRole == bannedRole
    {
      accounts, order, banned, roles := map[], [], {}, {};
      this.bannedRole := bannedRole;
    }

    /** `UserManager.CreateAsync`; `id` is the key the store assigns, and a success implies unique name and email. */
    method Create(id: Id, a: Account, result: IdentityResult)
      requires Valid() && id !in accounts
      requires result.Succeeded? ==> !HasName(accounts, a.userName) && !HasEmail(accounts, a.email)
      modifies this
      ensures Valid() && roles == old(roles)
      ensures Model() == if result.Succeeded? then Created(old(Model()), id, a) else old(Model())
    {
      if result.Succeeded? {
        var u := Created(Model(), id, a);
        accounts, order := u.accounts, u.order;
      }
    }

    /** `UserManager.AddToRoleAsync(user, BannedRole)`; the library throws for a role that does not exist. */
    method AddToRole(id: Id, result: IdentityResult)
      requires Valid() && id in accounts && bannedRole in roles
      modifies this
      ensures Valid() && roles == old(roles)
      ensures Model() == if result.Succeeded? then AddedToRole(old(Model()), id) else old(Model())
    {
      if result.Succeeded? {
        banned := banned + {id};
      }
    }

    /** `UserManager.RemoveFromRoleAsync(user, BannedRole)`. */
    method RemoveFromRole(id: Id, result: IdentityResult)
      requires Valid() && id in accounts
      modifies this
      ensures Valid() && roles == old(roles)
      ensures Model() == if result.Succeeded? then RemovedFromRole(old(Model()), id) else old(Model())
    {
      if result.Succeeded? {
        banned := banned - {id};
      }
    }

    /** `UserManager.DeleteAsync`. */
    method Delete(id: Id, result: IdentityResult)
      requires Valid() && id in accounts
      modifies this
      ensures Valid() && roles == old(roles)
      ensures Model() == if result.Succeeded? then Deleted(old(Model()), id) else old(Model())
    {
      if result.Succeeded? {
        var u := Deleted(Model(), id);
        accounts, order, banned := u.accounts, u.order, u.banned;
      }
    }

    /** `UserManager.UpdateAsync` on an account whose user name is kept. */
    method Update(id: Id, a: Account, result: IdentityResult)
      requires Valid() && id in accounts && a.userName == accounts[id].userName
      modifies this
      ensures Valid() && roles == old(roles)
      ensures Model() == if result.Succeeded? then Updated(old(Model()), id, a) else old(Model())
    {
      if result.Succeeded? {
        accounts := accounts[id := a];
      }
    }

    /** `RoleManager.CreateAsync(new IdentityRole(name))`. */
    method CreateRole(name: string, result: IdentityResult)
      modifies this
      ensures Model() == old(Model())
      ensures roles == if result.Succeeded? then old(roles) + {name} else old(roles)
    {
      if result.Succeeded? {
        roles := roles + {name};
      }
    }
  }
}
