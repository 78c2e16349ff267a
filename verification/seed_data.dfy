/** The start-up bootstrap that creates the banned role if it is absent. */
module SeedData {
  import opened Identity

  /** The role names after seeding `role`, given what the role store's create would answer. */
  function Seeded(roles: set<string>, role: string, createResult: IdentityResult): (r: set<string>)
    ensures role in roles ==> r == roles
    ensures role in r <==> role in roles || createResult.Succeeded?
    ensures r - {role} == roles - {role}
  {
    if role in roles then roles
    else if createResult.Succeeded? then roles + {role}
    else roles
  }

  /** Once the role exists, seeding again changes nothing. */
  lemma SeedingIsIdempotent(roles: set<string>, role: string, first: IdentityResult, second: IdentityResult)
    requires role in Seeded(roles, role, first)
    ensures Seeded(Seeded(roles, role, first), role, second) == Seeded(roles, role, first)
  {
  }

  /**
   * `CreateBannedRole`: looks the role up and issues a create only when it is
   * missing. `createIssued` reports whether the create was issued; the result of
   * the create itself is ignored, as in the source.
   */
  method CreateBannedRole(store: IdentityStore, createResult: IdentityResult) returns (createIssued: bool)
    modifies store
    ensures createIssued <==> store.bannedRole !in old(store.roles)
    ensures store.roles == Seeded(old(store.roles), store.bannedRole, createResult)
    ensures store.Model() == old(store.Model())
  {
    var role := store.bannedRole;
    createIssued := role !in store.roles;
    if createIssued {
      store.CreateRole(role, createResult);
    }
  }
}
