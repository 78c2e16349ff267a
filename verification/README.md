# Auth: a verified model of the account controller and the ban interceptor

Auth is a small ASP.NET Core site. Visitors register and sign in with a login and
a password. Signed-in users see a list of every account. From that list they can
block, unblock or delete any selection of accounts. Blocking means membership in
one "banned" role, which is created at start-up. Every request that passes
authentication and authorization then goes through an interceptor. It signs the
caller out when the caller's name no longer resolves to an account outside the
banned role.

This project models that core in Dafny:

- `forms.dfy` (module `Forms`): the two forms' attribute validation. It covers
  `Required`, `MaxLength` and the `Compare` rule between the two passwords.
- `identity.dfy` (module `Identity`): the accounts, in a listing order, plus the set
  of banned ids, as the value `Users`.
  - The class `IdentityStore` stands for the library's user and role managers.
  - Each store call takes the result the library would return as an input. The
    state changes only when that result is a success.
- `http.dfy` (module `Http`): the request context.
  - `identity` is the name the request was authenticated with. Signing out does
    not change it for the rest of the request.
  - `session` is the name the outgoing cookie carries to the next request.
  - `events` is the trace of sign-out, sign-in and next-stage calls.
- `moderation.dfy` (module `Moderation`): the controller's specification as pure
  functions.
  - The sign-in decision.
  - The error entries each path adds.
  - The bulk loops as a fold `Run` of one step `Step` over the selected ids, with
    the lemmas about that fold.
- `account_controller.dfy` (module `Accounts`): the controller as a class.
  - Its methods change the store, ModelState, TempData and the context.
  - Each is proved against the functions above. The bulk loops carry the fold as
    their loop invariant.
- `middleware.dfy` (module `Middleware`): both interceptors.
  - The registered one.
  - The older `LogoutBannedMiddleware`, which is not registered.
  - The lemmas that connect bulk actions to the session of the affected account's next request.
  - The interceptor runs after authentication and authorization (Auth/Program.cs:67-70). It then calls the next stage whether or not it signed the caller out, and sign-out does not change the request's identity. So a banned or deleted account's next request still runs its action under the old identity. Only the session cookie is ended; the request after that one arrives signed out.
- `seed_data.dfy` (module `SeedData`): the start-up creation of the banned role.

Inputs that come from outside the modelled code are parameters:
- the clock (`now`);
- the store's answers (`createResult`, `results`, `updateResult`);
- the password check (`passwordAccepted`);
- the id the store assigns to a new account (`newId`);
- the configured `MaxStringLength` and the banned role's name.

## Model

| member | source | states |
|---|---|---|
| Forms.RegisterViolations | Auth/ViewModels/RegisterViewModel.cs:8-22 | Login and Email are reported as missing exactly when they are null or blank. Password is never reported as missing. The Compare error appears exactly when the two passwords differ. Every error names one of the four properties. |
| Forms.RegisterValid | Auth/Controllers/AccountController.cs:53 | The registration form is valid exactly when Login and Email are present, non-blank and within the maximum length, Password is within the maximum length, and ConfirmPassword equals Password. |
| Forms.ValidRegistrationBoundsConfirmation | Auth/ViewModels/RegisterViewModel.cs:12-18 | A valid registration form also has a bounded confirmation, because the confirmation must equal the bounded password. Login and Email are present. |
| Forms.EmptyPasswordPassesRegistration | Auth/ViewModels/RegisterViewModel.cs:12-14 | The registration form alone accepts an empty password, since Password carries no Required rule. |
| Forms.LoginViolations | Auth/ViewModels/LoginViewModel.cs:8-15 | Login and Password are each reported as missing exactly when null or blank. Every error names one of those two properties. |
| Forms.LoginValid | Auth/Controllers/AccountController.cs:84 | The sign-in form is valid exactly when both Login and Password are present, non-blank and within the maximum length. |
| Identity.FindIn | Auth/Controllers/AccountController.cs:88 | A search along the listing order finds an id exactly when some account in that order has the name. The id it finds has that name. |
| Identity.FindByName | Auth/Controllers/AccountController.cs:88 | With unique names, the lookup fails exactly when no account has the name. It returns an id exactly when that id's account has the name. |
| Identity.RemoveId | Auth/Controllers/AccountController.cs:169 | Removing an id from the listing order keeps every other id and no copy of the removed one. It keeps the order free of duplicates. |
| Identity.Created | Auth/Controllers/AccountController.cs:64 | Creating an account maps the new id to exactly the account built, and every other account keeps its value. The id is appended to the listing order. Banned ids are unchanged. A fresh id with a fresh name keeps the store well formed. |
| Identity.Deleted | Auth/Controllers/AccountController.cs:169 | Deleting removes exactly that id from the accounts and from the banned role. The store stays well formed, so the order loses the id too. |
| Identity.AddedToRole | Auth/Controllers/AccountController.cs:129-130 | Adding to the banned role adds exactly that id to the banned set. Accounts and listing order are unchanged. For an existing account the store stays well formed. |
| Identity.RemovedFromRole | Auth/Controllers/AccountController.cs:149-150 | Removing from the banned role removes exactly that id from the banned set. Accounts and listing order are unchanged, and the store stays well formed. |
| Identity.Updated | Auth/Controllers/AccountController.cs:105-106 | Updating replaces one stored account. Listing order and banned set are unchanged. When the name is kept, the store stays well formed. |
| Identity.IdentityStore.Create | Auth/Controllers/AccountController.cs:64 | The store call adds the account exactly when the store reports success. Otherwise nothing changes. |
| Identity.IdentityStore.AddToRole | Auth/Controllers/AccountController.cs:129-130 | The id joins the banned role exactly when the store reports success. The banned role must exist, since the library throws otherwise. |
| Identity.IdentityStore.RemoveFromRole | Auth/Controllers/AccountController.cs:149-150 | The id leaves the banned role exactly when the store reports success. |
| Identity.IdentityStore.Delete | Auth/Controllers/AccountController.cs:169 | The account is deleted exactly when the store reports success. |
| Identity.IdentityStore.Update | Auth/Controllers/AccountController.cs:106 | The stored account is replaced exactly when the store reports success. |
| Identity.IdentityStore.CreateRole | Auth/Infrastructure/Utils/SeedData.cs:21-22 | The role name is added exactly when the role store reports success. The accounts are untouched. |
| Http.HttpContext.SignOut | Auth/Controllers/AccountController.cs:99 | Sign-out clears the session and records one sign-out. The request's own identity is unchanged. |
| Http.HttpContext.SignIn | Auth/Controllers/AccountController.cs:100-101 | Sign-in sets the session to the account's name and records it. |
| Http.HttpContext.InvokeNext | Auth/Middleware/LogoutMiddleware.cs:29 | Calling the next stage records it and leaves the session alone. |
| SeedData.Seeded | Auth/Infrastructure/Utils/SeedData.cs:19-23 | An existing role leaves the role set unchanged. The role exists afterwards exactly when it already existed or the create succeeded. No other role name is touched. |
| SeedData.SeedingIsIdempotent | Auth/Infrastructure/Utils/SeedData.cs:19-23 | Once the role exists, seeding again changes nothing. |
| SeedData.CreateBannedRole | Auth/Infrastructure/Utils/SeedData.cs:11-26 | A create is issued exactly when the banned role is missing. The roles end as `Seeded` says. The accounts are not touched. |
| Moderation.BlockedMessage | Auth/Controllers/AccountController.cs:96 | The blocked notice embeds the account's user name after the fixed prefix "User '", followed by "' was blocked". |
| Moderation.StoreErrors | Auth/Controllers/AccountController.cs:185-191 | There is one entry per store error, in the same order, each under the empty key with the error's text. |
| Moderation.Decide | Auth/Controllers/AccountController.cs:88-110 | The sign-in path is fixed by the form's login. The login is unknown exactly when no account has that name. It is blocked exactly when the named account is banned, whatever the password. The password is wrong or accepted only for an existing, non-banned account. An authenticated id names that login's account. |
| Moderation.LoginErrors | Auth/Controllers/AccountController.cs:89-110 | A valid sign-in form adds at most one error. It is the single "Invalid Login or password" entry, added exactly on the unknown-login and wrong-password paths. |
| Moderation.SessionEvents | Auth/Controllers/AccountController.cs:99-103 | A sign-out happens exactly on the wrong-password and authenticated paths, always first. A sign-in happens only on the authenticated path, for that account's name. The next stage is never part of an action. |
| Moderation.SameErrorForUnknownAndWrongPassword | Auth/Controllers/AccountController.cs:88-110 | In ModelState only, an unknown login and a wrong password for an active account look the same: the same single "Invalid Login or password" entry under Login. Neither signs anyone in. |
| Moderation.SignOutRevealsKnownLogin | Auth/Controllers/AccountController.cs:89-99 | The session operations do differ. An unknown login leaves the caller's session alone, while a wrong password for an active account signs the caller out first. |
| Moderation.BlockedBeforePasswordCheck | Auth/Controllers/AccountController.cs:94-98 | A banned account is turned away with the blocked notice before its password is checked. It gets no error entry and no session operation. |
| Moderation.Step | Auth/Controllers/AccountController.cs:124-174 | One iteration of a bulk loop. An id that does not resolve changes nothing. A step never signs anyone in: the session is kept or ended. Block and unblock never touch the session. |
| Moderation.Run | Auth/Controllers/AccountController.cs:122-175 | A whole bulk loop, as the steps over the selection in order. The session is kept or ended, never replaced. Block and unblock leave the session and session operations unchanged. |
| Moderation.RunSnoc | Auth/Controllers/AccountController.cs:122-135 | A selection with one more id is the same loop followed by one more step. |
| Moderation.RunKeepsWellFormed | Auth/Controllers/AccountController.cs:120-177 | Any bulk block, unblock or delete keeps the store well formed: ordered ids match the accounts, there are no duplicates, banned ids exist and names are unique. |
| Moderation.AppliedMembers | Auth/Controllers/AccountController.cs:122-135 | An id is acted on exactly when it is a known account and some selection of it got a successful store answer. |
| Moderation.RunConcat | Auth/Controllers/AccountController.cs:122-135 | A bulk pass over two selections in a row is the pass over the first followed by the pass over the second. |
| Moderation.RoleStep | Auth/Controllers/AccountController.cs:124-134 | One block or unblock step skips unknown ids, acts on success, and appends the store's errors on failure. It never touches the session. |
| Moderation.RoleRunMembership | Auth/Controllers/AccountController.cs:120-157 | After BlockAll the banned set is the old one plus every id acted on. After UnblockAll it is the old one minus those ids. Accounts and order are unchanged. |
| Moderation.RoleRunErrors | Auth/Controllers/AccountController.cs:120-157 | Block and unblock add exactly the errors of the failed calls on known ids, in selection order. They never touch the session. |
| Moderation.DeleteStep | Auth/Controllers/AccountController.cs:164-174 | One delete step skips unknown ids, deletes on success, and appends the errors on failure. Either way it signs the caller out when the target is the caller's own account. |
| Moderation.DeleteAllRemoves | Auth/Controllers/AccountController.cs:160-177 | After DeleteAll the accounts and the banned set have lost exactly the ids whose delete succeeded. |
| Moderation.DeleteAllSignsOutSelf | Auth/Controllers/AccountController.cs:160-199 | DeleteAll ends the caller's session exactly when the selection resolved the caller's own account, whether or not that delete succeeded. |
| Moderation.DistinctLastNotApplied | Auth/Controllers/AccountController.cs:162-168 | In a selection without repeats, the last id was not deleted by the earlier ones, so it still resolves when reached. |
| Moderation.DeleteAllErrors | Auth/Controllers/AccountController.cs:169-173 | For a selection without repeats, DeleteAll adds exactly the errors of the failed deletes, in selection order. |
| Moderation.BanThenUnbanRestores | Auth/Controllers/AccountController.cs:94-157 | Blocking an active account makes its sign-in blocked. Unblocking it then restores the exact previous store, and the account can sign in again. |
| Middleware.RevokesSession | Auth/Middleware/LogoutMiddleware.cs:20-28 | The registered interceptor revokes the session exactly when the caller's name, or the empty name when there is none, is not an existing account outside the banned role. |
| Middleware.InvokeLogout | Auth/Middleware/LogoutMiddleware.cs:17-30 | The interceptor signs out exactly when `RevokesSession` holds, then calls the next stage once. A session that belonged to the caller survives only for an active account. The store is untouched. |
| Middleware.LogoutBannedCheck | Auth/Middleware/LogoutBannedMiddleware.cs:20-23 | The older interceptor sees one of four cases: no identity; an active account; a banned account; or a name that no longer resolves, where the role check is handed a null user. |
| Middleware.InvokeLogoutBanned | Auth/Middleware/LogoutBannedMiddleware.cs:17-28 | The older interceptor signs out only banned accounts. It faults before the next stage on a name that no longer resolves, and otherwise calls the next stage once. |
| Middleware.DeletedAccountFaultsOlderVariant | Auth/Middleware/LogoutBannedMiddleware.cs:21-23 | For a deleted account's name, the older interceptor reaches the null-user case. The registered one revokes the session. |
| Middleware.BanRevokesNextRequest | Auth/Middleware/LogoutMiddleware.cs:23-28 | Once BlockAll has banned an account, the interceptor ends that account's session during its next request. That request's action still runs under the old identity. |
| Middleware.DeleteRevokesNextRequest | Auth/Middleware/LogoutMiddleware.cs:22-28 | Once DeleteAll has deleted an account, its name resolves to nothing, and the interceptor ends its session during its next request. That request's action still runs under the old identity. |
| Middleware.UnbanKeepsNextRequest | Auth/Middleware/LogoutMiddleware.cs:23-28 | Once UnblockAll has unbanned an account, the interceptor keeps that account's session on its next request. |
| Accounts.NewAccount | Auth/Controllers/AccountController.cs:57-63 | The account built from a valid form has the form's login and email, both present and within the length bound. It is registered at the current time and has no last-login date. |
| Accounts.AccountController.Index | Auth/Controllers/AccountController.cs:26-41 | There is one row per account, in the store's listing order, with no repeats and no account missing. A row's role is the banned role exactly when the account is banned. |
| Accounts.AccountController.Create | Auth/Controllers/AccountController.cs:51-71 | An invalid form changes nothing. On success exactly the new account is added, with no last-login date, and the caller is redirected to the list. On failure every store error is reported and the form is shown again. |
| Accounts.AccountController.Login | Auth/Controllers/AccountController.cs:82-111 | An invalid form changes nothing. Otherwise the errors, the blocked notice, the session operations, the session and the result follow `Decide`. A successful sign-in sets the last-login date when the update succeeds. |
| Accounts.AccountController.Logout | Auth/Controllers/AccountController.cs:113-117 | The session always ends and the caller is sent to the sign-in page. |
| Accounts.AccountController.BlockAll | Auth/Controllers/AccountController.cs:119-137 | The store, ModelState, session and trace end as the fold of block steps says. The caller is redirected to the list. |
| Accounts.AccountController.UnblockAll | Auth/Controllers/AccountController.cs:139-157 | The same as BlockAll, for unblock steps. |
| Accounts.AccountController.DeleteAll | Auth/Controllers/AccountController.cs:159-177 | The same as BlockAll, for delete steps, including the self sign-out. |
| Accounts.AccountController.AddLoginError | Auth/Controllers/AccountController.cs:179-183 | Adds exactly the one "Invalid Login or password" entry under Login. |
| Accounts.AccountController.AddErrorsFromResult | Auth/Controllers/AccountController.cs:185-191 | Appends exactly `StoreErrors` of the result's errors. |
| Accounts.AccountController.LogoutUser | Auth/Controllers/AccountController.cs:193-199 | Signs out exactly when the given account is the caller's own, by name. |

## Left out

- Name normalisation: the library looks names up through a normalised, case-insensitive form. The model compares names exactly.
- String length: `MaxLength` counts UTF-16 code units. The model counts characters.
- Whitespace: `Required` rejects null, empty and all-whitespace strings. The whitespace set follows `char.IsWhiteSpace`.
- Password storage and checking: hashing, the password policy (Auth/Program.cs:26-31) and lockout are inside the library. Sign-in takes the check's answer as `passwordAccepted`.
- Registration stores a hashed password, but the model has no password store. A form without a password is valid; the library's create then throws instead of returning a result. That outcome is outside the oracle's result.
- Cookie lifetime: the 20-minute expiry, sliding renewal and the access-denied path (Auth/Program.cs:36-41) are not modelled.
- The `[Authorize]`, `[AllowAnonymous]` and anti-forgery filters run before the actions. The model starts each action after they have let the request through.
- Asynchrony and concurrency: requests are modelled one at a time. The store answers are parameters, so a concurrent change between lookup and write is not captured.
- Views and routing: the GET actions that only render a form (`Create()`, `Login()`) return a view and change nothing, so they are not modelled. Rendering is a result value.
- The next pipeline stage is recorded as an event. What it does is not modelled.
- Accounts.AccountController.Login: the result of the last-login update is ignored, as in the source. The model keeps the store unchanged when that update fails.
- Identity.IdentityStore.AddToRole: requires the banned role to exist, and so does Accounts.AccountController.BlockAll. The library throws for a missing role, and the start-up seed (Auth/Program.cs:50) creates it. The exception path is not modelled.
- Listing order: the account list query has no ordering, so the database decides the order. The model fixes creation order, which Accounts.AccountController.Index and Identity.Created rely on.
- Moderation.SameErrorForUnknownAndWrongPassword: covers the ModelState entries only. It is not a claim that names cannot be enumerated; Moderation.SignOutRevealsKnownLogin states how the session operations differ.
- Moderation.DeleteAllErrors: covers selections without repeated ids only. A repeated id whose first delete failed is deleted or reported again, which the fold `Run` still models exactly.
- The order of validation errors within ModelState is not promised by the framework. The model fixes one order and states only which errors occur.
- The database, its migrations (Auth/Migrations/) and the database context (Auth/Models/AppIdentityDbContext.cs) are not part of this model.
- The remaining lines of Auth/Program.cs, the host wiring, are not modelled beyond which interceptor is registered (line 70).

## Findings

| source | as written | input that shows it | evidently intended | confidence | as-written member | corrected member |
|---|---|---|---|---|---|---|
| Auth/Middleware/LogoutBannedMiddleware.cs:21-23 | The role check receives the result of the name lookup even when that result is null. | A request whose cookie names an account that has since been deleted. The lookup returns null, and the role check throws instead of signing the caller out. | The session of a deleted account is revoked and the request continues. The registered interceptor, Auth/Middleware/LogoutMiddleware.cs:22-28, does this by checking for null first. | medium, not executed | Middleware.DeletedAccountFaultsOlderVariant | Middleware.RevokesSession |
