/**
 * The per-request context and the session operations of `SignInManager`.
 * `identity` is the name of the principal the request was authenticated with
 * (`context.User.Identity?.Name`); signing in or out does not change it during
 * the request. `session` is the name the authentication cookie will carry into
 * the next request. `events` records, in order, the sign-outs, sign-ins and the
 * hand-over to the next pipeline stage.
 */
module Http {
  import opened Wrappers

  datatype Event = SignedOut | SignedIn(userName: string) | NextInvoked

  class HttpContext {
    const identity: Option<string>
    var session: Option<string>
    var events: seq<Event>

    /** A request that arrives carrying the session of `identity`. */
    constructor (identity: Option<string>)
      ensures this.identity == identity && session == identity && events == []
    {
      this.identity := identity;
      session, events := identity, [];
    }

    /** `SignOutAsync`: ends the session; ending no session is allowed. */
    method SignOut()
      modifies this
      ensures session == None && events == old(events) + [SignedOut]
    {
      session, events := None, events + [SignedOut];
    }

    /** The sign-in half of a successful `PasswordSignInAsync`. */
    method SignIn(userName: string)
      modifies this
      ensures session == Some(userName) && events == old(events) + [SignedIn(userName)]
    {
      session, events := Some(userName), events + [SignedIn(userName)];
    }

    /** `_next.Invoke(context)`: what later stages do is not part of this model. */
    method InvokeNext()
      modifies this
      ensures session == old(session) && events == old(events) + [NextInvoked]
    {
      events := events + [NextInvoked];
    }
  }
}
