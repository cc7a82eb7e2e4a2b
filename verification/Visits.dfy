/** handlers/login.go and server.go, seen by a visitor: what each request answers and changes. */
module Visits {
  import opened Models
  import opened Sessions
  import opened Access
  import opened Serving
  import opened Login
  import opened History
  import Otp
  import Matrix
  import Proxy
  import Agreement

  // ---------------------------------------------------------------- the decision of the handler

  /** The session that a cookie presents, if it is known and within both limits. */
  function Presented(l: Limits, st: Store, cookie: Option<string>, now: int): Option<Session> {
    if cookie.Some? && cookie.value != "" && cookie.value in st.mem
       && InTime(l, st.mem[cookie.value].createdAt, st.mem[cookie.value].lastSeen, now)
    then Some(st.mem[cookie.value].(lastSeen := now))
    else None
  }

  lemma LookUpPresents(env: Env, g: Gate, cookie: Option<string>, now: int)
    ensures LookUp(env, g, cookie, now).1 == Presented(env.limits, g.store, cookie, now)
  {
  }

  /** The answer is the decision for the route that the path resolves to and the session that the cookie presents. */
  lemma ValidateAnswers(env: Env, g: Gate, req: Request)
    requires req.Validate?
    ensures Begin(env, g, req).reply
         == Verdict(Decide(env.authMode, Matrix.Resolution(g.backends, req.host, req.path), req.admits,
                           Presented(env.limits, g.store, req.cookie, req.now), g.users))
  {
    LookUpPresents(env, g, req.cookie, req.now);
  }

  /** The route needs a login, and the client may have it. */
  predicate AsksToLogIn(answer: Option<Matrix.Hit>, admits: seq<string> -> bool) {
    answer.Some? && LetsIn(answer.value, admits) && answer.value.route.rule in {"authenticated", "authorized", "whitelist"}
  }

  /** A visitor is answered 401, and sent to the login page by a gated location, exactly where the route needs
      a session, the allow-list lets the client in, and the cookie presents no complete session. */
  lemma LoginRedirectIff(env: Env, g: Gate, req: Request, choice: Option<Proxy.Location>)
    requires req.Validate? && env.authMode && GatedChoice(choice)
    ensures var reply, session := Begin(env, g, req).reply, Presented(env.limits, g.store, req.cookie, req.now);
            var asked := AsksToLogIn(Matrix.Resolution(g.backends, req.host, req.path), req.admits) && !PassedBoth(session);
            reply.Verdict? && (reply == Verdict(Unauthorized) <==> asked)
            && (Serve(choice, reply.status) == LoginRedirect <==> asked)
  {
    var answer, session := Matrix.Resolution(g.backends, req.host, req.path), Presented(env.limits, g.store, req.cookie, req.now);
    ValidateAnswers(env, g, req);
    StatusWithoutRoute(answer, req.admits, session, g.users);
    if answer.Some? {
      StatusIff(answer.value, req.admits, session, g.users);
    }
    ServeIff(choice, Decide(true, answer, req.admits, session, g.users));
  }

  /** The check changes nothing but the session that is presented: where a login is asked for, a session within
      its limits is seen now, and one past them is removed. */
  lemma ValidateChanges(env: Env, g: Gate, req: Request, id: string)
    requires req.Validate?
    ensures var g', session := Begin(env, g, req).gate, Presented(env.limits, g.store, req.cookie, req.now);
            var looked := env.authMode && req.cookie == Some(id) && id != ""
                          && AsksToLogIn(Matrix.Resolution(g.backends, req.host, req.path), req.admits);
            && g' == g.(store := g'.store)
            && (id in g'.store.mem <==> id in g.store.mem && (looked ==> session.Some?))
            && (id in g'.store.mem ==> g'.store.mem[id] == if looked then session.value else g.store.mem[id])
  {
    LookUpPresents(env, g, req.cookie, req.now);
  }

  // ---------------------------------------------------------------- logging in

  /** The provider under which a request opens a session: for LDAP the first that binds. */
  ghost predicate OpensUnder(req: Request, provider: string) {
    match req
    case LoginSubmit(_, local, ldap, _, _) =>
      if local == Passed then provider == "local"
      else exists i | 0 <= i < |ldap| :: ldap[i].bound && ldap[i].provider == provider && forall k | 0 <= k < i :: !ldap[k].bound
    case CodeSubmit(_, _, _, _) => provider == "otp"
    case OidcCallback(p, _, _, _, _, _) => provider == p
    case _ => false
  }

  /** What is left of the store when a session is opened or completed. */
  ghost predicate SameBut(st: Store, st': Store, id: string) {
    forall x | x != id :: (x in st.mem <==> x in st'.mem) && (x in st.mem ==> st.mem[x] == st'.mem[x])
  }

  /** A new session of `email`, complete or not, seen now; nothing else in the store changes. */
  ghost predicate Opened(st: Store, st': Store, req: Request, id: string, email: string, complete: bool, now: int) {
    && SameBut(st, st', id)
    && id in st'.mem && OpensUnder(req, st'.mem[id].provider)
    && st'.mem[id] == Session(id, email, st'.mem[id].provider, complete, now, now)
  }

  lemma OpenOpens(env: Env, g: Gate, provider: string, now: int, ev: Evidence, req: Request)
    requires OpensUnder(req, provider)
    ensures var b := Open(env, g, ev.id, provider, now, ev);
            var g' := if b.finish.Some? then Finish(env, b.gate, ev.id) else b.gate;
            && b.reply == (if Completes(env, ev) then ToNext else ToTotp)
            && b.finish == (if Completes(env, ev) then Some(ev.id) else None)
            && Opened(g.store, g'.store, req, ev.id, ev.email, Completes(env, ev), now)
  {
  }

  /** A password that passed lets in at once with TOTP disabled, and else asks for the code. */
  lemma PasswordOpens(env: Env, g: Gate, req: Request)
    requires req.LoginSubmit? && req.local == Passed && req.id.Some?
    ensures var (g', reply) := Handle(env, g, req);
            && reply == (if env.disableTotp then ToNext else ToTotp)
            && Opened(g.store, g'.store, req, req.id.value, req.email, env.disableTotp, req.now)
  {
    OpenOpens(env, g, "local", req.now, PasswordPassed(req.id.value, req.email), req);
  }

  /** A rejected password and a directory that binds let in at once. */
  lemma BindOpens(env: Env, g: Gate, req: Request, i: nat)
    requires req.LoginSubmit? && req.local == Rejected && req.id.Some? && i < |req.ldap| && req.ldap[i].bound
    ensures var (g', reply) := Handle(env, g, req);
            reply == ToNext && Opened(g.store, g'.store, req, req.id.value, req.email, true, req.now)
  {
    var k := FirstBound(req.ldap);
    assert OpensUnder(req, req.ldap[k].provider);
    OpenOpens(env, g, req.ldap[k].provider, req.now, LdapBound(req.id.value, req.email), req);
  }

  /** A right code lets in at once with TOTP disabled, else asks for the TOTP code; either way it is used up. */
  lemma CodeOpens(env: Env, g: Gate, req: Request)
    requires req.CodeSubmit? && env.otpEnabled && req.email in g.users && req.id.Some?
    requires Otp.Matches(env.otp, g.codes, req.email, req.code, req.now)
    ensures var (g', reply) := Handle(env, g, req);
            && reply == (if env.disableTotp then ToNext else ToTotp)
            && Opened(g.store, g'.store, req, req.id.value, req.email, env.disableTotp, req.now)
            && g'.codes == g.codes - {req.email}
  {
    var g1 := g.(codes := Otp.Verified(env.otp, g.codes, req.email, req.code, req.now));
    OpenOpens(env, g1, "otp", req.now, CodePassed(req.id.value, req.email), req);
  }

  /** A user provisioned with the provider that vouches is let in at once. */
  lemma ExchangeOpens(env: Env, g: Gate, req: Request, email: string)
    requires req.OidcCallback? && req.known && req.stateOk && req.exchanged == Some(email) && req.id.Some?
    requires email in g.users && g.users[email].provider == req.provider
    ensures var (g', reply) := Handle(env, g, req);
            reply == ToNext && Opened(g.store, g'.store, req, req.id.value, email, true, req.now)
  {
    OpenOpens(env, g, req.provider, req.now, OidcExchanged(req.id.value, email), req);
  }

  /** A TOTP code of the session's user completes the session and leaves it otherwise as it was, seen now. */
  lemma TotpCompletes(env: Env, g: Gate, req: Request, id: string)
    requires Login.Inv(g) && req.TotpSubmit? && req.cookie == Some(id) && Presented(env.limits, g.store, Some(id), req.now).Some?
    requires var email := g.store.mem[id].email;
             email in g.users && env.totp(g.users[email].totpSecret, req.code, req.now)
    ensures var (g', reply) := Handle(env, g, req);
            && reply == ToNext && SameBut(g.store, g'.store, id)
            && id in g'.store.mem && g'.store.mem[id] == g.store.mem[id].(twoFADone := true, lastSeen := req.now)
  {
    LookUpPresents(env, g, req.cookie, req.now);
    assert Safe(g.log, g.owner, id, g.store.mem[id]);
  }

  /** A request that earns a complete session gets it: the handler goes on, and the session stands. */
  lemma EarnedEnters(env: Env, g: Gate, req: Request, id: string, email: string)
    requires Login.Inv(g) && Earns(env, g, req, id, email)
    ensures var (g', reply) := Handle(env, g, req);
            && reply == ToNext && SameBut(g.store, g'.store, id)
            && id in g'.store.mem && g'.store.mem[id].twoFADone && g'.store.mem[id].email == email
  {
    match req
    case LoginSubmit(_, local, ldap, _, _) =>
      if local == Passed {
        PasswordOpens(env, g, req);
      } else {
        var t :| t in ldap && t.bound;
        var i :| 0 <= i < |ldap| && ldap[i] == t;
        BindOpens(env, g, req, i);
      }
    case CodeSubmit(_, _, _, _) => CodeOpens(env, g, req);
    case OidcCallback(_, _, _, _, _, _) => ExchangeOpens(env, g, req, email);
    case TotpSubmit(_, _, _) => TotpCompletes(env, g, req, id);
  }

  /** And nobody else is let in. */
  lemma UnearnedStaysOut(env: Env, g: Gate, req: Request)
    requires Login.Inv(g) && Handle(env, g, req).1 == ToNext
    ensures exists id, email :: Earns(env, g, req, id, email)
  {
    var b := Begin(env, g, req);
    match req
    case LoginSubmit(email, _, ldap, id, _) => assert Earns(env, g, req, id.value, email);
    case CodeSubmit(email, _, id, _) => assert Earns(env, g, req, id.value, email);
    case OidcCallback(_, _, _, exchanged, id, _) => assert Earns(env, g, req, id.value, exchanged.value);
    case TotpSubmit(cookie, _, now) =>
      LookUpKeepsInv(env, g, cookie, now);
      assert Safe(g.log, g.owner, cookie.value, g.store.mem[cookie.value]);
      assert Earns(env, g, req, cookie.value, g.store.mem[cookie.value].email);
  }

  /** A handler goes on to the next page exactly for a request that earns a complete session. */
  lemma EntersIff(env: Env, g: Gate, req: Request)
    requires Login.Inv(g)
    ensures Handle(env, g, req).1 == ToNext <==> exists id, email :: Earns(env, g, req, id, email)
  {
    if Handle(env, g, req).1 == ToNext {
      UnearnedStaysOut(env, g, req);
    }
    if id, email :| Earns(env, g, req, id, email) {
      EarnedEnters(env, g, req, id, email);
    }
  }

  /** What a refusal leaves: at most the session of `cookie` is seen now, or removed for its age. */
  ghost predicate Untouched(g: Gate, g': Gate, cookie: Option<string>) {
    && (forall id :: id in g'.store.mem ==> id in g.store.mem)
    && (forall id :: id in g.store.mem && cookie != Some(id) ==> id in g'.store.mem && g'.store.mem[id] == g.store.mem[id])
    && (cookie.Some? && cookie.value in g'.store.mem ==>
          g'.store.mem[cookie.value].twoFADone == g.store.mem[cookie.value].twoFADone)
  }

  lemma LookUpUntouched(env: Env, g: Gate, cookie: Option<string>, now: int)
    ensures Untouched(g, LookUp(env, g, cookie, now).0, cookie) && LookUp(env, g, cookie, now).0.codes == g.codes
  {
  }

  /** A login page that refuses opens and completes no session, and touches no code but one that is asked for,
      by a known user, or submitted. */
  lemma RefusalChangesNothing(env: Env, g: Gate, req: Request)
    requires !req.Logout? && !req.Validate? && Handle(env, g, req).1 !in {ToNext, ToTotp}
    ensures var g' := Handle(env, g, req).0;
            && Untouched(g, g', if req.TotpSubmit? then req.cookie else None)
            && forall e | !(req.CodeRequest? && req.email == e && e in g.users) && !(req.CodeSubmit? && req.email == e) ::
                 (e in g'.codes <==> e in g.codes) && (e in g.codes ==> g'.codes[e] == g.codes[e])
  {
    if req.TotpSubmit? {
      LookUpUntouched(env, g, req.cookie, req.now);
    } else {
      assert Handle(env, g, req).0.store == g.store;
    }
  }

  /** The page that asks for a code says the same whether the user is known or not. */
  lemma CodeRequestTellsNothing(env: Env, g: Gate, h: Gate, req: Request)
    requires req.CodeRequest?
    ensures Handle(env, g, req).1 == Handle(env, h, req).1 == (if env.otpEnabled then CodeForm else ToLogin)
  {
  }

  /** A known user who is not cooling down gets a code that is right until it expires; nobody else's changes. */
  lemma CodeRequestIssues(env: Env, g: Gate, req: Request, t: int)
    requires req.CodeRequest? && env.otpEnabled && req.email in g.users && req.now <= t <= req.now + env.otp.ttl
    requires req.email in g.codes ==> req.now - g.codes[req.email].issued >= env.otp.cooldown
    ensures var g' := Handle(env, g, req).0;
            Otp.Matches(env.otp, g'.codes, req.email, req.drawn, t) && g' == g.(codes := g'.codes)
  {
  }

  /** Why each login page refuses. */
  lemma RefusalsIff(env: Env, g: Gate, req: Request)
    ensures var reply := Handle(env, g, req).1;
            match req
            case LoginSubmit(_, local, ldap, id, _) =>
              var bound := exists i | 0 <= i < |ldap| :: ldap[i].bound;
              && (reply == BadCredentials <==> local == Rejected && !bound)
              && (reply == InternalError <==> local == Broken || (id.None? && (local == Passed || bound)))
            case CodeSubmit(email, code, id, now) =>
              var right := email in g.users && Otp.Matches(env.otp, g.codes, email, code, now);
              && (reply == ToLogin <==> !env.otpEnabled)
              && (reply == BadCode <==> env.otpEnabled && !right)
              && (reply == InternalError <==> env.otpEnabled && right && id.None?)
            case OidcCallback(provider, known, stateOk, exchanged, id, _) =>
              var user := exchanged.Some? && exchanged.value in g.users && g.users[exchanged.value].provider == provider;
              && (reply == ToLogin <==> !known)
              && (reply == BadState <==> known && !stateOk)
              && (reply == BadCredentials <==> known && stateOk && exchanged.None?)
              && (reply == NotProvisioned <==> known && stateOk && exchanged.Some? && !user)
              && (reply == InternalError <==> known && stateOk && user && id.None?)
            case TotpSubmit(cookie, code, now) =>
              var s := Presented(env.limits, g.store, cookie, now);
              && (reply == ToLogin <==> s.None?)
              && (reply == BadCode <==>
                    s.Some? && (s.value.email !in g.users || !env.totp(g.users[s.value.email].totpSecret, code, now)))
            case _ => true
  {
    if req.TotpSubmit? {
      LookUpPresents(env, g, req.cookie, req.now);
    }
  }

  /** The TOTP code is asked for exactly after a password or one-time code that is right, while TOTP is on. */
  lemma AsksForTotpIff(env: Env, g: Gate, req: Request)
    ensures Handle(env, g, req).1 == ToTotp <==>
      && !env.disableTotp && DrawnId(req).Some?
      && ((req.LoginSubmit? && req.local == Passed)
          || (req.CodeSubmit? && env.otpEnabled && req.email in g.users
              && Otp.Matches(env.otp, g.codes, req.email, req.code, req.now)))
  {
  }

  // ---------------------------------------------------------------- logging out

  /** Memory and file hold the same ids while there is a file, and none in common otherwise; all were created. */
  ghost predicate Aligned(env: Env, g: Gate) {
    && (env.limits.persistent ==> g.store.disk.Keys == g.store.mem.Keys)
    && (!env.limits.persistent ==> g.store.mem.Keys !! g.store.disk.Keys)
    && g.store.mem.Keys + g.store.disk.Keys <= g.owner.Keys
  }

  lemma OpenKeepsAligned(env: Env, g: Gate, id: string, provider: string, now: int, ev: Evidence)
    requires Aligned(env, g) && id !in g.owner
    ensures Aligned(env, Open(env, g, id, provider, now, ev).gate)
  {
    var g' := Open(env, g, id, provider, now, ev).gate;
    assert g'.store.mem.Keys == g.store.mem.Keys + {id} && g'.owner.Keys == g.owner.Keys + {id};
  }

  lemma LookUpKeepsAligned(env: Env, g: Gate, cookie: Option<string>, now: int)
    requires Aligned(env, g)
    ensures Aligned(env, LookUp(env, g, cookie, now).0)
  {
  }

  lemma BeginKeepsAligned(env: Env, g: Gate, req: Request)
    requires Aligned(env, g) && Possible(g, Arrive(req))
    ensures Aligned(env, Begin(env, g, req).gate)
  {
    match req
    case LoginSubmit(email, _, ldap, id, now) =>
      if id.Some? {
        var i := FirstBound(ldap);
        OpenKeepsAligned(env, g, id.value, "local", now, PasswordPassed(id.value, email));
        if i < |ldap| {
          OpenKeepsAligned(env, g, id.value, ldap[i].provider, now, LdapBound(id.value, email));
        }
      }
    case CodeRequest(_, _, _) =>
    case CodeSubmit(email, code, id, now) =>
      if id.Some? {
        var g' := g.(codes := Otp.Verified(env.otp, g.codes, email, code, now));
        OpenKeepsAligned(env, g', id.value, "otp", now, CodePassed(id.value, email));
      }
    case OidcCallback(provider, _, _, exchanged, id, now) =>
      if id.Some? && exchanged.Some? {
        OpenKeepsAligned(env, g, id.value, provider, now, OidcExchanged(id.value, exchanged.value));
      }
    case TotpSubmit(cookie, _, now) => LookUpKeepsAligned(env, g, cookie, now);
    case Logout(cookie, now) => LookUpKeepsAligned(env, g, cookie, now);
    case Validate(cookie, _, _, _, now) => LookUpKeepsAligned(env, g, cookie, now);
  }

  lemma HappenKeepsAligned(env: Env, g: Gate, e: Event)
    requires Aligned(env, g) && Possible(g, e)
    ensures Aligned(if e.Crash? then e.next else env, Happen(env, g, e))
  {
    if e.Arrive? {
      BeginKeepsAligned(env, g, e.req);
    }
  }

  lemma {:induction false} RunIsAligned(env: Env, events: seq<Event>)
    requires PossibleRun(env, INITIAL, events)
    ensures Aligned(EnvAt(env, events), Run(env, INITIAL, events))
  {
    if events != [] {
      var n := |events| - 1;
      PrefixIsPossible(env, INITIAL, events, n);
      RunIsAligned(env, events[..n]);
      HappenKeepsAligned(EnvAt(env, events[..n]), Run(env, INITIAL, events[..n]), events[n]);
    }
  }

  /** A session is gone when neither memory nor file holds its id. */
  predicate Gone(g: Gate, id: string) {
    id !in g.store.mem && id !in g.store.disk
  }

  /** No request of the events draws the id. */
  ghost predicate NeverDrawn(events: seq<Event>, id: string) {
    forall i | 0 <= i < |events| :: events[i].Arrive? ==> DrawnId(events[i].req) != Some(id)
  }

  lemma OpenKeepsGone(env: Env, g: Gate, drawn: string, provider: string, now: int, ev: Evidence, id: string)
    requires Gone(g, id) && drawn != id
    ensures Gone(Open(env, g, drawn, provider, now, ev).gate, id)
  {
  }

  lemma LookUpKeepsGone(env: Env, g: Gate, cookie: Option<string>, now: int, id: string)
    requires Gone(g, id)
    ensures Gone(LookUp(env, g, cookie, now).0, id)
  {
  }

  lemma BeginKeepsGone(env: Env, g: Gate, req: Request, id: string)
    requires Gone(g, id) && DrawnId(req) != Some(id)
    ensures Gone(Begin(env, g, req).gate, id)
  {
    match req
    case LoginSubmit(email, _, ldap, drawn, now) =>
      if drawn.Some? {
        var i := FirstBound(ldap);
        OpenKeepsGone(env, g, drawn.value, "local", now, PasswordPassed(drawn.value, email), id);
        if i < |ldap| {
          OpenKeepsGone(env, g, drawn.value, ldap[i].provider, now, LdapBound(drawn.value, email), id);
        }
      }
    case CodeRequest(_, _, _) =>
    case CodeSubmit(email, code, drawn, now) =>
      if drawn.Some? {
        var g' := g.(codes := Otp.Verified(env.otp, g.codes, email, code, now));
        OpenKeepsGone(env, g', drawn.value, "otp", now, CodePassed(drawn.value, email), id);
      }
    case OidcCallback(provider, _, _, exchanged, drawn, now) =>
      if drawn.Some? && exchanged.Some? {
        OpenKeepsGone(env, g, drawn.value, provider, now, OidcExchanged(drawn.value, exchanged.value), id);
      }
    case TotpSubmit(cookie, _, now) => LookUpKeepsGone(env, g, cookie, now, id);
    case Logout(cookie, now) => LookUpKeepsGone(env, g, cookie, now, id);
    case Validate(cookie, _, _, _, now) => LookUpKeepsGone(env, g, cookie, now, id);
  }

  lemma HappenKeepsGone(env: Env, g: Gate, e: Event, id: string)
    requires Gone(g, id) && (e.Arrive? ==> DrawnId(e.req) != Some(id))
    ensures Gone(Happen(env, g, e), id)
  {
    if e.Arrive? {
      BeginKeepsGone(env, g, e.req, id);
    }
  }

  lemma {:induction false} RunKeepsGone(env: Env, g: Gate, events: seq<Event>, id: string)
    requires Gone(g, id) && NeverDrawn(events, id)
    ensures Gone(Run(env, g, events), id)
  {
    if events != [] {
      var n := |events| - 1;
      RunKeepsGone(env, g, events[..n], id);
      HappenKeepsGone(EnvAt(env, events[..n]), Run(env, g, events[..n]), events[n], id);
    }
  }

  /** The logout ends the presented session and leaves every other session, and everything else, as it is. */
  lemma LogoutChanges(env: Env, g: Gate, id: string, now: int)
    requires Login.Inv(g) && Aligned(env, g)
    ensures var b := Begin(env, g, Logout(Some(id), now));
            && b.reply == ToLogin && b.finish == None && b.gate == g.(store := b.gate.store)
            && (forall x | x != id :: (x in b.gate.store.mem <==> x in g.store.mem)
                  && (x in g.store.mem ==> b.gate.store.mem[x] == g.store.mem[x]))
            && (id != "" ==> id !in b.gate.store.mem)
            && (id != "" && (id in g.store.mem || id !in g.store.disk) ==> Gone(b.gate, id))
            && (id == "" || (id !in g.store.mem && id in g.store.disk) ==> b.gate == g)
  {
    LookUpKeepsInv(env, g, Some(id), now);
    if id in g.store.mem {
      assert Safe(g.log, g.owner, id, g.store.mem[id]);
    }
  }

  /** Whatever happens next, a cookie with this id is answered as if there were none, until it is drawn again. */
  ghost predicate SignedOut(env: Env, g: Gate, id: string) {
    forall later: seq<Event>, req: Request | NeverDrawn(later, id) && req.Validate? && req.cookie == Some(id) ::
      AnsweredAsAnonymous(EnvAt(env, later), Run(env, g, later), req)
  }

  function WithoutCookie(req: Request): (r: Request)
    requires req.Validate?
    ensures r.Validate?
  {
    Validate(None, req.host, req.path, req.admits, req.now)
  }

  ghost predicate AnsweredAsAnonymous(env: Env, g: Gate, req: Request)
    requires req.Validate?
  {
    Begin(env, g, req).reply == Begin(env, g, WithoutCookie(req)).reply
  }

  lemma UnknownIsAnonymous(env: Env, g: Gate, req: Request)
    requires req.Validate? && (req.cookie.Some? ==> req.cookie.value == "" || req.cookie.value !in g.store.mem)
    ensures AnsweredAsAnonymous(env, g, req)
  {
    ValidateAnswers(env, g, req);
    ValidateAnswers(env, g, WithoutCookie(req));
  }

  lemma GoneIsSignedOut(env: Env, g: Gate, id: string)
    requires id == "" || Gone(g, id)
    ensures SignedOut(env, g, id)
  {
    forall later: seq<Event>, req: Request | NeverDrawn(later, id) && req.Validate? && req.cookie == Some(id)
      ensures AnsweredAsAnonymous(EnvAt(env, later), Run(env, g, later), req)
    {
      if id != "" {
        RunKeepsGone(env, g, later, id);
      }
      UnknownIsAnonymous(EnvAt(env, later), Run(env, g, later), req);
    }
  }

  lemma RunAppend(env: Env, g: Gate, events: seq<Event>, e: Event)
    ensures Run(env, g, events + [e]) == Happen(EnvAt(env, events), Run(env, g, events), e)
    ensures EnvAt(env, events + [e]) == if e.Crash? then e.next else EnvAt(env, events)
  {
    assert (events + [e])[..|events|] == events;
  }

  /** A configuration with a session file, without limits, in which any TOTP code is right. */
  const OPEN_ENV := Env(true, false, false, Limits(0, 0, true), Otp.Params(0, 0, x => x), (s, c, t) => true)

  const SITE := NO_BACKEND.(id := "s", host := "h", routes := [Route("/", "authenticated", "", false)])

  lemma SiteResolves()
    ensures Matrix.Resolution([SITE], "h", "/") == Some(Matrix.Hit(SITE, SITE.routes[0]))
  {
    var h := Matrix.Hit(SITE, SITE.routes[0]);
    Matrix.HitsMembers([SITE], "h");
    Matrix.BestIsLongest(Matrix.Hits([SITE], "h"), "/");
    assert h in Matrix.Hits([SITE], "h");
    Matrix.Winner([SITE], "h", "/");
  }

  /** A process opens the file again, with the user known and a site to visit. */
  function Reopened(g: Gate, email: string): Gate {
    var users := map[email := User(email, "local", "", false, [])];
    Happen(OPEN_ENV, Happen(OPEN_ENV, g, Event.Crash(OPEN_ENV)), Reload(users, [SITE]))
  }

  lemma CrashForgetsEnv(env: Env, g: Gate, next: Env)
    ensures Happen(env, g, Event.Crash(next)) == Happen(next, g, Event.Crash(next))
  {
  }

  lemma ReopenedHolds(g: Gate, id: string)
    requires Login.Inv(g) && id != "" && id in g.store.disk
    ensures var email := g.store.disk[id].email;
            var g' := Reopened(g, email);
            && id in g'.store.mem && g'.store.mem[id].id == id && g'.store.mem[id].email == email
            && email in g'.users && g'.backends == [SITE]
  {
    assert Safe(g.log, g.owner, id, g.store.disk[id]);
  }

  /** What happens when the file is opened again and the user gives a code. */
  function Reentry(id: string, email: string): seq<Event> {
    var users := map[email := User(email, "local", "", false, [])];
    [Event.Crash(OPEN_ENV), Reload(users, [SITE]), Arrive(TotpSubmit(Some(id), "", 0)), Resume(id)]
  }

  lemma ReentryRuns(env: Env, g: Gate, id: string, email: string)
    ensures Run(env, g, Reentry(id, email))
         == Happen(OPEN_ENV, Happen(OPEN_ENV, Reopened(g, email), Arrive(TotpSubmit(Some(id), "", 0))), Resume(id))
    ensures EnvAt(env, Reentry(id, email)) == OPEN_ENV && NeverDrawn(Reentry(id, email), id)
  {
    var later := Reentry(id, email);
    CrashForgetsEnv(env, g, OPEN_ENV);
    FourEvents(env, g, later[0], later[1], later[2], later[3]);
  }

  lemma NotSignedOut(env: Env, g: Gate, id: string, later: seq<Event>, req: Request)
    requires NeverDrawn(later, id) && req.Validate? && req.cookie == Some(id)
    requires !AnsweredAsAnonymous(EnvAt(env, later), Run(env, g, later), req)
    ensures !SignedOut(env, g, id)
  {
  }

  /** With a file that holds the session, a process that opens the file again lets its user in. */
  lemma FileOpensAgain(env: Env, g: Gate, id: string)
    requires Login.Inv(g) && id != "" && id in g.store.disk
    ensures !SignedOut(env, g, id)
  {
    var email := g.store.disk[id].email;
    ReentryRuns(env, g, id, email);
    ReopenedHolds(g, id);
    ReenteredByTotp(Reopened(g, email), id, email);
    SiteAdmits(Run(env, g, Reentry(id, email)), id);
    NotSignedOut(env, g, id, Reentry(id, email), Visit(id));
  }

  function Visit(id: string): (r: Request)
    ensures r.Validate? && r.cookie == Some(id)
  {
    Validate(Some(id), "h", "/", (cidrs: seq<string>) => true, 0)
  }

  lemma SiteAdmits(g: Gate, id: string)
    requires g.backends == [SITE] && id != "" && id in g.store.mem && g.store.mem[id].twoFADone
    ensures !AnsweredAsAnonymous(OPEN_ENV, g, Visit(id))
  {
    SiteResolves();
    ValidateAnswers(OPEN_ENV, g, Visit(id));
    ValidateAnswers(OPEN_ENV, g, WithoutCookie(Visit(id)));
  }

  lemma FourEvents(env: Env, g: Gate, a: Event, b: Event, c: Event, d: Event)
    requires a.Crash? && !b.Crash? && !c.Crash? && !d.Crash?
    ensures var e := a.next;
            Run(env, g, [a, b, c, d]) == Happen(e, Happen(e, Happen(e, Happen(env, g, a), b), c), d)
    ensures EnvAt(env, [a, b, c, d]) == a.next
  {
    RunAppend(env, g, [], a);
    RunAppend(env, g, [a], b);
    RunAppend(env, g, [a, b], c);
    RunAppend(env, g, [a, b, c], d);
    assert [] + [a] == [a] && [a] + [b] == [a, b] && [a, b] + [c] == [a, b, c] && [a, b, c] + [d] == [a, b, c, d];
  }

  lemma ReenteredByTotp(g: Gate, id: string, email: string)
    requires id != "" && id in g.store.mem && g.store.mem[id].id == id && g.store.mem[id].email == email && email in g.users
    ensures var g' := Happen(OPEN_ENV, Happen(OPEN_ENV, g, Arrive(TotpSubmit(Some(id), "", 0))), Resume(id));
            && g'.users == g.users && g'.backends == g.backends
            && id in g'.store.mem && g'.store.mem[id].twoFADone
  {
  }

  /** In every reachable state: after a logout the cookie is worthless through every later run, crashes and
      reloads included, exactly unless the process has no file, does not know the session, and an older
      file still holds it. */
  lemma LogoutSignsOutIff(env: Env, events: seq<Event>, id: string, now: int)
    requires PossibleRun(env, INITIAL, events)
    ensures var e, g := EnvAt(env, events), Run(env, INITIAL, events);
            && (SignedOut(e, Begin(e, g, Logout(Some(id), now)).gate, id)
                <==> id == "" || id in g.store.mem || id !in g.store.disk)
            && (e.limits.persistent ==> SignedOut(e, Begin(e, g, Logout(Some(id), now)).gate, id))
  {
    var e, g := EnvAt(env, events), Run(env, INITIAL, events);
    RunKeepsInv(env, INITIAL, events);
    RunIsAligned(env, events);
    LogoutChanges(e, g, id, now);
    if id == "" || id in g.store.mem || id !in g.store.disk {
      GoneIsSignedOut(e, Begin(e, g, Logout(Some(id), now)).gate, id);
    } else {
      FileOpensAgain(e, g, id);
    }
  }
}
