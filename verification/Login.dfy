/** handlers/login.go, otp.go, oidc.go and server.go: how sessions come to be complete, and who passes `/validate`. */
module Login {
  import opened Models
  import opened Sessions
  import Otp
  import Matrix
  import Proxy
  import Agreement
  import Grants
  import opened Access
  import opened Serving

  // ---------------------------------------------------------------- state and history

  /** What a handler has established about a session when it acts on it. */
  datatype Evidence =
    | PasswordPassed(id: string, email: string)
    | CodePassed(id: string, email: string)
    | LdapBound(id: string, email: string)
    | OidcExchanged(id: string, email: string)
    | TotpPassed(id: string, email: string)

  /** The configuration; `totp(secret, code, t)` stands for VerifyTOTP. */
  datatype Env = Env(
    authMode: bool, disableTotp: bool, otpEnabled: bool,
    limits: Limits, otp: Otp.Params, totp: (string, string, int) -> bool)

  /** `log`, `owner` and `pending` are history: the evidence that completed sessions so far, the email each
      session id was created for, and the ids that a running handler is about to complete. */
  datatype Gate = Gate(
    store: Store, codes: map<string, Otp.Entry>, users: map<string, User>, backends: seq<Backend>,
    log: seq<Evidence>, owner: map<string, string>, pending: set<string>)

  /** Evidence that lets a session skip or pass the second factor. */
  predicate Completes(env: Env, ev: Evidence) {
    match ev
    case PasswordPassed(_, _) => env.disableTotp
    case CodePassed(_, _) => env.disableTotp
    case _ => true
  }

  // ---------------------------------------------------------------- requests

  datatype LocalOutcome = Passed | Rejected | Broken

  datatype LdapTry = LdapTry(provider: string, bound: bool)

  /** A cookie is the session id a request presents; `id` is the fresh id drawn if a session is created.
      The outcomes of password checks, binds and exchanges are inputs. */
  datatype Request =
    | LoginSubmit(email: string, local: LocalOutcome, ldap: seq<LdapTry>, id: Option<string>, now: int)
    | CodeRequest(email: string, drawn: string, now: int)
    | CodeSubmit(email: string, code: string, id: Option<string>, now: int)
    | OidcCallback(provider: string, known: bool, stateOk: bool, exchanged: Option<string>, id: Option<string>, now: int)
    | TotpSubmit(cookie: Option<string>, code: string, now: int)
    | Logout(cookie: Option<string>, now: int)
    | Validate(cookie: Option<string>, host: string, path: string, admits: seq<string> -> bool, now: int)

  datatype Reply =
    | ToNext | ToTotp | ToLogin | CodeForm | BadCredentials | BadCode | BadState | NotProvisioned | InternalError
    | Verdict(status: Status)

  /** A handler up to its last step; `finish` is the session it still has to complete. */
  datatype Begun = Begun(gate: Gate, reply: Reply, finish: Option<string>)

  /** Creates the session; one whose evidence suffices is left to be completed, and the evidence recorded. */
  function Open(env: Env, g: Gate, id: string, provider: string, now: int, ev: Evidence): Begun {
    var g' := g.(store := Created(env.limits, g.store, id, ev.email, provider, now), owner := g.owner[id := ev.email]);
    if Completes(env, ev) then Begun(g'.(log := g'.log + [ev], pending := g'.pending + {id}), ToNext, Some(id))
    else Begun(g', ToTotp, None)
  }

  function FirstBound(ldap: seq<LdapTry>): (i: nat)
    ensures i <= |ldap|
    ensures i < |ldap| ==> ldap[i].bound
    ensures forall k | 0 <= k < i :: !ldap[k].bound
  {
    if ldap == [] || ldap[0].bound then 0 else 1 + FirstBound(ldap[1..])
  }

  function LookUp(env: Env, g: Gate, cookie: Option<string>, now: int): (Gate, Option<Session>) {
    if cookie.None? then (g, None)
    else
      var (st, s) := Got(env.limits, g.store, cookie.value, now);
      (g.(store := st), s)
  }

  function Begin(env: Env, g: Gate, req: Request): Begun {
    match req
    case LoginSubmit(email, local, ldap, id, now) =>
      if local == Broken then Begun(g, InternalError, None)
      else if local == Rejected then
        var i := FirstBound(ldap);
        if i == |ldap| then Begun(g, BadCredentials, None)
        else if id.None? then Begun(g, InternalError, None)
        else Open(env, g, id.value, ldap[i].provider, now, LdapBound(id.value, email))
      else if id.None? then Begun(g, InternalError, None)
      else Open(env, g, id.value, "local", now, PasswordPassed(id.value, email))
    case CodeRequest(email, drawn, now) =>
      if !env.otpEnabled then Begun(g, ToLogin, None)
      else if email !in g.users then Begun(g, CodeForm, None)
      else Begun(g.(codes := Otp.Issued(env.otp, g.codes, email, drawn, now)), CodeForm, None)
    case CodeSubmit(email, code, id, now) =>
      if !env.otpEnabled then Begun(g, ToLogin, None)
      else if email !in g.users || !Otp.Matches(env.otp, g.codes, email, code, now) then Begun(g, BadCode, None)
      else
        var g' := g.(codes := Otp.Verified(env.otp, g.codes, email, code, now));
        if id.None? then Begun(g', InternalError, None)
        else Open(env, g', id.value, "otp", now, CodePassed(id.value, email))
    case OidcCallback(provider, known, stateOk, exchanged, id, now) =>
      if !known then Begun(g, ToLogin, None)
      else if !stateOk then Begun(g, BadState, None)
      else if exchanged.None? then Begun(g, BadCredentials, None)
      else
        var email := exchanged.value;
        if email !in g.users || g.users[email].provider != provider then Begun(g, NotProvisioned, None)
        else if id.None? then Begun(g, InternalError, None)
        else Open(env, g, id.value, provider, now, OidcExchanged(id.value, email))
    case TotpSubmit(cookie, code, now) =>
      var (g', s) := LookUp(env, g, cookie, now);
      if s.None? then Begun(g', ToLogin, None)
      else
        var email := s.value.email;
        if email !in g.users || !env.totp(g.users[email].totpSecret, code, now) then Begun(g', BadCode, None)
        else
          var ev := TotpPassed(s.value.id, email);
          Begun(g'.(log := g'.log + [ev], pending := g'.pending + {s.value.id}), ToNext, Some(s.value.id))
    case Logout(cookie, now) =>
      var (g', s) := LookUp(env, g, cookie, now);
      Begun(if s.Some? then g'.(store := Deleted(env.limits, g'.store, s.value.id)) else g', ToLogin, None)
    case Validate(cookie, host, path, admits, now) =>
      var answer := Matrix.Resolution(g.backends, host, path);
      if env.authMode && answer.Some? && NeedsSession(answer.value.route.rule)
         && (answer.value.backend.ipAllow == [] || admits(answer.value.backend.ipAllow))
      then
        var (g', s) := LookUp(env, g, cookie, now);
        Begun(g', Verdict(Decide(env.authMode, answer, admits, s, g.users)), None)
      else Begun(g, Verdict(Decide(env.authMode, answer, admits, None, g.users)), None)
  }

  /** The last step of a handler: Complete2FA. */
  function Finish(env: Env, g: Gate, id: string): Gate {
    if id in g.pending then g.(store := Completed(env.limits, g.store, id), pending := g.pending - {id}) else g
  }

  /** A handler that runs without interruption. */
  function Handle(env: Env, g: Gate, req: Request): (Gate, Reply) {
    var b := Begin(env, g, req);
    (if b.finish.Some? then Finish(env, b.gate, b.finish.value) else b.gate, b.reply)
  }

  // ---------------------------------------------------------------- the handlers

  class Server {
    const env: Env
    const sessions: MemoryStore
    const otp: Otp.OTPStore
    const dir: Grants.UserDirectory
    const resolver: Matrix.Resolver
    ghost var log: seq<Evidence>
    ghost var owner: map<string, string>

    constructor (env: Env, sessions: MemoryStore, otp: Otp.OTPStore, dir: Grants.UserDirectory, resolver: Matrix.Resolver)
      requires sessions.limits == env.limits && otp.p == env.otp
      ensures Valid() && this.env == env && this.sessions == sessions && this.otp == otp
      ensures Abs() == Gate(sessions.State(), otp.codes, dir.byEmail, resolver.backends, [], map[], {})
    {
      this.env, this.sessions, this.otp, this.dir, this.resolver := env, sessions, otp, dir, resolver;
      log, owner := [], map[];
    }

    ghost predicate Valid()
      reads this
    {
      sessions.limits == env.limits && otp.p == env.otp
    }

    ghost function Abs(): Gate
      reads this, sessions, otp, dir, resolver
    {
      Gate(sessions.State(), otp.codes, dir.byEmail, resolver.backends, log, owner, {})
    }

    /** server.session: the session of the request's cookie, refreshed. */
    method CurrentSession(cookie: Option<string>, now: int) returns (s: Option<Session>)
      requires Valid()
      modifies sessions
      ensures (Abs(), s) == LookUp(env, old(Abs()), cookie, now)
    {
      if cookie.None? {
        return None;
      }
      s := sessions.Get(cookie.value, now);
    }

    /** Creates the session, and completes it if its evidence does. */
    method OpenSession(id: Option<string>, provider: string, now: int, email: string, ghost ev: Evidence, complete: bool)
      returns (reply: Reply)
      requires Valid()
      requires id.Some? ==> ev.id == id.value && ev.email == email && complete == Completes(env, ev)
      modifies this`log, this`owner, sessions
      ensures id.None? ==> (Abs(), reply) == (old(Abs()), InternalError)
      ensures id.Some? ==>
        var b := Open(env, old(Abs()), id.value, provider, now, ev);
        (Abs(), reply) == (if b.finish.Some? then Finish(env, b.gate, id.value) else b.gate, b.reply)
    {
      var s := sessions.Create(id, email, provider, now);
      if s.None? {
        return InternalError;
      }
      owner := owner[ev.id := ev.email];
      if complete {
        log := log + [ev];
        var _ := sessions.Complete2FA(id.value);
        return ToNext;
      }
      return ToTotp;
    }

    method HandleLoginSubmit(email: string, local: LocalOutcome, ldap: seq<LdapTry>, id: Option<string>, now: int)
      returns (reply: Reply)
      requires Valid()
      modifies this`log, this`owner, sessions
      ensures (Abs(), reply) == Handle(env, old(Abs()), LoginSubmit(email, local, ldap, id, now))
    {
      if local == Broken {
        return InternalError;
      }
      if local == Rejected {
        for i := 0 to |ldap|
          invariant forall k | 0 <= k < i :: !ldap[k].bound
          invariant Abs() == old(Abs())
        {
          if ldap[i].bound {
            ghost var ev := LdapBound(if id.Some? then id.value else "", email);
            reply := OpenSession(id, ldap[i].provider, now, email, ev, true);
            return;
          }
        }
        return BadCredentials;
      }
      ghost var ev := PasswordPassed(if id.Some? then id.value else "", email);
      reply := OpenSession(id, "local", now, email, ev, env.disableTotp);
    }

    method HandleCodeRequestSubmit(email: string, drawn: string, now: int) returns (reply: Reply)
      requires Valid() && |drawn| == otp.length
      modifies otp
      ensures (Abs(), reply) == Handle(env, old(Abs()), CodeRequest(email, drawn, now))
    {
      if !env.otpEnabled {
        return ToLogin;
      }
      var u := dir.Get(email);
      if u.Some? {
        var _, _ := otp.Issue(email, drawn, now);
      }
      return CodeForm;
    }

    method HandleCodeVerifySubmit(email: string, code: string, id: Option<string>, now: int) returns (reply: Reply)
      requires Valid()
      modifies this`log, this`owner, sessions, otp
      ensures (Abs(), reply) == Handle(env, old(Abs()), CodeSubmit(email, code, id, now))
    {
      if !env.otpEnabled {
        return ToLogin;
      }
      var u := dir.Get(email);
      if u.None? {
        return BadCode;
      }
      var ok := otp.Verify(email, code, now);
      if !ok {
        return BadCode;
      }
      ghost var ev := CodePassed(if id.Some? then id.value else "", email);
      reply := OpenSession(id, "otp", now, email, ev, env.disableTotp);
    }

    method HandleOIDCCallback(provider: string, known: bool, stateOk: bool, exchanged: Option<string>,
                              id: Option<string>, now: int)
      returns (reply: Reply)
      requires Valid()
      modifies this`log, this`owner, sessions
      ensures (Abs(), reply) == Handle(env, old(Abs()), OidcCallback(provider, known, stateOk, exchanged, id, now))
    {
      if !known {
        return ToLogin;
      }
      if !stateOk {
        return BadState;
      }
      if exchanged.None? {
        return BadCredentials;
      }
      var u := dir.Get(exchanged.value);
      if u.None? || u.value.provider != provider {
        return NotProvisioned;
      }
      ghost var ev := OidcExchanged(if id.Some? then id.value else "", exchanged.value);
      reply := OpenSession(id, provider, now, exchanged.value, ev, true);
    }

    method HandleTOTPSubmit(cookie: Option<string>, code: string, now: int) returns (reply: Reply)
      requires Valid()
      modifies this`log, sessions
      ensures (Abs(), reply) == Handle(env, old(Abs()), TotpSubmit(cookie, code, now))
    {
      var s := CurrentSession(cookie, now);
      if s.None? {
        return ToLogin;
      }
      var u := dir.Get(s.value.email);
      if u.None? || !env.totp(u.value.totpSecret, code, now) {
        return BadCode;
      }
      log := log + [TotpPassed(s.value.id, s.value.email)];
      var _ := sessions.Complete2FA(s.value.id);
      return ToNext;
    }

    method HandleLogout(cookie: Option<string>, now: int) returns (reply: Reply)
      requires Valid()
      modifies sessions
      ensures (Abs(), reply) == Handle(env, old(Abs()), Logout(cookie, now))
    {
      var s := CurrentSession(cookie, now);
      if s.Some? {
        sessions.Delete(s.value.id);
      }
      return ToLogin;
    }

    method HandleValidate(cookie: Option<string>, host: string, path: string, admits: seq<string> -> bool, now: int)
      returns (reply: Reply)
      requires Valid()
      modifies sessions
      ensures (Abs(), reply) == Handle(env, old(Abs()), Validate(cookie, host, path, admits, now))
    {
      if !env.authMode {
        return Verdict(Ok);
      }
      var be, rt, found := resolver.Resolve(host, path);
      if !found {
        return Verdict(Forbidden);
      }
      if |be.ipAllow| > 0 {
        if !admits(be.ipAllow) {
          return Verdict(Forbidden);
        }
      }
      reply := CheckRule(be, rt, cookie, now);
    }

    /** The last part of the decision: the rule of the route that was resolved. */
    method CheckRule(be: Backend, rt: Route, cookie: Option<string>, now: int) returns (reply: Reply)
      requires Valid()
      modifies sessions
      ensures var (g, s) := if NeedsSession(rt.rule) then LookUp(env, old(Abs()), cookie, now) else (old(Abs()), None);
              Abs() == g && reply == Verdict(RuleStatus(Matrix.Hit(be, rt), s, old(dir.byEmail)))
    {
      var rule := CanonicalRule(rt.rule);
      if rule == RULE_PUBLIC {
        return Verdict(Ok);
      } else if rule == RULE_AUTHENTICATED {
        var s := CurrentSession(cookie, now);
        if s.Some? && s.value.twoFADone {
          return Verdict(Ok);
        }
        return Verdict(Unauthorized);
      } else if rule == RULE_AUTHORIZED {
        var s := CurrentSession(cookie, now);
        if s.None? || !s.value.twoFADone {
          return Verdict(Unauthorized);
        }
        var u := dir.Get(s.value.email);
        var grant := Grants.EffectiveGrantID(be, rt);
        if u.Some? && (u.value.admin || Matrix.Authorized(u.value, grant)) {
          return Verdict(Ok);
        }
        return Verdict(Forbidden);
      }
      return Verdict(Forbidden);
    }
  }

  // ---------------------------------------------------------------- runs

  /** Handlers interleave: a request arrives, later resumes to complete its session; the process may
      crash and come back with another configuration, and the users and services may be replaced at any time. */
  datatype Event =
    | Arrive(req: Request)
    | Resume(id: string)
    | Crash(next: Env)
    | Reload(users: map<string, User>, backends: seq<Backend>)

  function Happen(env: Env, g: Gate, e: Event): Gate {
    match e
    case Arrive(req) => Begin(env, g, req).gate
    case Resume(id) => Finish(env, g, id)
    case Crash(next) => g.(store := Restarted(next.limits, g.store), codes := map[], pending := {})
    case Reload(users, backends) => g.(users := users, backends := backends)
  }

  function DrawnId(req: Request): Option<string> {
    match req
    case LoginSubmit(_, _, _, id, _) => id
    case CodeSubmit(_, _, id, _) => id
    case OidcCallback(_, _, _, _, id, _) => id
    case _ => None
  }

  /** Random ids are never drawn twice. */
  predicate Possible(g: Gate, e: Event) {
    e.Arrive? && DrawnId(e.req).Some? ==> DrawnId(e.req).value !in g.owner
  }

  /** The configuration in force after the events. */
  function EnvAt(env: Env, events: seq<Event>): Env {
    if events == [] then env
    else if events[|events| - 1].Crash? then events[|events| - 1].next
    else EnvAt(env, events[..|events| - 1])
  }

  function Run(env: Env, g: Gate, events: seq<Event>): Gate {
    if events == [] then g
    else
      var n := |events| - 1;
      Happen(EnvAt(env, events[..n]), Run(env, g, events[..n]), events[n])
  }

  ghost predicate PossibleRun(env: Env, g: Gate, events: seq<Event>) {
    forall i | 0 <= i < |events| :: Possible(Run(env, g, events[..i]), events[i])
  }

  const INITIAL := Gate(Store(map[], map[]), map[], map[], [], [], map[], {})

  // ---------------------------------------------------------------- factor safety

  /** The history holds evidence under this id and for this email. */
  ghost predicate Cleared(log: seq<Evidence>, id: string, email: string) {
    exists ev | ev in log :: ev.id == id && ev.email == email
  }

  /** A session stands under its id for the email the id was created for; a complete one was cleared. */
  ghost predicate Safe(log: seq<Evidence>, owner: map<string, string>, id: string, s: Session) {
    && s.id == id && id in owner && s.email == owner[id]
    && (s.twoFADone ==> Cleared(log, id, s.email))
  }

  ghost predicate AllSafe(log: seq<Evidence>, owner: map<string, string>, m: map<string, Session>) {
    forall id | id in m :: Safe(log, owner, id, m[id])
  }

  ghost predicate PendingCleared(log: seq<Evidence>, owner: map<string, string>, pending: set<string>) {
    forall id | id in pending :: id in owner && Cleared(log, id, owner[id])
  }

  ghost predicate StoreSafe(log: seq<Evidence>, owner: map<string, string>, st: Store) {
    AllSafe(log, owner, st.mem) && AllSafe(log, owner, st.disk)
  }

  ghost predicate Inv(g: Gate) {
    StoreSafe(g.log, g.owner, g.store) && PendingCleared(g.log, g.owner, g.pending)
  }

  lemma MoreEvidence(log: seq<Evidence>, ev: Evidence, id: string, email: string)
    ensures Cleared(log, id, email) ==> Cleared(log + [ev], id, email)
    ensures Cleared(log + [ev], ev.id, ev.email)
  {
    assert ev in log + [ev];
    if Cleared(log, id, email) {
      var x :| x in log && x.id == id && x.email == email;
      assert x in log + [ev];
    }
  }

  ghost predicate Extends(owner': map<string, string>, owner: map<string, string>) {
    forall id | id in owner :: id in owner' && owner'[id] == owner[id]
  }

  /** New ids change nothing for the old ones. */
  lemma OwnersGrow(log: seq<Evidence>, owner: map<string, string>, owner': map<string, string>, st: Store, pending: set<string>)
    requires StoreSafe(log, owner, st) && PendingCleared(log, owner, pending) && Extends(owner', owner)
    ensures StoreSafe(log, owner', st) && PendingCleared(log, owner', pending)
  {
    forall id | id in st.mem ensures Safe(log, owner', id, st.mem[id]) {
      assert Safe(log, owner, id, st.mem[id]);
    }
    forall id | id in st.disk ensures Safe(log, owner', id, st.disk[id]) {
      assert Safe(log, owner, id, st.disk[id]);
    }
  }

  /** History only grows: what was safe stays safe. */
  lemma SafeGrows(log: seq<Evidence>, owner: map<string, string>, m: map<string, Session>, ev: Evidence)
    requires AllSafe(log, owner, m)
    ensures AllSafe(log + [ev], owner, m)
  {
    forall id | id in m ensures Safe(log + [ev], owner, id, m[id]) {
      assert Safe(log, owner, id, m[id]);
      MoreEvidence(log, ev, id, m[id].email);
    }
  }

  lemma PendingGrows(log: seq<Evidence>, owner: map<string, string>, pending: set<string>, ev: Evidence)
    requires PendingCleared(log, owner, pending) && ev.id in owner && owner[ev.id] == ev.email
    ensures PendingCleared(log + [ev], owner, pending + {ev.id})
  {
    forall id | id in pending ensures id in owner && Cleared(log + [ev], id, owner[id]) {
      MoreEvidence(log, ev, id, owner[id]);
    }
    MoreEvidence(log, ev, ev.id, ev.email);
  }

  lemma CreatedIsSafe(l: Limits, log: seq<Evidence>, owner: map<string, string>, st: Store, id: string, email: string,
                      provider: string, now: int)
    requires StoreSafe(log, owner, st) && id in owner && owner[id] == email
    ensures StoreSafe(log, owner, Created(l, st, id, email, provider, now))
  {
  }

  lemma OpenKeepsInv(env: Env, g: Gate, id: string, provider: string, now: int, ev: Evidence)
    requires Inv(g) && id !in g.owner && ev.id == id
    ensures Inv(Open(env, g, id, provider, now, ev).gate)
  {
    var owner' := g.owner[id := ev.email];
    OwnersGrow(g.log, g.owner, owner', g.store, g.pending);
    CreatedIsSafe(env.limits, g.log, owner', g.store, id, ev.email, provider, now);
    if Completes(env, ev) {
      var st := Created(env.limits, g.store, id, ev.email, provider, now);
      SafeGrows(g.log, owner', st.mem, ev);
      SafeGrows(g.log, owner', st.disk, ev);
      PendingGrows(g.log, owner', g.pending, ev);
    }
  }

  lemma GotIsSafe(l: Limits, log: seq<Evidence>, owner: map<string, string>, st: Store, id: string, now: int)
    requires StoreSafe(log, owner, st)
    ensures StoreSafe(log, owner, Got(l, st, id, now).0)
    ensures var s := Got(l, st, id, now).1;
            s.Some? ==> s.value.id == id && id in owner && s.value.email == owner[id]
  {
    if id in st.mem {
      assert Safe(log, owner, id, st.mem[id]);
    }
  }

  lemma LookUpKeepsInv(env: Env, g: Gate, cookie: Option<string>, now: int)
    requires Inv(g)
    ensures var (g', s) := LookUp(env, g, cookie, now);
            && g' == g.(store := g'.store) && Inv(g')
            && (s.Some? ==> s.value.id in g.owner && s.value.email == g.owner[s.value.id])
  {
    if cookie.Some? {
      GotIsSafe(env.limits, g.log, g.owner, g.store, cookie.value, now);
    }
  }

  lemma DeletedIsSafe(l: Limits, log: seq<Evidence>, owner: map<string, string>, st: Store, id: string)
    requires StoreSafe(log, owner, st)
    ensures StoreSafe(log, owner, Deleted(l, st, id))
  {
  }

  lemma CompletedIsSafe(l: Limits, log: seq<Evidence>, owner: map<string, string>, st: Store, id: string)
    requires StoreSafe(log, owner, st) && id in owner && Cleared(log, id, owner[id])
    ensures StoreSafe(log, owner, Completed(l, st, id))
  {
    if id in st.mem {
      assert Safe(log, owner, id, st.mem[id]);
    }
  }

  lemma LoginKeepsInv(env: Env, g: Gate, req: Request)
    requires Inv(g) && Possible(g, Arrive(req)) && req.LoginSubmit?
    ensures Inv(Begin(env, g, req).gate)
  {
    if req.id.Some? {
      OpenKeepsInv(env, g, req.id.value, "local", req.now, PasswordPassed(req.id.value, req.email));
      var i := FirstBound(req.ldap);
      if i < |req.ldap| {
        OpenKeepsInv(env, g, req.id.value, req.ldap[i].provider, req.now, LdapBound(req.id.value, req.email));
      }
    }
  }

  lemma CodeKeepsInv(env: Env, g: Gate, req: Request)
    requires Inv(g) && Possible(g, Arrive(req)) && req.CodeSubmit?
    ensures Inv(Begin(env, g, req).gate)
  {
    var g' := g.(codes := Otp.Verified(env.otp, g.codes, req.email, req.code, req.now));
    if req.id.Some? {
      OpenKeepsInv(env, g', req.id.value, "otp", req.now, CodePassed(req.id.value, req.email));
    }
  }

  lemma OidcKeepsInv(env: Env, g: Gate, req: Request)
    requires Inv(g) && Possible(g, Arrive(req)) && req.OidcCallback?
    ensures Inv(Begin(env, g, req).gate)
  {
    if req.id.Some? && req.exchanged.Some? {
      OpenKeepsInv(env, g, req.id.value, req.provider, req.now, OidcExchanged(req.id.value, req.exchanged.value));
    }
  }

  lemma TotpKeepsInv(env: Env, g: Gate, req: Request)
    requires Inv(g) && req.TotpSubmit?
    ensures Inv(Begin(env, g, req).gate)
  {
    LookUpKeepsInv(env, g, req.cookie, req.now);
    var (g', s) := LookUp(env, g, req.cookie, req.now);
    if s.Some? {
      var ev := TotpPassed(s.value.id, s.value.email);
      SafeGrows(g.log, g.owner, g'.store.mem, ev);
      SafeGrows(g.log, g.owner, g'.store.disk, ev);
      PendingGrows(g.log, g.owner, g.pending, ev);
    }
  }

  lemma LogoutKeepsInv(env: Env, g: Gate, req: Request)
    requires Inv(g) && req.Logout?
    ensures Inv(Begin(env, g, req).gate)
  {
    LookUpKeepsInv(env, g, req.cookie, req.now);
    var (g', s) := LookUp(env, g, req.cookie, req.now);
    if s.Some? {
      DeletedIsSafe(env.limits, g.log, g.owner, g'.store, s.value.id);
    }
  }

  lemma ValidateKeepsInv(env: Env, g: Gate, req: Request)
    requires Inv(g) && req.Validate?
    ensures Inv(Begin(env, g, req).gate)
  {
    LookUpKeepsInv(env, g, req.cookie, req.now);
  }

  lemma BeginKeepsInv(env: Env, g: Gate, req: Request)
    requires Inv(g) && Possible(g, Arrive(req))
    ensures Inv(Begin(env, g, req).gate)
  {
    match req
    case LoginSubmit(_, _, _, _, _) => LoginKeepsInv(env, g, req);
    case CodeRequest(_, _, _) =>
    case CodeSubmit(_, _, _, _) => CodeKeepsInv(env, g, req);
    case OidcCallback(_, _, _, _, _, _) => OidcKeepsInv(env, g, req);
    case TotpSubmit(_, _, _) => TotpKeepsInv(env, g, req);
    case Logout(_, _) => LogoutKeepsInv(env, g, req);
    case Validate(_, _, _, _, _) => ValidateKeepsInv(env, g, req);
  }

  /** Every step keeps the invariant: arrivals, resumptions, crashes and reloads. */
  lemma HappenKeepsInv(env: Env, g: Gate, e: Event)
    requires Inv(g) && Possible(g, e)
    ensures Inv(Happen(env, g, e))
  {
    match e
    case Arrive(req) => BeginKeepsInv(env, g, req);
    case Resume(id) =>
      if id in g.pending {
        CompletedIsSafe(env.limits, g.log, g.owner, g.store, id);
      }
    case Crash(_) =>
    case Reload(_, _) =>
  }

  lemma PrefixIsPossible(env: Env, g: Gate, events: seq<Event>, n: nat)
    requires PossibleRun(env, g, events) && n <= |events|
    ensures PossibleRun(env, g, events[..n])
  {
    forall i | 0 <= i < n ensures Possible(Run(env, g, events[..n][..i]), events[..n][i]) {
      assert events[..n][..i] == events[..i];
    }
  }

  lemma {:induction false} RunKeepsInv(env: Env, g: Gate, events: seq<Event>)
    requires Inv(g) && PossibleRun(env, g, events)
    ensures Inv(Run(env, g, events))
  {
    if events != [] {
      var n := |events| - 1;
      PrefixIsPossible(env, g, events, n);
      RunKeepsInv(env, g, events[..n]);
      HappenKeepsInv(EnvAt(env, events[..n]), Run(env, g, events[..n]), events[n]);
    }
  }

  /** The request, in this state, entitles the session `id` of `email` to be complete. */
  predicate Earns(env: Env, g: Gate, req: Request, id: string, email: string) {
    match req
    // the password was right and TOTP is disabled, or a directory bound the user
    case LoginSubmit(m, local, ldap, drawn, _) =>
      && drawn == Some(id) && m == email
      && ((local == Passed && env.disableTotp) || (local == Rejected && exists t | t in ldap :: t.bound))
    // the one-time code of a known user was right and TOTP is disabled
    case CodeSubmit(m, code, drawn, now) =>
      && env.otpEnabled && env.disableTotp && drawn == Some(id) && m == email && email in g.users
      && Otp.Matches(env.otp, g.codes, email, code, now)
    // the provider vouched for a user provisioned with that provider
    case OidcCallback(provider, known, stateOk, exchanged, drawn, _) =>
      && known && stateOk && exchanged == Some(email) && drawn == Some(id)
      && email in g.users && g.users[email].provider == provider
    // a TOTP code of the session's own user, presented with the session's own id
    case TotpSubmit(cookie, code, now) =>
      && cookie == Some(id) && id != "" && id in g.store.mem && !Expired(env.limits, g.store.mem[id], now)
      && g.store.mem[id].email == email && email in g.users && env.totp(g.users[email].totpSecret, code, now)
    case _ => false
  }

  lemma NewTotpEvidence(env: Env, g: Gate, req: Request, ev: Evidence)
    requires Inv(g) && req.TotpSubmit? && ev in Begin(env, g, req).gate.log && ev !in g.log
    ensures Earns(env, g, req, ev.id, ev.email)
  {
    LookUpKeepsInv(env, g, req.cookie, req.now);
  }

  /** Evidence is recorded only for a request that earns it. */
  lemma NewEvidenceIsEarned(env: Env, g: Gate, req: Request, ev: Evidence)
    requires Inv(g) && ev in Begin(env, g, req).gate.log && ev !in g.log
    ensures Earns(env, g, req, ev.id, ev.email)
  {
    match req
    case LoginSubmit(_, _, _, _, _) =>
    case CodeRequest(_, _, _) =>
    case CodeSubmit(_, _, _, _) =>
    case OidcCallback(_, _, _, _, _, _) =>
    case TotpSubmit(_, _, _) => NewTotpEvidence(env, g, req, ev);
    case Logout(cookie, now) => LookUpKeepsInv(env, g, cookie, now);
    case Validate(_, _, _, _, _) =>
  }

  /** Some request of the run earned it, under the configuration then in force. */
  ghost predicate EarnedIn(env: Env, events: seq<Event>, id: string, email: string) {
    exists i | 0 <= i < |events| :: EarnedAt(env, events, i, id, email)
  }

  ghost predicate EarnedAt(env: Env, events: seq<Event>, i: nat, id: string, email: string)
    requires i < |events|
  {
    && events[i].Arrive?
    && Earns(EnvAt(env, events[..i]), Run(env, INITIAL, events[..i]), events[i].req, id, email)
  }

  lemma EarnedEarlier(env: Env, events: seq<Event>, n: nat, id: string, email: string)
    requires n <= |events| && EarnedIn(env, events[..n], id, email)
    ensures EarnedIn(env, events, id, email)
  {
    var i :| 0 <= i < n && EarnedAt(env, events[..n], i, id, email);
    assert events[..n][..i] == events[..i];
    assert EarnedAt(env, events, i, id, email);
  }

  lemma {:induction false} EvidenceIsEarned(env: Env, events: seq<Event>, ev: Evidence)
    requires PossibleRun(env, INITIAL, events)
    requires ev in Run(env, INITIAL, events).log
    ensures EarnedIn(env, events, ev.id, ev.email)
  {
    if events != [] {
      var n := |events| - 1;
      var before := Run(env, INITIAL, events[..n]);
      PrefixIsPossible(env, INITIAL, events, n);
      if ev in before.log {
        EvidenceIsEarned(env, events[..n], ev);
        EarnedEarlier(env, events, n, ev.id, ev.email);
      } else {
        RunKeepsInv(env, INITIAL, events[..n]);
        NewEvidenceIsEarned(EnvAt(env, events[..n]), before, events[n].req, ev);
        assert EarnedAt(env, events, n, ev.id, ev.email);
      }
    }
  }

  /** In every reachable state a 2FA-done session, in memory or in the file, was earned by a request
      of the run, under its own id and for its own email. */
  lemma FactorSafety(env: Env, events: seq<Event>, id: string)
    requires PossibleRun(env, INITIAL, events)
    ensures var st := Run(env, INITIAL, events).store;
            && (id in st.mem && st.mem[id].twoFADone ==> EarnedIn(env, events, id, st.mem[id].email))
            && (id in st.disk && st.disk[id].twoFADone ==> EarnedIn(env, events, id, st.disk[id].email))
  {
    RunKeepsInv(env, INITIAL, events);
    var g := Run(env, INITIAL, events);
    if id in g.store.mem && g.store.mem[id].twoFADone {
      ClearedIsEarned(env, events, id, g.store.mem[id].email);
    }
    if id in g.store.disk && g.store.disk[id].twoFADone {
      ClearedIsEarned(env, events, id, g.store.disk[id].email);
    }
  }

  lemma ClearedIsEarned(env: Env, events: seq<Event>, id: string, email: string)
    requires PossibleRun(env, INITIAL, events) && Cleared(Run(env, INITIAL, events).log, id, email)
    ensures EarnedIn(env, events, id, email)
  {
    var ev :| ev in Run(env, INITIAL, events).log && ev.id == id && ev.email == email;
    EvidenceIsEarned(env, events, ev);
  }

  /** A 200 on a route that needs a session is for a live, complete session of the request's cookie. */
  lemma OkCarriesSession(env: Env, g: Gate, req: Request)
    requires req.Validate? && env.authMode && Begin(env, g, req).reply == Verdict(Ok)
    requires var answer := Matrix.Resolution(g.backends, req.host, req.path);
             answer.Some? && NeedsSession(answer.value.route.rule)
    ensures req.cookie.Some? && req.cookie.value in g.store.mem
    ensures var s := g.store.mem[req.cookie.value]; s.twoFADone && !Expired(env.limits, s, req.now)
  {
  }

  /** With auth mode on, every 200 on a route that needs a session carries an unexpired session that
      the run earned. */
  lemma AdmittedSessionsAreEarned(env: Env, events: seq<Event>, req: Request)
    requires PossibleRun(env, INITIAL, events) && req.Validate? && EnvAt(env, events).authMode
    requires var g := Run(env, INITIAL, events);
             var answer := Matrix.Resolution(g.backends, req.host, req.path);
             answer.Some? && NeedsSession(answer.value.route.rule)
    ensures var now, g := EnvAt(env, events), Run(env, INITIAL, events);
            Begin(now, g, req).reply == Verdict(Ok) ==> Carries(env, events, req)
  {
    var now, g := EnvAt(env, events), Run(env, INITIAL, events);
    if Begin(now, g, req).reply == Verdict(Ok) {
      OkCarriesSession(now, g, req);
      FactorSafety(env, events, req.cookie.value);
    }
  }

  /** The request carries a complete, unexpired session that the run earned. */
  ghost predicate Carries(env: Env, events: seq<Event>, req: Request)
    requires req.Validate?
  {
    var now, g := EnvAt(env, events), Run(env, INITIAL, events);
    && req.cookie.Some? && req.cookie.value in g.store.mem
    && var s := g.store.mem[req.cookie.value];
    && s.twoFADone && !Expired(now.limits, s, req.now)
    && EarnedIn(env, events, req.cookie.value, s.email)
  }

  /** The user of the session, on an "authorized" route, is an administrator or holds its grant. */
  predicate Granted(g: Gate, answer: Matrix.Hit, email: string) {
    CanonicalRule(answer.route.rule) == RULE_AUTHORIZED ==>
      && email in g.users
      && (g.users[email].admin
          || Matrix.Authorized(g.users[email], Grants.EffectiveGrant(answer.backend, answer.route)))
  }

  /** A 200 on a route that is not public is for a route that needs a session, and its user is granted. */
  lemma OkMeansGranted(env: Env, g: Gate, req: Request)
    requires req.Validate? && env.authMode && Begin(env, g, req).reply == Verdict(Ok)
    requires var answer := Matrix.Resolution(g.backends, req.host, req.path);
             answer.Some? && answer.value.route.rule != RULE_PUBLIC
    ensures var answer := Matrix.Resolution(g.backends, req.host, req.path).value;
            && NeedsSession(answer.route.rule)
            && (req.cookie.Some? && req.cookie.value in g.store.mem ==>
                  Granted(g, answer, g.store.mem[req.cookie.value].email))
  {
  }

  /** The user of the request's session is granted the route. */
  predicate UserGranted(g: Gate, req: Request, route: Matrix.Hit)
    requires req.Validate?
  {
    req.cookie.Some? && req.cookie.value in g.store.mem && Granted(g, route, g.store.mem[req.cookie.value].email)
  }

  /** A 200 for the route checked, if its check covers the route served, is a grant of the route served. */
  lemma OkGrantsCovered(env: Env, g: Gate, req: Request, target: Matrix.Hit)
    requires req.Validate? && env.authMode && Begin(env, g, req).reply == Verdict(Ok)
    requires target.route.rule != RULE_PUBLIC
    requires var answer := Matrix.Resolution(g.backends, req.host, req.path);
             answer.Some? && Covers(answer.value, target)
    ensures Matrix.Resolution(g.backends, req.host, req.path).value.route.rule != RULE_PUBLIC
    ensures UserGranted(g, req, target) && !Refused(target, req.admits)
  {
    OkMeansGranted(env, g, req);
    OkCarriesSession(env, g, req);
  }

  /** What is true of a request that NGINX proxies through a gated location `l`. The route served is the
      first declarer of the path of `l`, the route checked is what the path that was sent resolves to. */
  ghost predicate Vouched(env: Env, events: seq<Event>, req: Request, l: Proxy.Location, outcome: Outcome)
    requires req.Validate?
  {
    var g := Run(env, INITIAL, events);
    var served, answer := Agreement.Served(g.backends, req.host, l), Matrix.Resolution(g.backends, req.host, req.path);
    && served.Some? && served.value.route.rule != RULE_PUBLIC
    && Agreement.IsRouteOf(g.backends, Agreement.Owner(g.backends, req.host), served.value)
    && outcome == ProxiedTo(served.value.route.upstream)
    && answer.Some?
    // not read apart: a session the run earned, granted the route checked
    && (!ReadApart(served.value, answer) ==> Carries(env, events, req) && UserGranted(g, req, answer.value))
    // covered: granted the route served, and not refused by its allow-list
    && (Covers(answer.value, served.value) ==>
          Carries(env, events, req) && UserGranted(g, req, served.value) && !Refused(served.value, req.admits))
    && (answer == served ==> Covers(answer.value, served.value))
  }

  /** End to end, in every reachable state, for every host and path. NGINX chooses the location by the
      normalised path `uri`; the check is about the path `req.path` as it was sent. What is proxied
      through a gated location goes to the upstream of the route that location serves. If the check of
      the route that `req.path` resolves to covers the route served, the request carries an unexpired
      session that the run earned, whose user is granted the route served. */
  lemma ProxiedRequestsAreEarned(env: Env, events: seq<Event>, certs: set<string>, req: Request, uri: string, status: Status)
    requires PossibleRun(env, INITIAL, events) && req.Validate? && EnvAt(env, events).authMode
    ensures var g := Run(env, INITIAL, events);
            var choice := Agreement.Lookup(Proxy.Config(certs, g.backends), req.host, uri);
            (GatedChoice(choice) && Begin(EnvAt(env, events), g, req).reply == Verdict(status)
             && Serve(choice, status).ProxiedTo?) ==> Vouched(env, events, req, choice.value, Serve(choice, status))
  {
    var now, g := EnvAt(env, events), Run(env, INITIAL, events);
    var choice := Agreement.Lookup(Proxy.Config(certs, g.backends), req.host, uri);
    GatedProxyIsAnswered(certs, g.backends, req.host, uri, status);
    if GatedChoice(choice) && Begin(now, g, req).reply == Verdict(status) && Serve(choice, status).ProxiedTo? {
      OkIsVouched(env, events, req, choice.value, Serve(choice, status));
    }
  }

  lemma OkIsVouched(env: Env, events: seq<Event>, req: Request, l: Proxy.Location, outcome: Outcome)
    requires PossibleRun(env, INITIAL, events) && req.Validate? && EnvAt(env, events).authMode
    requires var g := Run(env, INITIAL, events);
             var served := Agreement.Served(g.backends, req.host, l);
             && Begin(EnvAt(env, events), g, req).reply == Verdict(Ok)
             && served.Some? && served.value.route.rule != RULE_PUBLIC
             && Agreement.IsRouteOf(g.backends, Agreement.Owner(g.backends, req.host), served.value)
             && outcome == ProxiedTo(served.value.route.upstream)
    ensures Vouched(env, events, req, l, outcome)
  {
    var now, g := EnvAt(env, events), Run(env, INITIAL, events);
    OkIsAnswered(now, g, req);
    var served := Agreement.Served(g.backends, req.host, l).value;
    var answer := Matrix.Resolution(g.backends, req.host, req.path).value;
    CoversItself(answer);
    if Covers(answer, served) {
      OkGrantsCovered(now, g, req, served);
    }
    if answer.route.rule != RULE_PUBLIC {
      OkMeansGranted(now, g, req);
      AdmittedSessionsAreEarned(env, events, req);
    }
  }

  lemma OkIsAnswered(env: Env, g: Gate, req: Request)
    requires req.Validate? && env.authMode && Begin(env, g, req).reply == Verdict(Ok)
    ensures Matrix.Resolution(g.backends, req.host, req.path).Some?
  {
  }

  /** The two factors do let a user in, from any state: after the password alone a route that needs a
      session answers 401; after the TOTP code it answers 200 if the user is granted, and 403 otherwise. */
  lemma TwoFactorsEnter(env: Env, g: Gate, email: string, id: string, code: string, t0: int, t1: int, t2: int,
                        host: string, path: string, admits: seq<string> -> bool)
    requires env.authMode && !env.disableTotp && id != ""
    requires email in g.users && env.totp(g.users[email].totpSecret, code, t1)
    requires !Expired(env.limits, Session(id, email, "local", false, t0, t0), t1)
    requires !Expired(env.limits, Session(id, email, "local", true, t0, t1), t2)
    requires var answer := Matrix.Resolution(g.backends, host, path);
             && answer.Some? && NeedsSession(answer.value.route.rule)
             && (answer.value.backend.ipAllow == [] || admits(answer.value.backend.ipAllow))
    ensures var (g1, first) := Handle(env, g, LoginSubmit(email, Passed, [], Some(id), t0));
            var (g2, second) := Handle(env, g1, TotpSubmit(Some(id), code, t1));
            && first == ToTotp && second == ToNext
            && Handle(env, g1, Validate(Some(id), host, path, admits, t1)).1 == Verdict(Unauthorized)
            && Handle(env, g2, Validate(Some(id), host, path, admits, t2)).1
               == Verdict(if Granted(g, Matrix.Resolution(g.backends, host, path).value, email) then Ok else Forbidden)
  {
    var g1 := Handle(env, g, LoginSubmit(email, Passed, [], Some(id), t0)).0;
    assert g1.store.mem[id] == Session(id, email, "local", false, t0, t0);
    var g2 := Handle(env, g1, TotpSubmit(Some(id), code, t1)).0;
    assert g2.store.mem[id] == Session(id, email, "local", true, t0, t1);
    assert g1.users == g2.users == g.users && g1.backends == g2.backends == g.backends;
  }
}
