/** handlers/server.go: the `/validate` decision and the service listing. */
module Access {
  import opened Models
  import opened Paths
  import opened Matrix
  import opened Agreement
  import opened Grants

  /** The answers 200, 401 and 403. */
  datatype Status = Ok | Unauthorized | Forbidden

  /** The rule part of the decision, given the session the request carries. */
  function RuleStatus(h: Hit, session: Option<Session>, users: map<string, User>): Status {
    var rule := CanonicalRule(h.route.rule);
    if rule == RULE_PUBLIC then Ok
    else if rule == RULE_AUTHENTICATED then
      if session.Some? && session.value.twoFADone then Ok else Unauthorized
    else if rule == RULE_AUTHORIZED then
      if session.None? || !session.value.twoFADone then Unauthorized
      else
        var email := session.value.email;
        if email in users && (users[email].admin || Authorized(users[email], EffectiveGrant(h.backend, h.route)))
        then Ok else Forbidden
    else Forbidden
  }

  /** `admits(cidrs)`: the client address is known and lies in one of `cidrs`. */
  function Decide(authMode: bool, answer: Option<Hit>, admits: seq<string> -> bool,
                  session: Option<Session>, users: map<string, User>): Status
  {
    if !authMode then Ok
    else if answer.None? then Forbidden
    else if answer.value.backend.ipAllow != [] && !admits(answer.value.backend.ipAllow) then Forbidden
    else RuleStatus(answer.value, session, users)
  }

  /** The rules that let a session decide: everything but "public" and unknown rules. */
  predicate NeedsSession(rule: string) {
    CanonicalRule(rule) == RULE_AUTHENTICATED || CanonicalRule(rule) == RULE_AUTHORIZED
  }

  // ---------------------------------------------------------------- the status, rule by rule

  predicate LetsIn(h: Hit, admits: seq<string> -> bool) {
    h.backend.ipAllow == [] || admits(h.backend.ipAllow)
  }

  predicate PassedBoth(session: Option<Session>) {
    session.Some? && session.value.twoFADone
  }

  /** The user may use the route: as an administrator, or by the grant that governs it. */
  predicate MayUse(h: Hit, email: string, users: map<string, User>) {
    email in users && (users[email].admin || EffectiveGrant(h.backend, h.route) in users[email].backends)
  }

  /** Each status in full, over the rules as they are stored. A client is asked to log in exactly when the
      allow-list lets it in, the rule needs a session, and there is no complete one. */
  lemma StatusIff(h: Hit, admits: seq<string> -> bool, session: Option<Session>, users: map<string, User>)
    ensures var status, rule := Decide(true, Some(h), admits, session, users), h.route.rule;
            && (status == Unauthorized <==>
                  LetsIn(h, admits) && rule in {"authenticated", "authorized", "whitelist"} && !PassedBoth(session))
            && (status == Ok <==>
                  && LetsIn(h, admits)
                  && (rule == "public"
                      || (PassedBoth(session)
                          && (rule == "authenticated"
                              || (rule in {"authorized", "whitelist"} && MayUse(h, session.value.email, users))))))
            && (status == Forbidden <==>
                  || !LetsIn(h, admits)
                  || rule !in {"public", "authenticated", "authorized", "whitelist"}
                  || (rule in {"authorized", "whitelist"} && PassedBoth(session) && !MayUse(h, session.value.email, users)))
  {
  }

  /** Without auth mode everything passes; with it, what resolves to no route is refused. */
  lemma StatusWithoutRoute(answer: Option<Hit>, admits: seq<string> -> bool, session: Option<Session>, users: map<string, User>)
    ensures Decide(false, answer, admits, session, users) == Ok
    ensures Decide(true, None, admits, session, users) == Forbidden
  {
  }

  // ---------------------------------------------------------------- comparing the checks of two routes

  /** The allow-list of the answer refuses the client. */
  predicate Refused(answer: Hit, admits: seq<string> -> bool) {
    answer.backend.ipAllow != [] && !admits(answer.backend.ipAllow)
  }

  predicate KnownRule(rule: string) {
    rule == RULE_PUBLIC || NeedsSession(rule)
  }

  /** Whatever passes the rule of `a` passes the rule of `t`. */
  predicate RuleCovers(a: Hit, t: Hit) {
    var ra, rt := CanonicalRule(a.route.rule), CanonicalRule(t.route.rule);
    || rt == RULE_PUBLIC
    || (rt == RULE_AUTHENTICATED && ra != RULE_PUBLIC)
    || (rt == RULE_AUTHORIZED && ra == RULE_AUTHORIZED
        && EffectiveGrant(a.backend, a.route) == EffectiveGrant(t.backend, t.route))
  }

  /** The check of route `a` is at least as strict as that of route `t`. */
  predicate Covers(a: Hit, t: Hit) {
    || !KnownRule(a.route.rule)
    || ((t.backend.ipAllow == [] || t.backend.ipAllow == a.backend.ipAllow) && RuleCovers(a, t))
  }

  ghost predicate Implies(a: Hit, t: Hit) {
    forall admits, session, users :: Decide(true, Some(a), admits, session, users) == Ok ==>
      Decide(true, Some(t), admits, session, users) == Ok
  }

  lemma NotImplied(a: Hit, t: Hit, admits: seq<string> -> bool, session: Option<Session>, users: map<string, User>)
    requires Decide(true, Some(a), admits, session, users) == Ok
    requires Decide(true, Some(t), admits, session, users) != Ok
    ensures !Implies(a, t)
  {
  }

  /** A user with one grant, and a complete session of that user. */
  function Grantee(grant: string): User {
    User("u", "local", "", false, [grant])
  }

  const COMPLETE := Session("s", "u", "local", true, 0, 0)

  /** Where the check of `a` is not as strict, somebody passes it whom `t` refuses. */
  lemma UncoveredIsNotImplied(a: Hit, t: Hit)
    requires !Covers(a, t)
    ensures !Implies(a, t)
  {
    var all, mine := (cidrs: seq<string>) => true, (cidrs: seq<string>) => cidrs == a.backend.ipAllow;
    var grant := EffectiveGrant(a.backend, a.route);
    var users := map["u" := Grantee(grant)];
    if t.backend.ipAllow != [] && t.backend.ipAllow != a.backend.ipAllow {
      NotImplied(a, t, mine, Some(COMPLETE), users);
    } else if a.route.rule == RULE_PUBLIC {
      NotImplied(a, t, all, None, users);
    } else if CanonicalRule(a.route.rule) == RULE_AUTHENTICATED {
      NotImplied(a, t, all, Some(COMPLETE), map[]);
    } else {
      NotImplied(a, t, all, Some(COMPLETE), users);
    }
  }

  lemma CoveredIsImplied(a: Hit, t: Hit, admits: seq<string> -> bool, session: Option<Session>, users: map<string, User>)
    requires Covers(a, t) && Decide(true, Some(a), admits, session, users) == Ok
    ensures Decide(true, Some(t), admits, session, users) == Ok
  {
  }

  /** A 200 for one route always means a 200 for another exactly when the check of the first covers it. */
  lemma CoversIff(a: Hit, t: Hit)
    ensures Implies(a, t) <==> Covers(a, t)
  {
    if Covers(a, t) {
      forall admits, session, users | Decide(true, Some(a), admits, session, users) == Ok
        ensures Decide(true, Some(t), admits, session, users) == Ok
      {
        CoveredIsImplied(a, t, admits, session, users);
      }
    } else {
      UncoveredIsNotImplied(a, t);
    }
  }

  // ---------------------------------------------------------------- the listing

  predicate IsOpen(rt: Route) {
    rt.rule == RULE_PUBLIC || rt.rule == RULE_AUTHENTICATED
  }

  predicate CanSeeBackend(u: User, be: Backend) {
    u.admin || (exists rt | rt in be.routes :: IsOpen(rt)) || Authorized(u, be.id)
  }

  predicate ValidRule(rule: string) {
    rule in {RULE_PUBLIC, RULE_AUTHENTICATED, RULE_AUTHORIZED, RULE_WHITELIST_LEGACY}
  }

  /** Every 2FA-complete session of `u` is answered 200 for `req`, by a route of `be`. */
  ghost predicate Enters(bs: seq<Backend>, be: Backend, u: User, req: string, admits: seq<string> -> bool) {
    && req != "" && req[0] == '/'
    && Resolution(bs, be.host, req).Some? && Resolution(bs, be.host, req).value.backend == be
    && forall users: map<string, User>, s: Session | s.email in users && users[s.email] == u && s.twoFADone ::
         Decide(true, Resolution(bs, be.host, req), admits, Some(s), users) == Ok
  }

  /** A request for exactly the path of a prefix route resolves to that route. */
  lemma OwnPathResolves(bs: seq<Backend>, be: Backend, rt: Route)
    requires be in bs && rt in be.routes && WellRouted(bs, be.host) && Canonical(RoutePath(rt))
    ensures Resolution(bs, be.host, RoutePath(rt)) == Some(Hit(be, rt))
  {
    var req := RoutePath(rt);
    SelfMatch(req);
    MatchIgnoresEmptyPath(req, rt);
    NoLongerMatch(bs, be.host, req, be, rt);
    Winner(bs, be.host, req);
    var h := Resolution(bs, be.host, req).value;
    MatchIgnoresEmptyPath(req, h.route);
    MatchedIsCanonical(req, RoutePath(h.route));
    assert |RoutePath(h.route)| == |req|;
    assert PathsDiffer(h, Hit(be, rt));
  }

  lemma EntersByRoute(bs: seq<Backend>, be: Backend, rt: Route, u: User, admits: seq<string> -> bool)
    requires be in bs && rt in be.routes && WellRouted(bs, be.host) && Canonical(RoutePath(rt))
    requires be.ipAllow == [] && ValidRule(rt.rule)
    ensures Enters(bs, be, u, RoutePath(rt), admits)
       <==> u.admin || IsOpen(rt) || Authorized(u, EffectiveGrant(be, rt))
  {
    OwnPathResolves(bs, be, rt);
    var s := Session("", u.email, "", true, 0, 0);
    assert Enters(bs, be, u, RoutePath(rt), admits) ==>
        Decide(true, Some(Hit(be, rt)), admits, Some(s), map[u.email := u]) == Ok;
  }

  /** A prefix route of the service that satisfies `ok`. */
  ghost predicate HasPrefixRoute(be: Backend, ok: Route -> bool) {
    exists rt | rt in be.routes :: Canonical(RoutePath(rt)) && ok(rt)
  }

  ghost predicate Inherits(be: Backend) {
    exists rt | rt in be.routes :: Canonical(RoutePath(rt)) && EffectiveGrant(be, rt) == be.id
  }

  /** Whoever sees a service in the listing is answered 200 on some path of it, for all users, exactly
      when one of its prefix routes is open, or none of its routes is and a prefix route is governed by
      the service-wide grant. */
  lemma ListingSoundIff(bs: seq<Backend>, be: Backend, admits: seq<string> -> bool)
    requires be in bs && WellRouted(bs, be.host) && be.ipAllow == []
    requires forall rt | rt in be.routes :: ValidRule(rt.rule)
    ensures (forall u | CanSeeBackend(u, be) :: exists req :: Enters(bs, be, u, req, admits))
       <==> HasPrefixRoute(be, IsOpen) || (Inherits(be) && forall rt | rt in be.routes :: !IsOpen(rt))
  {
    if HasPrefixRoute(be, IsOpen) {
      var rt :| rt in be.routes && Canonical(RoutePath(rt)) && IsOpen(rt);
      forall u | CanSeeBackend(u, be) ensures exists req :: Enters(bs, be, u, req, admits) {
        EntersByRoute(bs, be, rt, u, admits);
      }
    } else if Inherits(be) && forall rt | rt in be.routes :: !IsOpen(rt) {
      var rt :| rt in be.routes && Canonical(RoutePath(rt)) && EffectiveGrant(be, rt) == be.id;
      forall u | CanSeeBackend(u, be) ensures exists req :: Enters(bs, be, u, req, admits) {
        EntersByRoute(bs, be, rt, u, admits);
      }
    } else {
      var grants := if exists rt | rt in be.routes :: IsOpen(rt) then [] else [be.id];
      var u := User("u", "local", "", false, grants);
      forall req ensures !Enters(bs, be, u, req, admits) {
        SeesButStaysOut(bs, be, u, req, admits);
      }
      assert CanSeeBackend(u, be);
    }
  }

  /** The listing hides a service only from users who get no further than a path with a list of its own:
      whoever enters a service that is not shown to them enters by the grant of a path. */
  lemma HiddenIsEnteredByPathGrant(bs: seq<Backend>, be: Backend, u: User, req: string, admits: seq<string> -> bool)
    requires Enters(bs, be, u, req, admits) && !CanSeeBackend(u, be)
    ensures var rt := Resolution(bs, be.host, req).value.route;
            && !u.admin && rt.rule in {"authorized", "whitelist"}
            && EffectiveGrant(be, rt) in u.backends && EffectiveGrant(be, rt) != be.id
  {
    var s, users := Session("", u.email, "", true, 0, 0), map[u.email := u];
    Winner(bs, be.host, req);
    assert users[s.email] == u && s.twoFADone;
    assert Decide(true, Resolution(bs, be.host, req), admits, Some(s), users) == Ok;
    StatusIff(Resolution(bs, be.host, req).value, admits, Some(s), users);
  }

  /** Without an open prefix route a user enters only by a grant that governs a prefix route. */
  lemma SeesButStaysOut(bs: seq<Backend>, be: Backend, u: User, req: string, admits: seq<string> -> bool)
    requires WellRouted(bs, be.host) && !u.admin && !HasPrefixRoute(be, IsOpen)
    requires forall rt | rt in be.routes :: ValidRule(rt.rule)
    requires u.backends == [] || (u.backends == [be.id] && !Inherits(be))
    ensures !Enters(bs, be, u, req, admits)
  {
    if req != "" && req[0] == '/'
       && Resolution(bs, be.host, req).Some? && Resolution(bs, be.host, req).value.backend == be {
      WinnerIsPrefix(bs, be.host, req);
      StaysOut(Resolution(bs, be.host, req).value, u, admits);
    }
  }

  lemma WinnerIsPrefix(bs: seq<Backend>, host: string, req: string)
    requires WellRouted(bs, host) && req != "" && req[0] == '/' && Resolution(bs, host, req).Some?
    ensures var h := Resolution(bs, host, req).value; h.route in h.backend.routes && Canonical(RoutePath(h.route))
  {
    Winner(bs, host, req);
    var h := Resolution(bs, host, req).value;
    MatchIgnoresEmptyPath(req, h.route);
    MatchedIsCanonical(req, RoutePath(h.route));
  }

  lemma StaysOut(h: Hit, u: User, admits: seq<string> -> bool)
    requires ValidRule(h.route.rule) && !IsOpen(h.route) && !u.admin
    requires !Authorized(u, EffectiveGrant(h.backend, h.route))
    ensures Decide(true, Some(h), admits, Some(Session("", u.email, "", true, 0, 0)), map[u.email := u]) != Ok
  {
  }
}
