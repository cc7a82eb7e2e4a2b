/** NGINX and the gate together: what a location proxies, for whom, and which route that serves. */
module Serving {
  import opened Models
  import opened Ordering
  import opened Paths
  import opened Matrix
  import opened Proxy
  import opened Generation
  import opened Agreement
  import opened Grants
  import opened Access
  import Uri

  datatype Outcome = ProxiedTo(upstream: string) | LoginRedirect | Denied | OwnPath | NoLocation

  /** What NGINX does with the chosen location; a gated one asks `/validate` first. */
  function Serve(choice: Option<Location>, status: Status): Outcome {
    if choice.None? then NoLocation
    else match choice.value
      case RouteLocation(_, gated, upstream, _, _) =>
        if !gated || status == Ok then ProxiedTo(upstream)
        else if status == Unauthorized then LoginRedirect
        else Denied
      case _ => OwnPath
  }

  predicate RouteChosen(choice: Option<Location>) {
    choice.Some? && choice.value.RouteLocation?
  }

  predicate GatedChoice(choice: Option<Location>) {
    RouteChosen(choice) && choice.value.gated
  }

  // ---------------------------------------------------------------- the decision and the proxy

  /** What a rendered location does with a status. */
  lemma RenderedServe(l: Location, h: Hit, status: Status)
    requires Renders(l, h)
    ensures Serve(Some(l), status).ProxiedTo? <==> h.route.rule == RULE_PUBLIC || status == Ok
    ensures Serve(Some(l), status).ProxiedTo? ==> Serve(Some(l), status) == ProxiedTo(h.route.upstream)
  {
  }

  /** NGINX chooses the location by the path `uri` as it normalises it, and asks `/validate` about the path
      `raw` as it was sent. For all backends, names and paths: a route location proxies to the upstream of
      the route it serves, and exactly when the decision for `raw` is 200, unless that route is public.
      When the route checked is the route served, the gap is a public route that refuses the client. */
  lemma ProxyFollowsDecisionIff(certs: set<string>, bs: seq<Backend>, name: string, uri: string, raw: string,
                                admits: seq<string> -> bool, session: Option<Session>, users: map<string, User>)
    ensures var choice, answer := Lookup(Config(certs, bs), name, uri), Resolution(bs, name, raw);
            var status := Decide(true, answer, admits, session, users);
            RouteChosen(choice) ==>
              var s := Served(bs, name, choice.value);
              && s.Some?
              && (Serve(choice, status).ProxiedTo? ==> Serve(choice, status) == ProxiedTo(s.value.route.upstream))
              && ((Serve(choice, status).ProxiedTo? <==> status == Ok) <==> !(s.value.route.rule == RULE_PUBLIC && status != Ok))
              && (answer == s ==> ((Serve(choice, status).ProxiedTo? <==> status == Ok)
                                   <==> !(s.value.route.rule == RULE_PUBLIC && Refused(s.value, admits))))
  {
    ChosenIsServed(certs, bs, name, uri);
    var choice := Lookup(Config(certs, bs), name, uri);
    if RouteChosen(choice) {
      RenderedServe(choice.value, Served(bs, name, choice.value).value,
                    Decide(true, Resolution(bs, name, raw), admits, session, users));
    }
  }

  /** On a boundary, when both paths resolve alike, as equal paths do, the route checked is the route served:
      the decision is followed exactly unless the route is public and its allow-list refuses the client. */
  lemma SamePathFollowsDecisionIff(certs: set<string>, bs: seq<Backend>, host: string, uri: string, raw: string,
                                   admits: seq<string> -> bool, session: Option<Session>, users: map<string, User>)
    requires host != "" && WellRouted(bs, host) && OwnName(bs, host)
    requires uri != "" && uri[0] == '/' && Resolution(bs, host, raw) == Resolution(bs, host, uri)
    ensures var choice, answer := Lookup(Config(certs, bs), host, uri), Resolution(bs, host, raw);
            var status := Decide(true, answer, admits, session, users);
            choice.Some? && OnBoundary(choice, uri) ==>
              && answer.Some?
              && ((Serve(choice, status).ProxiedTo? <==> status == Ok)
                  <==> !(answer.value.route.rule == RULE_PUBLIC && Refused(answer.value, admits)))
  {
    ProxyFollowsDecisionIff(certs, bs, host, uri, raw, admits, session, users);
    BoundaryIsAnswered(certs, bs, host, uri);
  }

  /** A gated location proxies only on a 200, and to the upstream of the non-public route it serves. */
  lemma GatedProxyIsAnswered(certs: set<string>, bs: seq<Backend>, name: string, uri: string, status: Status)
    ensures var choice := Lookup(Config(certs, bs), name, uri);
            GatedChoice(choice) && Serve(choice, status).ProxiedTo? ==>
              var s := Served(bs, name, choice.value);
              && status == Ok && s.Some? && IsRouteOf(bs, Owner(bs, name), s.value) && s.value.route.rule != RULE_PUBLIC
              && Serve(choice, status) == ProxiedTo(s.value.route.upstream)
  {
    ChosenIsServed(certs, bs, name, uri);
    var choice := Lookup(Config(certs, bs), name, uri);
    if RouteChosen(choice) {
      RenderedServe(choice.value, Served(bs, name, choice.value).value, status);
    }
  }

  /** What becomes of a request, case by case: a gated location turns 401 into the login redirect and 403
      into a refusal, and an open one never asks. */
  lemma ServeIff(choice: Option<Location>, status: Status)
    ensures Serve(choice, status) == LoginRedirect <==> GatedChoice(choice) && status == Unauthorized
    ensures Serve(choice, status) == Denied <==> GatedChoice(choice) && status == Forbidden
    ensures Serve(choice, status).ProxiedTo? <==> RouteChosen(choice) && (status == Ok || !choice.value.gated)
    ensures Serve(choice, status).NoLocation? <==> choice.None?
  {
  }

  // ---------------------------------------------------------------- the way to the login page

  /** The gate's own location wins the request for its path, unless an exact location is written for it. */
  lemma GateLocationWins(grp: seq<Backend>, p: string)
    requires GateLocation(p) in Locations(grp) && IsGatePath(p)
    ensures Choose(Locations(grp), p) == Some(GateLocation(p)) <==> "= " + p !in DeclaredPaths(AllHits(grp))
  {
    GatePathIsOrdinary(p);
    ExactChoice(grp, p);
    LocationMembers(grp, GateLocation(p));
    var r := LongestPrefix(Locations(grp), p);
    assert IsPrefix(GateLocation(p), p);
    if r.Some? {
      KeyOfFullLength(r.value, p);
      LocationMembers(grp, r.value);
      NotWritten(grp, r.value);
    }
  }

  lemma GatePathIsOrdinary(p: string)
    requires IsGatePath(p)
    ensures p != AUTH_PATH && p != ACME_PATH && p != ""
  {
    assert "/login"[1] == 'l' && "/auth/"[1] == 'a' && "/logout"[1] == 'l' && "/listing"[1] == 'l';
    assert |"/_xtk/"| == 6 && |AUTH_PATH| == 7 && AUTH_PATH[1] == '_' && ACME_PATH[1] == '.' && "/_xtk/"[1] == '_';
  }

  lemma KeyOfFullLength(l: Location, req: string)
    requires IsPrefix(l, req) && |req| <= |Key(l)|
    ensures Key(l) == req
  {
  }

  /** Wherever a location is gated, the login page and the gate's other paths are reached on the same name,
      exactly unless a service writes an exact location for them. */
  lemma GatePathIsServedIff(certs: set<string>, bs: seq<Backend>, name: string, uri: string, p: string)
    requires IsGatePath(p)
    ensures GatedChoice(Lookup(Config(certs, bs), name, uri)) ==>
              (Lookup(Config(certs, bs), name, p) == Some(GateLocation(p)) <==> !ExactDeclared(bs, Owner(bs, name), p))
  {
    var o := Owner(bs, name);
    var grp := HostGroup(bs, o);
    LookupIsHostServer(certs, bs, name, uri);
    LookupIsHostServer(certs, bs, name, p);
    if GatedChoice(Lookup(Config(certs, bs), name, uri)) {
      ChosenIsWritten(Locations(grp), uri);
      GatedServerHasLogin(grp, Lookup(Config(certs, bs), name, uri).value, p);
      GateLocationWins(grp, p);
      GroupMembers(bs, o);
      GroupHits(bs, o);
      ExactDeclaredIff(bs, o, grp, p);
    }
  }

  // ---------------------------------------------------------------- who gets through

  /** Without a session a gated location proxies exactly when the path as it was sent resolves to a
      public route that does not refuse the client, whatever route the location belongs to. */
  lemma AnonymousThroughGateIff(choice: Option<Location>, answer: Option<Hit>, admits: seq<string> -> bool,
                                users: map<string, User>)
    requires GatedChoice(choice)
    ensures Serve(choice, Decide(true, answer, admits, None, users)).ProxiedTo?
       <==> answer.Some? && answer.value.route.rule == RULE_PUBLIC && !Refused(answer.value, admits)
  {
  }

  /** The route served is gated, and the route checked is public. */
  predicate ReadApart(served: Hit, answer: Option<Hit>) {
    served.route.rule != RULE_PUBLIC && answer.Some? && answer.value.route.rule == RULE_PUBLIC
  }

  /** For all backends, names and paths: an anonymous request is proxied to a non-public route exactly when
      route served and route checked are read apart and the one checked does not refuse the client. */
  lemma AnonymousReachesGatedIff(certs: set<string>, bs: seq<Backend>, name: string, uri: string, raw: string,
                                 admits: seq<string> -> bool, users: map<string, User>)
    ensures var choice, answer := Lookup(Config(certs, bs), name, uri), Resolution(bs, name, raw);
            RouteChosen(choice) ==>
              var s := Served(bs, name, choice.value);
              && s.Some?
              && (s.value.route.rule != RULE_PUBLIC && Serve(choice, Decide(true, answer, admits, None, users)).ProxiedTo?
                  <==> ReadApart(s.value, answer) && !Refused(answer.value, admits))
  {
    ChosenIsServed(certs, bs, name, uri);
    var choice := Lookup(Config(certs, bs), name, uri);
    if GatedChoice(choice) {
      AnonymousThroughGateIff(choice, Resolution(bs, name, raw), admits, users);
    }
  }

  /** Whoever the location proxies for, with the check about `answer`, would get 200 for `target`. */
  ghost predicate ServesOnlyGranted(choice: Option<Location>, answer: Option<Hit>, target: Hit) {
    forall admits, session, users :: Serve(choice, Decide(true, answer, admits, session, users)).ProxiedTo? ==>
      Decide(true, Some(target), admits, session, users) == Ok
  }

  lemma GatedServesOnlyGrantedIff(choice: Option<Location>, answer: Option<Hit>, target: Hit)
    requires GatedChoice(choice)
    ensures ServesOnlyGranted(choice, answer, target) <==> answer.None? || Covers(answer.value, target)
  {
    forall admits, session, users
      ensures Serve(choice, Decide(true, answer, admits, session, users)).ProxiedTo?
         <==> Decide(true, answer, admits, session, users) == Ok
    {
    }
    if answer.Some? {
      CoversIff(answer.value, target);
    }
  }

  /** For all backends, names and paths: everyone a gated location proxies for is granted the route it serves
      exactly when the path that was sent resolves to nothing, or to a route whose check covers that one. */
  lemma ServedIsGrantedIff(certs: set<string>, bs: seq<Backend>, name: string, uri: string, raw: string)
    ensures var choice, answer := Lookup(Config(certs, bs), name, uri), Resolution(bs, name, raw);
            GatedChoice(choice) ==>
              var s := Served(bs, name, choice.value);
              && s.Some? && IsRouteOf(bs, Owner(bs, name), s.value) && Renders(choice.value, s.value)
              && (ServesOnlyGranted(choice, answer, s.value) <==> answer.None? || Covers(answer.value, s.value))
  {
    ChosenIsServed(certs, bs, name, uri);
    var choice := Lookup(Config(certs, bs), name, uri);
    if GatedChoice(choice) {
      GatedServesOnlyGrantedIff(choice, Resolution(bs, name, raw), Served(bs, name, choice.value).value);
    }
  }

  /** A check always covers itself. */
  lemma CoversItself(h: Hit)
    ensures Covers(h, h)
  {
  }

  /** On a boundary, with a path that NGINX matches as it was sent, the route checked is the route served:
      nobody gets through whom the route served refuses. */
  lemma PlainOnBoundaryIsGranted(certs: set<string>, bs: seq<Backend>, host: string, raw: string)
    requires host != "" && WellRouted(bs, host) && OwnName(bs, host) && Uri.Plain(raw)
    ensures Uri.Normalised(raw) == Some(raw)
    ensures var choice := Lookup(Config(certs, bs), host, raw);
            GatedChoice(choice) && OnBoundary(choice, raw) ==>
              var s := Served(bs, host, choice.value);
              s.Some? && s == Resolution(bs, host, raw) && ServesOnlyGranted(choice, Resolution(bs, host, raw), s.value)
  {
    Uri.PlainIsMatchedAsSent(raw);
    BoundaryIsAnswered(certs, bs, host, raw);
    ServedIsGrantedIff(certs, bs, host, raw, raw);
    var choice := Lookup(Config(certs, bs), host, raw);
    if GatedChoice(choice) && OnBoundary(choice, raw) {
      CoversItself(Resolution(bs, host, raw).value);
    }
  }

  // ---------------------------------------------------------------- witnesses

  /** A service with a public path beside a gated one. */
  function Example(host: string, open: string, shut: string): Backend {
    NO_BACKEND.(id := "s", host := host,
                routes := [Route("/pub", RULE_PUBLIC, open, false), Route("/secret", RULE_AUTHORIZED, shut, false)])
  }

  lemma PairIsWellRouted(be: Backend, r: Route, q: Route)
    requires be.host != "" && be.routes == [r, q]
    requires Canonical(RoutePath(r)) && Canonical(RoutePath(q)) && RoutePath(r) != RoutePath(q)
    ensures WellRouted([be], be.host)
  {
  }

  lemma AloneIsOwnName(be: Backend)
    ensures OwnName([be], be.host)
  {
    var host := be.host;
    if |host| >= 4 {
      WwwKeepsHost(host[4..]);
      GroupMembers([be], host[4..]);
      FirstIsMember(GroupOf([be], host[4..]));
    }
  }

  /** A path under one of two routes, which the other does not prefix. */
  lemma PairResolves(be: Backend, r: Route, q: Route, req: string)
    requires be.host != "" && be.routes == [r, q] && PathMatches(req, r.path) && !PathMatches(req, q.path)
    ensures Resolution([be], be.host, req) == Some(Hit(be, r))
  {
    NoLongerMatch([be], be.host, req, be, r);
    Winner([be], be.host, req);
  }

  lemma DotSegmentsMatchPub()
    ensures var raw := "/pub/../secret"; PathMatches(raw, "/pub") && !PathMatches(raw, "/secret")
    ensures PathMatches("/secret", "/secret") && !PathMatches("/secret", "/pub")
  {
    var raw := "/pub/../secret";
    assert TrimSlashes("/pub") == "/pub" && TrimSlashes("/secret") == "/secret";
    assert raw[..5] == "/pub" + "/";
    assert raw[1] == 'p' && "/secret"[1] == 's' && ("/pub" + "/")[1] == 'p' && ("/secret" + "/")[1] == 's';
  }

  /** A path that no location of the gate takes. */
  ghost predicate FreePath(req: string) {
    && req != AUTH_PATH && !(ACME_PATH <= req)
    && forall p | p in GATE_PATHS + [ADMIN_PATH] :: !(p <= req) && p != req + "/"
  }

  lemma SecretIsFree()
    ensures FreePath("/secret") && !("/pub" <= "/secret")
    ensures Canonical("/secret") && Canonical("/pub")
  {
    var req := "/secret";
    assert ACME_PATH[1] == '.' && AUTH_PATH[1] == '_' && req[1] == 's' && "/pub"[1] == 'p';
    var r := GATE_PATHS + [ADMIN_PATH];
    assert r[0][1] == 'l' && r[1][1] == 'a' && r[2][1] == 'l' && r[3][1] == 'l' && r[4][1] == '_' && r[5][1] == 'a';
    forall p | p in r ensures !(p <= req) && p != req + "/" {
      var k :| 0 <= k < |r| && r[k] == p;
    }
  }

  lemma ReservedAreGatePaths(grp: seq<Backend>, p: string)
    requires p in Reserved(grp)
    ensures p in GATE_PATHS + [ADMIN_PATH]
  {
  }

  lemma FreeOfReserved(grp: seq<Backend>, req: string)
    requires FreePath(req)
    ensures forall p | p in Reserved(grp) :: !(p <= req) && p != req + "/"
  {
    forall p | p in Reserved(grp) ensures !(p <= req) && p != req + "/" {
      ReservedAreGatePaths(grp, p);
    }
  }

  lemma PairIsNotAside(be: Backend, r: Route, q: Route, req: string)
    requires be.host != "" && be.routes == [r, q] && Canonical(r.path) && Canonical(q.path)
    requires FreePath(req) && req != "" && req[0] == '/'
    ensures !TakenAside([be], be.host, HostGroup([be], be.host), req)
  {
    FreeOfReserved(HostGroup([be], be.host), req);
    ReservedAreAbsolute(HostGroup([be], be.host), "= " + (req + "/"));
    var p := req + "/";
    assert p[|p| - 1] == '/' && |p| > 1 && ("= " + req)[0] == '=' && ("= " + p)[0] == '=';
  }

  lemma PairMeetsOnBoundary(be: Backend, r: Route, q: Route, b: Backend, rt: Route)
    requires be.routes == [r, q] && Canonical(r.path) && Canonical(q.path) && !(r.path <= q.path)
    requires b in [be] && rt in b.routes && RoutePath(rt) <= q.path
    ensures PathMatches(q.path, RoutePath(rt))
  {
    SelfMatch(q.path);
  }

  lemma PairIsUnambiguous(be: Backend, r: Route, q: Route)
    requires be.host != "" && be.routes == [r, q] && Canonical(r.path) && Canonical(q.path)
    requires FreePath(q.path) && !(r.path <= q.path)
    ensures Unambiguous([be], be.host, q.path)
  {
    PairIsWellRouted(be, r, q);
    WellRoutedIsRouted([be], be.host, q.path);
    FreeOfReserved(HostGroup([be], be.host), q.path);
    PairIsNotAside(be, r, q, q.path);
    forall b, rt | b in [be] && b.host == be.host && rt in b.routes && RoutePath(rt) <= q.path
      ensures PathMatches(q.path, RoutePath(rt))
    {
      PairMeetsOnBoundary(be, r, q, b, rt);
    }
  }

  lemma PairIsServed(certs: set<string>, be: Backend, r: Route, q: Route)
    requires be.host != "" && be.routes == [r, q] && Canonical(r.path) && Canonical(q.path)
    requires q.rule != RULE_PUBLIC && FreePath(q.path) && !(r.path <= q.path)
    ensures var choice := Lookup(Config(certs, [be]), be.host, q.path);
            GatedChoice(choice) && choice.value.upstream == q.upstream && Served([be], be.host, choice.value) == Some(Hit(be, q))
  {
    SelfMatch(q.path);
    MatchOfLonger(r.path, q.path);
    PairSwapped(be, r, q, q.path);
    PairIsWellRouted(be, r, q);
    AloneIsOwnName(be);
    PairIsUnambiguous(be, r, q);
    WellRoutedIsRouted([be], be.host, q.path);
    UnambiguousRequestsAgree(certs, [be], be.host, q.path);
    BoundaryDecides(certs, [be], be.host, q.path);
    AgreedChoice(Lookup(Config(certs, [be]), be.host, q.path), Hit(be, q));
    BoundaryIsAnswered(certs, [be], be.host, q.path);
  }

  lemma AgreedChoice(choice: Option<Location>, h: Hit)
    requires Agrees(choice, Some(h))
    ensures choice.Some? && Renders(choice.value, h)
  {
  }

  lemma MatchOfLonger(r: string, q: string)
    requires Canonical(r) && Canonical(q) && !(r <= q)
    ensures !PathMatches(q, r)
  {
    if PathMatches(q, r) {
      MatchIsPrefix(q, r);
    }
  }

  lemma PairSwapped(be: Backend, r: Route, q: Route, req: string)
    requires be.host != "" && be.routes == [r, q] && PathMatches(req, q.path) && !PathMatches(req, r.path)
    ensures Resolution([be], be.host, req) == Some(Hit(be, q))
  {
    NoLongerMatch([be], be.host, req, be, q);
    Winner([be], be.host, req);
  }

  /** NGINX normalises "/pub/../secret" to "/secret" and takes its location; the check reads it as a path
      under "/pub". The two are read apart, and the request is proxied without a session. */
  lemma DotSegmentsAreReadApart(certs: set<string>, host: string, open: string, shut: string,
                                admits: seq<string> -> bool, users: map<string, User>)
    requires host != ""
    ensures Uri.Normalised("/pub/../secret") == Some("/secret")
    ensures var be := Example(host, open, shut);
            var choice := Lookup(Config(certs, [be]), host, "/secret");
            && GatedChoice(choice) && Served([be], host, choice.value) == Some(Hit(be, be.routes[1]))
            && ReadApart(Hit(be, be.routes[1]), Resolution([be], host, "/pub/../secret"))
            && Serve(choice, Decide(true, Resolution([be], host, "/pub/../secret"), admits, None, users)) == ProxiedTo(shut)
  {
    var be := Example(host, open, shut);
    var r, q := be.routes[0], be.routes[1];
    DotSegmentsNormalise();
    DotSegmentsMatchPub();
    SecretIsFree();
    PairResolves(be, r, q, "/pub/../secret");
    PairIsServed(certs, be, r, q);
    AnonymousThroughGateIff(Lookup(Config(certs, [be]), host, "/secret"), Some(Hit(be, r)), admits, users);
  }

  lemma DotSegmentsNormalise()
    ensures Uri.Normalised("/pub/../secret") == Some("/secret")
  {
    Uri.StepUp("pub", "secret");
    assert "/" + "pub" + "/../" + "secret" == "/pub/../secret" && "/" + "secret" == "/secret";
  }

  /** Two gated paths with their own lists. */
  function TwoLists(host: string, first: string, second: string): Backend {
    NO_BACKEND.(id := "s", host := host,
                routes := [Route("/pub", RULE_AUTHORIZED, first, true), Route("/secret", RULE_AUTHORIZED, second, true)])
  }

  lemma PairResolvesApart(be: Backend, r: Route, q: Route, raw: string)
    requires be.host != "" && be.routes == [r, q] && Canonical(r.path) && Canonical(q.path) && !(r.path <= q.path)
    requires PathMatches(raw, r.path) && !PathMatches(raw, q.path)
    ensures Resolution([be], be.host, raw) == Some(Hit(be, r)) && Resolution([be], be.host, q.path) == Some(Hit(be, q))
  {
    SelfMatch(q.path);
    MatchOfLonger(r.path, q.path);
    PairResolves(be, r, q, raw);
    PairSwapped(be, r, q, q.path);
  }

  /** Dot segments also lead past one list to another: a user listed for "/pub" only is proxied to
      "/secret", for which the decision is 403, although neither route is public. */
  lemma DotSegmentsChangeList(certs: set<string>, host: string, first: string, second: string, admits: seq<string> -> bool)
    requires host != ""
    ensures Uri.Normalised("/pub/../secret") == Some("/secret")
    ensures var be := TwoLists(host, first, second);
            var bs, users := [be], map["u" := Grantee(EffectiveGrant(be, be.routes[0]))];
            var choice := Lookup(Config(certs, bs), host, "/secret");
            && GatedChoice(choice) && Served(bs, host, choice.value) == Some(Hit(be, be.routes[1]))
            && Decide(true, Resolution(bs, host, "/secret"), admits, Some(COMPLETE), users) == Forbidden
            && Serve(choice, Decide(true, Resolution(bs, host, "/pub/../secret"), admits, Some(COMPLETE), users)) == ProxiedTo(second)
  {
    var be := TwoLists(host, first, second);
    var r, q := be.routes[0], be.routes[1];
    DotSegmentsNormalise();
    DotSegmentsMatchPub();
    SecretIsFree();
    PairResolvesApart(be, r, q, "/pub/../secret");
    PairIsServed(certs, be, r, q);
    SameServiceInjective(be.id, r.path, q.path);
    ListDecides(be, r, q, admits);
  }

  lemma ListDecides(be: Backend, r: Route, q: Route, admits: seq<string> -> bool)
    requires be.ipAllow == [] && r.rule == q.rule == RULE_AUTHORIZED
    requires EffectiveGrant(be, r) != EffectiveGrant(be, q)
    ensures var users := map["u" := Grantee(EffectiveGrant(be, r))];
            && Decide(true, Some(Hit(be, r)), admits, Some(COMPLETE), users) == Ok
            && Decide(true, Some(Hit(be, q)), admits, Some(COMPLETE), users) == Forbidden
  {
  }

  // ---------------------------------------------------------------- a raw prefix

  /** A public root beside a gated path. */
  function RootAndApi(host: string, open: string, shut: string): Backend {
    NO_BACKEND.(id := "s", host := host,
                routes := [Route("/", RULE_PUBLIC, open, false), Route("/api", RULE_AUTHORIZED, shut, false)])
  }

  lemma ApiXyzIsFree()
    ensures FreePath("/apixyz")
  {
    var req := "/apixyz";
    assert ACME_PATH[1] == '.' && AUTH_PATH[1] == '_' && req[1] == 'a' && req[2] == 'p' && |req| == 7;
    var r := GATE_PATHS + [ADMIN_PATH];
    assert r[0][1] == 'l' && r[1][2] == 'u' && r[2][1] == 'l' && r[3][1] == 'l' && r[4][1] == '_' && r[5][2] == 'd';
    forall p | p in r ensures !(p <= req) && p != req + "/" {
      var k :| 0 <= k < |r| && r[k] == p;
    }
  }

  lemma ApiXyzIsPlain()
    ensures Uri.Plain("/apixyz")
  {
    assert "/apixyz"[1..] == "apixyz";
    Uri.OneSegment("apixyz");
  }

  lemma ApiXyzBeginsLikeApi()
    ensures "/api" <= "/apixyz" && !PathMatches("/apixyz", "/api") && PathMatches("/apixyz", "/")
    ensures Canonical("/api") && "/api" != "/apixyz"
  {
    ApiIsRawPrefixOnly();
  }

  /** A request that nothing takes aside is decided by the longest prefix. */
  lemma LookupIsLongest(certs: set<string>, bs: seq<Backend>, host: string, req: string)
    requires host != "" && OwnName(bs, host) && GroupOf(bs, host) != []
    requires !TakenAside(bs, host, HostGroup(bs, host), req)
    ensures Lookup(Config(certs, bs), host, req) == LongestPrefix(Locations(HostGroup(bs, host)), req)
  {
    LookupIsHostServer(certs, bs, host, req);
    GroupHits(bs, host);
    ChoiceIsPrefix(bs, host, HostGroup(bs, host), req);
  }

  lemma AloneIsServed(be: Backend)
    requires be.host != "" && be.routes != []
    ensures GroupOf([be], be.host) != []
  {
    GroupMembers([be], be.host);
    assert be in GroupOf([be], be.host);
  }

  lemma RouteByPath(be: Backend, r: Route, q: Route, h: Hit)
    requires be.routes == [r, q] && RoutePath(r) != RoutePath(q)
    requires IsRouteOf([be], be.host, h) && RoutePath(h.route) == RoutePath(q)
    ensures h == Hit(be, q)
  {
  }

  /** NGINX takes the longest raw prefix of a request that nothing else claims. */
  lemma RawPrefixIsChosen(certs: set<string>, be: Backend, r: Route, q: Route, req: string)
    requires be.host != "" && be.routes == [r, q] && r.path == "/" && Canonical(q.path) && q.path != "/"
    requires FreePath(req) && req != "" && req[0] == '/' && q.path <= req
    ensures var choice := Lookup(Config(certs, [be]), be.host, req);
            RouteChosen(choice) && Served([be], be.host, choice.value) == Some(Hit(be, q)) && Renders(choice.value, Hit(be, q))
  {
    AloneIsOwnName(be);
    AloneIsServed(be);
    PairIsNotAside(be, r, q, req);
    LookupIsLongest(certs, [be], be.host, req);
    GroupHits([be], be.host);
    LongestIsTheRoute(be, r, q, HostGroup([be], be.host), req);
    ChosenIsServed(certs, [be], be.host, req);
    RouteByPath(be, r, q, Served([be], be.host, Lookup(Config(certs, [be]), be.host, req).value).value);
  }

  /** Only a route has a location that a free path meets. */
  lemma FreeIsRoute(grp: seq<Backend>, l: Location, req: string)
    requires l in Locations(grp) && IsPrefix(l, req) && FreePath(req)
    ensures l.RouteLocation?
  {
    FreeOfReserved(grp, req);
    LocationMembers(grp, l);
    NotWritten(grp, l);
  }

  lemma LongerIsSecond(be: Backend, r: Route, q: Route, grp: seq<Backend>, l: Location)
    requires Fits([be], be.host, grp) && be.routes == [r, q] && l.RouteLocation? && l in Locations(grp)
    requires |RoutePath(r)| < |RoutePath(q)| <= |l.path|
    ensures l.path == RoutePath(q)
  {
    var fd := Declarer([be], be.host, grp, l);
    assert fd.route == r || fd.route == q;
  }

  lemma LongestIsTheRoute(be: Backend, r: Route, q: Route, grp: seq<Backend>, req: string)
    requires Fits([be], be.host, grp) && be.routes == [r, q] && r.path == "/" && Canonical(q.path) && q.path != "/"
    requires FreePath(req) && q.path <= req
    ensures var c := LongestPrefix(Locations(grp), req); c.Some? && c.value.RouteLocation? && c.value.path == q.path
  {
    assert Hit(be, q) in AllHits(grp);
    DeclaredPrefixIsBeaten(grp, Hit(be, q), req);
    var l := LongestPrefix(Locations(grp), req).value;
    FreeIsRoute(grp, l, req);
    LongerIsSecond(be, r, q, grp, l);
  }

  /** Beside a public root, a request that only begins like the gated path gets through without a session. */
  lemma RawPrefixEnters(certs: set<string>, be: Backend, r: Route, q: Route, req: string,
                        admits: seq<string> -> bool, users: map<string, User>)
    requires be.host != "" && be.ipAllow == [] && be.routes == [r, q] && r.path == "/" && r.rule == RULE_PUBLIC
    requires Canonical(q.path) && q.path != "/" && q.rule != RULE_PUBLIC && FreePath(req) && req != "" && req[0] == '/'
    requires q.path <= req && !PathMatches(req, q.path) && PathMatches(req, "/")
    ensures var choice, answer := Lookup(Config(certs, [be]), be.host, req), Resolution([be], be.host, req);
            && GatedChoice(choice) && !OnBoundary(choice, req)
            && Served([be], be.host, choice.value) == Some(Hit(be, q)) && ReadApart(Hit(be, q), answer)
            && Serve(choice, Decide(true, answer, admits, None, users)) == ProxiedTo(q.upstream)
  {
    RawPrefixIsChosen(certs, be, r, q, req);
    PairResolves(be, r, q, req);
    AnonymousThroughGateIff(Lookup(Config(certs, [be]), be.host, req), Some(Hit(be, r)), admits, users);
  }

  /** So, without any encoding, "/apixyz" is taken by the gated "/api", checked as the public "/", and
      proxied. NGINX matches it as it was sent. */
  lemma RawPrefixIsReadApart(certs: set<string>, host: string, open: string, shut: string,
                             admits: seq<string> -> bool, users: map<string, User>)
    requires host != ""
    ensures Uri.Normalised("/apixyz") == Some("/apixyz")
    ensures var be, req := RootAndApi(host, open, shut), "/apixyz";
            var choice, answer := Lookup(Config(certs, [be]), host, req), Resolution([be], host, req);
            && GatedChoice(choice) && !OnBoundary(choice, req)
            && Served([be], host, choice.value) == Some(Hit(be, be.routes[1])) && ReadApart(Hit(be, be.routes[1]), answer)
            && Serve(choice, Decide(true, answer, admits, None, users)) == ProxiedTo(shut)
  {
    var be := RootAndApi(host, open, shut);
    ApiXyzIsFree();
    ApiXyzIsPlain();
    ApiXyzBeginsLikeApi();
    Uri.PlainIsMatchedAsSent("/apixyz");
    RawPrefixEnters(certs, be, be.routes[0], be.routes[1], "/apixyz", admits, users);
  }

  // ---------------------------------------------------------------- "www." aliases

  /** On a "www." alias the check answers 403 to everything, so exactly the public locations proxy. */
  lemma AliasServesPublicOnly(certs: set<string>, bs: seq<Backend>, host: string, uri: string, raw: string,
                              admits: seq<string> -> bool, session: Option<Session>, users: map<string, User>)
    requires AliasOf(bs, host, Www(host)) && GroupOf(bs, Www(host)) == []
    ensures var choice := Lookup(Config(certs, bs), Www(host), uri);
            var status := Decide(true, Resolution(bs, Www(host), raw), admits, session, users);
            && choice == Choose(Locations(HostGroup(bs, host)), uri)
            && status == Forbidden
            && (Serve(choice, status).ProxiedTo? <==> choice.Some? && choice.value.RouteLocation? && !choice.value.gated)
  {
    AliasAgreesIff(certs, bs, host, uri);
    UnservedIsUnknown(bs, Www(host), raw);
    ForbiddenServe(Lookup(Config(certs, bs), Www(host), uri));
  }

  lemma ForbiddenServe(choice: Option<Location>)
    ensures Serve(choice, Forbidden).ProxiedTo? <==> choice.Some? && choice.value.RouteLocation? && !choice.value.gated
  {
  }
}
