/** The generated configuration and the resolver tell the same story. */
module Agreement {
  import opened Models
  import opened Ordering
  import opened Paths
  import opened Matrix
  import opened Proxy
  import opened Generation

  // ---------------------------------------------------------------- NGINX's choice of a location

  predicate IsExact(l: Location, req: string) {
    (l.AuthLocation? && req == AUTH_PATH) || (l.RouteLocation? && l.path == "= " + req)
  }

  predicate IsPrefix(l: Location, req: string) {
    !l.AuthLocation? && Key(l) <= req
  }

  function FirstExact(locs: seq<Location>, req: string): (r: Option<Location>)
    ensures r.Some? ==> r.value in locs && IsExact(r.value, req)
    ensures r.None? ==> forall l | l in locs :: !IsExact(l, req)
  {
    if locs == [] then None
    else if IsExact(locs[0], req) then Some(locs[0])
    else FirstExact(locs[1..], req)
  }

  /** The first of the longest raw prefixes. */
  function LongestPrefix(locs: seq<Location>, req: string): (r: Option<Location>)
    ensures r.Some? ==> r.value in locs && IsPrefix(r.value, req)
    ensures r.Some? ==> forall l | l in locs && IsPrefix(l, req) :: |Key(l)| <= |Key(r.value)|
    ensures r.None? ==> forall l | l in locs :: !IsPrefix(l, req)
  {
    if locs == [] then None
    else
      var rest := LongestPrefix(locs[1..], req);
      if IsPrefix(locs[0], req) && (rest.None? || |Key(rest.value)| <= |Key(locs[0])|) then Some(locs[0]) else rest
  }

  /** A request that lacks only the final slash of a proxied location, prefix or exact, is redirected
      there, unless a prefix location is keyed by just this request. */
  predicate Redirects(locs: seq<Location>, req: string) {
    && (exists l | l in locs :: Declared(l) && (l.path == req + "/" || l.path == "= " + (req + "/")))
    && !(exists l | l in locs :: !l.AuthLocation? && Key(l) == req)
  }

  /** An exact location wins; then NGINX's own redirect; otherwise the longest raw prefix. */
  function Choose(locs: seq<Location>, req: string): Option<Location> {
    var exact := FirstExact(locs, req);
    if exact.Some? then exact
    else if Redirects(locs, req) then Some(SlashRedirect(req + "/"))
    else LongestPrefix(locs, req)
  }

  /** The location NGINX selects for a request to `name`: the first server that answers to it. */
  function Lookup(cfg: seq<ServerBlock>, name: string, req: string): Option<Location> {
    if cfg == [] then None
    else if name in cfg[0].names then Choose(cfg[0].locations, req)
    else Lookup(cfg[1..], name, req)
  }

  // ---------------------------------------------------------------- agreement

  /** NGINX proxies with the options, upstream and gate of the route the resolver answers, or both say no. */
  predicate Agrees(choice: Option<Location>, answer: Option<Hit>) {
    if choice.None? || answer.None? then choice.None? && answer.None?
    else
      var l, h := choice.value, answer.value;
      && l.RouteLocation? && l.path == RoutePath(h.route) && l.upstream == h.route.upstream
      && l.gated == (h.route.rule != RULE_PUBLIC) && l.opts == h.backend.nginx
  }

  /** The chosen location is a route that the request meets on a segment boundary. */
  predicate OnBoundary(choice: Option<Location>, req: string) {
    choice.Some? ==> choice.value.RouteLocation? && PathMatches(req, choice.value.path)
  }

  /** Two routes do not share their path. */
  predicate PathsDiffer(a: Hit, b: Hit) {
    RoutePath(a.route) == RoutePath(b.route) ==> a == b
  }

  ghost predicate IsRouteOf(bs: seq<Backend>, host: string, h: Hit) {
    h.backend in bs && h.backend.host == host && h.route in h.backend.routes
  }

  /** The routes on `host` are canonical prefixes or exact matches, and no path is declared twice. */
  ghost predicate WellRouted(bs: seq<Backend>, host: string) {
    && (forall b, rt | b in bs && b.host == host && rt in b.routes ::
          Canonical(RoutePath(rt)) || ExactPath(RoutePath(rt)))
    && (forall a, b {:trigger PathsDiffer(a, b)} | IsRouteOf(bs, host, a) && IsRouteOf(bs, host, b) :: PathsDiffer(a, b))
  }

  /** The same with slash-ended prefixes admitted. */
  ghost predicate Routed(bs: seq<Backend>, host: string) {
    && (forall b, rt | b in bs && b.host == host && rt in b.routes :: OrdinaryPath(RoutePath(rt)))
    && (forall a, b {:trigger PathsDiffer(a, b)} | IsRouteOf(bs, host, a) && IsRouteOf(bs, host, b) :: PathsDiffer(a, b))
  }

  predicate OrdinaryPath(p: string) {
    Canonical(p) || ExactPath(p) || (SlashEnded(p) && p != ACME_PATH)
  }

  /** A route of the host is the request with a slash behind. */
  ghost predicate SlashDeclared(bs: seq<Backend>, host: string, req: string) {
    exists b, rt | b in bs && b.host == host && rt in b.routes :: RoutePath(rt) == req + "/"
  }

  lemma AcmeIsNotCanonical()
    ensures !Canonical(ACME_PATH)
  {
    assert ACME_PATH[|ACME_PATH| - 1] == '/';
  }

  /** Without slash-ended routes no request lacks the slash of one. */
  lemma WellRoutedIsRouted(bs: seq<Backend>, host: string, req: string)
    requires WellRouted(bs, host) && req != "" && req[0] == '/'
    ensures Routed(bs, host) && !SlashDeclared(bs, host, req)
  {
    var p := req + "/";
    assert p[|p| - 1] == '/' && p[0] == '/' && |p| > 1;
  }

  /** `name` is the "www." alias that the server of `h` claims. */
  ghost predicate AliasOf(bs: seq<Backend>, h: string, name: string) {
    Www(h) == name && GroupOf(bs, h) != [] && Ordered(GroupOf(bs, h))[0].www
  }

  /** The host whose server answers to `name`: the one it is an alias of, unless `name` is served
      itself and written first. */
  ghost function Owner(bs: seq<Backend>, name: string): string {
    if |name| >= 4 && AliasOf(bs, name[4..], name) && (GroupOf(bs, name) == [] || Leq(name[4..], name)) then name[4..]
    else name
  }

  /** The server that answers to `host` is its own. */
  ghost predicate OwnName(bs: seq<Backend>, host: string) {
    Owner(bs, host) == host
  }

  ghost function HostGroup(bs: seq<Backend>, host: string): seq<Backend> {
    Ordered(GroupOf(bs, host))
  }

  /** A group declares exactly the routes that the resolver scans for the host. */
  ghost predicate Fits(bs: seq<Backend>, host: string, grp: seq<Backend>) {
    forall h {:trigger h in AllHits(grp)} :: h in AllHits(grp) <==> IsRouteOf(bs, host, h)
  }

  /** The group that is rendered does. */
  lemma GroupHits(bs: seq<Backend>, host: string)
    requires host != ""
    ensures Fits(bs, host, HostGroup(bs, host))
  {
    AllHitsMembers(HostGroup(bs, host));
    GroupMembers(bs, host);
    OrderedPermutes(GroupOf(bs, host));
    forall h: Hit | h.backend in bs && h.backend.host == host && h.route in h.backend.routes
      ensures h.backend in HostGroup(bs, host)
    {
      assert h.backend.routes != [];
    }
  }

  lemma {:induction false} LookupSkips(cfg: seq<ServerBlock>, name: string, req: string, i: nat)
    requires i < |cfg| && name in cfg[i].names
    requires forall k | 0 <= k < i :: name !in cfg[k].names
    ensures Lookup(cfg, name, req) == Choose(cfg[i].locations, req)
  {
    if i > 0 {
      LookupSkips(cfg[1..], name, req, i - 1);
    }
  }

  lemma {:induction false} LookupFails(cfg: seq<ServerBlock>, name: string, req: string)
    requires forall k | 0 <= k < |cfg| :: name !in cfg[k].names
    ensures Lookup(cfg, name, req) == None
  {
    if cfg != [] {
      assert name !in cfg[0].names;
      forall k | 0 <= k < |cfg[1..]| ensures name !in cfg[1..][k].names {
        assert cfg[1..][k] == cfg[k + 1];
      }
      LookupFails(cfg[1..], name, req);
    }
  }

  /** The owner of a name claims it, and every other claim comes later. */
  lemma OwnerIsFirst(certs: set<string>, bs: seq<Backend>, name: string, i: nat, k: nat)
    requires i < |SortedHosts(bs)| && SortedHosts(bs)[i] == Owner(bs, name)
    requires k < |Config(certs, bs)| && k < |SortedHosts(bs)| && name in Config(certs, bs)[k].names
    ensures i <= k && i < |Config(certs, bs)| && name in Config(certs, bs)[i].names
  {
    ServerAt(certs, bs, i);
    NamesAt(certs, bs, k, name);
    NamesAt(certs, bs, i, name);
    SortedHostsAreDistinct(bs);
    var h, o := SortedHosts(bs)[k], Owner(bs, name);
    WwwKeepsHost(h);
    if k < i {
      assert Leq(h, o);
      if Leq(o, h) {
        LeqAntisymmetric(o, h);
      } else {
        LeqTotal(o, h);
      }
    }
  }

  /** The lookup reaches the server of the name's owner, or none when that host has no routes. */
  lemma LookupIsHostServer(certs: set<string>, bs: seq<Backend>, name: string, req: string)
    ensures Lookup(Config(certs, bs), name, req)
         == if GroupOf(bs, Owner(bs, name)) == [] then None else Choose(Locations(HostGroup(bs, Owner(bs, name))), req)
  {
    var cfg, o := Config(certs, bs), Owner(bs, name);
    if GroupOf(bs, o) == [] {
      forall k | 0 <= k < |cfg| ensures name !in cfg[k].names {
        NamesAt(certs, bs, k, name);
        WwwKeepsHost(SortedHosts(bs)[k]);
      }
      LookupFails(cfg, name, req);
    } else {
      var i := ServerIndex(certs, bs, o);
      ServerAt(certs, bs, i);
      NamesAt(certs, bs, i, name);
      assert name in cfg[i].names;
      forall k | 0 <= k < i ensures name !in cfg[k].names {
        if name in cfg[k].names {
          OwnerIsFirst(certs, bs, name, i, k);
        }
      }
      LookupSkips(cfg, name, req, i);
    }
  }

  /** A declared path that is a raw prefix of the request bounds the chosen prefix from below. */
  lemma DeclaredPrefixIsBeaten(grp: seq<Backend>, h: Hit, req: string)
    requires h in AllHits(grp) && RoutePath(h.route) <= req
    ensures LongestPrefix(Locations(grp), req).Some?
    ensures |RoutePath(h.route)| <= |Key(LongestPrefix(Locations(grp), req).value)|
  {
    var p := RoutePath(h.route);
    DeclaredIffDeclares(grp, p);
    EveryPathIsCovered(grp, p);
    if p in Reserved(grp) {
      assert IsPrefix(GateLocation(p), req);
    } else {
      var k: nat :| Render(FirstDeclarer(AllHits(grp), p), k) in Locations(grp);
      assert IsPrefix(Render(FirstDeclarer(AllHits(grp), p), k), req);
    }
  }

  /** A route that matches a request is a prefix route. */
  lemma MatchedIsCanonical(req: string, p: string)
    requires Canonical(p) || ExactPath(p)
    requires PathMatches(req, p) && req != "" && req[0] == '/'
    ensures Canonical(p) && p <= req
  {
    if ExactPath(p) {
      assert p == "= " + p[2..];
      ExactRouteNeverMatches(p[2..], req);
    } else {
      MatchIsPrefix(req, p);
    }
  }

  /** A route that matches a request is a raw prefix of it, unless the request lacks only its slash. */
  lemma MatchedIsPrefix(req: string, p: string)
    requires OrdinaryPath(p) && PathMatches(req, p) && req != "" && req[0] == '/' && p != req + "/"
    ensures p <= req
  {
    if SlashEnded(p) {
      SlashEndedMatches(req, p);
    } else {
      MatchedIsCanonical(req, p);
    }
  }

  /** The exact locations that a request meets: the gate's check path, or a route of exactly that path. */
  lemma ExactChoice(grp: seq<Backend>, req: string)
    ensures req == AUTH_PATH ==> FirstExact(Locations(grp), req) == Some(AuthLocation)
    ensures req != AUTH_PATH ==>
              (FirstExact(Locations(grp), req).Some? <==> "= " + req in DeclaredPaths(AllHits(grp)))
    ensures req != AUTH_PATH && FirstExact(Locations(grp), req).Some? ==>
              var l := FirstExact(Locations(grp), req).value; l.RouteLocation? && l.path == "= " + req
  {
    ExactInList(Reserved(grp), AllHits(grp), req, "= " + req);
    ReservedAreAbsolute(grp, "= " + req);
  }

  lemma ReservedAreAbsolute(grp: seq<Backend>, p: string)
    requires p != "" && p[0] != '/'
    ensures p !in Reserved(grp)
  {
    var r := GATE_PATHS + [ADMIN_PATH];
    assert forall q | q in r :: q[0] == '/';
    assert forall q | q in Reserved(grp) :: q in r;
  }

  lemma ExactInList(reserved: seq<string>, hits: seq<Hit>, req: string, exact: string)
    requires exact == "= " + req
    ensures var locs := LocationList(reserved, hits);
            && (req == AUTH_PATH ==> FirstExact(locs, req) == Some(AuthLocation))
            && (req != AUTH_PATH && exact in DeclaredPaths(hits) && exact !in reserved ==> FirstExact(locs, req).Some?)
            && (req != AUTH_PATH && FirstExact(locs, req).Some? ==>
                  var l := FirstExact(locs, req).value;
                  l.RouteLocation? && l.path == exact && exact in DeclaredPaths(hits))
  {
    var locs := LocationList(reserved, hits);
    LocationAt(reserved, hits, 0);
    LocationAt(reserved, hits, 1);
    assert locs[1..][0] == AuthLocation;
    var r := FirstExact(locs, req);
    if req != AUTH_PATH && r.Some? {
      LocationKinds(reserved, hits, r.value);
    }
    if exact in DeclaredPaths(hits) && exact !in reserved {
      var k := PathIsListed(reserved, hits, exact);
      assert IsExact(Render(FirstDeclarer(hits, exact), k), req);
    }
  }

  lemma MatchIgnoresEmptyPath(req: string, rt: Route)
    ensures PathMatches(req, RoutePath(rt)) == PathMatches(req, rt.path)
  {
  }

  /** A redirect is never written. */
  lemma NotWritten(grp: seq<Backend>, l: Location)
    requires l in Locations(grp)
    ensures !l.SlashRedirect?
  {
    var i :| 0 <= i < |Locations(grp)| && Locations(grp)[i] == l;
    LocationAt(Reserved(grp), AllHits(grp), i);
  }

  /** The route a location of the host is rendered from. */
  lemma Declarer(bs: seq<Backend>, host: string, grp: seq<Backend>, l: Location) returns (fd: Hit)
    requires Fits(bs, host, grp) && l.RouteLocation? && l in Locations(grp)
    ensures fd.backend in bs && fd.backend.host == host && fd.route in fd.backend.routes
    ensures l.path !in Reserved(grp) && l == Render(fd, l.index)
    ensures l.path in DeclaredPaths(AllHits(grp)) && fd == FirstDeclarer(AllHits(grp), l.path)
  {
    LocationMembers(grp, l);
    fd := FirstDeclarer(AllHits(grp), l.path);
    assert fd in AllHits(grp);
  }

  /** The path of an answer is a canonical prefix of the request and has a location no longer than the choice. */
  lemma AnswerIsLocated(bs: seq<Backend>, host: string, grp: seq<Backend>, req: string)
    requires Fits(bs, host, grp) && Routed(bs, host) && !SlashDeclared(bs, host, req) && req != "" && req[0] == '/'
    requires Resolution(bs, host, req).Some?
    ensures var p, choice := RoutePath(Resolution(bs, host, req).value.route), LongestPrefix(Locations(grp), req);
            p <= req && choice.Some? && |p| <= |Key(choice.value)|
  {
    Winner(bs, host, req);
    var h := Resolution(bs, host, req).value;
    MatchIgnoresEmptyPath(req, h.route);
    MatchedIsPrefix(req, RoutePath(h.route));
    MatchIsNoLonger(bs, host, grp, req, h);
  }

  lemma AnswerIsNoShorter(bs: seq<Backend>, host: string, req: string, fd: Hit)
    requires fd.backend in bs && fd.backend.host == host && fd.route in fd.backend.routes
    requires PathMatches(req, RoutePath(fd.route))
    ensures Resolution(bs, host, req).Some?
    ensures |RoutePath(fd.route)| <= |RoutePath(Resolution(bs, host, req).value.route)|
  {
    MatchIgnoresEmptyPath(req, fd.route);
    NoLongerMatch(bs, host, req, fd.backend, fd.route);
  }

  /** The answer has the path of the location chosen on a boundary. */
  lemma AnswerHasPath(bs: seq<Backend>, host: string, grp: seq<Backend>, req: string, l: Location, fd: Hit)
    requires Fits(bs, host, grp) && Routed(bs, host) && !SlashDeclared(bs, host, req) && req != "" && req[0] == '/'
    requires l.RouteLocation? && RoutePath(fd.route) == l.path && PathMatches(req, l.path)
    requires LongestPrefix(Locations(grp), req) == Some(l)
    requires fd.backend in bs && fd.backend.host == host && fd.route in fd.backend.routes
    ensures Resolution(bs, host, req).Some? && RoutePath(Resolution(bs, host, req).value.route) == l.path
  {
    AnswerIsNoShorter(bs, host, req, fd);
    AnswerIsLocated(bs, host, grp, req);
    SamePrefixLength(l.path, RoutePath(Resolution(bs, host, req).value.route), req);
  }

  /** A route chosen on a boundary is the route the resolver answers. */
  lemma BoundaryRouteIsResolved(bs: seq<Backend>, host: string, grp: seq<Backend>, req: string, l: Location)
    requires Fits(bs, host, grp) && Routed(bs, host) && !SlashDeclared(bs, host, req) && req != "" && req[0] == '/'
    requires LongestPrefix(Locations(grp), req) == Some(l)
    requires l.RouteLocation? && PathMatches(req, l.path)
    ensures Agrees(Some(l), Resolution(bs, host, req))
  {
    var fd := Declarer(bs, host, grp, l);
    AnswerHasPath(bs, host, grp, req, l, fd);
    Winner(bs, host, req);
    assert PathsDiffer(Resolution(bs, host, req).value, fd);
  }

  lemma NoLocationMeansNoRoute(bs: seq<Backend>, host: string, grp: seq<Backend>, req: string)
    requires Fits(bs, host, grp) && Routed(bs, host) && !SlashDeclared(bs, host, req) && req != "" && req[0] == '/'
    requires LongestPrefix(Locations(grp), req) == None
    ensures Resolution(bs, host, req) == None
  {
    if Resolution(bs, host, req).Some? {
      AnswerIsLocated(bs, host, grp, req);
    }
  }

  /** A route chosen off the boundary is not the one answered. */
  lemma OffBoundaryDisagrees(bs: seq<Backend>, host: string, req: string, l: Location)
    requires l.RouteLocation? && !PathMatches(req, l.path)
    ensures !Agrees(Some(l), Resolution(bs, host, req))
  {
    if Resolution(bs, host, req).Some? {
      Winner(bs, host, req);
      MatchIgnoresEmptyPath(req, Resolution(bs, host, req).value.route);
    }
  }

  /** A chosen route is an exact one or no longer than the request. */
  lemma ChosenIsNoLonger(grp: seq<Backend>, req: string)
    ensures var choice := Choose(Locations(grp), req);
            choice.Some? && choice.value.RouteLocation? ==>
              choice.value.path == "= " + req || |choice.value.path| <= |req|
  {
    ExactChoice(grp, req);
  }

  /** The resolver answers the route whose slash the request lacks, or a longer one. */
  lemma SlashIsAnswered(bs: seq<Backend>, host: string, req: string)
    requires Routed(bs, host) && SlashDeclared(bs, host, req) && req != "" && req[0] == '/'
    ensures var answer := Resolution(bs, host, req);
            answer.Some? && |RoutePath(answer.value.route)| > |req| && PathMatches(req, RoutePath(answer.value.route))
  {
    var b, rt :| b in bs && b.host == host && rt in b.routes && RoutePath(rt) == req + "/";
    LastSlash(req);
    SlashEndedMatches(req, req + "/");
    AnswerIsNoShorter(bs, host, req, Hit(b, rt));
    Winner(bs, host, req);
    MatchIgnoresEmptyPath(req, Resolution(bs, host, req).value.route);
  }

  /** A request that lacks only the slash of a route is never agreed on: the resolver answers that route,
      which is longer than any location NGINX could choose. */
  lemma SlashDisagrees(bs: seq<Backend>, host: string, grp: seq<Backend>, req: string)
    requires Routed(bs, host) && SlashDeclared(bs, host, req) && req != "" && req[0] == '/'
    ensures !Agrees(Choose(Locations(grp), req), Resolution(bs, host, req))
  {
    SlashIsAnswered(bs, host, req);
    ChosenIsNoLonger(grp, req);
    ExactRouteNeverMatches(req, req);
  }

  lemma LastSlash(req: string)
    requires OrdinaryPath(req + "/") && req != "" && req[0] == '/'
    ensures SlashEnded(req + "/")
  {
    var p := req + "/";
    assert p[|p| - 1] == '/' && p[0] == '/';
  }

  /** Over one group, the choice and the answer agree exactly on the boundary. */
  lemma GroupAgreesIff(bs: seq<Backend>, host: string, grp: seq<Backend>, req: string)
    requires Fits(bs, host, grp) && Routed(bs, host) && req != "" && req[0] == '/'
    ensures var choice := Choose(Locations(grp), req);
            Agrees(choice, Resolution(bs, host, req)) <==> OnBoundary(choice, req) && !SlashDeclared(bs, host, req)
  {
    var choice := Choose(Locations(grp), req);
    if SlashDeclared(bs, host, req) {
      SlashDisagrees(bs, host, grp, req);
    } else if choice.None? {
      NoLocationMeansNoRoute(bs, host, grp, req);
    } else if choice.value.RouteLocation? {
      if PathMatches(req, choice.value.path) {
        ExactChoice(grp, req);
        ExactRouteNeverMatches(req, req);
        BoundaryRouteIsResolved(bs, host, grp, req, choice.value);
      } else {
        OffBoundaryDisagrees(bs, host, req, choice.value);
      }
    }
  }

  lemma UnservedIsUnknown(bs: seq<Backend>, host: string, req: string)
    requires host != "" && GroupOf(bs, host) == []
    ensures Resolution(bs, host, req) == None
  {
    GroupMembers(bs, host);
    if Resolution(bs, host, req).Some? {
      Winner(bs, host, req);
    }
  }

  /** The compiler agrees with the interpreter exactly on the requests whose chosen location is on a
      boundary, and which do not lack just the slash of a route. */
  lemma CompilerAgreesIff(certs: set<string>, bs: seq<Backend>, host: string, req: string)
    requires host != "" && Routed(bs, host) && OwnName(bs, host)
    requires req != "" && req[0] == '/'
    ensures var choice := Lookup(Config(certs, bs), host, req);
            Agrees(choice, Resolution(bs, host, req)) <==> OnBoundary(choice, req) && !SlashDeclared(bs, host, req)
  {
    LookupIsHostServer(certs, bs, host, req);
    if GroupOf(bs, host) == [] {
      UnservedIsUnknown(bs, host, req);
      GroupMembers(bs, host);
      NoGroupIff(bs, host);
    } else {
      GroupHits(bs, host);
      GroupAgreesIff(bs, host, HostGroup(bs, host), req);
    }
  }

  /** Without slash-ended routes it is the boundary alone. */
  lemma BoundaryDecides(certs: set<string>, bs: seq<Backend>, host: string, req: string)
    requires host != "" && WellRouted(bs, host) && OwnName(bs, host)
    requires req != "" && req[0] == '/'
    ensures var choice := Lookup(Config(certs, bs), host, req);
            Agrees(choice, Resolution(bs, host, req)) <==> OnBoundary(choice, req)
  {
    WellRoutedIsRouted(bs, host, req);
    CompilerAgreesIff(certs, bs, host, req);
  }

  lemma NoGroupIff(bs: seq<Backend>, host: string)
    requires host != ""
    ensures GroupOf(bs, host) == [] <==> forall b | b in bs && b.host == host :: b.routes == []
  {
    GroupMembers(bs, host);
    FirstIsMember(GroupOf(bs, host));
  }

  /** Something other than a route met on a boundary claims the raw prefix `p` of the request. */
  ghost predicate Rival(bs: seq<Backend>, host: string, grp: seq<Backend>, req: string, p: string) {
    && p <= req
    && (p == ACME_PATH || p in Reserved(grp)
        || exists b, rt | b in bs && b.host == host && rt in b.routes :: RoutePath(rt) == p && !PathMatches(req, p))
  }

  /** A longer route of the host's own matches the request. */
  ghost predicate Outmatched(bs: seq<Backend>, host: string, grp: seq<Backend>, req: string, p: string) {
    exists b, rt | b in bs && b.host == host && rt in b.routes ::
      && |p| < |RoutePath(rt)| && PathMatches(req, RoutePath(rt))
      && RoutePath(rt) !in Reserved(grp)
  }

  /** A rival prefix has a location at least as long as itself. */
  lemma RivalIsLocated(bs: seq<Backend>, host: string, grp: seq<Backend>, req: string, p: string)
    requires Fits(bs, host, grp) && Rival(bs, host, grp, req, p)
    ensures var r := LongestPrefix(Locations(grp), req);
            r.Some? && |p| <= |Key(r.value)|
  {
    if p == ACME_PATH {
      assert Locations(grp)[0] == AcmeLocation;
      assert AcmeLocation in Locations(grp) && IsPrefix(AcmeLocation, req);
    } else if p in Reserved(grp) {
      LocationMembers(grp, GateLocation(p));
      assert IsPrefix(GateLocation(p), req);
    } else {
      var b, rt :| b in bs && b.host == host && rt in b.routes && RoutePath(rt) == p;
      DeclaredPrefixIsBeaten(grp, Hit(b, rt), req);
    }
  }

  /** A chosen route on a boundary outmatches every rival. */
  lemma ChosenRouteOutmatches(bs: seq<Backend>, host: string, grp: seq<Backend>, req: string, p: string)
    requires Fits(bs, host, grp) && Routed(bs, host) && Rival(bs, host, grp, req, p)
    requires req != "" && req[0] == '/'
    requires OnBoundary(LongestPrefix(Locations(grp), req), req)
    ensures Outmatched(bs, host, grp, req, p)
  {
    RivalIsLocated(bs, host, grp, req, p);
    var l := LongestPrefix(Locations(grp), req).value;
    var fd := Declarer(bs, host, grp, l);
    AcmeIsNotCanonical();
    assert l.path != ACME_PATH;
    SamePrefixLength(p, l.path, req);
  }

  /** A chosen location that is no route on a boundary is a rival. */
  lemma ChoiceIsRival(bs: seq<Backend>, host: string, grp: seq<Backend>, req: string, l: Location)
    requires Fits(bs, host, grp) && LongestPrefix(Locations(grp), req) == Some(l)
    requires !(l.RouteLocation? && PathMatches(req, l.path))
    ensures Rival(bs, host, grp, req, Key(l))
  {
    LocationMembers(grp, l);
    NotWritten(grp, l);
    if l.RouteLocation? {
      var fd := Declarer(bs, host, grp, l);
      assert fd.route in fd.backend.routes && RoutePath(fd.route) == l.path;
    }
  }

  /** No matching route is longer than the longest prefix. */
  lemma MatchIsNoLonger(bs: seq<Backend>, host: string, grp: seq<Backend>, req: string, h: Hit)
    requires Fits(bs, host, grp) && Routed(bs, host) && !SlashDeclared(bs, host, req) && req != "" && req[0] == '/'
    requires IsRouteOf(bs, host, h) && PathMatches(req, RoutePath(h.route))
    ensures LongestPrefix(Locations(grp), req).Some?
    ensures |RoutePath(h.route)| <= |Key(LongestPrefix(Locations(grp), req).value)|
  {
    assert h in AllHits(grp);
    MatchedIsPrefix(req, RoutePath(h.route));
    DeclaredPrefixIsBeaten(grp, h, req);
  }

  /** The longest prefix is never outmatched. */
  lemma ChoiceIsNotOutmatched(bs: seq<Backend>, host: string, grp: seq<Backend>, req: string, l: Location)
    requires Fits(bs, host, grp) && Routed(bs, host) && !SlashDeclared(bs, host, req) && req != "" && req[0] == '/'
    requires LongestPrefix(Locations(grp), req) == Some(l)
    ensures !Outmatched(bs, host, grp, req, Key(l))
  {
    if Outmatched(bs, host, grp, req, Key(l)) {
      var b, rt :| b in bs && b.host == host && rt in b.routes
        && |Key(l)| < |RoutePath(rt)| && PathMatches(req, RoutePath(rt)) && RoutePath(rt) !in Reserved(grp);
      MatchIsNoLonger(bs, host, grp, req, Hit(b, rt));
    }
  }

  /** When every rival is outmatched, the longest prefix is a route on a boundary. */
  lemma OutmatchingRouteIsChosen(bs: seq<Backend>, host: string, grp: seq<Backend>, req: string)
    requires Fits(bs, host, grp) && Routed(bs, host) && !SlashDeclared(bs, host, req) && req != "" && req[0] == '/'
    requires forall p | Rival(bs, host, grp, req, p) :: Outmatched(bs, host, grp, req, p)
    ensures OnBoundary(LongestPrefix(Locations(grp), req), req)
  {
    var choice := LongestPrefix(Locations(grp), req);
    if choice.Some? && !OnBoundary(choice, req) {
      ChoiceIsRival(bs, host, grp, req, choice.value);
      ChoiceIsNotOutmatched(bs, host, grp, req, choice.value);
    }
  }

  /** The host has an exact route for just this request. */
  ghost predicate ExactDeclared(bs: seq<Backend>, host: string, req: string) {
    exists b, rt | b in bs && b.host == host && rt in b.routes :: RoutePath(rt) == "= " + req
  }

  lemma ExactDeclaredIff(bs: seq<Backend>, host: string, grp: seq<Backend>, req: string)
    requires Fits(bs, host, grp)
    ensures ExactDeclared(bs, host, req) <==> "= " + req in DeclaredPaths(AllHits(grp))
  {
    if ExactDeclared(bs, host, req) {
      var b, rt :| b in bs && b.host == host && rt in b.routes && RoutePath(rt) == "= " + req;
      assert Hit(b, rt) in AllHits(grp);
    }
  }

  /** An exact location takes the request: NGINX and the resolver decide it by different routes. */
  ghost predicate TakenExactly(bs: seq<Backend>, host: string, req: string) {
    req == AUTH_PATH || ExactDeclared(bs, host, req)
  }

  /** A path is keyed by a location of the gate or of a route. */
  ghost predicate Named(bs: seq<Backend>, host: string, grp: seq<Backend>, p: string) {
    p in Reserved(grp) || exists b, rt | b in bs && b.host == host && rt in b.routes :: RoutePath(rt) == p
  }

  /** NGINX redirects the request to itself with a slash. */
  ghost predicate Redirected(bs: seq<Backend>, host: string, grp: seq<Backend>, req: string) {
    && (Named(bs, host, grp, req + "/") || Named(bs, host, grp, "= " + (req + "/")))
    && !Named(bs, host, grp, req) && req != ACME_PATH
  }

  lemma NamedIff(bs: seq<Backend>, host: string, grp: seq<Backend>, p: string)
    requires Fits(bs, host, grp)
    ensures Named(bs, host, grp, p) <==> exists l | l in Locations(grp) :: Declared(l) && l.path == p
  {
    DeclaredIffDeclares(grp, p);
    forall l | l in Locations(grp) && Declared(l) && l.path == p ensures Named(bs, host, grp, p) {
      LocationMembers(grp, l);
      if l.RouteLocation? {
        var fd := Declarer(bs, host, grp, l);
        assert fd.route in fd.backend.routes && RoutePath(fd.route) == p;
      }
    }
    if p in Reserved(grp) {
      LocationMembers(grp, GateLocation(p));
    } else if b, rt :| b in bs && b.host == host && rt in b.routes && RoutePath(rt) == p {
      assert Hit(b, rt) in AllHits(grp);
      EveryPathIsCovered(grp, p);
    }
  }

  lemma RedirectsIff(bs: seq<Backend>, host: string, grp: seq<Backend>, req: string)
    requires Fits(bs, host, grp)
    ensures Redirects(Locations(grp), req) <==> Redirected(bs, host, grp, req)
  {
    NamedIff(bs, host, grp, req);
    NamedIff(bs, host, grp, req + "/");
    NamedIff(bs, host, grp, "= " + (req + "/"));
    KeyedIff(grp, req);
  }

  /** The keys of a server's prefix locations. */
  lemma KeyedIff(grp: seq<Backend>, req: string)
    ensures (exists l | l in Locations(grp) :: !l.AuthLocation? && Key(l) == req)
       <==> req == ACME_PATH || exists l | l in Locations(grp) :: Declared(l) && l.path == req
  {
    assert Locations(grp)[0] == AcmeLocation;
    assert AcmeLocation in Locations(grp);
    forall l | l in Locations(grp) ensures !l.SlashRedirect? {
      NotWritten(grp, l);
    }
  }

  /** NGINX does not look for the longest prefix. */
  ghost predicate TakenAside(bs: seq<Backend>, host: string, grp: seq<Backend>, req: string) {
    TakenExactly(bs, host, req) || Redirected(bs, host, grp, req)
  }

  /** Otherwise the longest prefix decides. */
  lemma ChoiceIsPrefix(bs: seq<Backend>, host: string, grp: seq<Backend>, req: string)
    requires Fits(bs, host, grp)
    ensures var choice := Choose(Locations(grp), req);
            if TakenAside(bs, host, grp, req) then choice.Some? && (req != "" && req[0] == '/' ==> !OnBoundary(choice, req))
            else choice == LongestPrefix(Locations(grp), req)
  {
    ExactDeclaredIff(bs, host, grp, req);
    ExactChoice(grp, req);
    RedirectsIff(bs, host, grp, req);
    if req != "" && req[0] == '/' {
      ExactRouteNeverMatches(req, req);
    }
  }

  /** A request that NGINX takes aside, by an exact location or a redirect, is never agreed on. */
  lemma AsideNeverAgrees(certs: set<string>, bs: seq<Backend>, host: string, req: string)
    requires host != "" && Routed(bs, host) && OwnName(bs, host) && GroupOf(bs, host) != []
    requires req != "" && req[0] == '/' && TakenAside(bs, host, HostGroup(bs, host), req)
    ensures !Agrees(Lookup(Config(certs, bs), host, req), Resolution(bs, host, req))
  {
    CompilerAgreesIff(certs, bs, host, req);
    LookupIsHostServer(certs, bs, host, req);
    GroupHits(bs, host);
    ChoiceIsPrefix(bs, host, HostGroup(bs, host), req);
  }

  lemma BoundaryIff(bs: seq<Backend>, host: string, grp: seq<Backend>, req: string)
    requires Fits(bs, host, grp) && Routed(bs, host) && !SlashDeclared(bs, host, req) && req != "" && req[0] == '/'
    ensures OnBoundary(LongestPrefix(Locations(grp), req), req)
       <==> forall p | Rival(bs, host, grp, req, p) :: Outmatched(bs, host, grp, req, p)
  {
    if OnBoundary(LongestPrefix(Locations(grp), req), req) {
      forall p | Rival(bs, host, grp, req, p) ensures Outmatched(bs, host, grp, req, p) {
        ChosenRouteOutmatches(bs, host, grp, req, p);
      }
    } else if forall p | Rival(bs, host, grp, req, p) :: Outmatched(bs, host, grp, req, p) {
      OutmatchingRouteIsChosen(bs, host, grp, req);
    }
  }

  /** The choice is on a boundary, decided on the input: no exact location and no redirect takes the request,
      and every reserved or raw-only prefix of it is shorter than some route that matches it. */
  ghost predicate RoutesWin(bs: seq<Backend>, host: string, req: string) {
    var grp := HostGroup(bs, host);
    !TakenAside(bs, host, grp, req) && forall p | Rival(bs, host, grp, req, p) :: Outmatched(bs, host, grp, req, p)
  }

  lemma RoutesWinIff(bs: seq<Backend>, host: string, req: string)
    requires host != "" && Routed(bs, host) && !SlashDeclared(bs, host, req) && req != "" && req[0] == '/'
    ensures OnBoundary(Choose(Locations(HostGroup(bs, host)), req), req) <==> RoutesWin(bs, host, req)
  {
    GroupHits(bs, host);
    ChoiceIsPrefix(bs, host, HostGroup(bs, host), req);
    BoundaryIff(bs, host, HostGroup(bs, host), req);
  }

  /** Compiler and interpreter agree exactly when the host has no routes, or its routes win and the request
      does not lack just the slash of one. */
  lemma AgreementIff(certs: set<string>, bs: seq<Backend>, host: string, req: string)
    requires host != "" && Routed(bs, host) && OwnName(bs, host)
    requires req != "" && req[0] == '/'
    ensures Agrees(Lookup(Config(certs, bs), host, req), Resolution(bs, host, req))
       <==> (forall b | b in bs && b.host == host :: b.routes == [])
            || (!SlashDeclared(bs, host, req) && RoutesWin(bs, host, req))
  {
    CompilerAgreesIff(certs, bs, host, req);
    LookupIsHostServer(certs, bs, host, req);
    NoGroupIff(bs, host);
    if GroupOf(bs, host) != [] && !SlashDeclared(bs, host, req) {
      RoutesWinIff(bs, host, req);
    }
  }

  /** What a caller can check beforehand: every raw prefix of the request ends on a segment boundary. */
  ghost predicate Unambiguous(bs: seq<Backend>, host: string, req: string) {
    && !TakenAside(bs, host, HostGroup(bs, host), req) && !SlashDeclared(bs, host, req) && !(ACME_PATH <= req)
    && (forall p | p in Reserved(HostGroup(bs, host)) :: !(p <= req))
    && (forall b, rt | b in bs && b.host == host && rt in b.routes && RoutePath(rt) <= req ::
          PathMatches(req, RoutePath(rt)))
  }

  /** Requests that meet every route prefix on a boundary, outside the gate's own paths, are agreed on. */
  lemma UnambiguousRequestsAgree(certs: set<string>, bs: seq<Backend>, host: string, req: string)
    requires host != "" && Routed(bs, host) && OwnName(bs, host)
    requires req != "" && req[0] == '/' && Unambiguous(bs, host, req)
    ensures Agrees(Lookup(Config(certs, bs), host, req), Resolution(bs, host, req))
  {
    forall p ensures !Rival(bs, host, HostGroup(bs, host), req, p) {
      NoRival(bs, host, req, p);
    }
    AgreementIff(certs, bs, host, req);
  }

  lemma NoRival(bs: seq<Backend>, host: string, req: string, p: string)
    requires Unambiguous(bs, host, req)
    ensures !Rival(bs, host, HostGroup(bs, host), req, p)
  {
  }

  /** With an owner of "/" no request outside the gate's own paths falls through: it reaches a route of
      the host, on a boundary. */
  lemma RootOwnerTakesTheRest(certs: set<string>, bs: seq<Backend>, req: string, be: Backend, rt: Route)
    requires be in bs && rt in be.routes && be.host != "" && RoutePath(rt) == "/"
    requires Routed(bs, be.host) && OwnName(bs, be.host)
    requires req != "" && req[0] == '/' && Unambiguous(bs, be.host, req)
    ensures var choice := Lookup(Config(certs, bs), be.host, req);
            choice.Some? && choice.value.RouteLocation? && OnBoundary(choice, req)
  {
    UnambiguousRequestsAgree(certs, bs, be.host, req);
    CompilerAgreesIff(certs, bs, be.host, req);
    NoLongerMatch(bs, be.host, req, be, rt);
  }

  /** NGINX prefixes are raw, so "/api" also takes "/apixyz". */
  lemma ApiIsRawPrefixOnly()
    ensures "/api" <= "/apixyz" && !PathMatches("/apixyz", "/api")
  {
    assert "/apixyz"[..4] == "/api";
    assert TrimSlashes("/api") == "/api" && ("/api" + "/")[4] == '/';
  }

  /** A declared path that only prefixes the request raw keeps the choice off the boundary. */
  lemma RawPrefixIsOffBoundary(grp: seq<Backend>, sub: Hit, req: string)
    requires sub in AllHits(grp) && req != "" && req[0] == '/'
    requires forall h | h in AllHits(grp) && RoutePath(h.route) <= req :: |RoutePath(h.route)| <= |RoutePath(sub.route)|
    requires RoutePath(sub.route) <= req && !PathMatches(req, RoutePath(sub.route))
    ensures !OnBoundary(Choose(Locations(grp), req), req)
  {
    ExactChoice(grp, req);
    ExactRouteNeverMatches(req, req);
    DeclaredPrefixIsBeaten(grp, sub, req);
    LongestIsOffBoundary(grp, sub, req, LongestPrefix(Locations(grp), req).value);
  }

  lemma LongestIsOffBoundary(grp: seq<Backend>, sub: Hit, req: string, l: Location)
    requires l in Locations(grp) && Key(l) <= req && |RoutePath(sub.route)| <= |Key(l)|
    requires forall h | h in AllHits(grp) && RoutePath(h.route) <= req :: |RoutePath(h.route)| <= |RoutePath(sub.route)|
    requires RoutePath(sub.route) <= req && !PathMatches(req, RoutePath(sub.route))
    ensures l.RouteLocation? ==> !PathMatches(req, l.path)
  {
    LocationMembers(grp, l);
    if l.RouteLocation? {
      var fd := FirstDeclarer(AllHits(grp), l.path);
      assert fd in AllHits(grp) && RoutePath(fd.route) == l.path;
      SamePrefixLength(l.path, RoutePath(sub.route), req);
    }
  }

  /** A route that prefixes a request raw, and is the longest to do so, breaks the agreement on it. */
  lemma RawPrefixDisagrees(certs: set<string>, bs: seq<Backend>, sub: Hit, req: string)
    requires sub.backend in bs && sub.route in sub.backend.routes && sub.backend.host != ""
    requires Routed(bs, sub.backend.host) && OwnName(bs, sub.backend.host)
    requires forall b, rt | b in bs && b.host == sub.backend.host && rt in b.routes && RoutePath(rt) <= req ::
               |RoutePath(rt)| <= |RoutePath(sub.route)|
    requires req != "" && req[0] == '/' && RoutePath(sub.route) <= req && !PathMatches(req, RoutePath(sub.route))
    ensures !Agrees(Lookup(Config(certs, bs), sub.backend.host, req), Resolution(bs, sub.backend.host, req))
  {
    var host := sub.backend.host;
    CompilerAgreesIff(certs, bs, host, req);
    LookupIsHostServer(certs, bs, host, req);
    GroupMembers(bs, host);
    assert sub.backend in GroupOf(bs, host);
    GroupHits(bs, host);
    RawPrefixIsOffBoundary(HostGroup(bs, host), sub, req);
  }

  // ---------------------------------------------------------------- the route a location serves

  /** The location `l` is rendered from the route `h`. */
  predicate Renders(l: Location, h: Hit) {
    && l.RouteLocation? && l.path == RoutePath(h.route) && l.upstream == h.route.upstream
    && (l.gated <==> h.route.rule != RULE_PUBLIC) && l.opts == h.backend.nginx
  }

  /** The route behind a location of the server that answers to `name`: the first declarer of its path. */
  ghost function Served(bs: seq<Backend>, name: string, l: Location): Option<Hit> {
    var hits := AllHits(HostGroup(bs, Owner(bs, name)));
    if l.RouteLocation? && l.path in DeclaredPaths(hits) then Some(FirstDeclarer(hits, l.path)) else None
  }

  lemma ChosenIsWritten(locs: seq<Location>, req: string)
    ensures var choice := Choose(locs, req); choice.Some? && choice.value.RouteLocation? ==> choice.value in locs
  {
  }

  /** Whatever backends, name and request: a chosen route location serves a route of the server's owner,
      with the options, upstream and gate of that route. */
  lemma ChosenIsServed(certs: set<string>, bs: seq<Backend>, name: string, req: string)
    ensures var choice := Lookup(Config(certs, bs), name, req);
            choice.Some? && choice.value.RouteLocation? ==>
              var s := Served(bs, name, choice.value);
              s.Some? && IsRouteOf(bs, Owner(bs, name), s.value) && Renders(choice.value, s.value)
  {
    var o := Owner(bs, name);
    LookupIsHostServer(certs, bs, name, req);
    if GroupOf(bs, o) != [] {
      GroupMembers(bs, o);
      GroupHits(bs, o);
      ChosenIsWritten(Locations(HostGroup(bs, o)), req);
      var choice := Choose(Locations(HostGroup(bs, o)), req);
      if choice.Some? && choice.value.RouteLocation? {
        var fd := Declarer(bs, o, HostGroup(bs, o), choice.value);
      }
    }
  }

  /** On a boundary, the route served is the one that the resolver answers for the path matched. */
  lemma BoundaryIsAnswered(certs: set<string>, bs: seq<Backend>, host: string, req: string)
    requires host != "" && WellRouted(bs, host) && OwnName(bs, host)
    requires req != "" && req[0] == '/'
    ensures var choice := Lookup(Config(certs, bs), host, req);
            choice.Some? && OnBoundary(choice, req) ==> Served(bs, host, choice.value) == Resolution(bs, host, req)
  {
    BoundaryDecides(certs, bs, host, req);
    ChosenIsServed(certs, bs, host, req);
    var choice := Lookup(Config(certs, bs), host, req);
    if choice.Some? && OnBoundary(choice, req) {
      Winner(bs, host, req);
      assert PathsDiffer(Resolution(bs, host, req).value, Served(bs, host, choice.value).value);
    }
  }

  // ---------------------------------------------------------------- "www." aliases

  /** Some location of the host's server takes the request. */
  ghost predicate Reached(bs: seq<Backend>, host: string, grp: seq<Backend>, req: string) {
    || TakenAside(bs, host, grp, req) || ACME_PATH <= req
    || (exists p | p in Reserved(grp) :: p <= req)
    || (exists b, rt | b in bs && b.host == host && rt in b.routes :: RoutePath(rt) <= req)
  }

  lemma ReachedIff(bs: seq<Backend>, host: string, grp: seq<Backend>, req: string)
    requires Fits(bs, host, grp)
    ensures Choose(Locations(grp), req).Some? <==> Reached(bs, host, grp, req)
  {
    ChoiceIsPrefix(bs, host, grp, req);
    if LongestPrefix(Locations(grp), req).Some? {
      PrefixIsReached(bs, host, grp, req);
    } else if Reached(bs, host, grp, req) && !TakenAside(bs, host, grp, req) {
      ReachedHasPrefix(bs, host, grp, req);
    }
  }

  lemma ReachedHasPrefix(bs: seq<Backend>, host: string, grp: seq<Backend>, req: string)
    requires Fits(bs, host, grp) && Reached(bs, host, grp, req) && !TakenAside(bs, host, grp, req)
    ensures LongestPrefix(Locations(grp), req).Some?
  {
    if ACME_PATH <= req {
      assert Locations(grp)[0] == AcmeLocation;
      assert IsPrefix(AcmeLocation, req);
    } else if p :| p in Reserved(grp) && p <= req {
      LocationMembers(grp, GateLocation(p));
      assert IsPrefix(GateLocation(p), req);
    } else {
      var b, rt :| b in bs && b.host == host && rt in b.routes && RoutePath(rt) <= req;
      DeclaredPrefixIsBeaten(grp, Hit(b, rt), req);
    }
  }

  lemma PrefixIsReached(bs: seq<Backend>, host: string, grp: seq<Backend>, req: string)
    requires Fits(bs, host, grp) && LongestPrefix(Locations(grp), req).Some?
    ensures Reached(bs, host, grp, req)
  {
    var l := LongestPrefix(Locations(grp), req).value;
    LocationMembers(grp, l);
    NotWritten(grp, l);
    if l.RouteLocation? {
      var fd := Declarer(bs, host, grp, l);
      assert fd.route in fd.backend.routes && RoutePath(fd.route) <= req;
    }
  }

  /** On a "www." alias NGINX uses the host's locations while the resolver knows nothing, so they agree
      exactly on the requests that no location takes. */
  lemma AliasAgreesIff(certs: set<string>, bs: seq<Backend>, host: string, req: string)
    requires AliasOf(bs, host, Www(host)) && GroupOf(bs, Www(host)) == []
    ensures Lookup(Config(certs, bs), Www(host), req) == Choose(Locations(HostGroup(bs, host)), req)
    ensures Resolution(bs, Www(host), req) == None
    ensures Agrees(Lookup(Config(certs, bs), Www(host), req), Resolution(bs, Www(host), req)) <==>
              !Reached(bs, host, HostGroup(bs, host), req)
  {
    WwwKeepsHost(host);
    assert Owner(bs, Www(host)) == host;
    LookupIsHostServer(certs, bs, Www(host), req);
    UnservedIsUnknown(bs, Www(host), req);
    GroupMembers(bs, host);
    GroupHits(bs, host);
    ReachedIff(bs, host, HostGroup(bs, host), req);
  }

  predicate SameService(a: Hit, b: Hit) {
    && a.route.upstream == b.route.upstream && a.backend.nginx == b.backend.nginx
    && (a.route.rule == RULE_PUBLIC <==> b.route.rule == RULE_PUBLIC)
  }

  /** Two answers that a location cannot tell apart. */
  predicate SameAnswer(a: Option<Hit>, b: Option<Hit>) {
    if a.None? || b.None? then a.None? && b.None?
    else RoutePath(a.value.route) == RoutePath(b.value.route) && SameService(a.value, b.value)
  }

  lemma AnswersAgree(choice: Option<Location>, a: Option<Hit>, b: Option<Hit>)
    requires Agrees(choice, a)
    ensures Agrees(choice, b) <==> SameAnswer(a, b)
  {
  }

  /** For every name, whoever's server answers to it: NGINX and the resolver agree exactly when the routes
      of the owner of that server win the request, or it has none, and the resolver gives the same answer
      for the name as for the owner. */
  lemma NameAgreesIff(certs: set<string>, bs: seq<Backend>, name: string, req: string)
    requires name != "" && WellRouted(bs, Owner(bs, name)) && req != "" && req[0] == '/'
    ensures var o := Owner(bs, name);
            Agrees(Lookup(Config(certs, bs), name, req), Resolution(bs, name, req))
            <==> ((forall b | b in bs && b.host == o :: b.routes == []) || RoutesWin(bs, o, req))
                 && SameAnswer(Resolution(bs, o, req), Resolution(bs, name, req))
  {
    var o := Owner(bs, name);
    LookupIsHostServer(certs, bs, name, req);
    GroupMembers(bs, o);
    NoGroupIff(bs, o);
    if GroupOf(bs, o) == [] {
      UnservedIsUnknown(bs, o, req);
    } else {
      GroupHits(bs, o);
      WellRoutedIsRouted(bs, o, req);
      GroupAgreesIff(bs, o, HostGroup(bs, o), req);
      RoutesWinIff(bs, o, req);
      OwnerAgreesIff(bs, o, name, HostGroup(bs, o), req);
    }
  }

  /** Whatever the answer, a choice that agrees with it is on a boundary. */
  lemma OwnerAgreesIff(bs: seq<Backend>, o: string, name: string, grp: seq<Backend>, req: string)
    requires Agrees(Choose(Locations(grp), req), Resolution(bs, o, req)) <==> OnBoundary(Choose(Locations(grp), req), req)
    ensures var choice := Choose(Locations(grp), req);
            Agrees(choice, Resolution(bs, name, req))
            <==> OnBoundary(choice, req) && SameAnswer(Resolution(bs, o, req), Resolution(bs, name, req))
  {
    var choice := Choose(Locations(grp), req);
    if OnBoundary(choice, req) {
      AnswersAgree(choice, Resolution(bs, o, req), Resolution(bs, name, req));
    } else if choice.Some? && choice.value.RouteLocation? {
      OffBoundaryDisagrees(bs, name, req, choice.value);
    }
  }

  // ---------------------------------------------------------------- a path declared twice

  lemma {:induction false} DeclarerAppend(hits: seq<Hit>, h: Hit, p: string)
    requires p in DeclaredPaths(hits + [h])
    ensures p in DeclaredPaths(hits) ==> FirstDeclarer(hits + [h], p) == FirstDeclarer(hits, p)
    ensures p !in DeclaredPaths(hits) ==> FirstDeclarer(hits + [h], p) == h
  {
    assert (hits + [h])[..|hits|] == hits;
  }

  /** The scan answers the first declarer of the winning path, in list order. */
  lemma {:induction false} BestIsFirstDeclarer(hits: seq<Hit>, req: string)
    requires Best(hits, req).Some? && req != "" && req[0] == '/'
    requires forall h | h in hits :: Canonical(h.route.path)
    ensures var h := Best(hits, req).value;
            h.route.path in DeclaredPaths(hits) && FirstDeclarer(hits, h.route.path) == h
  {
    var n := |hits| - 1;
    assert hits == hits[..n] + [hits[n]];
    BestIsLongest(hits, req);
    BestIsLongest(hits[..n], req);
    var h := Best(hits, req).value;
    DeclarerAppend(hits[..n], hits[n], h.route.path);
    if Best(hits[..n], req) == Some(h) {
      BestIsFirstDeclarer(hits[..n], req);
    } else {
      forall q | q in hits[..n] ensures RoutePath(q.route) != h.route.path {
        assert q in hits;
      }
    }
  }

  /** The path in a chosen location on a boundary is the path of the answer, whoever declares it. */
  lemma ChosenPathIsAnswered(bs: seq<Backend>, host: string, grp: seq<Backend>, req: string, l: Location)
    requires Fits(bs, host, grp) && CanonicalRoutes(bs, host) && req != "" && req[0] == '/'
    requires LongestPrefix(Locations(grp), req) == Some(l)
    requires l.RouteLocation? && PathMatches(req, l.path)
    ensures Resolution(bs, host, req).Some? && Resolution(bs, host, req).value.route.path == l.path
  {
    LocationMembers(grp, l);
    var fd := FirstDeclarer(AllHits(grp), l.path);
    assert fd in AllHits(grp);
    NoLongerMatch(bs, host, req, fd.backend, fd.route);
    Winner(bs, host, req);
    var h := Resolution(bs, host, req).value;
    MatchIsPrefix(req, h.route.path);
    MatchIsPrefix(req, l.path);
    DeclaredPrefixIsBeaten(grp, h, req);
    SamePrefixLength(l.path, h.route.path, req);
  }

  /** With paths declared more than once, the two still agree on a boundary exactly when the first
      declarer by id (the primary first) and the first declarer in list order offer the same service. */
  lemma DuplicatesAgreeIff(certs: set<string>, bs: seq<Backend>, host: string, req: string)
    requires host != "" && CanonicalRoutes(bs, host) && OwnName(bs, host)
    requires req != "" && req[0] == '/'
    ensures var choice := Lookup(Config(certs, bs), host, req);
            choice.Some? && OnBoundary(choice, req) ==>
              var p := choice.value.path;
              && p in DeclaredPaths(AllHits(HostGroup(bs, host))) && p in DeclaredPaths(Hits(bs, host))
              && (Agrees(choice, Resolution(bs, host, req))
                  <==> SameService(FirstDeclarer(AllHits(HostGroup(bs, host)), p), FirstDeclarer(Hits(bs, host), p)))
  {
    var grp := HostGroup(bs, host);
    LookupIsHostServer(certs, bs, host, req);
    GroupHits(bs, host);
    ExactChoice(grp, req);
    ExactRouteNeverMatches(req, req);
    var choice := Lookup(Config(certs, bs), host, req);
    if choice.Some? && OnBoundary(choice, req) {
      LocationMembers(grp, choice.value);
      ChosenPathIsAnswered(bs, host, grp, req, choice.value);
      HitsMembers(bs, host);
      BestIsFirstDeclarer(Hits(bs, host), req);
    }
  }
}
