/** matrix/matrix.go: the resolver behind `/validate`. */
module Matrix {
  import opened Models
  import opened Ordering
  import opened Paths

  /** A route together with the backend that declares it. */
  datatype Hit = Hit(backend: Backend, route: Route)

  function RouteHits(be: Backend): (hits: seq<Hit>)
    ensures |hits| == |be.routes|
    ensures forall j | 0 <= j < |hits| :: hits[j] == Hit(be, be.routes[j])
  {
    seq(|be.routes|, j requires 0 <= j < |be.routes| => Hit(be, be.routes[j]))
  }

  /** Every route of every backend, in list order. */
  function AllHits(bs: seq<Backend>): seq<Hit> {
    if bs == [] then [] else AllHits(bs[..|bs| - 1]) + RouteHits(bs[|bs| - 1])
  }

  function OnHost(bs: seq<Backend>, host: string): seq<Backend> {
    if bs == [] then []
    else OnHost(bs[..|bs| - 1], host) + (if bs[|bs| - 1].host == host then [bs[|bs| - 1]] else [])
  }

  lemma {:induction false} AllHitsMembers(bs: seq<Backend>)
    ensures forall h :: h in AllHits(bs) <==> h.backend in bs && h.route in h.backend.routes
  {
    if bs != [] {
      var n := |bs| - 1;
      assert bs == bs[..n] + [bs[n]];
      AllHitsMembers(bs[..n]);
      forall h: Hit | h.backend == bs[n] && h.route in bs[n].routes ensures h in RouteHits(bs[n]) {
        var j :| 0 <= j < |bs[n].routes| && bs[n].routes[j] == h.route;
        assert RouteHits(bs[n])[j] == h;
      }
    }
  }

  lemma {:induction false} OnHostMembers(bs: seq<Backend>, host: string)
    ensures forall b :: b in OnHost(bs, host) <==> b in bs && b.host == host
  {
    if bs != [] {
      var n := |bs| - 1;
      assert bs == bs[..n] + [bs[n]];
      OnHostMembers(bs[..n], host);
    }
  }

  function Hits(bs: seq<Backend>, host: string): seq<Hit> {
    AllHits(OnHost(bs, host))
  }

  /** The first of the longest routes that match. */
  function Best(hits: seq<Hit>, req: string): Option<Hit> {
    if hits == [] then None else Better(Best(hits[..|hits| - 1], req), hits[|hits| - 1], req)
  }

  /** One comparison of the scan: a strictly longer match replaces the best so far. */
  function Better(best: Option<Hit>, h: Hit, req: string): Option<Hit> {
    if PathMatches(req, h.route.path) && (best.None? || |h.route.path| > |best.value.route.path|)
    then Some(h) else best
  }

  /** What the resolver answers over the backend list `bs`. */
  function Resolution(bs: seq<Backend>, host: string, req: string): Option<Hit> {
    Best(Hits(bs, host), req)
  }

  lemma {:induction false} HitsMembers(bs: seq<Backend>, host: string)
    ensures forall h :: h in Hits(bs, host) <==>
              h.backend in bs && h.backend.host == host && h.route in h.backend.routes
  {
    OnHostMembers(bs, host);
    AllHitsMembers(OnHost(bs, host));
  }

  lemma AppendHit(hits: seq<Hit>, h: Hit, req: string)
    ensures Best(hits + [h], req) == Better(Best(hits, req), h, req)
  {
    assert (hits + [h])[..|hits|] == hits;
  }

  lemma AppendBackend(bs: seq<Backend>, be: Backend, host: string)
    ensures AllHits(bs + [be]) == AllHits(bs) + RouteHits(be)
    ensures OnHost(bs + [be], host) == OnHost(bs, host) + (if be.host == host then [be] else [])
  {
    assert (bs + [be])[..|bs|] == bs;
  }

  lemma RoutesScanStep(done: seq<Hit>, be: Backend, j: nat, req: string)
    requires j < |be.routes|
    ensures Best(done + RouteHits(be)[..j + 1], req)
         == Better(Best(done + RouteHits(be)[..j], req), Hit(be, be.routes[j]), req)
  {
    assert done + RouteHits(be)[..j + 1] == done + RouteHits(be)[..j] + [Hit(be, be.routes[j])];
    AppendHit(done + RouteHits(be)[..j], Hit(be, be.routes[j]), req);
  }

  lemma HostScanStep(bs: seq<Backend>, i: nat, host: string)
    requires i < |bs|
    ensures bs[i].host == host ==> Hits(bs[..i + 1], host) == Hits(bs[..i], host) + RouteHits(bs[i])
    ensures bs[i].host != host ==> Hits(bs[..i + 1], host) == Hits(bs[..i], host)
    ensures (OnHost(bs[..i + 1], host) != []) == (OnHost(bs[..i], host) != [] || bs[i].host == host)
  {
    assert bs[..i + 1] == bs[..i] + [bs[i]];
    AppendBackend(bs[..i], bs[i], host);
    AppendBackend(OnHost(bs[..i], host), bs[i], host);
    assert OnHost(bs[..i], host) + [] == OnHost(bs[..i], host);
  }

  class Resolver {
    var backends: seq<Backend>

    constructor (bs: seq<Backend>)
      ensures backends == bs
    {
      backends := bs;
    }

    /** Replaces the backend set. */
    method Set(bs: seq<Backend>)
      modifies this
      ensures backends == bs
    {
      backends := bs;
    }

    /** Scans every backend of the host and keeps the longest matching path. */
    method Resolve(host: string, req: string) returns (be: Backend, rt: Route, ok: bool)
      ensures ok == Resolution(backends, host, req).Some?
      ensures ok ==> Resolution(backends, host, req) == Some(Hit(be, rt))
      ensures !ok ==> rt == NO_ROUTE
      ensures !ok ==> be == if OnHost(backends, host) != [] then NO_BACKEND.(host := host) else NO_BACKEND
    {
      var best := -1;
      be, rt := NO_BACKEND, NO_ROUTE;
      var hostFound := false;
      for i := 0 to |backends|
        invariant hostFound == (OnHost(backends[..i], host) != [])
        invariant Tracks(best, be, rt, Best(Hits(backends[..i], host), req))
      {
        HostScanStep(backends, i, host);
        var cand := backends[i];
        if cand.host != host {
          continue;
        }
        hostFound := true;
        ghost var done := Hits(backends[..i], host);
        assert done + RouteHits(cand)[..0] == done;
        for j := 0 to |cand.routes|
          invariant Tracks(best, be, rt, Best(done + RouteHits(cand)[..j], req))
        {
          RoutesScanStep(done, cand, j, req);
          if PathMatches(req, cand.routes[j].path) && |cand.routes[j].path| > best {
            best := |cand.routes[j].path|;
            rt := cand.routes[j];
            be := cand;
          }
        }
        assert RouteHits(cand)[..|cand.routes|] == RouteHits(cand);
      }
      assert backends[..|backends|] == backends;
      if best >= 0 {
        return be, rt, true;
      }
      if hostFound {
        return NO_BACKEND.(host := host), NO_ROUTE, false;
      }
      return NO_BACKEND, NO_ROUTE, false;
    }
  }

  /** The scan variables of `Resolve` represent `r`. */
  ghost predicate Tracks(best: int, be: Backend, rt: Route, r: Option<Hit>) {
    if r.None? then best == -1 else r == Some(Hit(be, rt)) && best == |rt.path|
  }

  /** The answer is a match of maximal length, and there is none exactly when nothing matches. */
  lemma {:induction false} BestIsLongest(hits: seq<Hit>, req: string)
    ensures Best(hits, req).None? <==> forall h | h in hits :: !PathMatches(req, h.route.path)
    ensures Best(hits, req).Some? ==>
              var r := Best(hits, req).value;
              && r in hits && PathMatches(req, r.route.path)
              && forall h | h in hits && PathMatches(req, h.route.path) :: |h.route.path| <= |r.route.path|
  {
    if hits != [] {
      var n := |hits| - 1;
      BestIsLongest(hits[..n], req);
      assert hits == hits[..n] + [hits[n]];
    }
  }

  function Longer(l: Option<Hit>, r: Option<Hit>): Option<Hit> {
    if r.None? || (l.Some? && |r.value.route.path| <= |l.value.route.path|) then l else r
  }

  lemma {:induction false} BestMerges(l: seq<Hit>, r: seq<Hit>, req: string)
    ensures Best(l + r, req) == Longer(Best(l, req), Best(r, req))
  {
    if r == [] {
      assert l + r == l;
    } else {
      var n := |r| - 1;
      BestMerges(l, r[..n], req);
      SnocConcat(l, r);
      AppendHit(l + r[..n], r[n], req);
    }
  }

  /** The answer is the answer of one single backend. */
  lemma {:induction false} BestComesFromOneBackend(bs: seq<Backend>, req: string) returns (i: nat)
    requires Best(AllHits(bs), req).Some?
    ensures i < |bs| && Best(AllHits(bs), req) == Best(RouteHits(bs[i]), req)
  {
    var n := |bs| - 1;
    BestMerges(AllHits(bs[..n]), RouteHits(bs[n]), req);
    if Best(AllHits(bs), req) == Best(RouteHits(bs[n]), req) {
      i := n;
    } else {
      i := BestComesFromOneBackend(bs[..n], req);
    }
  }

  /** Every route on `host` is a canonical prefix route. */
  ghost predicate CanonicalRoutes(bs: seq<Backend>, host: string) {
    forall b, rt | b in bs && b.host == host && rt in b.routes :: Canonical(rt.path)
  }

  /** No path of `host` is declared by two different backends. */
  ghost predicate NoSharedPath(bs: seq<Backend>, host: string) {
    forall a, b, r, q | a in bs && b in bs && a.host == b.host == host
      && r in a.routes && q in b.routes && r.path == q.path :: a == b
  }

  /** `Resolve` returns the top of the chain of routes that match, over all backends of the host. */
  lemma ResolutionIsTopOfChain(bs: seq<Backend>, host: string, req: string)
    requires CanonicalRoutes(bs, host) && req != "" && req[0] == '/'
    ensures Resolution(bs, host, req).None? <==>
              forall b, rt | b in bs && b.host == host && rt in b.routes :: !PathMatches(req, rt.path)
    ensures Resolution(bs, host, req).Some? ==>
              var h := Resolution(bs, host, req).value;
              && h.backend in bs && h.backend.host == host && h.route in h.backend.routes
              && PathMatches(req, h.route.path)
              && forall b, rt | b in bs && b.host == host && rt in b.routes && PathMatches(req, rt.path) ::
                   PathMatches(h.route.path, rt.path)
  {
    if Resolution(bs, host, req).Some? {
      Winner(bs, host, req);
    }
    forall b, rt | b in bs && b.host == host && rt in b.routes && PathMatches(req, rt.path)
      ensures Resolution(bs, host, req).Some? && PathMatches(Resolution(bs, host, req).value.route.path, rt.path)
    {
      NoLongerMatch(bs, host, req, b, rt);
      var h := Resolution(bs, host, req).value;
      MatchesAreNested(rt.path, h.route.path, req);
    }
  }

  lemma SameBackends(bs: seq<Backend>, cs: seq<Backend>)
    requires multiset(bs) == multiset(cs)
    ensures forall b :: b in bs <==> b in cs
  {
    forall b ensures b in bs <==> b in cs {
      assert b in bs <==> b in multiset(bs);
      assert b in cs <==> b in multiset(cs);
    }
  }

  /** The winner is a route of the host and the winner of its own backend. */
  lemma Winner(bs: seq<Backend>, host: string, req: string)
    requires Resolution(bs, host, req).Some?
    ensures var h := Resolution(bs, host, req).value;
            && h.backend in bs && h.backend.host == host && h.route in h.backend.routes
            && PathMatches(req, h.route.path)
            && Best(RouteHits(h.backend), req) == Some(h)
  {
    var i := BestComesFromOneBackend(OnHost(bs, host), req);
    var be := OnHost(bs, host)[i];
    BestIsLongest(RouteHits(be), req);
    OnHostMembers(bs, host);
    var h := Resolution(bs, host, req).value;
    assert h in RouteHits(be);
  }

  lemma NoLongerMatch(bs: seq<Backend>, host: string, req: string, be: Backend, rt: Route)
    requires be in bs && be.host == host && rt in be.routes && PathMatches(req, rt.path)
    ensures Resolution(bs, host, req).Some?
    ensures |rt.path| <= |Resolution(bs, host, req).value.route.path|
  {
    HitsMembers(bs, host);
    BestIsLongest(Hits(bs, host), req);
    assert Hit(be, rt) in Hits(bs, host);
  }

  /** With the same backends in another order, the answer is the same if no path is shared. */
  lemma OrderIrrelevant(bs: seq<Backend>, cs: seq<Backend>, host: string, req: string)
    requires CanonicalRoutes(bs, host) && NoSharedPath(bs, host)
    requires forall b :: b in bs <==> b in cs
    requires req != "" && req[0] == '/'
    ensures Resolution(bs, host, req) == Resolution(cs, host, req)
  {
    var r, s := Resolution(bs, host, req), Resolution(cs, host, req);
    if r.Some? {
      Winner(bs, host, req);
      NoLongerMatch(cs, host, req, r.value.backend, r.value.route);
    }
    if s.Some? {
      Winner(cs, host, req);
      NoLongerMatch(bs, host, req, s.value.backend, s.value.route);
      MatchesAreNested(r.value.route.path, s.value.route.path, req);
      assert r.value.backend == s.value.backend;
    }
  }

  /** The first declarer of a path answers requests for exactly that path. */
  lemma FrontBackendWins(a: Backend, rest: seq<Backend>, host: string, rt: Route)
    requires a.host == host && rt in a.routes
    requires CanonicalRoutes([a] + rest, host)
    ensures Resolution([a] + rest, host, rt.path).Some?
    ensures Resolution([a] + rest, host, rt.path).value.backend == a
  {
    var req := rt.path;
    SelfMatch(req);
    FrontHits(a, rest, host);
    BestMerges(RouteHits(a), Hits(rest, host), req);
    NoLongerMatch([a], host, req, a, rt);
    FrontHits(a, [], host);
    assert Hits([a], host) == RouteHits(a);
    Winner([a], host, req);
    if Resolution(rest, host, req).Some? {
      Winner(rest, host, req);
      var h := Resolution(rest, host, req).value;
      assert h.backend in [a] + rest;
      MatchIsPrefix(req, h.route.path);
    }
  }

  lemma {:induction false} FrontHits(a: Backend, rest: seq<Backend>, host: string)
    requires a.host == host
    ensures Hits([a] + rest, host) == RouteHits(a) + Hits(rest, host)
    ensures OnHost([a] + rest, host) == [a] + OnHost(rest, host)
  {
    if rest == [] {
      assert [a] + rest == [] + [a];
      AppendBackend([], a, host);
      assert [a] == [] + [a];
    } else {
      var n := |rest| - 1;
      FrontHits(a, rest[..n], host);
      assert rest == rest[..n] + [rest[n]] && [a] + rest == [a] + rest[..n] + [rest[n]];
      AppendBackend([a] + rest[..n], rest[n], host);
      AppendBackend(rest[..n], rest[n], host);
      var more := if rest[n].host == host then [rest[n]] else [];
      assert [a] + (OnHost(rest[..n], host) + more) == [a] + OnHost(rest[..n], host) + more;
    }
    FrontAllHits(a, OnHost(rest, host));
  }

  lemma {:induction false} AllHitsConcat(a: seq<Backend>, b: seq<Backend>)
    ensures AllHits(a + b) == AllHits(a) + AllHits(b)
  {
    if b == [] {
      assert a + b == a;
    } else {
      var n := |b| - 1;
      AllHitsConcat(a, b[..n]);
      SnocConcat(a, b);
      AppendBackend(a + b[..n], b[n], "");
      ConcatAssociates(AllHits(a), AllHits(b[..n]), RouteHits(b[n]));
    }
  }

  lemma FrontAllHits(a: Backend, rest: seq<Backend>)
    ensures AllHits([a] + rest) == RouteHits(a) + AllHits(rest)
  {
    AllHitsConcat([a], rest);
    assert [a][..0] == [];
    assert AllHits([a]) == [] + RouteHits(a);
  }

  /** The answer to every request is the same under every reordering of the backends. */
  ghost predicate OrderFree(bs: seq<Backend>, host: string) {
    forall cs, req | multiset(cs) == multiset(bs) && req != "" && req[0] == '/' ::
      Resolution(cs, host, req) == Resolution(bs, host, req)
  }

  /** The list order of the backends is irrelevant exactly when no two backends share a path. */
  lemma OrderFreeIff(bs: seq<Backend>, host: string)
    requires CanonicalRoutes(bs, host)
    ensures OrderFree(bs, host) <==> NoSharedPath(bs, host)
  {
    if NoSharedPath(bs, host) {
      forall cs, req | multiset(cs) == multiset(bs) && req != "" && req[0] == '/'
        ensures Resolution(cs, host, req) == Resolution(bs, host, req)
      {
        SameBackends(bs, cs);
        OrderIrrelevant(bs, cs, host, req);
      }
    }
    forall a, b, r, q | a in bs && b in bs && a.host == b.host == host
      && r in a.routes && q in b.routes && r.path == q.path && a != b
      ensures !OrderFree(bs, host)
    {
      SharedPathDependsOnOrder(bs, host, a, b, r, q);
    }
  }

  lemma SharedPathDependsOnOrder(bs: seq<Backend>, host: string, a: Backend, b: Backend, r: Route, q: Route)
    requires CanonicalRoutes(bs, host)
    requires a in bs && b in bs && a.host == b.host == host && a != b
    requires r in a.routes && q in b.routes && r.path == q.path
    ensures !OrderFree(bs, host)
  {
    var restA := BringToFront(bs, a);
    var restB := BringToFront(bs, b);
    SameBackends(bs, [a] + restA);
    SameBackends(bs, [b] + restB);
    FrontBackendWins(a, restA, host, r);
    FrontBackendWins(b, restB, host, q);
  }

  lemma BringToFront(bs: seq<Backend>, a: Backend) returns (rest: seq<Backend>)
    requires a in bs
    ensures multiset([a] + rest) == multiset(bs)
  {
    var i :| 0 <= i < |bs| && bs[i] == a;
    rest := bs[..i] + bs[i + 1..];
    WithoutAt(bs, i);
  }

  /** Backends of other hosts never matter. */
  lemma {:induction false} OtherHostsAreIgnored(bs: seq<Backend>, host: string, req: string)
    ensures Resolution(bs, host, req) == Resolution(OnHost(bs, host), host, req)
  {
    OnHostTwice(bs, host);
  }

  lemma {:induction false} OnHostTwice(bs: seq<Backend>, host: string)
    ensures OnHost(OnHost(bs, host), host) == OnHost(bs, host)
  {
    if bs != [] {
      var n := |bs| - 1;
      OnHostTwice(bs[..n], host);
      AppendBackend(OnHost(bs[..n], host), bs[n], host);
      assert OnHost(bs[..n], host) + [] == OnHost(bs[..n], host);
    }
  }

  /** `Authorized`: membership in the user's grant list. */
  predicate Authorized(u: User, grant: string) {
    grant in u.backends
  }

  /** A stored exact route never matches a request path. */
  lemma ExactRouteNeverMatches(p: string, req: string)
    requires req != "" && req[0] == '/'
    ensures !PathMatches(req, "= " + p)
  {
    ExactIsNoAncestor(req, "= " + p);
  }
}
