/** Request paths and route prefixes: segment matching against NGINX's raw prefixes. */
module Paths {

  /** `strings.TrimRight(p, "/")`. */
  function TrimSlashes(p: string): (t: string)
    ensures t <= p
    ensures t == "" || t[|t| - 1] != '/'
    ensures forall i | |t| <= i < |p| :: p[i] == '/'
  {
    if p != "" && p[|p| - 1] == '/' then TrimSlashes(p[..|p| - 1]) else p
  }

  /** `req` lies under `anc`: it is `anc` itself or continues it with a new segment. */
  predicate Under(req: string, anc: string) {
    req == anc || anc + "/" <= req
  }

  /** matrix.pathMatches. */
  predicate PathMatches(req: string, route: string) {
    route == "" || route == "/" || Under(req, TrimSlashes(route))
  }

  /** Starts with "/" and has no trailing "/" unless it is exactly "/". */
  predicate Canonical(p: string) {
    p != "" && p[0] == '/' && (p == "/" || p[|p| - 1] != '/')
  }

  /** A canonical path with one slash more. */
  predicate SlashEnded(p: string) {
    |p| > 2 && p[0] == '/' && p[|p| - 1] == '/' && p[|p| - 2] != '/'
  }

  lemma SlashEndedParts(p: string)
    requires SlashEnded(p)
    ensures var c := p[..|p| - 1]; p == c + "/" && Canonical(c) && TrimSlashes(p) == c
  {
    var c := p[..|p| - 1];
    assert c[|c| - 1] != '/' && TrimSlashes(p) == TrimSlashes(c);
  }

  lemma SameBeforeSlash(a: string, b: string)
    ensures a + "/" == b + "/" <==> a == b
  {
    assert (a + "/")[..|a + "/"| - 1] == a && (b + "/")[..|b + "/"| - 1] == b;
  }

  /** What a slash-ended route matches: what it prefixes raw, and itself without the slash. */
  lemma SlashEndedMatches(req: string, p: string)
    requires SlashEnded(p)
    ensures PathMatches(req, p) <==> p <= req || p == req + "/"
  {
    SlashEndedParts(p);
    SameBeforeSlash(req, p[..|p| - 1]);
  }

  /** A path behind the marker of an exact match. */
  predicate ExactPath(p: string) {
    "= " <= p
  }

  /** An exact path is no ancestor of a request path. */
  lemma ExactIsNoAncestor(req: string, p: string)
    requires ExactPath(p) && (req == "" || req[0] == '/')
    ensures !Under(req, TrimSlashes(p))
  {
    var t := TrimSlashes(p);
    assert p[0] == '=' && p[1] == ' ';
    assert |t| >= 2 && t[0] == '=' && (t + "/")[0] == '=';
  }

  lemma SamePrefixLength(a: string, b: string, req: string)
    requires a <= req && b <= req && |a| <= |b|
    ensures a <= b
    ensures |a| == |b| ==> a == b
  {
    assert a == req[..|a|] && b == req[..|b|];
  }

  /** Segment matching refines raw prefix matching. */
  lemma MatchIsPrefix(req: string, route: string)
    requires Canonical(route) && PathMatches(req, route)
    requires req != "" && req[0] == '/'
    ensures route <= req
  {
    if route != "/" && req != route {
      assert route < route + "/" <= req;
    }
  }

  /** Over canonical routes a match is decided by position: the root matches everything, and another route what
      begins with it and then ends or goes on with a slash. */
  lemma SegmentMatchIff(req: string, route: string)
    requires Canonical(route)
    ensures PathMatches(req, route)
       <==> (route == "/" || (route <= req && (|req| == |route| || req[|route|] == '/')))
  {
    if route != "/" {
      assert TrimSlashes(route) == route;
      if route <= req && |req| > |route| && req[|route|] == '/' {
        assert req[..|route| + 1] == route + "/";
      }
    }
  }

  /** A canonical path matches itself as a request. */
  lemma SelfMatch(p: string)
    requires Canonical(p)
    ensures PathMatches(p, p)
  {
  }

  /** The routes that match one request are nested in each other. */
  lemma MatchesAreNested(a: string, b: string, req: string)
    requires Canonical(a) && Canonical(b)
    requires PathMatches(req, a) && PathMatches(req, b) && |a| <= |b|
    requires req != "" && req[0] == '/'
    ensures PathMatches(b, a)
    ensures |a| == |b| ==> a == b
  {
    MatchIsPrefix(req, a);
    MatchIsPrefix(req, b);
    SamePrefixLength(a, b, req);
    if a != "/" && |a| < |b| {
      assert a + "/" <= req;
      SamePrefixLength(a + "/", b, req);
    }
  }

  /** Two segment-ancestors of one path are comparable. */
  lemma AncestorsAreNested(x: string, a: string, b: string)
    requires Under(x, a) && Under(x, b) && |a| <= |b|
    ensures Under(b, a)
    ensures |a| == |b| ==> a == b
  {
    assert a <= x && b <= x;
    SamePrefixLength(a, b, x);
    if |a| < |b| {
      assert a + "/" <= x;
      SamePrefixLength(a + "/", b, x);
    }
  }
}
