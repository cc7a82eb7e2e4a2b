/** What the generated configuration guarantees, for every backend list. */
module Generation {
  import opened Models
  import opened Ordering
  import opened Matrix
  import opened Proxy

  // ---------------------------------------------------------------- a function of the backend set

  predicate Servable(be: Backend) {
    be.host != "" && be.routes != []
  }

  /** What generation reads of a backend; the rest is blanked. */
  function Bare(be: Backend): Backend {
    Backend(be.id, "", be.host, be.www, [], be.routes, Health("", 0), be.nginx, None, be.waf)
  }

  /** Servable backends that share host and id are rendered alike. */
  ghost predicate TiesAreAlike(bs: seq<Backend>) {
    forall a, b | a in bs && b in bs && Servable(a) && Servable(b) && a.host == b.host && a.id == b.id ::
      Bare(a) == Bare(b)
  }

  lemma ByIdIsPreorder()
    ensures TotalPreorder(ById)
  {
    LeqIsPreorder();
    forall x, y ensures ById(x, y) || ById(y, x) { LeqTotal(x.id, y.id); }
    forall x, y, z | ById(x, y) && ById(y, z) ensures ById(x, z) { LeqTransitive(x.id, y.id, z.id); }
  }

  lemma LastCounts(s: seq<Backend>, b: Backend)
    requires s != []
    ensures multiset(s)[b] == multiset(s[..|s| - 1])[b] + (if s[|s| - 1] == b then 1 else 0)
  {
    assert s == s[..|s| - 1] + [s[|s| - 1]];
  }

  lemma {:induction false} GroupCounts(bs: seq<Backend>, host: string, b: Backend)
    ensures multiset(GroupOf(bs, host))[b]
         == if b.host == host && host != "" && b.routes != [] then multiset(bs)[b] else 0
  {
    if bs != [] {
      var n := |bs| - 1;
      GroupCounts(bs[..n], host, b);
      LastCounts(bs, b);
      LastCounts(GroupOf(bs[..n], host) + [bs[n]], b);
    }
  }

  lemma GroupPermutes(bs: seq<Backend>, cs: seq<Backend>, host: string)
    requires multiset(bs) == multiset(cs)
    ensures multiset(GroupOf(bs, host)) == multiset(GroupOf(cs, host))
    ensures GroupOf(bs, host) != [] <==> GroupOf(cs, host) != []
  {
    forall b ensures multiset(GroupOf(bs, host))[b] == multiset(GroupOf(cs, host))[b] {
      GroupCounts(bs, host, b);
      GroupCounts(cs, host, b);
    }
    SameElements(GroupOf(bs, host), GroupOf(cs, host));
  }

  function Bares(s: seq<Backend>): (r: seq<Backend>)
    ensures |r| == |s| && forall i | 0 <= i < |s| :: r[i] == Bare(s[i])
  {
    if s == [] then [] else [Bare(s[0])] + Bares(s[1..])
  }

  lemma BaresConcat(a: seq<Backend>, b: seq<Backend>)
    ensures Bares(a + b) == Bares(a) + Bares(b)
  {
  }

  lemma BaresWithout(a: seq<Backend>, x: Backend, b: seq<Backend>)
    ensures multiset(Bares(a + [x] + b)) == multiset{Bare(x)} + multiset(Bares(a + b))
  {
    BaresConcat(a + [x], b);
    BaresConcat(a, [x]);
    BaresConcat(a, b);
    assert Bares([x]) == [Bare(x)];
  }

  lemma RestPermutes(s: seq<Backend>, t: seq<Backend>, k: nat)
    requires s != [] && multiset(s) == multiset(t) && k < |t| && t[k] == s[0]
    ensures multiset(s[1..]) == multiset(t[..k] + t[k + 1..])
  {
    TailMultiset(s);
    WithoutAt(t, k);
  }

  lemma TakeFrom(s: seq<Backend>, t: seq<Backend>) returns (front: seq<Backend>, back: seq<Backend>)
    requires s != [] && multiset(s) == multiset(t)
    ensures t == front + [s[0]] + back && multiset(s[1..]) == multiset(front + back)
  {
    SameElements(s, t);
    assert s[0] in s && s[0] in t;
    var k :| 0 <= k < |t| && t[k] == s[0];
    front, back := t[..k], t[k + 1..];
    RestPermutes(s, t, k);
  }

  lemma {:induction false} BaresPermute(s: seq<Backend>, t: seq<Backend>)
    requires multiset(s) == multiset(t)
    ensures multiset(Bares(s)) == multiset(Bares(t))
  {
    if s == [] {
      SameElements(s, t);
    } else {
      var front, back := TakeFrom(s, t);
      BaresPermute(s[1..], front + back);
      BaresWithout(front, s[0], back);
    }
  }

  lemma {:induction false} InsertBare(x: Backend, s: seq<Backend>)
    ensures Insert(ById, Bare(x), Bares(s)) == Bares(Insert(ById, x, s))
  {
    if s != [] {
      assert Bares(s)[1..] == Bares(s[1..]) && ById(Bare(x), Bares(s)[0]) == ById(x, s[0]);
      if !ById(x, s[0]) {
        InsertBare(x, s[1..]);
      }
    }
  }

  lemma {:induction false} SortBares(s: seq<Backend>)
    ensures Sort(ById, Bares(s)) == Bares(Sort(ById, s))
  {
    if s != [] {
      SortBares(s[1..]);
      InsertBare(s[0], Sort(ById, s[1..]));
      assert Bares(s)[1..] == Bares(s[1..]);
    }
  }

  lemma {:induction false} FirstOwnerOfBares(s: seq<Backend>)
    ensures FirstOwner(Bares(s)) == FirstOwner(s)
  {
    if s != [] {
      assert Bares(s)[1..] == Bares(s[1..]) && OwnsRoot(Bares(s)[0]) == OwnsRoot(s[0]);
      FirstOwnerOfBares(s[1..]);
    }
  }

  lemma BaresUpdate(s: seq<Backend>, i: nat, x: Backend)
    requires i < |s|
    ensures Bares(s[i := x]) == Bares(s)[i := Bare(x)]
  {
  }

  lemma PrimaryOfBares(s: seq<Backend>)
    ensures PrimaryFirst(Bares(s)) == Bares(PrimaryFirst(s))
  {
    FirstOwnerOfBares(s);
    var i := FirstOwner(s);
    if i < |s| {
      BaresUpdate(s, 0, s[i]);
      BaresUpdate(s[0 := s[i]], i, s[0]);
    }
  }

  /** Blanking the fields that are not rendered commutes with ordering the group. */
  lemma OrderedBares(grp: seq<Backend>)
    ensures Ordered(Bares(grp)) == Bares(Ordered(grp))
  {
    SortBares(grp);
    PrimaryOfBares(Sort(ById, grp));
  }

  lemma SameDeclarations(grp: seq<Backend>, path: string)
    ensures DeclaresPath(Bares(grp), path) == DeclaresPath(grp, path)
    ensures UsesAuth(Bares(grp)) == UsesAuth(grp)
  {
    forall be | be in grp ensures Bare(be) in Bares(grp) {
      var i :| 0 <= i < |grp| && grp[i] == be;
      assert Bares(grp)[i] == Bare(be);
    }
    forall be | be in Bares(grp) ensures exists x :: x in grp && be.routes == x.routes {
      var i :| 0 <= i < |grp| && Bares(grp)[i] == be;
      assert grp[i] in grp;
    }
  }

  function BareHits(hits: seq<Hit>): (r: seq<Hit>)
    ensures |r| == |hits|
    ensures forall i | 0 <= i < |hits| :: r[i] == Hit(Bare(hits[i].backend), hits[i].route)
  {
    seq(|hits|, i requires 0 <= i < |hits| => Hit(Bare(hits[i].backend), hits[i].route))
  }

  lemma BareHitsConcat(a: seq<Hit>, b: seq<Hit>)
    ensures BareHits(a + b) == BareHits(a) + BareHits(b)
  {
  }

  lemma RouteHitsOfBare(be: Backend)
    ensures RouteHits(Bare(be)) == BareHits(RouteHits(be))
  {
  }

  lemma BaresInit(grp: seq<Backend>)
    requires grp != []
    ensures Bares(grp)[..|grp| - 1] == Bares(grp[..|grp| - 1]) && Bares(grp)[|grp| - 1] == Bare(grp[|grp| - 1])
  {
    var n := |grp| - 1;
    forall i | 0 <= i < n ensures Bares(grp)[..n][i] == Bares(grp[..n])[i] {
      assert grp[..n][i] == grp[i];
    }
  }

  lemma {:induction false} AllHitsOfBares(grp: seq<Backend>)
    ensures AllHits(Bares(grp)) == BareHits(AllHits(grp))
  {
    if grp != [] {
      var n := |grp| - 1;
      BaresInit(grp);
      AllHitsOfBares(grp[..n]);
      RouteHitsOfBare(grp[n]);
      BareHitsConcat(AllHits(grp[..n]), RouteHits(grp[n]));
    }
  }

  lemma BareHitsInit(hits: seq<Hit>)
    requires hits != []
    ensures var n := |hits| - 1;
            BareHits(hits) == BareHits(hits[..n]) + [Hit(Bare(hits[n].backend), hits[n].route)]
  {
  }

  lemma SameNextLocation(gate: set<string>, hits: seq<Hit>, bares: seq<Hit>, h: Hit)
    requires RouteLocations(gate, bares) == RouteLocations(gate, hits)
    requires DeclaredPaths(bares) == DeclaredPaths(hits)
    ensures RouteLocations(gate, bares + [Hit(Bare(h.backend), h.route)]) == RouteLocations(gate, hits + [h])
    ensures DeclaredPaths(bares + [Hit(Bare(h.backend), h.route)]) == DeclaredPaths(hits + [h])
  {
    AppendRoute(gate, hits, h);
    AppendRoute(gate, bares, Hit(Bare(h.backend), h.route));
  }

  lemma {:induction false} LocationsOfBareHits(gate: set<string>, hits: seq<Hit>)
    ensures RouteLocations(gate, BareHits(hits)) == RouteLocations(gate, hits)
    ensures DeclaredPaths(BareHits(hits)) == DeclaredPaths(hits)
  {
    if hits != [] {
      var n := |hits| - 1;
      LocationsOfBareHits(gate, hits[..n]);
      BareHitsInit(hits);
      Snoc(hits);
      SameNextLocation(gate, hits[..n], BareHits(hits[..n]), hits[n]);
    }
  }

  /** A server shows nothing of its backends but what `Bare` keeps. */
  lemma ServerOfBares(certs: set<string>, grp: seq<Backend>)
    requires grp != []
    ensures ServerOf(certs, Bares(grp)) == ServerOf(certs, grp)
  {
    SameDeclarations(grp, ADMIN_PATH);
    AllHitsOfBares(grp);
    assert Reserved(Bares(grp)) == Reserved(grp);
    LocationsOfBareHits(Elems(Reserved(grp)), AllHits(grp));
  }

  lemma TiedBaresAgree(bs: seq<Backend>, host: string, i: nat, j: nat)
    requires TiesAreAlike(bs) && i < |GroupOf(bs, host)| && j < |GroupOf(bs, host)|
    requires GroupOf(bs, host)[i].id == GroupOf(bs, host)[j].id
    ensures Bare(GroupOf(bs, host)[i]) == Bare(GroupOf(bs, host)[j])
  {
    GroupMembers(bs, host);
    assert GroupOf(bs, host)[i] in GroupOf(bs, host) && GroupOf(bs, host)[j] in GroupOf(bs, host);
  }

  lemma TiedInGroup(bs: seq<Backend>, host: string, x: Backend, y: Backend)
    requires TiesAreAlike(bs) && x in Bares(GroupOf(bs, host)) && y in Bares(GroupOf(bs, host))
    requires ById(x, y) && ById(y, x)
    ensures x == y
  {
    var s := Bares(GroupOf(bs, host));
    LeqAntisymmetric(x.id, y.id);
    var i :| 0 <= i < |s| && s[i] == x;
    var j :| 0 <= j < |s| && s[j] == y;
    TiedBaresAgree(bs, host, i, j);
  }

  lemma SortedGroupForgetsOrder(bs: seq<Backend>, cs: seq<Backend>, host: string)
    requires multiset(bs) == multiset(cs) && TiesAreAlike(bs)
    ensures Sort(ById, Bares(GroupOf(bs, host))) == Sort(ById, Bares(GroupOf(cs, host)))
  {
    var s, t := Bares(GroupOf(bs, host)), Bares(GroupOf(cs, host));
    GroupPermutes(bs, cs, host);
    BaresPermute(GroupOf(bs, host), GroupOf(cs, host));
    ByIdIsPreorder();
    forall x, y | x in s && y in s && ById(x, y) && ById(y, x) ensures x == y {
      TiedInGroup(bs, host, x, y);
    }
    SortForgetsOrder(ById, s, t);
  }

  lemma OrderedForgetsOrder(bs: seq<Backend>, cs: seq<Backend>, host: string)
    requires multiset(bs) == multiset(cs) && TiesAreAlike(bs)
    ensures Ordered(Bares(GroupOf(bs, host))) == Ordered(Bares(GroupOf(cs, host)))
  {
    SortedGroupForgetsOrder(bs, cs, host);
  }

  lemma HostsForgetOrder(bs: seq<Backend>, cs: seq<Backend>)
    requires multiset(bs) == multiset(cs)
    ensures SortedHosts(bs) == SortedHosts(cs)
  {
    HostsMembers(bs);
    HostsMembers(cs);
    forall h ensures h in HostsOf(bs) <==> h in HostsOf(cs) {
      GroupPermutes(bs, cs, h);
    }
    NoDupsPermute(HostsOf(bs), HostsOf(cs));
    LeqIsPreorder();
    forall x, y | Leq(x, y) && Leq(y, x) ensures x == y { LeqAntisymmetric(x, y); }
    SortForgetsOrder(Leq, HostsOf(bs), HostsOf(cs));
  }

  /** Every permutation of the backends generates the identical configuration. */
  lemma ConfigIsOrderFree(certs: set<string>, bs: seq<Backend>, cs: seq<Backend>)
    requires multiset(bs) == multiset(cs) && TiesAreAlike(bs)
    ensures Config(certs, bs) == Config(certs, cs)
  {
    HostsForgetOrder(bs, cs);
    SortedHostsMembers(bs);
    SortedHostsMembers(cs);
    forall i | 0 <= i < |SortedHosts(bs)| ensures Config(certs, bs)[i] == Config(certs, cs)[i] {
      HostServerForgetsOrder(certs, bs, cs, SortedHosts(bs)[i]);
    }
  }

  lemma HostServerForgetsOrder(certs: set<string>, bs: seq<Backend>, cs: seq<Backend>, host: string)
    requires multiset(bs) == multiset(cs) && TiesAreAlike(bs)
    requires GroupOf(bs, host) != [] && GroupOf(cs, host) != []
    ensures HostServer(certs, bs, host) == HostServer(certs, cs, host)
  {
    var s, t := GroupOf(bs, host), GroupOf(cs, host);
    OrderedForgetsOrder(bs, cs, host);
    OrderedBares(s);
    OrderedBares(t);
    ServerOfBares(certs, Ordered(s));
    ServerOfBares(certs, Ordered(t));
  }

  // ---------------------------------------------------------------- the primary

  lemma PrimaryOfSorted(s: seq<Backend>, b: Backend)
    requires b in s && Sorted(ById, s)
    ensures var p := PrimaryFirst(s)[0];
            && p in s
            && (OwnsRoot(b) ==> OwnsRoot(p))
            && ((OwnsRoot(p) ==> OwnsRoot(b)) ==> Leq(p.id, b.id))
  {
    var i := FirstOwner(s);
    var k :| 0 <= k < |s| && s[k] == b;
    var p := if i == |s| then s[0] else s[i];
    assert PrimaryFirst(s)[0] == p;
    LeqTotal(b.id, b.id);
    assert 0 < k ==> ById(s[0], s[k]);
    if i < |s| && OwnsRoot(b) {
      assert i <= k;
      assert i < k ==> ById(s[i], s[k]);
    }
  }

  /** A route of the service is mounted on the root. */
  predicate OnRoot(be: Backend) {
    exists rt | rt in be.routes :: rt.path == "" || rt.path == "/"
  }

  /** The primary is the owner of "/" with the least id; without an owner, the least id. */
  lemma PrimaryIsLeastOwner(grp: seq<Backend>, b: Backend)
    requires b in grp
    ensures var p := Ordered(grp)[0];
            && p in grp
            && (OnRoot(b) ==> OnRoot(p))
            && ((OnRoot(p) ==> OnRoot(b)) ==> Leq(p.id, b.id))
  {
    assert OnRoot(b) <==> OwnsRoot(b);
    assert OnRoot(Ordered(grp)[0]) <==> OwnsRoot(Ordered(grp)[0]);
    ByIdIsPreorder();
    SortSorts(ById, grp);
    SameElements(grp, Sort(ById, grp));
    PrimaryOfSorted(Sort(ById, grp), b);
  }

  lemma SwapsBack(s: seq<Backend>) returns (i: nat)
    requires s != []
    ensures var o := PrimaryFirst(s);
            i < |o| && o[0 := o[i]][i := o[0]] == s && forall k | 0 < k <= i :: !OwnsRoot(o[k])
  {
    i := if FirstOwner(s) == |s| then 0 else FirstOwner(s);
  }

  /** The others stay sorted by id: the group is the sorted one, with its primary and its first swapped. */
  lemma OthersStaySorted(grp: seq<Backend>) returns (i: nat)
    requires grp != []
    ensures var o := Ordered(grp);
            && i < |o| && Sorted(ById, o[0 := o[i]][i := o[0]]) && multiset(o) == multiset(grp)
            && forall k | 0 < k <= i :: !OnRoot(o[k])
  {
    ByIdIsPreorder();
    SortSorts(ById, grp);
    OrderedPermutes(grp);
    i := SwapsBack(Sort(ById, grp));
    forall k | 0 < k <= i ensures !OnRoot(Ordered(grp)[k]) {
      assert !OwnsRoot(Ordered(grp)[k]);
    }
  }

  /** The host-level settings of a server are those of its primary. */
  lemma PrimaryGivesTheSettings(certs: set<string>, bs: seq<Backend>, host: string)
    requires GroupOf(bs, host) != []
    ensures var srv, p := HostServer(certs, bs, host), Ordered(GroupOf(bs, host))[0];
            && p in bs && p.host == host
            && srv.host == host && srv.opts == p.nginx && srv.waf == p.waf && srv.tls == (host in certs)
            && srv.names == (if p.www then [host, "www." + host] else [host])
  {
    PrimaryIsLeastOwner(GroupOf(bs, host), GroupOf(bs, host)[0]);
    GroupMembers(bs, host);
  }

  // ---------------------------------------------------------------- the locations of one server

  /** The first route in rendering order that declares `p`. */
  ghost function FirstDeclarer(hits: seq<Hit>, p: string): (h: Hit)
    requires p in DeclaredPaths(hits)
    ensures exists i :: 0 <= i < |hits| && hits[i] == h && RoutePath(h.route) == p
              && forall k | 0 <= k < i :: RoutePath(hits[k].route) != p
  {
    var n := |hits| - 1;
    assert hits == hits[..n] + [hits[n]];
    if p in DeclaredPaths(hits[..n]) then FirstDeclarer(hits[..n], p)
    else
      assert forall k | 0 <= k < n :: hits[k] in hits[..n];
      hits[n]
  }

  /** Each route location is rendered from the first declarer of its path and numbered in order. */
  lemma {:induction false} RouteLocationAt(gate: set<string>, hits: seq<Hit>, k: nat)
    requires k < |RouteLocations(gate, hits)|
    ensures var l := RouteLocations(gate, hits)[k];
            && l.RouteLocation? && l.path in DeclaredPaths(hits) && l.path !in gate
            && l == Render(FirstDeclarer(hits, l.path), k)
  {
    var n := |hits| - 1;
    var prev := RouteLocations(gate, hits[..n]);
    assert hits == hits[..n] + [hits[n]];
    AppendRoute(gate, hits[..n], hits[n]);
    if k < |prev| {
      RouteLocationAt(gate, hits[..n], k);
    }
  }

  lemma {:induction false} RoutePathsAreDistinct(gate: set<string>, hits: seq<Hit>, k: nat, l: nat)
    requires k < l < |RouteLocations(gate, hits)|
    ensures RouteLocations(gate, hits)[k].RouteLocation? && RouteLocations(gate, hits)[l].RouteLocation?
    ensures RouteLocations(gate, hits)[k].path != RouteLocations(gate, hits)[l].path
  {
    var n := |hits| - 1;
    var prev := RouteLocations(gate, hits[..n]);
    assert hits == hits[..n] + [hits[n]];
    AppendRoute(gate, hits[..n], hits[n]);
    RouteLocationAt(gate, hits[..n], k);
    if l < |prev| {
      RoutePathsAreDistinct(gate, hits[..n], k, l);
    }
  }

  /** Every declared path that is not the gate's has its location. */
  lemma {:induction false} RouteLocationOf(gate: set<string>, hits: seq<Hit>, p: string) returns (k: nat)
    requires p in DeclaredPaths(hits) && p !in gate
    ensures k < |RouteLocations(gate, hits)| && RouteLocations(gate, hits)[k].RouteLocation?
    ensures RouteLocations(gate, hits)[k].path == p
  {
    var n := |hits| - 1;
    assert hits == hits[..n] + [hits[n]];
    AppendRoute(gate, hits[..n], hits[n]);
    if p in DeclaredPaths(hits[..n]) {
      k := RouteLocationOf(gate, hits[..n], p);
    } else {
      k := |RouteLocations(gate, hits[..n])|;
    }
  }

  /** How a location is written after the keyword. */
  function Key(l: Location): string {
    match l
    case AcmeLocation => ACME_PATH
    case AuthLocation => "= " + AUTH_PATH
    case GateLocation(p) => p
    case RouteLocation(p, _, _, _, _) => p
    case SlashRedirect(p) => p
  }

  predicate Declared(l: Location) {
    l.GateLocation? || l.RouteLocation?
  }

  lemma DeclaredIffDeclares(grp: seq<Backend>, p: string)
    ensures p in DeclaredPaths(AllHits(grp)) <==> DeclaresPath(grp, p)
  {
    AllHitsMembers(grp);
    forall be, rt | be in grp && rt in be.routes && RoutePath(rt) == p ensures p in DeclaredPaths(AllHits(grp)) {
      assert Hit(be, rt) in AllHits(grp);
    }
  }

  /** The three parts of a server's locations. */
  lemma ListParts(reserved: seq<string>, hits: seq<Hit>, i: nat)
    requires i < |LocationList(reserved, hits)|
    ensures var locs, routes, g := LocationList(reserved, hits), RouteLocations(Elems(reserved), hits), |reserved|;
            && |locs| == 2 + g + |routes|
            && locs[i] == if i == 0 then AcmeLocation else if i == 1 then AuthLocation
                          else if i < 2 + g then GateLocation(reserved[i - 2]) else routes[i - 2 - g]
  {
  }

  /** What stands at position `i` of a server's locations. */
  lemma LocationAt(reserved: seq<string>, hits: seq<Hit>, i: nat)
    requires i < |LocationList(reserved, hits)|
    ensures var l, g := LocationList(reserved, hits)[i], |reserved|;
            if i == 0 then l == AcmeLocation
            else if i == 1 then l == AuthLocation
            else if i < 2 + g then l == GateLocation(reserved[i - 2])
            else
              && l.RouteLocation? && l.path in DeclaredPaths(hits) && l.path !in reserved
              && l == Render(FirstDeclarer(hits, l.path), i - 2 - g)
  {
    ListParts(reserved, hits, i);
    if i >= 2 + |reserved| {
      RouteLocationAt(Elems(reserved), hits, i - 2 - |reserved|);
    }
  }

  lemma ReservedIsDistinct(grp: seq<Backend>)
    ensures forall i, j | 0 <= i < j < |Reserved(grp)| :: Reserved(grp)[i] != Reserved(grp)[j]
    ensures ACME_PATH !in Reserved(grp) && "= " + AUTH_PATH !in Reserved(grp)
    ensures ADMIN_PATH in Reserved(grp) <==> UsesAuth(grp) && !DeclaresPath(grp, ADMIN_PATH)
  {
    var r := GATE_PATHS + [ADMIN_PATH];
    assert r[0][1] == 'l' && r[0][2] == 'o' && r[0][4] == 'i' && |r[0]| == 6;
    assert |r[1]| == 6 && r[1][1] == 'a' && |r[2]| == 7 && |r[3]| == 8 && r[4][1] == '_' && |r[4]| == 6;
    assert |r[5]| == 6 && r[5][1] == 'a' && r[5][2] == 'd' && r[1][2] == 'u';
    assert |ACME_PATH| > 8 && |"= " + AUTH_PATH| > 8;
  }

  lemma LocationKinds(reserved: seq<string>, hits: seq<Hit>, l: Location)
    ensures l.GateLocation? ==> (l in LocationList(reserved, hits) <==> l.path in reserved)
    ensures l.RouteLocation? && l in LocationList(reserved, hits) ==>
              && l.path in DeclaredPaths(hits) && l.path !in reserved
              && l == Render(FirstDeclarer(hits, l.path), l.index)
  {
    var locs := LocationList(reserved, hits);
    if l in locs {
      var i :| 0 <= i < |locs| && locs[i] == l;
      LocationAt(reserved, hits, i);
    }
    if l.GateLocation? && l.path in reserved {
      var i :| 0 <= i < |reserved| && reserved[i] == l.path;
      LocationAt(reserved, hits, 2 + i);
      assert locs[2 + i] == l;
    }
  }

  /** The locations of a server, by their kind. */
  lemma LocationMembers(grp: seq<Backend>, l: Location)
    ensures l.GateLocation? ==> (l in Locations(grp) <==> l.path in Reserved(grp))
    ensures l.RouteLocation? && l in Locations(grp) ==>
              && l.path in DeclaredPaths(AllHits(grp)) && l.path !in Reserved(grp)
              && l == Render(FirstDeclarer(AllHits(grp), l.path), l.index)
  {
    LocationKinds(Reserved(grp), AllHits(grp), l);
  }

  lemma ListIsDistinct(reserved: seq<string>, hits: seq<Hit>, i: nat, j: nat)
    requires i < j < |LocationList(reserved, hits)|
    requires forall k, m | 0 <= k < m < |reserved| :: reserved[k] != reserved[m]
    ensures var l, m := LocationList(reserved, hits)[i], LocationList(reserved, hits)[j];
            && (Declared(l) && Declared(m) ==> l.path != m.path)
            && (l.RouteLocation? && m.RouteLocation? ==> l.index < m.index)
  {
    LocationAt(reserved, hits, i);
    LocationAt(reserved, hits, j);
    if 2 + |reserved| <= i {
      RoutePathsAreDistinct(Elems(reserved), hits, i - 2 - |reserved|, j - 2 - |reserved|);
    }
  }

  /** No reserved or route path is written twice, and the upstream variables are numbered apart. */
  lemma PathsAndIndicesAreDistinct(grp: seq<Backend>, i: nat, j: nat)
    requires i < j < |Locations(grp)|
    ensures var l, m := Locations(grp)[i], Locations(grp)[j];
            && (Declared(l) && Declared(m) ==> l.path != m.path)
            && (l.RouteLocation? && m.RouteLocation? ==> l.index < m.index)
  {
    ReservedIsDistinct(grp);
    ListIsDistinct(Reserved(grp), AllHits(grp), i, j);
  }

  lemma PathIsListed(reserved: seq<string>, hits: seq<Hit>, p: string) returns (k: nat)
    requires p in DeclaredPaths(hits) && p !in reserved
    ensures Render(FirstDeclarer(hits, p), k) in LocationList(reserved, hits)
  {
    k := RouteLocationOf(Elems(reserved), hits, p);
    LocationAt(reserved, hits, 2 + |reserved| + k);
    assert LocationList(reserved, hits)[2 + |reserved| + k] == Render(FirstDeclarer(hits, p), k);
  }

  /** Every declared path has one location: the gate's if it is reserved, else its first declarer's. */
  lemma EveryPathIsCovered(grp: seq<Backend>, p: string)
    requires DeclaresPath(grp, p)
    ensures p in DeclaredPaths(AllHits(grp))
    ensures if p in Reserved(grp) then GateLocation(p) in Locations(grp)
            else exists k: nat :: Render(FirstDeclarer(AllHits(grp), p), k) in Locations(grp)
  {
    DeclaredIffDeclares(grp, p);
    if p in Reserved(grp) {
      LocationMembers(grp, GateLocation(p));
    } else {
      var k := PathIsListed(Reserved(grp), AllHits(grp), p);
    }
  }

  /** Some route of the server needs the gate. */
  ghost predicate HasGated(grp: seq<Backend>) {
    exists h | h in AllHits(grp) :: h.route.rule != "public"
  }

  /** The paths the gate serves on a host that has a gated route, "/admin" apart. */
  predicate IsGatePath(p: string) {
    p in {"/login", "/auth/", "/logout", "/listing", "/_xtk/"}
  }

  lemma UsesAuthIff(grp: seq<Backend>)
    ensures UsesAuth(grp) <==> HasGated(grp)
  {
    AllHitsMembers(grp);
    if UsesAuth(grp) {
      var be :| be in grp && exists rt | rt in be.routes :: rt.rule != RULE_PUBLIC;
      var rt :| rt in be.routes && rt.rule != RULE_PUBLIC;
      assert Hit(be, rt) in AllHits(grp);
    }
  }

  lemma ReservedMembers(grp: seq<Backend>, p: string)
    ensures p in Reserved(grp) <==> HasGated(grp) && (IsGatePath(p) || (p == "/admin" && !DeclaresPath(grp, "/admin")))
  {
    UsesAuthIff(grp);
    var r := ["/login", "/auth/", "/logout", "/listing", "/_xtk/"];
    assert p in r <==> p == r[0] || p == r[1] || p == r[2] || p == r[3] || p == r[4];
    assert GATE_PATHS == r;
  }

  /** The gate's locations on a server: exactly if some route is not public, the login, auth, logout, listing
      and asset paths, and "/admin" unless a route of the server is mounted there. */
  lemma GateLocationIff(grp: seq<Backend>, p: string)
    ensures GateLocation(p) in Locations(grp)
       <==> (HasGated(grp)
             && (IsGatePath(p) || (p == "/admin" && forall h | h in AllHits(grp) :: RoutePath(h.route) != "/admin")))
  {
    LocationMembers(grp, GateLocation(p));
    ReservedMembers(grp, p);
    DeclaredIffDeclares(grp, "/admin");
  }

  /** So wherever a location is gated, the paths that a login needs are the gate's. */
  lemma GatedServerHasLogin(grp: seq<Backend>, l: Location, p: string)
    requires l in Locations(grp) && l.RouteLocation? && l.gated && IsGatePath(p)
    ensures GateLocation(p) in Locations(grp)
  {
    LocationMembers(grp, l);
    assert FirstDeclarer(AllHits(grp), l.path) in AllHits(grp);
    GateLocationIff(grp, p);
  }

  /** Every server starts with the challenge path and the internal check. */
  lemma FixedLocations(grp: seq<Backend>)
    ensures |Locations(grp)| >= 2 && Locations(grp)[0] == AcmeLocation && Locations(grp)[1] == AuthLocation
  {
    LocationAt(Reserved(grp), AllHits(grp), 0);
    LocationAt(Reserved(grp), AllHits(grp), 1);
  }

  /** "/admin" belongs to the service that declares it; otherwise to the gate iff a route is gated. */
  lemma AdminOwner(grp: seq<Backend>)
    ensures GateLocation(ADMIN_PATH) in Locations(grp) <==> HasGated(grp) && !DeclaresPath(grp, ADMIN_PATH)
    ensures (exists l | l in Locations(grp) :: l.RouteLocation? && l.path == ADMIN_PATH)
       <==> DeclaresPath(grp, ADMIN_PATH)
  {
    ReservedIsDistinct(grp);
    UsesAuthIff(grp);
    LocationMembers(grp, GateLocation(ADMIN_PATH));
    DeclaredIffDeclares(grp, ADMIN_PATH);
    forall l | l in Locations(grp) { LocationMembers(grp, l); }
    if DeclaresPath(grp, ADMIN_PATH) {
      EveryPathIsCovered(grp, ADMIN_PATH);
    }
  }

  // ---------------------------------------------------------------- the servers

  ghost predicate Serves(cfg: seq<ServerBlock>, host: string) {
    exists i | 0 <= i < |cfg| :: cfg[i].host == host
  }

  /** The i-th server is the one of the i-th host. */
  lemma ServerAt(certs: set<string>, bs: seq<Backend>, i: nat)
    requires i < |SortedHosts(bs)|
    ensures |Config(certs, bs)| == |SortedHosts(bs)|
    ensures var h := SortedHosts(bs)[i];
            && GroupOf(bs, h) != [] && Config(certs, bs)[i] == HostServer(certs, bs, h)
            && Config(certs, bs)[i].host == h
  {
    SortedHostsMembers(bs);
    PrimaryGivesTheSettings(certs, bs, SortedHosts(bs)[i]);
  }

  lemma ServerIndex(certs: set<string>, bs: seq<Backend>, h: string) returns (i: nat)
    requires GroupOf(bs, h) != []
    ensures i < |Config(certs, bs)| && i < |SortedHosts(bs)| && SortedHosts(bs)[i] == h
  {
    SortedHostsMembers(bs);
    i :| i < |SortedHosts(bs)| && SortedHosts(bs)[i] == h;
    ServerAt(certs, bs, i);
  }

  /** Each host with routes gets exactly one server, and the servers are sorted by host. */
  lemma OneServerPerHost(certs: set<string>, bs: seq<Backend>)
    ensures var cfg := Config(certs, bs);
            && (forall i, j | 0 <= i < j < |cfg| :: cfg[i].host != cfg[j].host && Leq(cfg[i].host, cfg[j].host))
            && (forall h :: Serves(cfg, h) <==> exists b | b in bs :: b.host == h && h != "" && b.routes != [])
  {
    var hosts, cfg := SortedHosts(bs), Config(certs, bs);
    SortedHostsMembers(bs);
    SortedHostsAreDistinct(bs);
    assert |cfg| == |hosts|;
    forall i | 0 <= i < |hosts| ensures cfg[i].host == hosts[i] {
      ServerAt(certs, bs, i);
    }
    forall h ensures Serves(cfg, h) <==> exists b | b in bs :: b.host == h && h != "" && b.routes != [] {
      GroupMembers(bs, h);
      FirstIsMember(GroupOf(bs, h));
      if GroupOf(bs, h) != [] {
        var i := ServerIndex(certs, bs, h);
        assert cfg[i].host == h;
      }
    }
  }

  lemma SortedHostsAreDistinct(bs: seq<Backend>)
    ensures var hosts := SortedHosts(bs);
            forall i, j | 0 <= i < j < |hosts| :: hosts[i] != hosts[j] && Leq(hosts[i], hosts[j])
  {
    SortedHostsMembers(bs);
    HostsMembers(bs);
    LeqIsPreorder();
    SortSorts(Leq, HostsOf(bs));
    NoDupsSurvive(HostsOf(bs), SortedHosts(bs));
  }

  ghost predicate NamesDistinct(cfg: seq<ServerBlock>) {
    forall i, j, n | 0 <= i < j < |cfg| && n in cfg[i].names :: n !in cfg[j].names
  }

  /** A served host whose "www." alias is itself a served host. */
  ghost predicate AliasClash(bs: seq<Backend>, h: string) {
    GroupOf(bs, h) != [] && GroupOf(bs, Www(h)) != [] && Ordered(GroupOf(bs, h))[0].www
  }

  lemma HostNames(certs: set<string>, bs: seq<Backend>, h: string, n: string)
    requires GroupOf(bs, h) != []
    ensures n in HostServer(certs, bs, h).names <==> n == h || (Ordered(GroupOf(bs, h))[0].www && n == Www(h))
  {
    PrimaryGivesTheSettings(certs, bs, h);
  }

  lemma NamesAt(certs: set<string>, bs: seq<Backend>, i: nat, n: string)
    requires i < |Config(certs, bs)|
    ensures i < |SortedHosts(bs)|
    ensures var h := SortedHosts(bs)[i];
            && GroupOf(bs, h) != []
            && (n in Config(certs, bs)[i].names <==> n == h || (Ordered(GroupOf(bs, h))[0].www && n == Www(h)))
  {
    assert |Config(certs, bs)| == |SortedHosts(bs)|;
    ServerAt(certs, bs, i);
    HostNames(certs, bs, SortedHosts(bs)[i], n);
  }

  lemma AliasIsClaimedTwice(certs: set<string>, bs: seq<Backend>, h: string)
    requires AliasClash(bs, h)
    ensures !NamesDistinct(Config(certs, bs))
  {
    var i := ServerIndex(certs, bs, h);
    var j := ServerIndex(certs, bs, Www(h));
    NamesAt(certs, bs, i, Www(h));
    NamesAt(certs, bs, j, Www(h));
    WwwKeepsHost(h);
    assert i != j by { assert |h| < |Www(h)|; }
  }

  lemma SharedNameIsAlias(certs: set<string>, bs: seq<Backend>, i: nat, j: nat, n: string)
    requires i < j < |Config(certs, bs)|
    requires n in Config(certs, bs)[i].names && n in Config(certs, bs)[j].names
    ensures exists h :: AliasClash(bs, h)
  {
    NamesAt(certs, bs, i, n);
    NamesAt(certs, bs, j, n);
    SortedHostsAreDistinct(bs);
    var a, b := SortedHosts(bs)[i], SortedHosts(bs)[j];
    WwwKeepsHost(a);
    WwwKeepsHost(b);
    assert AliasClash(bs, if n == a then b else a);
  }

  /** No name is claimed by two servers exactly when no "www." alias is itself a served host. */
  lemma NamesAreDistinctIff(certs: set<string>, bs: seq<Backend>)
    ensures NamesDistinct(Config(certs, bs)) <==> forall h :: !AliasClash(bs, h)
  {
    forall h | AliasClash(bs, h) ensures !NamesDistinct(Config(certs, bs)) {
      AliasIsClaimedTwice(certs, bs, h);
    }
    forall i: nat, j: nat, n | i < j < |Config(certs, bs)| && n in Config(certs, bs)[i].names && n in Config(certs, bs)[j].names
      ensures exists h :: AliasClash(bs, h)
    {
      SharedNameIsAlias(certs, bs, i, j, n);
    }
  }
}
