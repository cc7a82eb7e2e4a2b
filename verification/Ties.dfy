/** proxy/generate.go: what happens when two services of one host have the same id. */
module Ties {
  import opened Models
  import opened Ordering
  import opened Matrix
  import opened Proxy
  import opened Generation

  predicate Mounts(be: Backend, p: string) {
    exists rt | rt in be.routes :: RoutePath(rt) == p
  }

  /** `be` is the one service of its host that declares `p`. */
  ghost predicate SoleDeclarer(bs: seq<Backend>, be: Backend, p: string) {
    be in bs && Mounts(be, p) && forall x | x in bs && x.host == be.host && Mounts(x, p) :: x == be
  }

  /** Two services with one host and one id, neither owning "/". */
  predicate Tied(a: Backend, b: Backend) {
    a != b && a.host == b.host != "" && a.id == b.id && !OwnsRoot(a) && !OwnsRoot(b)
  }

  // ---------------------------------------------------------------- the order of a tied pair

  /** A tied pair in front of a list comes out of the sort side by side, in the order it went in. */
  lemma {:induction false} InsertTied(a: Backend, b: Backend, s: seq<Backend>) returns (front: seq<Backend>, back: seq<Backend>)
    requires a.id == b.id
    ensures Insert(ById, a, Insert(ById, b, s)) == front + [a, b] + back
    ensures Insert(ById, b, Insert(ById, a, s)) == front + [b, a] + back
    ensures a !in front && b !in front
  {
    LeqTotal(a.id, a.id);
    if s == [] || ById(b, s[0]) {
      front, back := [], s;
      InsertHere(a, b, s);
      InsertHere(b, a, s);
    } else {
      var f, k := InsertTied(a, b, s[1..]);
      front, back := [s[0]] + f, k;
      InsertPast(a, b, s);
      InsertPast(b, a, s);
      FrontGrows(s[0], f, [a, b], k);
      FrontGrows(s[0], f, [b, a], k);
    }
  }

  lemma FrontGrows(x: Backend, f: seq<Backend>, m: seq<Backend>, k: seq<Backend>)
    ensures [x] + (f + m + k) == ([x] + f) + m + k
  {
  }

  lemma InsertAtFront(a: Backend, s: seq<Backend>)
    requires s == [] || ById(a, s[0])
    ensures Insert(ById, a, s) == [a] + s
  {
  }

  lemma InsertHere(a: Backend, b: Backend, s: seq<Backend>)
    requires a.id == b.id && (s == [] || ById(b, s[0]))
    ensures Insert(ById, a, Insert(ById, b, s)) == [] + [a, b] + s
  {
    LeqTotal(a.id, a.id);
    InsertAtFront(b, s);
    InsertAtFront(a, [b] + s);
    PairInFront(a, b, s);
  }

  lemma PairInFront<T>(a: T, b: T, s: seq<T>)
    ensures [a] + ([b] + s) == [] + [a, b] + s
  {
  }

  lemma InsertPast(a: Backend, b: Backend, s: seq<Backend>)
    requires a.id == b.id && s != [] && !ById(b, s[0])
    ensures Insert(ById, a, Insert(ById, b, s)) == [s[0]] + Insert(ById, a, Insert(ById, b, s[1..]))
  {
    var inner := Insert(ById, b, s);
    assert inner == [s[0]] + Insert(ById, b, s[1..]);
    assert inner[1..] == Insert(ById, b, s[1..]);
  }

  /** Of the pair, `x` comes first in one order and `y` at the same place in the other. */
  ghost predicate Leads(s: seq<Backend>, t: seq<Backend>, x: Backend, y: Backend, n: nat) {
    n < |s| == |t| && s[n] == x && t[n] == y && s[..n] == t[..n] && x !in s[..n] && y !in s[..n]
  }

  lemma ExchangedPrefix(s: seq<Backend>, t: seq<Backend>, i: nat, m: nat)
    requires |s| == |t| && m <= i < |s| && s[..m] == t[..m] && s[i] == t[i] && 0 < m
    ensures s[0 := s[i]][i := s[0]][..m] == s[..m][0 := s[i]] == t[0 := t[i]][i := t[0]][..m]
  {
    assert s[0] == s[..m][0] == t[..m][0] == t[0];
  }

  lemma SwappedPrefix(s: seq<Backend>, t: seq<Backend>, i: nat, m: nat)
    requires |s| == |t| && i < m <= |s| && s[..m] == t[..m]
    ensures s[0 := s[i]][i := s[0]][..m] == s[..m][0 := s[i]][i := s[0]] == t[0 := t[i]][i := t[0]][..m]
  {
    assert s[0] == s[..m][0] == t[..m][0] == t[0];
    assert s[i] == s[..m][i] == t[..m][i] == t[i];
  }

  /** Putting the owner of "/" first keeps the pair in two different orders. */
  lemma PrimaryKeepsTie(a: Backend, b: Backend, front: seq<Backend>, back: seq<Backend>) returns (x: Backend, y: Backend, n: nat)
    requires Tied(a, b) && a !in front && b !in front
    ensures (x == a && y == b) || (x == b && y == a)
    ensures Leads(PrimaryFirst(front + [a, b] + back), PrimaryFirst(front + [b, a] + back), x, y, n)
  {
    var s, t, m := front + [a, b] + back, front + [b, a] + back, |front|;
    var i := FirstOwner(s);
    SameOwner(a, b, front, back);
    assert s[..m] == front && t[..m] == front;
    x, y, n := a, b, m;
    if i < m {
      SwappedPrefix(s, t, i, m);
      var p := front[0 := s[i]][i := s[0]];
      assert s[i] == front[i] && s[0] == front[0];
      assert forall z | z in p :: z in front;
    } else if m + 2 <= i < |s| && m > 0 {
      ExchangedPrefix(s, t, i, m);
      var p := front[0 := s[i]];
      assert forall z | z in p :: z in front || z == s[i];
    } else if m + 2 <= i < |s| {
      x, y, n := b, a, 1;
      assert PrimaryFirst(s)[..1] == [s[i]] && PrimaryFirst(t)[..1] == [s[i]];
    } else {
      assert PrimaryFirst(s) == s && PrimaryFirst(t) == t;
    }
  }

  lemma SameOwner(a: Backend, b: Backend, front: seq<Backend>, back: seq<Backend>)
    requires !OwnsRoot(a) && !OwnsRoot(b)
    ensures var s, t := front + [a, b] + back, front + [b, a] + back;
            && |s| == |t| && FirstOwner(s) == FirstOwner(t)
            && FirstOwner(s) != |front| && FirstOwner(s) != |front| + 1
            && (FirstOwner(s) < |s| ==> s[FirstOwner(s)] == t[FirstOwner(s)])
  {
    var s, t := front + [a, b] + back, front + [b, a] + back;
    var m := |front|;
    assert s[m] == a && s[m + 1] == b && t[m] == b && t[m + 1] == a;
    assert forall k | 0 <= k < |s| && k != m && k != m + 1 :: s[k] == t[k];
    OwnerIndex(t, FirstOwner(s));
  }

  // ---------------------------------------------------------------- the order shows

  /** More routes only append locations. */
  lemma {:induction false} LocationsArePrefix(gate: set<string>, a: seq<Hit>, b: seq<Hit>)
    ensures RouteLocations(gate, a) <= RouteLocations(gate, a + b)
  {
    if b == [] {
      assert a + b == a;
    } else {
      var n := |b| - 1;
      LocationsArePrefix(gate, a, b[..n]);
      SnocConcat(a, b);
      AppendRoute(gate, a + b[..n], b[n]);
    }
  }

  /** `p` has a location before `n`, and every location of `q` is at `n` or after. */
  ghost predicate Before(locs: seq<Location>, p: string, q: string, n: nat) {
    && (exists k :: 0 <= k < n && k < |locs| && Key(locs[k]) == p)
    && (forall k | 0 <= k < |locs| && Key(locs[k]) == q :: n <= k)
  }

  lemma BeforeIsOneWay(locs: seq<Location>, p: string, q: string, m: nat, n: nat)
    requires Before(locs, p, q, m)
    ensures !Before(locs, q, p, n)
  {
  }

  lemma MountsDeclares(grp: seq<Backend>, p: string)
    ensures p in DeclaredPaths(AllHits(grp)) <==> exists x | x in grp :: Mounts(x, p)
  {
    DeclaredIffDeclares(grp, p);
    assert DeclaresPath(grp, p) <==> exists x | x in grp :: Mounts(x, p);
  }

  lemma DeclaredEarlierIsBefore(gate: set<string>, a: seq<Hit>, b: seq<Hit>, p: string, q: string)
    requires p in DeclaredPaths(a) && p !in gate && q !in DeclaredPaths(a)
    ensures Before(RouteLocations(gate, a + b), p, q, |RouteLocations(gate, a)|)
  {
    var first, all := RouteLocations(gate, a), RouteLocations(gate, a + b);
    LocationsArePrefix(gate, a, b);
    var k := RouteLocationOf(gate, a, p);
    assert all[k] == first[k] && Key(all[k]) == p;
    forall j | 0 <= j < |first| ensures Key(all[j]) != q {
      RouteLocationAt(gate, a, j);
      assert all[j] == first[j];
    }
  }

  /** In a group, the paths of the service at `n` come before those that only later services declare. */
  lemma EarlierIsBefore(gate: set<string>, grp: seq<Backend>, n: nat, p: string, q: string) returns (m: nat)
    requires n < |grp| && Mounts(grp[n], p) && p !in gate
    requires forall k | 0 <= k <= n :: !Mounts(grp[k], q)
    ensures Before(RouteLocations(gate, AllHits(grp)), p, q, m)
  {
    var head := grp[..n + 1];
    assert head[n] == grp[n];
    assert grp == head + grp[n + 1..] && grp[n] in head;
    AllHitsConcat(head, grp[n + 1..]);
    MountsDeclares(head, p);
    MountsDeclares(head, q);
    m := |RouteLocations(gate, AllHits(head))|;
    DeclaredEarlierIsBefore(gate, AllHits(head), AllHits(grp[n + 1..]), p, q);
  }

  /** Two orders that a pair of sole declarers leads differently show different locations. */
  lemma LeadsShows(gate: set<string>, s: seq<Backend>, t: seq<Backend>, x: Backend, y: Backend, n: nat, p: string, q: string)
    requires Leads(s, t, x, y, n) && x != y && p !in gate && q !in gate
    requires forall z | z in s || z in t :: (Mounts(z, p) <==> z == x) && (Mounts(z, q) <==> z == y)
    ensures RouteLocations(gate, AllHits(s)) != RouteLocations(gate, AllHits(t))
  {
    forall k | 0 <= k <= n ensures !Mounts(s[k], q) && !Mounts(t[k], p) {
      assert k < n ==> s[..n][k] == s[k] == t[..n][k] == t[k];
      assert s[k] in s && t[k] in t;
    }
    assert s[n] in s && t[n] in t;
    var i := EarlierIsBefore(gate, s, n, p, q);
    var j := EarlierIsBefore(gate, t, n, q, p);
    BeforeIsOneWay(RouteLocations(gate, AllHits(s)), p, q, i, j);
  }

  lemma {:induction false} GroupConcat(bs: seq<Backend>, cs: seq<Backend>, host: string)
    ensures GroupOf(bs + cs, host) == GroupOf(bs, host) + GroupOf(cs, host)
  {
    if cs == [] {
      assert bs + cs == bs;
    } else {
      var n := |cs| - 1;
      GroupConcat(bs, cs[..n], host);
      SnocConcat(bs, cs);
      GroupAppend(bs + cs[..n], cs[n], host);
    }
  }

  lemma PairGroup(a: Backend, b: Backend, rest: seq<Backend>)
    requires a.host == b.host != "" && a.routes != [] && b.routes != []
    ensures GroupOf([a, b] + rest, a.host) == [a, b] + GroupOf(rest, a.host)
  {
    GroupConcat([a, b], rest, a.host);
    assert [a, b] == [] + [a] + [b];
    GroupAppend([], a, a.host);
    GroupAppend([] + [a], b, a.host);
  }

  lemma SortPair(a: Backend, b: Backend, s: seq<Backend>)
    ensures Sort(ById, [a, b] + s) == Insert(ById, a, Insert(ById, b, Sort(ById, s)))
  {
    assert ([a, b] + s)[1..] == [b] + s && ([b] + s)[1..] == s;
  }

  /** Which way round a tied pair stands at the front of the input shows in the order of its group. */
  lemma TieLeads(a: Backend, b: Backend, rest: seq<Backend>) returns (x: Backend, y: Backend, n: nat)
    requires Tied(a, b) && a.routes != [] && b.routes != []
    ensures (x == a && y == b) || (x == b && y == a)
    ensures Leads(Ordered(GroupOf([a, b] + rest, a.host)), Ordered(GroupOf([b, a] + rest, a.host)), x, y, n)
  {
    PairGroup(a, b, rest);
    PairGroup(b, a, rest);
    var g := GroupOf(rest, a.host);
    SortPair(a, b, g);
    SortPair(b, a, g);
    var front, back := InsertTied(a, b, Sort(ById, g));
    x, y, n := PrimaryKeepsTie(a, b, front, back);
  }

  lemma SameReserved(s: seq<Backend>, t: seq<Backend>)
    requires multiset(s) == multiset(t)
    ensures Reserved(s) == Reserved(t)
  {
    SameElements(s, t);
    assert UsesAuth(s) == UsesAuth(t);
    assert DeclaresPath(s, ADMIN_PATH) == DeclaresPath(t, ADMIN_PATH);
  }

  /** Every service of the host declares `p` only if it is `be`. */
  lemma SoleInGroup(bs: seq<Backend>, cs: seq<Backend>, be: Backend, p: string, z: Backend)
    requires SoleDeclarer(bs, be, p) && multiset(cs) == multiset(bs)
    requires z in Ordered(GroupOf(cs, be.host))
    ensures Mounts(z, p) <==> z == be
  {
    OrderedPermutes(GroupOf(cs, be.host));
    GroupMembers(cs, be.host);
    SameElements(cs, bs);
  }

  lemma ExchangeShows(certs: set<string>, bs: seq<Backend>, a: Backend, b: Backend, rest: seq<Backend>, p: string, q: string)
    requires Tied(a, b) && SoleDeclarer(bs, a, p) && SoleDeclarer(bs, b, q)
    requires multiset([a, b] + rest) == multiset(bs) == multiset([b, a] + rest)
    requires p !in Reserved(GroupOf(bs, a.host)) && q !in Reserved(GroupOf(bs, a.host))
    ensures var s, t := Ordered(GroupOf([a, b] + rest, a.host)), Ordered(GroupOf([b, a] + rest, a.host));
            Locations(s) != Locations(t)
  {
    var cs, ds := [a, b] + rest, [b, a] + rest;
    var s, t := Ordered(GroupOf(cs, a.host)), Ordered(GroupOf(ds, a.host));
    GroupPermutes(bs, cs, a.host);
    GroupPermutes(bs, ds, a.host);
    OrderedPermutes(GroupOf(cs, a.host));
    OrderedPermutes(GroupOf(ds, a.host));
    SameReserved(s, GroupOf(bs, a.host));
    SameReserved(t, GroupOf(bs, a.host));
    forall z | z in s || z in t ensures (Mounts(z, p) <==> z == a) && (Mounts(z, q) <==> z == b) {
      if z in s {
        SoleInGroup(bs, cs, a, p, z);
        SoleInGroup(bs, cs, b, q, z);
      } else {
        SoleInGroup(bs, ds, a, p, z);
        SoleInGroup(bs, ds, b, q, z);
      }
    }
    var x, y, n := TieLeads(a, b, rest);
    var gate := Elems(Reserved(s));
    if x == a {
      LeadsShows(gate, s, t, a, b, n, p, q);
    } else {
      LeadsShows(gate, s, t, b, a, n, q, p);
    }
    ListsDiffer(Reserved(s), AllHits(s), AllHits(t));
  }

  lemma ListsDiffer(reserved: seq<string>, a: seq<Hit>, b: seq<Hit>)
    requires RouteLocations(Elems(reserved), a) != RouteLocations(Elems(reserved), b)
    ensures LocationList(reserved, a) != LocationList(reserved, b)
  {
    var fixed := [AcmeLocation, AuthLocation] + GateLocations(reserved);
    assert LocationList(reserved, a)[|fixed|..] == RouteLocations(Elems(reserved), a);
    assert LocationList(reserved, b)[|fixed|..] == RouteLocations(Elems(reserved), b);
  }

  lemma ServersDiffer(certs: set<string>, cs: seq<Backend>, ds: seq<Backend>, host: string)
    requires multiset(cs) == multiset(ds) && GroupOf(cs, host) != [] && GroupOf(ds, host) != []
    requires Locations(Ordered(GroupOf(cs, host))) != Locations(Ordered(GroupOf(ds, host)))
    ensures Config(certs, cs) != Config(certs, ds)
  {
    HostsForgetOrder(cs, ds);
    var i := ServerIndex(certs, cs, host);
    ServerAt(certs, cs, i);
    ServerAt(certs, ds, i);
  }

  lemma TakeOut(bs: seq<Backend>, a: Backend, b: Backend) returns (rest: seq<Backend>)
    requires a in bs && b in bs && a != b
    ensures multiset([a, b] + rest) == multiset(bs) == multiset([b, a] + rest)
  {
    var most := BringToFront(bs, a);
    SameElements(bs, [a] + most);
    rest := BringToFront(most, b);
    assert [a, b] + rest == [a] + ([b] + rest);
    assert multiset([b, a] + rest) == multiset([a, b] + rest);
  }

  lemma ExchangeChangesConfig(certs: set<string>, bs: seq<Backend>, a: Backend, b: Backend, rest: seq<Backend>, p: string, q: string)
    requires Tied(a, b) && SoleDeclarer(bs, a, p) && SoleDeclarer(bs, b, q)
    requires multiset([a, b] + rest) == multiset(bs) == multiset([b, a] + rest)
    requires p !in Reserved(GroupOf(bs, a.host)) && q !in Reserved(GroupOf(bs, a.host))
    ensures Config(certs, [a, b] + rest) != Config(certs, [b, a] + rest)
  {
    ExchangeShows(certs, bs, a, b, rest, p, q);
    PairGroup(a, b, rest);
    PairGroup(b, a, rest);
    ServersDiffer(certs, [a, b] + rest, [b, a] + rest, a.host);
  }

  /** Some reordering of the backends generates another configuration. */
  ghost predicate OrderShows(certs: set<string>, bs: seq<Backend>) {
    exists cs :: multiset(cs) == multiset(bs) && Config(certs, cs) != Config(certs, bs)
  }

  lemma OneOfTwoDiffers(certs: set<string>, bs: seq<Backend>, cs: seq<Backend>, ds: seq<Backend>)
    requires multiset(cs) == multiset(bs) == multiset(ds)
    requires Config(certs, cs) != Config(certs, ds)
    ensures OrderShows(certs, bs)
  {
  }

  /** Two services with one host and one id, each with a path of its own that the gate does not take:
      the generated configuration depends on the order of the input. */
  lemma TiedIdsShowInputOrder(certs: set<string>, bs: seq<Backend>, a: Backend, b: Backend, p: string, q: string)
    requires Tied(a, b) && SoleDeclarer(bs, a, p) && SoleDeclarer(bs, b, q)
    requires p !in Reserved(GroupOf(bs, a.host)) && q !in Reserved(GroupOf(bs, a.host))
    ensures OrderShows(certs, bs)
  {
    var rest := TakeOut(bs, a, b);
    ExchangeChangesConfig(certs, bs, a, b, rest, p, q);
    OneOfTwoDiffers(certs, bs, [a, b] + rest, [b, a] + rest);
  }

  lemma PairHits(a: Backend, b: Backend)
    ensures AllHits([a, b]) == RouteHits(a) + RouteHits(b)
  {
    FrontAllHits(a, [b]);
    FrontAllHits(b, []);
    assert [a] + [b] == [a, b] && [b] + [] == [b];
    assert RouteHits(b) + [] == RouteHits(b);
  }

  /** Without such a path the order need not show: a pair with equal settings, one of which has only
      reserved paths, is rendered the same both ways round. */
  lemma ReservedPathsDoNotShow(certs: set<string>, a: Backend, b: Backend)
    requires a.host == b.host && a.www == b.www && a.nginx == b.nginx && a.waf == b.waf
    requires forall rt | rt in a.routes :: RoutePath(rt) in Reserved([a, b])
    ensures ServerOf(certs, [a, b]) == ServerOf(certs, [b, a])
  {
    SameReserved([a, b], [b, a]);
    var gate := Elems(Reserved([a, b]));
    PairHits(a, b);
    PairHits(b, a);
    assert DeclaredPaths(RouteHits(a)) <= gate;
    ReservedBefore(gate, RouteHits(a), RouteHits(b));
    ReservedAfter(gate, RouteHits(b), RouteHits(a));
  }

  lemma SkipOrAdd(gate: set<string>, longer: seq<Hit>, shorter: seq<Hit>, h: Hit)
    requires RouteLocations(gate, longer) == RouteLocations(gate, shorter)
    requires gate + DeclaredPaths(longer) == gate + DeclaredPaths(shorter)
    ensures RouteLocations(gate, longer + [h]) == RouteLocations(gate, shorter + [h])
    ensures gate + DeclaredPaths(longer + [h]) == gate + DeclaredPaths(shorter + [h])
  {
    AppendRoute(gate, longer, h);
    AppendRoute(gate, shorter, h);
  }

  lemma {:induction false} ReservedBefore(gate: set<string>, taken: seq<Hit>, hits: seq<Hit>)
    requires DeclaredPaths(taken) <= gate
    ensures RouteLocations(gate, taken + hits) == RouteLocations(gate, hits)
    ensures gate + DeclaredPaths(taken + hits) == gate + DeclaredPaths(hits)
  {
    if hits == [] {
      assert taken + hits == [] + taken;
      ReservedAfter(gate, [], taken);
    } else {
      var n := |hits| - 1;
      ReservedBefore(gate, taken, hits[..n]);
      Snoc(hits);
      SnocConcat(taken, hits);
      SkipOrAdd(gate, taken + hits[..n], hits[..n], hits[n]);
    }
  }

  lemma {:induction false} ReservedAfter(gate: set<string>, hits: seq<Hit>, taken: seq<Hit>)
    requires DeclaredPaths(taken) <= gate
    ensures RouteLocations(gate, hits + taken) == RouteLocations(gate, hits)
    ensures gate + DeclaredPaths(hits + taken) == gate + DeclaredPaths(hits)
  {
    if taken == [] {
      assert hits + taken == hits;
    } else {
      var n := |taken| - 1;
      Snoc(taken);
      SnocConcat(hits, taken);
      AppendRoute(gate, taken[..n], taken[n]);
      ReservedAfter(gate, hits, taken[..n]);
      AppendRoute(gate, hits + taken[..n], taken[n]);
    }
  }
}
