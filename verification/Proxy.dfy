/** proxy/generate.go: the NGINX configuration, as an abstract syntax tree instead of text. */
module Proxy {
  import opened Models
  import opened Ordering
  import opened Matrix

  datatype Location =
    | AcmeLocation                     // location /.well-known/acme-challenge/
    | AuthLocation                     // location = /__auth (internal)
    | GateLocation(path: string)       // reserved path served by the gate
    | RouteLocation(path: string, gated: bool, upstream: string, index: nat, opts: NginxOpts)
    | SlashRedirect(path: string)      // never written: NGINX's own redirect to a path with its final slash

  datatype ServerBlock = ServerBlock(
    host: string, names: seq<string>, tls: bool, opts: NginxOpts, waf: Option<WafCfg>,
    locations: seq<Location>)

  const ACME_PATH := "/.well-known/acme-challenge/"
  const AUTH_PATH := "/__auth"
  const GATE_PATHS := ["/login", "/auth/", "/logout", "/listing", "/_xtk/"]
  const ADMIN_PATH := "/admin"

  predicate ById(a: Backend, b: Backend) {
    Leq(a.id, b.id)
  }

  predicate OwnsRoot(be: Backend) {
    exists rt | rt in be.routes :: RoutePath(rt) == "/"
  }

  predicate UsesAuth(grp: seq<Backend>) {
    exists be | be in grp :: exists rt | rt in be.routes :: rt.rule != RULE_PUBLIC
  }

  predicate DeclaresPath(grp: seq<Backend>, path: string) {
    exists be | be in grp :: exists rt | rt in be.routes :: RoutePath(rt) == path
  }

  /** The gate's own prefix locations on a host. */
  function Reserved(grp: seq<Backend>): seq<string> {
    if !UsesAuth(grp) then []
    else if DeclaresPath(grp, ADMIN_PATH) then GATE_PATHS
    else GATE_PATHS + [ADMIN_PATH]
  }

  /** Index of the first owner of "/", or the length of the list. */
  function FirstOwner(bs: seq<Backend>): (i: nat)
    ensures i <= |bs|
    ensures i < |bs| ==> OwnsRoot(bs[i])
    ensures forall k | 0 <= k < i :: !OwnsRoot(bs[k])
  {
    if bs == [] || OwnsRoot(bs[0]) then 0 else 1 + FirstOwner(bs[1..])
  }

  function PrimaryFirst(bs: seq<Backend>): (r: seq<Backend>)
    ensures |r| == |bs|
  {
    var i := FirstOwner(bs);
    if i == |bs| then bs else bs[0 := bs[i]][i := bs[0]]
  }

  /** The order in which the backends of a host are rendered. */
  function Ordered(grp: seq<Backend>): (r: seq<Backend>)
    ensures |r| == |grp|
  {
    PrimaryFirst(Sort(ById, grp))
  }

  /** The order is a permutation. */
  lemma OrderedPermutes(grp: seq<Backend>)
    ensures multiset(Ordered(grp)) == multiset(grp)
    ensures forall b :: b in Ordered(grp) <==> b in grp
  {
    SortPermutes(ById, grp);
    PrimaryFirstPermutes(Sort(ById, grp));
    SameElements(Ordered(grp), grp);
  }

  lemma PrimaryFirstPermutes(bs: seq<Backend>)
    ensures multiset(PrimaryFirst(bs)) == multiset(bs)
  {
  }

  function Render(h: Hit, index: nat): Location {
    RouteLocation(RoutePath(h.route), h.route.rule != RULE_PUBLIC, h.route.upstream, index, h.backend.nginx)
  }

  ghost function DeclaredPaths(hits: seq<Hit>): set<string> {
    set h | h in hits :: RoutePath(h.route)
  }

  /** The route locations: one per path not seen before, numbered as they are written. */
  ghost function RouteLocations(reserved: set<string>, hits: seq<Hit>): seq<Location> {
    if hits == [] then []
    else
      var n := |hits| - 1;
      var prev := RouteLocations(reserved, hits[..n]);
      if RoutePath(hits[n].route) in reserved + DeclaredPaths(hits[..n]) then prev
      else prev + [Render(hits[n], |prev|)]
  }

  ghost function GateLocations(paths: seq<string>): seq<Location> {
    seq(|paths|, i requires 0 <= i < |paths| => GateLocation(paths[i]))
  }

  ghost function Elems<T>(s: seq<T>): set<T> {
    set x | x in s
  }

  function Www(host: string): string {
    "www." + host
  }

  lemma WwwKeepsHost(host: string)
    ensures |Www(host)| == 4 + |host| && Www(host)[4..] == host
  {
  }

  function NamesOf(be: Backend): seq<string> {
    if be.www then [be.host, Www(be.host)] else [be.host]
  }

  ghost function ServerOf(certs: set<string>, grp: seq<Backend>): ServerBlock
    requires grp != []
  {
    ServerBlock(grp[0].host,
           NamesOf(grp[0]),
           grp[0].host in certs, grp[0].nginx, grp[0].waf, Locations(grp))
  }

  ghost function Locations(grp: seq<Backend>): seq<Location> {
    LocationList(Reserved(grp), AllHits(grp))
  }

  /** The gate's own locations, the reserved paths, then the routes. */
  ghost function LocationList(reserved: seq<string>, hits: seq<Hit>): seq<Location> {
    [AcmeLocation, AuthLocation] + GateLocations(reserved) + RouteLocations(Elems(reserved), hits)
  }

  /** The backends that take part in generation for `host`. */
  function GroupOf(bs: seq<Backend>, host: string): seq<Backend> {
    if bs == [] then []
    else
      var be := bs[|bs| - 1];
      GroupOf(bs[..|bs| - 1], host) + (if be.host == host && be.host != "" && be.routes != [] then [be] else [])
  }

  lemma {:induction false} GroupMembers(bs: seq<Backend>, host: string)
    ensures forall b :: b in GroupOf(bs, host) <==> b in bs && b.host == host && host != "" && b.routes != []
  {
    if bs != [] {
      var n := |bs| - 1;
      assert bs == bs[..n] + [bs[n]];
      GroupMembers(bs[..n], host);
    }
  }

  /** The hosts to serve, in order of first appearance. */
  function HostsOf(bs: seq<Backend>): seq<string> {
    if bs == [] then []
    else
      var be := bs[|bs| - 1];
      var prev := HostsOf(bs[..|bs| - 1]);
      if be.host == "" || be.routes == [] || be.host in prev then prev else prev + [be.host]
  }

  lemma {:induction false} HostsMembers(bs: seq<Backend>)
    ensures forall h :: h in HostsOf(bs) <==> GroupOf(bs, h) != []
    ensures forall i, j | 0 <= i < j < |HostsOf(bs)| :: HostsOf(bs)[i] != HostsOf(bs)[j]
  {
    if bs != [] {
      HostsMembers(bs[..|bs| - 1]);
    }
  }

  ghost function HostServer(certs: set<string>, bs: seq<Backend>, host: string): ServerBlock
    requires GroupOf(bs, host) != []
  {
    ServerOf(certs, Ordered(GroupOf(bs, host)))
  }

  ghost predicate AllServed(bs: seq<Backend>, hosts: seq<string>) {
    forall i | 0 <= i < |hosts| :: GroupOf(bs, hosts[i]) != []
  }

  /** One server per host, in the order of `hosts`. */
  ghost function Rendered(certs: set<string>, bs: seq<Backend>, hosts: seq<string>): (r: seq<ServerBlock>)
    requires AllServed(bs, hosts)
    ensures |r| == |hosts| && forall i | 0 <= i < |hosts| :: r[i] == HostServer(certs, bs, hosts[i])
  {
    seq(|hosts|, i requires 0 <= i < |hosts| => HostServer(certs, bs, hosts[i]))
  }

  /** The hosts in the order in which their servers are written. */
  function SortedHosts(bs: seq<Backend>): seq<string> {
    Sort(Leq, HostsOf(bs))
  }

  lemma SortedHostsMembers(bs: seq<Backend>)
    ensures forall h :: h in SortedHosts(bs) <==> GroupOf(bs, h) != []
    ensures AllServed(bs, SortedHosts(bs))
    ensures multiset(SortedHosts(bs)) == multiset(HostsOf(bs))
  {
    HostsMembers(bs);
    SortPermutes(Leq, HostsOf(bs));
    SameElements(HostsOf(bs), SortedHosts(bs));
  }

  /** The whole configuration. */
  ghost function Config(certs: set<string>, bs: seq<Backend>): seq<ServerBlock> {
    SortedHostsMembers(bs);
    Rendered(certs, bs, SortedHosts(bs))
  }

  // ---------------------------------------------------------------- the generator

  lemma OwnerIndex(s: seq<Backend>, i: nat)
    requires i <= |s| && (i < |s| ==> OwnsRoot(s[i]))
    requires forall k | 0 <= k < i :: !OwnsRoot(s[k])
    ensures FirstOwner(s) == i
  {
  }

  method OrderGroup(grp: seq<Backend>) returns (out: seq<Backend>)
    ensures out == Ordered(grp)
  {
    out := Sort(ById, grp);
    ghost var sorted := out;
    for i := 0 to |out|
      invariant out == sorted
      invariant forall k | 0 <= k < i :: !OwnsRoot(sorted[k])
    {
      if OwnsRoot(out[i]) {
        OwnerIndex(sorted, i);
        out := out[0 := out[i]][i := out[0]];
        return;
      }
    }
    OwnerIndex(sorted, |sorted|);
  }

  method WriteGatePaths(grp: seq<Backend>) returns (seen: set<string>, out: seq<Location>)
    ensures seen == Elems(Reserved(grp))
    ensures out == GateLocations(Reserved(grp))
  {
    seen, out := {}, [];
    if UsesAuth(grp) {
      var reserved := GATE_PATHS;
      if !DeclaresPath(grp, ADMIN_PATH) {
        reserved := reserved + [ADMIN_PATH];
      }
      for i := 0 to |reserved|
        invariant seen == Elems(reserved[..i])
        invariant out == GateLocations(reserved[..i])
      {
        assert reserved[..i + 1] == reserved[..i] + [reserved[i]];
        seen := seen + {reserved[i]};
        out := out + [GateLocation(reserved[i])];
      }
      assert reserved[..|reserved|] == reserved;
    }
  }

  /** The routes of one backend, after the routes `done` of the backends before it. */
  method WriteMember(be: Backend, gate: set<string>, ghost done: seq<Hit>,
                     seen0: set<string>, out0: seq<Location>, index0: nat)
    returns (seen: set<string>, out: seq<Location>, index: nat)
    requires Written(out0, seen0, index0, gate, done)
    ensures Written(out, seen, index, gate, done + RouteHits(be))
  {
    seen, out, index := seen0, out0, index0;
    assert done + RouteHits(be)[..0] == done;
    for j := 0 to |be.routes|
      invariant Written(out, seen, index, gate, done + RouteHits(be)[..j])
    {
      var rt := be.routes[j];
      WriteStep(out, seen, index, gate, done, be, j);
      var p := if rt.path == "" then "/" else rt.path;
      if p !in seen {
        seen := seen + {p};
        out := out + [RouteLocation(p, rt.rule != RULE_PUBLIC, rt.upstream, index, be.nginx)];
        index := index + 1;
      }
    }
    assert RouteHits(be)[..|be.routes|] == RouteHits(be);
  }

  method WriteRoutes(grp: seq<Backend>, gate: set<string>) returns (out: seq<Location>)
    ensures out == RouteLocations(gate, AllHits(grp))
  {
    var seen := gate;
    var index := 0;
    out := [];
    for i := 0 to |grp|
      invariant Written(out, seen, index, gate, AllHits(grp[..i]))
    {
      seen, out, index := WriteMember(grp[i], gate, AllHits(grp[..i]), seen, out, index);
      assert grp[..i + 1] == grp[..i] + [grp[i]];
      AppendBackend(grp[..i], grp[i], "");
    }
    assert grp[..|grp|] == grp;
  }

  /** Renders the server block; `grp[0]` is the primary and gives the host-level settings. */
  method WriteServer(certs: set<string>, grp: seq<Backend>) returns (srv: ServerBlock)
    requires grp != []
    ensures srv == ServerOf(certs, grp)
  {
    var be := grp[0];
    var names := [be.host];
    if be.www {
      names := names + [Www(be.host)];
    }
    var seen, gate := WriteGatePaths(grp);
    var routes := WriteRoutes(grp, seen);
    srv := ServerBlock(be.host, names, be.host in certs, be.nginx, be.waf,
                  [AcmeLocation, AuthLocation] + gate + routes);
  }

  /** The writer's variables after the routes `hits`. */
  ghost predicate Written(out: seq<Location>, seen: set<string>, index: nat, gate: set<string>, hits: seq<Hit>) {
    && out == RouteLocations(gate, hits)
    && seen == gate + DeclaredPaths(hits)
    && index == |RouteLocations(gate, hits)|
  }

  lemma AppendRoute(gate: set<string>, hits: seq<Hit>, h: Hit)
    ensures DeclaredPaths(hits + [h]) == DeclaredPaths(hits) + {RoutePath(h.route)}
    ensures RouteLocations(gate, hits + [h])
         == if RoutePath(h.route) in gate + DeclaredPaths(hits) then RouteLocations(gate, hits)
            else RouteLocations(gate, hits) + [Render(h, |RouteLocations(gate, hits)|)]
  {
    assert (hits + [h])[..|hits|] == hits;
  }

  lemma WriteStep(out: seq<Location>, seen: set<string>, index: nat,
                  gate: set<string>, done: seq<Hit>, be: Backend, j: nat)
    requires j < |be.routes| && Written(out, seen, index, gate, done + RouteHits(be)[..j])
    ensures var h, next := Hit(be, be.routes[j]), done + RouteHits(be)[..j + 1];
            if RoutePath(h.route) in seen then Written(out, seen, index, gate, next)
            else Written(out + [Render(h, index)], seen + {RoutePath(h.route)}, index + 1, gate, next)
  {
    var hits, h := done + RouteHits(be)[..j], Hit(be, be.routes[j]);
    assert done + RouteHits(be)[..j + 1] == hits + [h];
    AppendRoute(gate, hits, h);
  }

  function Entry(byHost: map<string, seq<Backend>>, h: string): seq<Backend> {
    if h in byHost then byHost[h] else []
  }

  /** The grouping variables after the backends `bs`. */
  ghost predicate Grouped(hosts: seq<string>, byHost: map<string, seq<Backend>>, bs: seq<Backend>) {
    && hosts == HostsOf(bs)
    && (forall h :: h in byHost <==> h in hosts)
    && (forall h :: Entry(byHost, h) == GroupOf(bs, h))
  }

  lemma GroupAppend(bs: seq<Backend>, be: Backend, h: string)
    ensures GroupOf(bs + [be], h)
         == if be.host == h && h != "" && be.routes != [] then GroupOf(bs, h) + [be] else GroupOf(bs, h)
  {
    assert (bs + [be])[..|bs|] == bs;
  }

  lemma HostsAppend(bs: seq<Backend>, be: Backend)
    ensures HostsOf(bs + [be])
         == if be.host == "" || be.routes == [] || be.host in HostsOf(bs) then HostsOf(bs) else HostsOf(bs) + [be.host]
  {
    assert (bs + [be])[..|bs|] == bs;
  }

  lemma GroupSkip(hosts: seq<string>, byHost: map<string, seq<Backend>>, bs: seq<Backend>, be: Backend)
    requires Grouped(hosts, byHost, bs) && (be.host == "" || be.routes == [])
    ensures Grouped(hosts, byHost, bs + [be])
  {
    HostsAppend(bs, be);
    forall h ensures Entry(byHost, h) == GroupOf(bs + [be], h) { GroupAppend(bs, be, h); }
  }

  lemma EntryAdd(byHost: map<string, seq<Backend>>, bs: seq<Backend>, be: Backend, h: string)
    requires Entry(byHost, h) == GroupOf(bs, h) && be.host != "" && be.routes != []
    ensures Entry(byHost[be.host := Entry(byHost, be.host) + [be]], h) == GroupOf(bs + [be], h)
  {
    GroupAppend(bs, be, h);
  }

  lemma GroupAdd(hosts: seq<string>, byHost: map<string, seq<Backend>>, bs: seq<Backend>, be: Backend)
    requires Grouped(hosts, byHost, bs) && be.host != "" && be.routes != []
    ensures Grouped(if be.host in byHost then hosts else hosts + [be.host],
                    byHost[be.host := Entry(byHost, be.host) + [be]], bs + [be])
  {
    HostsAppend(bs, be);
    var byHost' := byHost[be.host := Entry(byHost, be.host) + [be]];
    forall h ensures Entry(byHost', h) == GroupOf(bs + [be], h) { EntryAdd(byHost, bs, be, h); }
  }

  method GroupByHost(bs: seq<Backend>) returns (hosts: seq<string>, byHost: map<string, seq<Backend>>)
    ensures Grouped(hosts, byHost, bs)
  {
    hosts, byHost := [], map[];
    for i := 0 to |bs|
      invariant Grouped(hosts, byHost, bs[..i])
    {
      var be := bs[i];
      assert bs[..i + 1] == bs[..i] + [be];
      if be.host == "" || be.routes == [] {
        GroupSkip(hosts, byHost, bs[..i], be);
        continue;
      }
      GroupAdd(hosts, byHost, bs[..i], be);
      if be.host !in byHost {
        hosts := hosts + [be.host];
      }
      byHost := byHost[be.host := Entry(byHost, be.host) + [be]];
    }
    assert bs[..|bs|] == bs;
  }

  /** The `i`-th server to write, from the backends that the map has for its host. */
  ghost predicate ServesAt(certs: set<string>, hosts: seq<string>, byHost: map<string, seq<Backend>>,
                           cfg: seq<ServerBlock>, i: nat)
  {
    i < |hosts| && i < |cfg| && hosts[i] in byHost && byHost[hosts[i]] != []
    && cfg[i] == ServerOf(certs, Ordered(byHost[hosts[i]]))
  }

  method ServeHost(certs: set<string>, hosts: seq<string>, byHost: map<string, seq<Backend>>, ghost cfg: seq<ServerBlock>, i: nat)
    returns (srv: ServerBlock)
    requires ServesAt(certs, hosts, byHost, cfg, i)
    ensures srv == cfg[i]
  {
    var ordered := OrderGroup(byHost[hosts[i]]);
    srv := WriteServer(certs, ordered);
  }

  method ServeHosts(certs: set<string>, hosts: seq<string>, byHost: map<string, seq<Backend>>, ghost cfg: seq<ServerBlock>)
    returns (out: seq<ServerBlock>)
    requires |cfg| == |hosts| && forall i | 0 <= i < |hosts| :: ServesAt(certs, hosts, byHost, cfg, i)
    ensures out == cfg
  {
    out := [];
    for i := 0 to |hosts|
      invariant out == cfg[..i]
    {
      var srv := ServeHost(certs, hosts, byHost, cfg, i);
      out := out + [srv];
    }
  }

  lemma SortedAreGrouped(hosts: seq<string>, byHost: map<string, seq<Backend>>, bs: seq<Backend>, i: nat)
    requires Grouped(hosts, byHost, bs) && i < |SortedHosts(bs)|
    ensures var h := SortedHosts(bs)[i]; h in byHost && byHost[h] == GroupOf(bs, h)
  {
    var h := SortedHosts(bs)[i];
    SortPermutes(Leq, HostsOf(bs));
    SameElements(HostsOf(bs), SortedHosts(bs));
    assert h in SortedHosts(bs) && Entry(byHost, h) == GroupOf(bs, h);
  }

  lemma ConfigServesAt(certs: set<string>, bs: seq<Backend>, hosts: seq<string>, byHost: map<string, seq<Backend>>, i: nat)
    requires Grouped(hosts, byHost, bs) && i < |SortedHosts(bs)|
    ensures ServesAt(certs, SortedHosts(bs), byHost, Config(certs, bs), i)
  {
    SortedHostsMembers(bs);
    SortedAreGrouped(hosts, byHost, bs, i);
  }

  method Generate(certs: set<string>, bs: seq<Backend>) returns (out: seq<ServerBlock>)
    ensures out == Config(certs, bs)
  {
    var hosts, byHost := GroupByHost(bs);
    var sorted := Sort(Leq, hosts);
    forall i | 0 <= i < |sorted| ensures ServesAt(certs, sorted, byHost, Config(certs, bs), i) {
      ConfigServesAt(certs, bs, hosts, byHost, i);
    }
    out := ServeHosts(certs, sorted, byHost, Config(certs, bs));
  }
}
