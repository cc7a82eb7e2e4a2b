/** Per-path grants: models/config.go (ids and inheritance), auth/directory.go, handlers/admin.go (rewrites). */
module Grants {
  import opened Models
  import opened Ordering
  import opened Paths
  import opened Matrix

  // ---------------------------------------------------------------- grant ids

  predicate IsRoot(path: string) {
    path == "" || path == "/"
  }

  function GrantID(id: string, path: string): string {
    if IsRoot(path) then id else id + "#" + path
  }

  /** One backend id is the other, or continues it after a "#". */
  predicate Related(a: string, b: string) {
    a == b || a + "#" <= b || b + "#" <= a
  }

  lemma GrantIDPrefix(id: string, p: string)
    ensures !IsRoot(p) ==> id + "#" <= GrantID(id, p) && GrantID(id, p) != id
    ensures !IsRoot(p) ==> GrantID(id, p)[|id| + 1..] == p
  {
    assert id + "#" + p == (id + "#") + p && |id + "#" + p| > |id|;
  }

  /** Two prefixes of one text are comparable, so ids that share a text up to "#" are related. */
  lemma PrefixesAreRelated(a: string, b: string, g: string)
    requires a + "#" <= g && (b == g || b + "#" <= g)
    ensures Related(a, b)
  {
    assert g[..|a| + 1] == a + "#";
    if b + "#" <= g {
      assert g[..|b| + 1] == b + "#";
      assert |a| < |b| ==> g[..|b|][..|a| + 1] == a + "#";
      assert |b| < |a| ==> g[..|a|][..|b| + 1] == b + "#";
      assert |a| == |b| ==> a == g[..|a|] == b;
    }
  }

  /** Two services can share a grant exactly when one id is the other or continues it after a "#". */
  lemma SharedGrantIff(a: string, b: string)
    ensures (exists p, q :: GrantID(a, p) == GrantID(b, q)) <==> Related(a, b)
  {
    forall p, q | GrantID(a, p) == GrantID(b, q) ensures Related(a, b) {
      SharedGrantIsRelated(a, p, b, q);
    }
    if a == b {
      assert GrantID(a, "/") == GrantID(b, "/");
    } else if a + "#" <= b {
      ContinuedId(a, b);
      assert GrantID(b, "/") == b;
    } else if b + "#" <= a {
      ContinuedId(b, a);
      assert GrantID(a, "/") == a;
    }
  }

  lemma SharedGrantIsRelated(a: string, p: string, b: string, q: string)
    requires GrantID(a, p) == GrantID(b, q)
    ensures Related(a, b)
  {
    GrantIDPrefix(a, p);
    GrantIDPrefix(b, q);
    if !IsRoot(p) {
      PrefixesAreRelated(a, b, GrantID(a, p));
    } else if !IsRoot(q) {
      PrefixesAreRelated(b, a, GrantID(b, q));
    }
  }

  /** A related longer id reads as a path grant of the shorter one, or as the service itself with an empty rest. */
  lemma ContinuedId(a: string, b: string)
    requires a + "#" <= b
    ensures exists p, q :: GrantID(a, p) == GrantID(b, q)
  {
    var rest := b[|a| + 1..];
    assert b == a + "#" + rest;
    if IsRoot(rest) {
      // the path "<rest>#x" is not a root
      assert GrantID(a, rest + "#x") == a + "#" + (rest + "#x") == b + "#" + "x" == GrantID(b, "x");
    } else {
      assert GrantID(a, rest) == b == GrantID(b, "/");
    }
  }

  /** Grant ids of unrelated services, or of one service, are equal exactly for the same service and path. */
  lemma GrantIDInjective(a: string, p: string, b: string, q: string)
    requires a == b || !Related(a, b)
    ensures GrantID(a, p) == GrantID(b, q) <==> a == b && (p == q || (IsRoot(p) && IsRoot(q)))
  {
    if GrantID(a, p) == GrantID(b, q) {
      SharedGrantIsRelated(a, p, b, q);
      GrantIDPrefix(a, p);
      GrantIDPrefix(b, q);
    }
  }

  /** Within one service the ids separate the paths, whatever the service is called. */
  lemma SameServiceInjective(id: string, p: string, q: string)
    requires !IsRoot(p)
    ensures GrantID(id, p) == GrantID(id, q) <==> p == q
    ensures GrantID(id, p) != id && id + "#" <= GrantID(id, p)
  {
    GrantIDInjective(id, p, id, q);
    GrantIDPrefix(id, p);
  }

  /** The prefix that a rewrite clears reaches a grant of another service exactly when the ids are related. */
  lemma ClearedPrefixIff(id: string, other: string)
    ensures (exists p :: id + "#" <= GrantID(other, p)) <==> Related(id, other)
  {
    forall p | id + "#" <= GrantID(other, p) ensures Related(id, other) {
      GrantIDPrefix(other, p);
      PrefixesAreRelated(id, other, GrantID(other, p));
    }
    if id == other || id + "#" <= other {
      GrantIDPrefix(other, "x");
      assert other <= other + "#" <= GrantID(other, "x");
      assert id + "#" <= GrantID(other, "x");
    } else if other + "#" <= id {
      var p := id[|other| + 1..] + "#";
      assert GrantID(other, p) == other + "#" + p == id + "#";
    }
  }

  // ---------------------------------------------------------------- inheritance

  predicate OwnsList(r: Route, path: string) {
    r.ownGrants && !IsRoot(r.path) && Under(path, TrimSlashes(r.path))
  }

  function Nearer(best: string, r: Route, path: string): string {
    if OwnsList(r, path) && |TrimSlashes(r.path)| > |best| then TrimSlashes(r.path) else best
  }

  /** The longest ancestor of `path` with its own list, or "" for the service itself. */
  function NearestOwner(routes: seq<Route>, path: string): string {
    if routes == [] then "" else Nearer(NearestOwner(routes[..|routes| - 1], path), routes[|routes| - 1], path)
  }

  function EffectiveGrant(be: Backend, rt: Route): string {
    if rt.ownGrants then GrantID(be.id, rt.path) else GrantID(be.id, NearestOwner(be.routes, rt.path))
  }

  lemma NearestStep(routes: seq<Route>, i: nat, path: string)
    requires i < |routes|
    ensures NearestOwner(routes[..i + 1], path) == Nearer(NearestOwner(routes[..i], path), routes[i], path)
  {
    assert routes[..i + 1][..i] == routes[..i];
  }

  method EffectiveGrantID(be: Backend, rt: Route) returns (g: string)
    ensures g == EffectiveGrant(be, rt)
  {
    if rt.ownGrants {
      return GrantID(be.id, rt.path);
    }
    var best := "";
    for i := 0 to |be.routes|
      invariant best == NearestOwner(be.routes[..i], rt.path)
      invariant best == "" || best[|best| - 1] != '/'
    {
      NearestStep(be.routes, i, rt.path);
      var r := be.routes[i];
      if !r.ownGrants || r.path == "" || r.path == "/" {
        continue;
      }
      var anc := TrimSlashes(r.path);
      if rt.path == anc || anc + "/" <= rt.path {
        if |anc| > |best| {
          best := anc;
        }
      }
    }
    assert be.routes[..|be.routes|] == be.routes;
    if best != "" {
      return GrantID(be.id, best);
    }
    return be.id;
  }

  /** `n` is the longest of the ancestors of `path` that carry their own list. */
  ghost predicate IsNearest(n: string, routes: seq<Route>, path: string) {
    && (n != "" ==> exists r | r in routes :: OwnsList(r, path) && TrimSlashes(r.path) == n)
    && (forall r | r in routes && OwnsList(r, path) :: |TrimSlashes(r.path)| <= |n|)
  }

  /** A route owns the list of a path: it has a list, is not the root, and is the path or a segment ancestor of it. */
  lemma OwnsListIff(r: Route, path: string)
    ensures var anc := TrimSlashes(r.path);
            OwnsList(r, path) <==> r.ownGrants && r.path != "" && r.path != "/" && (path == anc || anc + "/" <= path)
  {
  }

  /** A root path stands for the service; any other is the service, a hash and the path. */
  lemma GrantIDForms(id: string, path: string)
    ensures GrantID(id, "") == GrantID(id, "/") == id
    ensures path != "" && path != "/" ==> GrantID(id, path) == id + "#" + path
  {
  }

  lemma {:induction false} NearestOwnerIsNearest(routes: seq<Route>, path: string)
    ensures IsNearest(NearestOwner(routes, path), routes, path)
  {
    if routes != [] {
      var n := |routes| - 1;
      assert routes == routes[..n] + [routes[n]];
      NearestOwnerIsNearest(routes[..n], path);
    }
  }

  /** The nearest owner is determined by the set of owners: ancestors of one path are nested. */
  lemma NearestIsUnique(m: string, n: string, routes: seq<Route>, path: string)
    requires IsNearest(m, routes, path) && IsNearest(n, routes, path)
    ensures m == n
  {
    if m != "" && n != "" {
      AncestorsAreNested(path, m, n);
    }
  }

  /** Every prefix route is governed by its longest ancestor (or itself) with an own list, whatever other
      routes the service has. */
  lemma GovernedByNearestAncestor(be: Backend, rt: Route)
    requires rt in be.routes && (IsRoot(rt.path) || Canonical(rt.path))
    ensures EffectiveGrant(be, rt) == GrantID(be.id, NearestOwner(be.routes, rt.path))
    ensures IsNearest(NearestOwner(be.routes, rt.path), be.routes, rt.path)
    ensures rt.ownGrants && !IsRoot(rt.path) ==> NearestOwner(be.routes, rt.path) == rt.path
  {
    NearestOwnerIsNearest(be.routes, rt.path);
    var n := NearestOwner(be.routes, rt.path);
    if rt.ownGrants && !IsRoot(rt.path) {
      AncestorsAreNested(rt.path, n, rt.path);
    }
    if n != "" && IsRoot(rt.path) {
      var r :| r in be.routes && OwnsList(r, rt.path) && TrimSlashes(r.path) == n;
      assert n[|n| - 1] != '/' && |n + "/"| > 1;
    }
  }

  /** A new own list at `q` changes exactly the inheriting routes below it whose nearest owner was shorter. */
  lemma OwnListIsLocal(be: Backend, front: seq<Route>, back: seq<Route>, q: Route, rt: Route)
    requires be.routes == front + back
    requires q.ownGrants && Canonical(q.path) && !IsRoot(q.path)
    ensures var changed := !rt.ownGrants && Under(rt.path, q.path) && |NearestOwner(be.routes, rt.path)| < |q.path|;
            && (EffectiveGrant(be.(routes := front + [q] + back), rt) != EffectiveGrant(be, rt) <==> changed)
            && (changed ==> EffectiveGrant(be.(routes := front + [q] + back), rt) == GrantID(be.id, q.path))
  {
    var more := front + [q] + back;
    assert q in more;
    var n, m := NearestOwner(be.routes, rt.path), NearestOwner(more, rt.path);
    NearestOwnerIsNearest(be.routes, rt.path);
    NearestOwnerIsNearest(more, rt.path);
    forall r ensures r in more <==> r == q || r in be.routes {
      assert r in more <==> r in front || r == q || r in back;
    }
    if Under(rt.path, q.path) && |n| < |q.path| {
      assert m == q.path by { AncestorsAreNested(rt.path, q.path, m); }
      SameServiceInjective(be.id, q.path, n);
    } else {
      assert IsNearest(n, more, rt.path);
      NearestIsUnique(m, n, more, rt.path);
    }
  }

  /** A trailing slash separates the id of a path's own list from the id its descendants inherit. */
  lemma TrailingSlashIff(id: string, p: string)
    ensures GrantID(id, TrimSlashes(p)) == GrantID(id, p) <==> IsRoot(p) || p[|p| - 1] != '/'
  {
    var t := TrimSlashes(p);
    if !IsRoot(p) && p[|p| - 1] == '/' {
      SameServiceInjective(id, p, t);
      assert |t| < |p|;
    }
  }

  // ---------------------------------------------------------------- the user directory

  /** The directory that a list of users replaces everything with: later entries win. */
  function DirectoryOf(users: seq<User>): map<string, User> {
    if users == [] then map[]
    else DirectoryOf(users[..|users| - 1])[users[|users| - 1].email := users[|users| - 1]]
  }

  class UserDirectory {
    var byEmail: map<string, User>

    ghost predicate Valid()
      reads this
    {
      forall e | e in byEmail :: byEmail[e].email == e
    }

    constructor (users: seq<User>)
      ensures Valid() && byEmail == DirectoryOf(users)
    {
      byEmail := map[];
      new;
      Replace(users);
    }

    method Get(email: string) returns (u: Option<User>)
      ensures u == if email in byEmail then Some(byEmail[email]) else None
    {
      u := if email in byEmail then Some(byEmail[email]) else None;
    }

    method Replace(users: seq<User>)
      modifies this
      ensures Valid() && byEmail == DirectoryOf(users)
    {
      var m: map<string, User> := map[];
      for i := 0 to |users|
        invariant m == DirectoryOf(users[..i])
        invariant forall e | e in m :: m[e].email == e
      {
        assert users[..i + 1][..i] == users[..i];
        m := m[users[i].email := users[i]];
      }
      assert users[..|users|] == users;
      byEmail := m;
    }

    /** A snapshot of the users, in an unspecified order. */
    method All() returns (users: seq<User>)
      requires Valid()
      ensures Listing(users, byEmail)
    {
      var rest := byEmail.Keys;
      users := [];
      while rest != {}
        invariant rest <= byEmail.Keys
        invariant forall u | u in users :: u.email in byEmail && u == byEmail[u.email]
        invariant Emails(users) == byEmail.Keys - rest
        invariant forall i, j | 0 <= i < j < |users| :: users[i].email != users[j].email
        decreases rest
      {
        var e :| e in rest;
        AppendUser(users, byEmail[e]);
        users := users + [byEmail[e]];
        rest := rest - {e};
      }
    }
  }

  ghost function Emails(users: seq<User>): set<string> {
    set u | u in users :: u.email
  }

  lemma AppendUser(users: seq<User>, u: User)
    ensures Emails(users + [u]) == Emails(users) + {u.email}
    ensures forall x | x in users :: x.email in Emails(users)
  {
    assert forall x :: x in users + [u] <==> x in users || x == u;
  }

  /** `users` lists the directory `m`, each user once. */
  ghost predicate Listing(users: seq<User>, m: map<string, User>) {
    && (forall u | u in users :: u.email in m && u == m[u.email])
    && Emails(users) == m.Keys
    && (forall i, j | 0 <= i < j < |users| :: users[i].email != users[j].email)
  }

  lemma {:induction false} DirectoryKeys(users: seq<User>)
    ensures DirectoryOf(users).Keys == Emails(users)
  {
    if users != [] {
      var n := |users| - 1;
      DirectoryKeys(users[..n]);
      AppendUser(users[..n], users[n]);
      assert users == users[..n] + [users[n]];
    }
  }

  /** Of the entries with one email the last is stored; a list of distinct users is stored as it is. */
  lemma {:induction false} DirectoryStores(users: seq<User>, k: nat)
    requires k < |users| && forall j | k < j < |users| :: users[j].email != users[k].email
    ensures users[k].email in DirectoryOf(users) && DirectoryOf(users)[users[k].email] == users[k]
  {
    var n := |users| - 1;
    if k < n {
      DirectoryStores(users[..n], k);
    }
  }

  // ---------------------------------------------------------------- rewriting the grants of one service

  /** The grants outside a prefix, in order. */
  function Outside(grants: seq<string>, prefix: string): seq<string> {
    if grants == [] then []
    else
      var g := grants[|grants| - 1];
      Outside(grants[..|grants| - 1], prefix) + (if prefix <= g then [] else [g])
  }

  /** The grants that the submitted form gives to one user. */
  ghost function Wanted(id: string, grants: map<string, seq<string>>, email: string): set<string> {
    set p | p in grants && email in grants[p] :: GrantID(id, p)
  }

  /** What a rewrite of the path grants of service `id` makes of a user. */
  ghost predicate Regranted(id: string, grants: map<string, seq<string>>, u: User, v: User) {
    && v == u.(backends := v.backends)
    && Sorted(Leq, v.backends)
    && multiset(v.backends) == multiset(Outside(u.backends, id + "#")) + multiset(Wanted(id, grants, u.email))
  }

  function WantOf(want: map<string, set<string>>, email: string): set<string> {
    if email in want then want[email] else {}
  }

  /** Inverts the form: for every user, the grants to hold. */
  method CollectWanted(id: string, grants: map<string, seq<string>>) returns (want: map<string, set<string>>)
    ensures forall e :: WantOf(want, e) == Wanted(id, grants, e)
  {
    want := map[];
    var rest := grants.Keys;
    ghost var done: set<string> := {};
    while rest != {}
      invariant done == grants.Keys - rest && rest <= grants.Keys
      invariant forall e :: WantOf(want, e) == set p | p in done && e in grants[p] :: GrantID(id, p)
      decreases rest
    {
      var p :| p in rest;
      want := AddPath(GrantID(id, p), grants[p], want);
      rest := rest - {p};
      done := done + {p};
    }
    assert done == grants.Keys;
  }

  method AddPath(gid: string, emails: seq<string>, want0: map<string, set<string>>)
    returns (want: map<string, set<string>>)
    ensures forall e :: WantOf(want, e) == WantOf(want0, e) + (if e in emails then {gid} else {})
  {
    want := want0;
    for i := 0 to |emails|
      invariant forall e :: WantOf(want, e) == WantOf(want0, e) + (if e in emails[..i] then {gid} else {})
    {
      want := want[emails[i] := WantOf(want, emails[i]) + {gid}];
    }
    assert emails[..|emails|] == emails;
  }

  /** Keeps what is outside the service's prefix, adds what is wanted, sorts. */
  method RewriteUser(prefix: string, want: set<string>, u: User) returns (v: User)
    ensures v == u.(backends := v.backends)
    ensures Sorted(Leq, v.backends)
    ensures multiset(v.backends) == multiset(Outside(u.backends, prefix)) + multiset(want)
  {
    var kept := [];
    for i := 0 to |u.backends|
      invariant kept == Outside(u.backends[..i], prefix)
    {
      assert u.backends[..i + 1][..i] == u.backends[..i];
      if !(prefix <= u.backends[i]) {
        kept := kept + [u.backends[i]];
      }
    }
    assert u.backends[..|u.backends|] == u.backends;
    var rest := want;
    while rest != {}
      invariant rest <= want
      invariant multiset(kept) == multiset(Outside(u.backends, prefix)) + multiset(want - rest)
      decreases rest
    {
      var g :| g in rest;
      kept := kept + [g];
      assert want - (rest - {g}) == (want - rest) + {g};
      rest := rest - {g};
    }
    assert want - {} == want;
    LeqIsPreorder();
    SortSorts(Leq, kept);
    v := u.(backends := Sort(Leq, kept));
  }

  method RewriteUsers(id: string, grants: map<string, seq<string>>, users: seq<User>) returns (out: seq<User>)
    ensures |out| == |users|
    ensures forall k | 0 <= k < |users| :: Regranted(id, grants, users[k], out[k])
  {
    var want := CollectWanted(id, grants);
    out := [];
    for i := 0 to |users|
      invariant |out| == i
      invariant forall k | 0 <= k < i :: Regranted(id, grants, users[k], out[k])
    {
      assert WantOf(want, users[i].email) == Wanted(id, grants, users[i].email);
      var v := RewriteUser(id + "#", WantOf(want, users[i].email), users[i]);
      out := out + [v];
    }
  }

  /** Writes back the per-path grants of service `id`, for every user. */
  method ApplyPathGrants(dir: UserDirectory, id: string, grants: map<string, seq<string>>)
    requires dir.Valid()
    modifies dir
    ensures dir.Valid() && dir.byEmail.Keys == old(dir.byEmail.Keys)
    ensures forall e | e in dir.byEmail :: Regranted(id, grants, old(dir.byEmail)[e], dir.byEmail[e])
  {
    ghost var m := dir.byEmail;
    var users := dir.All();
    var out := RewriteUsers(id, grants, users);
    dir.Replace(out);
    DirectoryKeys(out);
    SameEmails(users, out);
    forall e | e in m ensures Regranted(id, grants, m[e], dir.byEmail[e]) {
      var k := ReplacedUser(users, out, m, e);
    }
  }

  lemma SameEmails(users: seq<User>, out: seq<User>)
    requires |out| == |users|
    requires forall k | 0 <= k < |users| :: out[k].email == users[k].email
    ensures Emails(out) == Emails(users)
  {
    forall e | e in Emails(users) ensures e in Emails(out) {
      var k :| 0 <= k < |users| && users[k].email == e;
      assert out[k] in out;
    }
    forall e | e in Emails(out) ensures e in Emails(users) {
      var k :| 0 <= k < |out| && out[k].email == e;
      assert users[k] in users;
    }
  }

  lemma SameEmailsStayDistinct(users: seq<User>, out: seq<User>)
    requires |out| == |users|
    requires forall k | 0 <= k < |users| :: out[k].email == users[k].email
    requires forall i, j | 0 <= i < j < |users| :: users[i].email != users[j].email
    ensures forall i, j | 0 <= i < j < |out| :: out[i].email != out[j].email
  {
  }

  /** Replacing each listed user by one with the same email replaces, for every key, the entry by its image. */
  lemma ReplacedUser(users: seq<User>, out: seq<User>, m: map<string, User>, e: string) returns (k: nat)
    requires Listing(users, m) && |out| == |users| && e in m
    requires forall k | 0 <= k < |users| :: out[k].email == users[k].email
    ensures k < |out| && users[k] == m[e]
    ensures e in DirectoryOf(out) && DirectoryOf(out)[e] == out[k]
  {
    assert e in Emails(users);
    var u :| u in users && u.email == e;
    k :| k < |users| && users[k] == u;
    SameEmailsStayDistinct(users, out);
    DirectoryStores(out, k);
  }

  /** What the Access tab makes of a user's service-wide grant. */
  function ServiceGranted(id: string, on: bool, u: User): User {
    if on && id !in u.backends then u.(backends := u.backends + [id])
    else if !on && id in u.backends then u.(backends := Without(u.backends, id))
    else u
  }

  function Without(grants: seq<string>, id: string): seq<string> {
    if grants == [] then []
    else
      var g := grants[|grants| - 1];
      Without(grants[..|grants| - 1], id) + (if g != id then [g] else [])
  }

  method Revoke(grants: seq<string>, id: string) returns (kept: seq<string>)
    ensures kept == Without(grants, id)
  {
    kept := [];
    for j := 0 to |grants|
      invariant kept == Without(grants[..j], id)
    {
      assert grants[..j + 1][..j] == grants[..j];
      if grants[j] != id {
        kept := kept + [grants[j]];
      }
    }
    assert grants[..|grants|] == grants;
  }

  /** `kept` is `grants` without the occurrences of `id`: `at` lists, in order, the positions that remain. */
  ghost predicate KeptAt(grants: seq<string>, kept: seq<string>, at: seq<nat>, id: string) {
    && |at| == |kept| && (forall i, j | 0 <= i < j < |at| :: at[i] < at[j])
    && (forall i | 0 <= i < |at| :: at[i] < |grants| && grants[at[i]] == kept[i] != id)
    && (forall k | 0 <= k < |grants| && grants[k] != id :: k in at)
  }

  lemma KeptMore(grants: seq<string>, kept: seq<string>, at: seq<nat>, id: string, g: string)
    requires KeptAt(grants, kept, at, id)
    ensures if g == id then KeptAt(grants + [g], kept, at, id) else KeptAt(grants + [g], kept + [g], at + [|grants|], id)
  {
    forall k | 0 <= k < |grants| && grants[k] != id ensures k in at + [|grants|] {
      assert k in at;
    }
    assert |grants| in at + [|grants|];
  }

  lemma {:induction false} WithoutKeeps(grants: seq<string>, id: string) returns (at: seq<nat>)
    ensures KeptAt(grants, Without(grants, id), at, id)
  {
    at := [];
    if grants != [] {
      var n := |grants| - 1;
      var front := WithoutKeeps(grants[..n], id);
      KeptMore(grants[..n], Without(grants[..n], id), front, id, grants[n]);
      Snoc(grants);
      if grants[n] == id {
        NothingMore(Without(grants[..n], id));
        at := front;
      } else {
        at := front + [n];
      }
    }
  }

  lemma NothingMore(s: seq<string>)
    ensures s + [] == s
  {
  }

  /** What the ticks do to a user: nothing but the grant of the service changes. A ticked user who lacks it gets
      it once, at the end; one who holds it keeps the list as it is; an unticked user loses it and nothing else. */
  ghost predicate Reticked(id: string, on: bool, u: User, v: User) {
    && v == u.(backends := v.backends)
    && (on && id in u.backends ==> v.backends == u.backends)
    && (on && id !in u.backends ==> v.backends == u.backends + [id])
    && (!on ==> exists at :: KeptAt(u.backends, v.backends, at, id))
  }

  lemma ServiceGrantIsReticked(id: string, on: bool, u: User)
    ensures Reticked(id, on, u, ServiceGranted(id, on, u))
  {
    if !on {
      var at := WithoutKeeps(u.backends, id);
      if id !in u.backends {
        WithoutAbsent(u.backends, id);
      }
    }
  }

  lemma {:induction false} WithoutAbsent(grants: seq<string>, id: string)
    requires id !in grants
    ensures Without(grants, id) == grants
  {
    if grants != [] {
      WithoutAbsent(grants[..|grants| - 1], id);
      Snoc(grants);
    }
  }

  /** So the service is held exactly if ticked, and every other grant as often as before. */
  lemma RetickedCounts(id: string, on: bool, u: User, g: string)
    ensures var v := ServiceGranted(id, on, u);
            && (id in v.backends <==> on)
            && (g != id ==> multiset(v.backends)[g] == multiset(u.backends)[g])
            && (on ==> multiset(v.backends)[id] == if id in u.backends then multiset(u.backends)[id] else 1)
  {
    var v := ServiceGranted(id, on, u);
    if on && id !in u.backends {
      SnocCount(u.backends, id, true, g);
      SnocCount(u.backends, id, true, id);
      assert multiset(u.backends)[id] == 0;
    } else if !on && id in u.backends {
      WithoutCounts(u.backends, id, g);
      WithoutCounts(u.backends, id, id);
    }
    assert id in v.backends <==> multiset(v.backends)[id] > 0;
  }

  ghost predicate ServiceRewritten(id: string, enabled: set<string>, u: User, v: User) {
    v.email == u.email && v == ServiceGranted(id, u.email in enabled, u)
  }

  method RewriteServiceGrants(id: string, enabled: set<string>, users: seq<User>) returns (out: seq<User>)
    ensures |out| == |users|
    ensures forall k | 0 <= k < |users| :: ServiceRewritten(id, enabled, users[k], out[k])
  {
    out := [];
    for i := 0 to |users|
      invariant |out| == i
      invariant forall k | 0 <= k < i :: ServiceRewritten(id, enabled, users[k], out[k])
    {
      var u := users[i];
      var has := id in u.backends;
      if u.email in enabled && !has {
        u := u.(backends := u.backends + [id]);
      } else if u.email !in enabled && has {
        var kept := Revoke(u.backends, id);
        u := u.(backends := kept);
      }
      out := out + [u];
    }
  }

  /** Writes back the service-wide grants; `sent` is false when the form did not carry the list. */
  method ApplyServiceGrants(dir: UserDirectory, id: string, enabled: set<string>, sent: bool)
    requires dir.Valid()
    modifies dir
    ensures dir.Valid() && dir.byEmail.Keys == old(dir.byEmail.Keys)
    ensures !sent ==> dir.byEmail == old(dir.byEmail)
    ensures sent ==> forall e | e in dir.byEmail :: ServiceRewritten(id, enabled, old(dir.byEmail)[e], dir.byEmail[e])
    ensures sent ==> forall e | e in dir.byEmail :: Reticked(id, e in enabled, old(dir.byEmail)[e], dir.byEmail[e])
  {
    if !sent {
      return;
    }
    ghost var m := dir.byEmail;
    var users := dir.All();
    var out := RewriteServiceGrants(id, enabled, users);
    dir.Replace(out);
    DirectoryKeys(out);
    SameEmails(users, out);
    forall e | e in m
      ensures ServiceRewritten(id, enabled, m[e], dir.byEmail[e]) && Reticked(id, e in enabled, m[e], dir.byEmail[e])
    {
      var k := ReplacedUser(users, out, m, e);
      ServiceGrantIsReticked(id, e in enabled, m[e]);
    }
  }

  // ---------------------------------------------------------------- the rewrite is exact

  /** One more element, which a filter may drop. */
  lemma SnocCount(s: seq<string>, x: string, keep: bool, g: string)
    ensures multiset(s + (if keep then [x] else []))[g] == multiset(s)[g] + (if keep && x == g then 1 else 0)
  {
    if !keep {
      assert s + [] == s;
    }
  }

  lemma {:induction false} OutsideCounts(grants: seq<string>, prefix: string, g: string)
    ensures multiset(Outside(grants, prefix))[g] == if prefix <= g then 0 else multiset(grants)[g]
  {
    if grants != [] {
      var n := |grants| - 1;
      OutsideCounts(grants[..n], prefix, g);
      Snoc(grants);
      SnocCount(grants[..n], grants[n], true, g);
      SnocCount(Outside(grants[..n], prefix), grants[n], !(prefix <= grants[n]), g);
    }
  }

  lemma {:induction false} WithoutCounts(grants: seq<string>, id: string, g: string)
    ensures multiset(Without(grants, id))[g] == if g == id then 0 else multiset(grants)[g]
  {
    if grants != [] {
      var n := |grants| - 1;
      WithoutCounts(grants[..n], id, g);
      Snoc(grants);
      SnocCount(grants[..n], grants[n], true, g);
      SnocCount(Without(grants[..n], id), grants[n], grants[n] != id, g);
    }
  }

  lemma RegrantedCount(id: string, grants: map<string, seq<string>>, u: User, v: User, g: string)
    requires Regranted(id, grants, u, v)
    ensures multiset(v.backends)[g]
         == (if id + "#" <= g then 0 else multiset(u.backends)[g]) + (if g in Wanted(id, grants, u.email) then 1 else 0)
  {
    OutsideCounts(u.backends, id + "#", g);
  }

  /** After the rewrite a user holds the grant of a submitted path iff listed for it. */
  lemma HoldsIffListed(id: string, grants: map<string, seq<string>>, u: User, v: User, p: string)
    requires Regranted(id, grants, u, v) && !IsRoot(p)
    ensures Authorized(v, GrantID(id, p)) <==> p in grants && u.email in grants[p]
  {
    var g := GrantID(id, p);
    RegrantedCount(id, grants, u, v, g);
    assert g in v.backends <==> multiset(v.backends)[g] > 0;
    forall q ensures GrantID(id, q) == g <==> p == q {
      SameServiceInjective(id, p, q);
    }
  }

  /** No other grant of the service survives: every path grant left was submitted. */
  lemma NoStaleGrant(id: string, grants: map<string, seq<string>>, u: User, v: User, g: string)
    requires Regranted(id, grants, u, v) && id + "#" <= g && g in v.backends
    ensures exists p | p in grants :: GrantID(id, p) == g && u.email in grants[p]
  {
    RegrantedCount(id, grants, u, v, g);
    assert g in v.backends <==> multiset(v.backends)[g] > 0;
  }

  /** Outside the service's prefix every multiplicity is kept, except that a root key adds the service id. */
  lemma OthersAreKept(id: string, grants: map<string, seq<string>>, u: User, v: User, g: string)
    requires Regranted(id, grants, u, v) && !(id + "#" <= g)
    ensures multiset(v.backends)[g] == multiset(u.backends)[g]
              + (if g == id && exists p | p in grants :: IsRoot(p) && u.email in grants[p] then 1 else 0)
  {
    RegrantedCount(id, grants, u, v, g);
    forall p | p in grants && GrantID(id, p) == g ensures IsRoot(p) && g == id {
      if !IsRoot(p) {
        SameServiceInjective(id, p, p);
      }
    }
  }

  /** Every rewrite of service `id` leaves every grant of `other` to every user. */
  ghost predicate LeavesAlone(id: string, other: string) {
    forall grants, u, v, p | Regranted(id, grants, u, v) ::
      multiset(v.backends)[GrantID(other, p)] == multiset(u.backends)[GrantID(other, p)]
  }

  /** The grants of another service are untouched by every rewrite exactly when the ids are not related. */
  lemma OtherServicesAreKeptIff(id: string, other: string)
    ensures LeavesAlone(id, other) <==> !Related(id, other)
  {
    if Related(id, other) {
      ClearedPrefixIff(id, other);
      var p :| id + "#" <= GrantID(other, p);
      ClearingForgets(id, GrantID(other, p));
    } else {
      forall grants, u, v, p | Regranted(id, grants, u, v)
        ensures multiset(v.backends)[GrantID(other, p)] == multiset(u.backends)[GrantID(other, p)]
      {
        ClearedPrefixIff(id, other);
        SharedGrantIff(id, other);
        OthersAreKept(id, grants, u, v, GrantID(other, p));
        assert GrantID(id, "/") == id;
      }
    }
  }

  /** Saving an empty form takes every grant under the prefix away. */
  lemma ClearingForgets(id: string, g: string)
    requires id + "#" <= g
    ensures exists u, v :: Regranted(id, map[], u, v) && multiset(u.backends)[g] == 1 && multiset(v.backends)[g] == 0
  {
    var u, v := User("", "", "", false, [g]), User("", "", "", false, []);
    assert [g][..0] == [] && Outside([g], id + "#") == [];
    assert Wanted(id, map[], "") == {};
    assert Regranted(id, map[], u, v);
    assert multiset(u.backends)[g] == 1;
  }

  /** Saving the same form again changes nothing, unless a root key adds the service id once more. */
  lemma RewriteIsIdempotentIff(id: string, grants: map<string, seq<string>>, u: User, v: User, w: User)
    requires Regranted(id, grants, u, v) && Regranted(id, grants, v, w)
    ensures w == v <==> !exists p | p in grants :: IsRoot(p) && u.email in grants[p]
  {
    if exists p | p in grants :: IsRoot(p) && u.email in grants[p] {
      OthersAreKept(id, grants, v, w, id);
    } else {
      forall g ensures multiset(w.backends)[g] == multiset(v.backends)[g] {
        RegrantedCount(id, grants, u, v, g);
        RegrantedCount(id, grants, v, w, g);
        if !(id + "#" <= g) {
          OthersAreKept(id, grants, v, w, g);
        }
      }
      forall x, y | Leq(x, y) && Leq(y, x) ensures x == y { LeqAntisymmetric(x, y); }
      SortedUnique(Leq, w.backends, v.backends);
    }
  }

  /** The lists a user is checked against after both rewrites, whatever routes and keys the form has: the
      list keyed by the nearest owner itself, or without an owner the service's ticks and root keys. */
  lemma SavedFormGoverns(be: Backend, rt: Route, grants: map<string, seq<string>>, enabled: set<string>,
                         u: User, v: User)
    requires rt in be.routes && (IsRoot(rt.path) || Canonical(rt.path))
    requires Regranted(be.id, grants, ServiceGranted(be.id, u.email in enabled, u), v)
    ensures var n := NearestOwner(be.routes, rt.path);
            Authorized(v, EffectiveGrant(be, rt)) <==>
              if n != "" then n in grants && u.email in grants[n]
              else u.email in enabled || exists p | p in grants :: IsRoot(p) && u.email in grants[p]
  {
    var s := ServiceGranted(be.id, u.email in enabled, u);
    var n := NearestOwner(be.routes, rt.path);
    GovernedByNearestAncestor(be, rt);
    if n != "" {
      assert n != "/";
      HoldsIffListed(be.id, grants, s, v, n);
    } else {
      OthersAreKept(be.id, grants, s, v, be.id);
      WithoutCounts(u.backends, be.id, be.id);
      assert be.id in v.backends <==> multiset(v.backends)[be.id] > 0;
      assert be.id in s.backends <==> multiset(s.backends)[be.id] > 0;
      assert be.id in s.backends <==> u.email in enabled;
    }
  }

  /** With the keys that a saved form has, the nearest owner has its list exactly if it is stored without
      a final slash. */
  lemma OwnerHasListIff(be: Backend, rt: Route, grants: map<string, seq<string>>)
    requires forall p :: p in grants <==> exists r | r in be.routes :: r.ownGrants && r.path == p
    requires NearestOwner(be.routes, rt.path) != ""
    ensures var n := NearestOwner(be.routes, rt.path);
            n in grants <==> exists r | r in be.routes :: OwnsList(r, rt.path) && r.path == n
  {
    var n := NearestOwner(be.routes, rt.path);
    NearestOwnerIsNearest(be.routes, rt.path);
    var o :| o in be.routes && OwnsList(o, rt.path) && TrimSlashes(o.path) == n;
    if r :| r in be.routes && r.ownGrants && r.path == n {
      assert TrimSlashes(n) == n && n != "/";
      assert OwnsList(r, rt.path);
    }
  }

  // ---------------------------------------------------------------- opening and saving the form

  /** The users that hold the grant of `path`, as the form shows them. */
  ghost function Grantees(m: map<string, User>, id: string, path: string): set<string> {
    set e | e in m && GrantID(id, path) in m[e].backends
  }

  method PathGrantees(dir: UserDirectory, id: string, path: string) returns (out: seq<string>)
    requires dir.Valid()
    ensures Sorted(Leq, out) && forall i, j | 0 <= i < j < |out| :: out[i] != out[j]
    ensures forall e :: e in out <==> GrantID(id, path) != id && e in Grantees(dir.byEmail, id, path)
  {
    out := [];
    var want := GrantID(id, path);
    if want == id {
      return;
    }
    var users := dir.All();
    for k := 0 to |users|
      invariant forall e :: e in out <==> exists i | 0 <= i < k :: users[i].email == e && want in users[i].backends
      invariant forall i, j | 0 <= i < j < |out| :: out[i] != out[j]
    {
      if want in users[k].backends {
        assert users[k].email !in out;
        out := out + [users[k].email];
      }
    }
    ListedGrantees(users, dir.byEmail, id, path);
    LeqIsPreorder();
    SortSorts(Leq, out);
    SameElements(out, Sort(Leq, out));
    NoDupsSurvive(out, Sort(Leq, out));
    out := Sort(Leq, out);
  }

  lemma ListedGrantees(users: seq<User>, m: map<string, User>, id: string, path: string)
    requires Listing(users, m)
    ensures forall e :: e in Grantees(m, id, path) <==>
              exists i | 0 <= i < |users| :: users[i].email == e && GrantID(id, path) in users[i].backends
  {
    forall e | e in Grantees(m, id, path)
      ensures exists i | 0 <= i < |users| :: users[i].email == e && GrantID(id, path) in users[i].backends
    {
      assert e in Emails(users);
      var u :| u in users && u.email == e;
      var i :| 0 <= i < |users| && users[i] == u;
    }
  }

  /** The form shows what was saved: the known users among those listed for the path, and nobody for a
      path that was not submitted. */
  lemma FormShowsWhatWasSaved(id: string, grants: map<string, seq<string>>, m: map<string, User>,
                              m': map<string, User>, p: string, e: string)
    requires m'.Keys == m.Keys && (forall x | x in m :: m[x].email == x && Regranted(id, grants, m[x], m'[x]))
    requires !IsRoot(p)
    ensures e in Grantees(m', id, p) <==> e in m && p in grants && e in grants[p]
  {
    if e in m {
      HoldsIffListed(id, grants, m[e], m'[e], p);
    }
  }

  /** A user's path grants of service `id` are all among the paths of the form, held once, in order. */
  ghost predicate Settled(id: string, grants: map<string, seq<string>>, u: User) {
    && Sorted(Leq, u.backends)
    && forall g | g in u.backends && id + "#" <= g ::
         multiset(u.backends)[g] == 1 && exists p | p in grants :: GrantID(id, p) == g
  }

  /** Saving the form as it was opened changes a user exactly when the user's grants were not settled. */
  lemma UnchangedFormIff(id: string, grants: map<string, seq<string>>, u: User, v: User)
    requires Regranted(id, grants, u, v)
    requires forall p | p in grants :: !IsRoot(p) && (u.email in grants[p] <==> Authorized(u, GrantID(id, p)))
    ensures v == u <==> Settled(id, grants, u)
  {
    if Settled(id, grants, u) {
      forall g ensures multiset(v.backends)[g] == multiset(u.backends)[g] {
        UnchangedGrant(id, grants, u, v, g);
      }
      forall x, y | Leq(x, y) && Leq(y, x) ensures x == y { LeqAntisymmetric(x, y); }
      assert multiset(v.backends) == multiset(u.backends);
      SortedUnique(Leq, v.backends, u.backends);
    } else if v == u {
      forall g | g in u.backends && id + "#" <= g
        ensures multiset(u.backends)[g] == 1 && exists p | p in grants :: GrantID(id, p) == g
      {
        NoStaleGrant(id, grants, u, v, g);
        RegrantedCount(id, grants, u, v, g);
      }
    }
  }

  lemma UnchangedGrant(id: string, grants: map<string, seq<string>>, u: User, v: User, g: string)
    requires Regranted(id, grants, u, v) && Settled(id, grants, u)
    requires forall p | p in grants :: !IsRoot(p) && (u.email in grants[p] <==> Authorized(u, GrantID(id, p)))
    ensures multiset(v.backends)[g] == multiset(u.backends)[g]
  {
    assert g in u.backends <==> multiset(u.backends)[g] > 0;
    if id + "#" <= g {
      RegrantedCount(id, grants, u, v, g);
      if g in u.backends {
        var p :| p in grants && GrantID(id, p) == g;
        assert g in Wanted(id, grants, u.email);
      }
    } else {
      OthersAreKept(id, grants, u, v, g);
    }
  }
}
