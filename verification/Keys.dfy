/** proxy/generate.go: when NGINX takes two locations of one server for the same. */
module Keys {
  import opened Models
  import opened Matrix
  import opened Proxy
  import opened Generation

  /** A location as NGINX reads it: `^~` and plain prefixes count as one class, patterns never clash. */
  datatype LocKey = Exact(name: string) | Prefix(name: string) | Pattern(text: string)

  predicate IsBlank(c: char) {
    c == ' ' || c == '\t' || c == '\r' || c == '\n'
  }

  function SkipBlanks(s: string): string {
    if s != "" && IsBlank(s[0]) then SkipBlanks(s[1..]) else s
  }

  function DropBlanks(s: string): string {
    if s != "" && IsBlank(s[|s| - 1]) then DropBlanks(s[..|s| - 1]) else s
  }

  /** The text after `location`, split into modifier and name. */
  function ParseKey(text: string): LocKey {
    var t := DropBlanks(SkipBlanks(text));
    if "=" <= t then Exact(SkipBlanks(t[1..]))
    else if "^~" <= t then Prefix(SkipBlanks(t[2..]))
    else if "~" <= t then Pattern(t)
    else Prefix(t)
  }

  function KeyOf(l: Location): LocKey {
    match l
    case AcmeLocation => Prefix(ACME_PATH)
    case AuthLocation => Exact(AUTH_PATH)
    case GateLocation(p) => Prefix(p)
    case RouteLocation(p, _, _, _, _) => ParseKey(p)
    case SlashRedirect(p) => Prefix(p)
  }

  /** The two named locations that close every server. */
  const NAMED := [Prefix("@login"), Prefix("@forbidden")]

  ghost function KeysOf(locs: seq<Location>, named: seq<LocKey>): (r: seq<LocKey>)
    ensures |r| == |locs| + |named|
    ensures forall i | 0 <= i < |locs| :: r[i] == KeyOf(locs[i])
    ensures forall i | 0 <= i < |named| :: r[|locs| + i] == named[i]
  {
    seq(|locs|, i requires 0 <= i < |locs| => KeyOf(locs[i])) + named
  }

  /** No two locations of a server are the same to NGINX. */
  ghost predicate NoDuplicates(keys: seq<LocKey>) {
    forall i, j | 0 <= i < j < |keys| && !keys[i].Pattern? :: keys[i] != keys[j]
  }

  /** A declared path spells the key of one of the locations that every server has. */
  ghost predicate SpellsFixed(declared: set<string>, fixed: set<LocKey>) {
    exists p | p in declared :: ParseKey(p) in fixed
  }

  /** A declared path spells the key of another declared or reserved path. */
  ghost predicate SpellsOther(declared: set<string>, reserved: seq<string>) {
    exists p, q | p in declared && (q in declared || q in reserved) ::
      p != q && ParseKey(p) == ParseKey(q) && !ParseKey(p).Pattern?
  }

  /** What the proofs need of the fixed locations and the reserved paths. */
  ghost predicate Separate(reserved: seq<string>, named: seq<LocKey>) {
    && |named| == 2 && named[0] != named[1] && named[0].Prefix? && named[1].Prefix?
    && KeyOf(AcmeLocation) !in named
    && (forall i, j | 0 <= i < j < |reserved| :: reserved[i] != reserved[j])
    && (forall p | p in reserved :: ParseKey(p) == Prefix(p) && Prefix(p) !in named && Prefix(p) != KeyOf(AcmeLocation))
  }

  ghost function Fixed(named: seq<LocKey>): set<LocKey> {
    {KeyOf(AcmeLocation), KeyOf(AuthLocation)} + (set k | k in named)
  }

  /** Without such spellings two locations have two keys. */
  lemma LocationsHaveKeys(reserved: seq<string>, hits: seq<Hit>, named: seq<LocKey>, i: nat, j: nat)
    requires Separate(reserved, named) && i < j < |LocationList(reserved, hits)|
    requires !SpellsFixed(DeclaredPaths(hits), Fixed(named)) && !SpellsOther(DeclaredPaths(hits), reserved)
    ensures var k, m := KeyOf(LocationList(reserved, hits)[i]), KeyOf(LocationList(reserved, hits)[j]);
            k != m || k.Pattern?
  {
    LocationAt(reserved, hits, i);
    LocationAt(reserved, hits, j);
    ListIsDistinct(reserved, hits, i, j);
  }

  lemma NamedHaveKeys(reserved: seq<string>, hits: seq<Hit>, named: seq<LocKey>, i: nat)
    requires Separate(reserved, named) && i < |LocationList(reserved, hits)|
    requires !SpellsFixed(DeclaredPaths(hits), Fixed(named))
    ensures KeyOf(LocationList(reserved, hits)[i]) !in named
  {
    LocationAt(reserved, hits, i);
  }

  /** Every declared or reserved path has a location with its key. */
  lemma PathHasKey(reserved: seq<string>, hits: seq<Hit>, named: seq<LocKey>, p: string) returns (i: nat)
    requires Separate(reserved, named) && (p in DeclaredPaths(hits) || p in reserved)
    ensures 2 <= i < |LocationList(reserved, hits)|
    ensures var l := LocationList(reserved, hits)[i]; Declared(l) && l.path == p && KeyOf(l) == ParseKey(p)
  {
    var locs := LocationList(reserved, hits);
    if p in reserved {
      var k :| 0 <= k < |reserved| && reserved[k] == p;
      i := 2 + k;
      LocationAt(reserved, hits, i);
    } else {
      var k := PathIsListed(reserved, hits, p);
      var j :| 0 <= j < |locs| && locs[j] == Render(FirstDeclarer(hits, p), k);
      i := j;
      LocationAt(reserved, hits, i);
    }
  }

  lemma FixedIsRepeated(reserved: seq<string>, hits: seq<Hit>, named: seq<LocKey>, p: string)
    requires Separate(reserved, named) && p in DeclaredPaths(hits) && ParseKey(p) in Fixed(named)
    ensures !NoDuplicates(KeysOf(LocationList(reserved, hits), named))
  {
    var locs := LocationList(reserved, hits);
    var keys := KeysOf(locs, named);
    var i := PathHasKey(reserved, hits, named, p);
    LocationAt(reserved, hits, 0);
    LocationAt(reserved, hits, 1);
    assert keys[i] == ParseKey(p) && keys[0] == KeyOf(AcmeLocation) && keys[1] == KeyOf(AuthLocation);
    assert keys[|locs|] == named[0] && keys[|locs| + 1] == named[1];
  }

  lemma OtherIsRepeated(reserved: seq<string>, hits: seq<Hit>, named: seq<LocKey>, p: string, q: string)
    requires Separate(reserved, named) && p in DeclaredPaths(hits) && (q in DeclaredPaths(hits) || q in reserved)
    requires p != q && ParseKey(p) == ParseKey(q) && !ParseKey(p).Pattern?
    ensures !NoDuplicates(KeysOf(LocationList(reserved, hits), named))
  {
    var keys := KeysOf(LocationList(reserved, hits), named);
    var i := PathHasKey(reserved, hits, named, p);
    var j := PathHasKey(reserved, hits, named, q);
    assert keys[i] == keys[j] && i != j;
  }

  lemma KeysDiffer(reserved: seq<string>, hits: seq<Hit>, named: seq<LocKey>, i: nat, j: nat)
    requires Separate(reserved, named) && i < j < |LocationList(reserved, hits)| + |named|
    requires !SpellsFixed(DeclaredPaths(hits), Fixed(named)) && !SpellsOther(DeclaredPaths(hits), reserved)
    ensures var keys := KeysOf(LocationList(reserved, hits), named); keys[i] != keys[j] || keys[i].Pattern?
  {
    var n, keys := |LocationList(reserved, hits)|, KeysOf(LocationList(reserved, hits), named);
    if j < n {
      LocationsHaveKeys(reserved, hits, named, i, j);
    } else if i < n {
      NamedHaveKeys(reserved, hits, named, i);
      assert keys[n + (j - n)] == named[j - n];
    } else {
      assert keys[n + (i - n)] == named[i - n] && keys[n + (j - n)] == named[j - n];
    }
  }

  lemma ListKeysIff(reserved: seq<string>, hits: seq<Hit>, named: seq<LocKey>)
    requires Separate(reserved, named)
    ensures NoDuplicates(KeysOf(LocationList(reserved, hits), named))
       <==> !SpellsFixed(DeclaredPaths(hits), Fixed(named)) && !SpellsOther(DeclaredPaths(hits), reserved)
  {
    var d := DeclaredPaths(hits);
    if SpellsFixed(d, Fixed(named)) {
      var p :| p in d && ParseKey(p) in Fixed(named);
      FixedIsRepeated(reserved, hits, named, p);
    } else if SpellsOther(d, reserved) {
      var p, q :| p in d && (q in d || q in reserved)
        && p != q && ParseKey(p) == ParseKey(q) && !ParseKey(p).Pattern?;
      OtherIsRepeated(reserved, hits, named, p, q);
    } else {
      var keys := KeysOf(LocationList(reserved, hits), named);
      forall i, j | 0 <= i < j < |keys| && !keys[i].Pattern? ensures keys[i] != keys[j] {
        KeysDiffer(reserved, hits, named, i, j);
      }
    }
  }

  /** The keys of a server as it is written. */
  ghost function ServerKeys(grp: seq<Backend>): seq<LocKey> {
    KeysOf(Locations(grp), NAMED)
  }

  lemma PlainIsPrefix(p: string)
    requires p != "" && p[0] == '/' && !IsBlank(p[|p| - 1])
    ensures ParseKey(p) == Prefix(p)
  {
  }

  lemma ReservedArePlain(grp: seq<Backend>, p: string)
    requires p in Reserved(grp)
    ensures p != "" && p[0] == '/' && !IsBlank(p[|p| - 1]) && p != ACME_PATH
  {
    ReservedIsDistinct(grp);
  }

  lemma ServerIsSeparate(grp: seq<Backend>)
    ensures Separate(Reserved(grp), NAMED)
  {
    ReservedIsDistinct(grp);
    assert NAMED[0].name[0] == '@' && NAMED[1].name[0] == '@' && NAMED[0].name[1] == 'l' && NAMED[1].name[1] == 'f';
    assert ACME_PATH[0] == '/';
    forall p | p in Reserved(grp)
      ensures ParseKey(p) == Prefix(p) && Prefix(p) !in NAMED && Prefix(p) != KeyOf(AcmeLocation)
    {
      ReservedArePlain(grp, p);
      PlainIsPrefix(p);
    }
  }

  /** NGINX finds no location twice in a server exactly when no declared path spells, in any notation,
      one of the four fixed locations or another declared or reserved path. */
  lemma NoDuplicateLocationIff(grp: seq<Backend>)
    ensures NoDuplicates(ServerKeys(grp))
       <==> !SpellsFixed(DeclaredPaths(AllHits(grp)), Fixed(NAMED))
            && !SpellsOther(DeclaredPaths(AllHits(grp)), Reserved(grp))
  {
    ServerIsSeparate(grp);
    ListKeysIff(Reserved(grp), AllHits(grp), NAMED);
  }

  /** The spellings that the service form offers: an absolute path, or one behind the "= " marker. */
  predicate Plain(p: string) {
    || (p != "" && p[0] == '/' && !IsBlank(p[|p| - 1]))
    || (|p| > 2 && p[0] == '=' && p[1] == ' ' && p[2] == '/' && !IsBlank(p[|p| - 1]))
  }

  lemma PlainKey(p: string)
    requires Plain(p)
    ensures ParseKey(p) == if p[0] == '/' then Prefix(p) else Exact(p[2..])
  {
    if p[0] == '=' {
      assert p[1..][0] == ' ' && p[1..][1..] == p[2..];
      assert SkipBlanks(p[1..]) == SkipBlanks(p[2..]) == p[2..];
    }
  }

  lemma PlainKeysIff(grp: seq<Backend>, exact: string)
    requires exact == "= " + AUTH_PATH
    requires forall p | p in DeclaredPaths(AllHits(grp)) :: Plain(p)
    ensures NoDuplicates(ServerKeys(grp)) <==> !DeclaresPath(grp, ACME_PATH) && !DeclaresPath(grp, exact)
  {
    NoDuplicateLocationIff(grp);
    DeclaredIffDeclares(grp, ACME_PATH);
    DeclaredIffDeclares(grp, exact);
    PlainServer(grp, exact);
  }

  /** Over those spellings only the two unguarded paths are ever written twice. */
  lemma PlainPathsNoDuplicateIff(grp: seq<Backend>)
    requires forall p | p in DeclaredPaths(AllHits(grp)) :: Plain(p)
    ensures NoDuplicates(ServerKeys(grp))
       <==> !DeclaresPath(grp, "/.well-known/acme-challenge/") && !DeclaresPath(grp, "= /__auth")
  {
    assert "= /__auth" == "= " + AUTH_PATH;
    PlainKeysIff(grp, "= /__auth");
  }

  lemma PlainServer(grp: seq<Backend>, exact: string)
    requires exact == "= " + AUTH_PATH
    requires forall p | p in DeclaredPaths(AllHits(grp)) :: Plain(p)
    ensures !SpellsOther(DeclaredPaths(AllHits(grp)), Reserved(grp))
    ensures SpellsFixed(DeclaredPaths(AllHits(grp)), Fixed(NAMED))
       <==> ACME_PATH in DeclaredPaths(AllHits(grp)) || exact in DeclaredPaths(AllHits(grp))
  {
    ServerIsSeparate(grp);
    assert NAMED[0].name[0] == '@' && NAMED[1].name[0] == '@' && ACME_PATH[0] == '/';
    PlainSpellings(DeclaredPaths(AllHits(grp)), Reserved(grp), NAMED, exact);
  }

  lemma PlainSpellings(declared: set<string>, reserved: seq<string>, named: seq<LocKey>, exact: string)
    requires Separate(reserved, named) && (forall k | k in named :: k.name != "" && k.name[0] == '@')
    requires forall p | p in declared :: Plain(p)
    requires exact == "= " + AUTH_PATH && ACME_PATH[0] == '/'
    ensures !SpellsOther(declared, reserved)
    ensures SpellsFixed(declared, Fixed(named)) <==> ACME_PATH in declared || exact in declared
  {
    forall p | p in declared ensures ParseKey(p) in Fixed(named) <==> p == ACME_PATH || p == exact {
      PlainKey(p);
      assert exact[0] == '=' && exact[1] == ' ' && exact[2..] == AUTH_PATH;
      assert p[0] == '=' ==> p == "= " + p[2..];
    }
    forall p, q | p in declared && (q in declared || q in reserved) && p != q
      ensures ParseKey(p) != ParseKey(q)
    {
      PlainKey(p);
      if q in declared {
        PlainKey(q);
        assert p[0] == '=' ==> p == "= " + p[2..];
        assert q[0] == '=' ==> q == "= " + q[2..];
      }
    }
  }
}
