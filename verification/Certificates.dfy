/** The certificate list of handlers/tls.go: rows grouped under their parent domain. */
module Certificates {
  import opened Ordering
  import opened Grouping

  datatype TlsRow = TlsRow(host: string, sub: bool, certificate: string)

  // ---------------------------------------------------------------- registrableDomain

  /** `strings.Split(s, ".")`. */
  function Split(s: string): (r: seq<string>)
    ensures r != []
  {
    if s == "" then [""]
    else if s[0] == '.' then [""] + Split(s[1..])
    else var rest := Split(s[1..]); [[s[0]] + rest[0]] + rest[1..]
  }

  /** `strings.Join(labels, ".")`. */
  function Join(labels: seq<string>): string {
    if labels == [] then ""
    else if |labels| == 1 then labels[0]
    else labels[0] + "." + Join(labels[1..])
  }

  function RegistrableDomain(host: string): string {
    var p := Split(host);
    if |p| <= 2 then host else Join(p[|p| - 2..])
  }

  function Dots(s: string): nat {
    if s == "" then 0 else (if s[0] == '.' then 1 else 0) + Dots(s[1..])
  }

  lemma {:induction false} SplitCounts(s: string)
    ensures |Split(s)| == Dots(s) + 1
    ensures forall l | l in Split(s) :: Dots(l) == 0
  {
    if s != "" {
      SplitCounts(s[1..]);
      var rest := Split(s[1..]);
      if s[0] != '.' {
        assert ([s[0]] + rest[0])[1..] == rest[0];
        assert rest[0] in rest;
      }
    }
  }

  lemma JoinPrefixed(c: char, labels: seq<string>)
    requires labels != []
    ensures Join([[c] + labels[0]] + labels[1..]) == [c] + Join(labels)
  {
    var longer := [[c] + labels[0]] + labels[1..];
    assert longer[1..] == labels[1..];
    if |labels| > 1 {
      var tail := "." + Join(labels[1..]);
      assert ([c] + labels[0]) + tail == [c] + (labels[0] + tail);
      assert Join(longer) == ([c] + labels[0]) + "." + Join(labels[1..]);
    }
  }

  lemma JoinEmptyFirst(labels: seq<string>)
    requires labels != []
    ensures Join([""] + labels) == ['.'] + Join(labels)
  {
    assert ([""] + labels)[1..] == labels;
    assert "" + "." == ['.'];
  }

  lemma {:induction false} JoinSplit(s: string)
    ensures Join(Split(s)) == s
  {
    if s != "" {
      JoinSplit(s[1..]);
      assert s == [s[0]] + s[1..];
      if s[0] == '.' {
        JoinEmptyFirst(Split(s[1..]));
      } else {
        JoinPrefixed(s[0], Split(s[1..]));
      }
    }
  }

  lemma {:induction false} SplitConcat(a: string, b: string)
    ensures Split(a + "." + b) == Split(a) + Split(b)
  {
    if a == "" {
      assert (a + "." + b)[1..] == b;
    } else {
      assert (a + "." + b)[1..] == a[1..] + "." + b;
      SplitConcat(a[1..], b);
    }
  }

  lemma {:induction false} JoinConcat(a: seq<string>, b: seq<string>)
    requires a != [] && b != []
    ensures Join(a + b) == Join(a) + "." + Join(b)
  {
    assert (a + b)[1..] == a[1..] + b;
    if |a| > 1 {
      JoinConcat(a[1..], b);
    }
  }

  lemma {:induction false} DotsConcat(a: string, b: string)
    ensures Dots(a + b) == Dots(a) + Dots(b)
  {
    if a == "" {
      assert a + b == b;
    } else {
      assert (a + b)[1..] == a[1..] + b;
      DotsConcat(a[1..], b);
    }
  }

  ghost predicate IsSubdomain(host: string, domain: string) {
    exists q :: host == q + "." + domain
  }

  lemma JoinPair(a: string, b: string)
    ensures Join([a, b]) == a + "." + b
    ensures Dots(a + "." + b) == Dots(a) + 1 + Dots(b)
  {
    assert [a, b][1..] == [b];
    DotsConcat(a, "." + b);
    assert a + "." + b == a + ("." + b) && ("." + b)[1..] == b;
  }

  lemma SplitEnds(host: string) returns (front: seq<string>, a: string, b: string)
    requires Dots(host) > 1
    ensures front != [] && Split(host) == front + [a, b]
    ensures RegistrableDomain(host) == Join([a, b])
    ensures Dots(a) == Dots(b) == 0
  {
    SplitCounts(host);
    var p := Split(host);
    front, a, b := p[..|p| - 2], p[|p| - 2], p[|p| - 1];
    assert p[|p| - 2..] == [a, b] && a in p && b in p;
  }

  lemma LastTwoLabels(host: string)
    requires Dots(host) > 1
    ensures Dots(RegistrableDomain(host)) == 1 && IsSubdomain(host, RegistrableDomain(host))
  {
    var front, a, b := SplitEnds(host);
    JoinSplit(host);
    JoinConcat(front, [a, b]);
    JoinPair(a, b);
  }

  lemma ParentIsLastTwoLabels(host: string, q: string, d: string)
    requires Dots(d) == 1 && host == q + "." + d
    ensures RegistrableDomain(host) == d
  {
    SplitConcat(q, d);
    SplitCounts(d);
    assert (Split(q) + Split(d))[|Split(q)|..] == Split(d);
    JoinSplit(d);
  }

  /** The registrable domain is the one parent with exactly one dot, or the host when it has at most one. */
  lemma RegistrableDomainIff(host: string, d: string)
    ensures d == RegistrableDomain(host)
       <==> if Dots(host) <= 1 then d == host else Dots(d) == 1 && IsSubdomain(host, d)
  {
    SplitCounts(host);
    if Dots(host) > 1 {
      LastTwoLabels(host);
      if Dots(d) == 1 && IsSubdomain(host, d) {
        var q :| host == q + "." + d;
        ParentIsLastTwoLabels(host, q, d);
      }
    }
  }

  lemma RegistrableDomainIsIdempotent(host: string)
    ensures RegistrableDomain(RegistrableDomain(host)) == RegistrableDomain(host)
  {
    RegistrableDomainIff(host, RegistrableDomain(host));
    RegistrableDomainIff(RegistrableDomain(host), RegistrableDomain(host));
  }

  // ---------------------------------------------------------------- groupTLSRows

  function HostOf(r: TlsRow): string { r.host }

  /** The grouping key: never empty, since the source groups even the empty domain. */
  function DomainKey(r: TlsRow): string { "@" + RegistrableDomain(r.host) }

  predicate ByHost(a: TlsRow, b: TlsRow) { Leq(a.host, b.host) }

  function Marked(rows: seq<TlsRow>): seq<TlsRow> {
    if rows == [] then [] else [rows[0].(sub := true)] + Marked(rows[1..])
  }

  /** A group on screen: the domain's own rows, then its subdomains by name. */
  function Arrange(domain: string, rows: seq<TlsRow>): seq<TlsRow> {
    Having(rows, HostOf, domain) + Sort(ByHost, Marked(Lacking(rows, HostOf, domain)))
  }

  function Arranged(gs: seq<Group<TlsRow>>): seq<Group<TlsRow>> {
    if gs == [] then []
    else [Group(gs[0].key, Arrange(if gs[0].key == "" then "" else gs[0].key[1..], gs[0].items))] + Arranged(gs[1..])
  }

  function Listed(rows: seq<TlsRow>): seq<TlsRow> {
    Flatten(Arranged(GroupsOf(rows, DomainKey)))
  }

  /** The groups map read in the order of `order`. */
  function Read(order: seq<string>, groups: map<string, seq<TlsRow>>): seq<Group<TlsRow>>
    requires forall p | p in order :: p in groups
  {
    seq(|order|, i requires 0 <= i < |order| => Group("@" + order[i], groups[order[i]]))
  }

  lemma DomainKeysDiffer(p: string, q: string)
    ensures "@" + p == "@" + q <==> p == q
  {
    assert ("@" + p)[1..] == p && ("@" + q)[1..] == q;
  }

  /** A row joins the group of its domain. */
  lemma ReadKnown(order: seq<string>, groups: map<string, seq<TlsRow>>, rows: seq<TlsRow>, r: TlsRow)
    requires forall p :: p in order <==> p in groups
    requires forall i, j | 0 <= i < j < |order| :: order[i] != order[j]
    requires Read(order, groups) == GroupsOf(rows, DomainKey)
    requires RegistrableDomain(r.host) in groups
    ensures var p := RegistrableDomain(r.host);
            Read(order, groups[p := groups[p] + [r]]) == GroupsOf(rows + [r], DomainKey)
  {
    var p := RegistrableDomain(r.host);
    var i :| 0 <= i < |order| && order[i] == p;
    AppendKnown(rows, r, DomainKey, i);
    assert Read(order, groups[p := groups[p] + [r]])
        == Read(order, groups)[i := Group("@" + p, groups[p] + [r])];
  }

  lemma NoGroupYet(order: seq<string>, groups: map<string, seq<TlsRow>>, rows: seq<TlsRow>, r: TlsRow)
    requires forall p :: p in order <==> p in groups
    requires Read(order, groups) == GroupsOf(rows, DomainKey)
    requires RegistrableDomain(r.host) !in groups
    ensures !HasKey(rows, DomainKey, DomainKey(r))
  {
    var i := GroupIndex(rows, DomainKey, DomainKey(r));
    if i < |order| {
      DomainKeysDiffer(order[i], RegistrableDomain(r.host));
    }
  }

  /** The first row of a domain opens a group at the end. */
  lemma ReadNew(order: seq<string>, groups: map<string, seq<TlsRow>>, rows: seq<TlsRow>, r: TlsRow)
    requires forall p :: p in order <==> p in groups
    requires Read(order, groups) == GroupsOf(rows, DomainKey)
    requires RegistrableDomain(r.host) !in groups
    ensures var p := RegistrableDomain(r.host);
            Read(order + [p], groups[p := [r]]) == GroupsOf(rows + [r], DomainKey)
  {
    var p := RegistrableDomain(r.host);
    NoGroupYet(order, groups, rows, r);
    AppendNew(rows, r, DomainKey);
    assert Read(order + [p], groups[p := [r]]) == Read(order, groups) + [Group("@" + p, [r])];
  }

  /** The groups of `rows`, as the list of domains and the map of rows hold them. */
  ghost predicate Collected(order: seq<string>, groups: map<string, seq<TlsRow>>, rows: seq<TlsRow>) {
    && (forall p :: p in order <==> p in groups)
    && (forall i, j | 0 <= i < j < |order| :: order[i] != order[j])
    && Read(order, groups) == GroupsOf(rows, DomainKey)
  }

  method AddRow(order: seq<string>, groups: map<string, seq<TlsRow>>, r: TlsRow, ghost rows: seq<TlsRow>)
    returns (order': seq<string>, groups': map<string, seq<TlsRow>>)
    requires Collected(order, groups, rows)
    ensures Collected(order', groups', rows + [r])
  {
    var p := RegistrableDomain(r.host);
    if p in groups {
      ReadKnown(order, groups, rows, r);
      order', groups' := order, groups[p := groups[p] + [r]];
    } else {
      ReadNew(order, groups, rows, r);
      order', groups' := order + [p], groups[p := [r]];
    }
  }

  method CollectDomains(rows: seq<TlsRow>) returns (order: seq<string>, groups: map<string, seq<TlsRow>>)
    ensures Collected(order, groups, rows)
  {
    order, groups := [], map[];
    assert Read(order, groups) == [];
    for n := 0 to |rows|
      invariant Collected(order, groups, rows[..n])
    {
      order, groups := AddRow(order, groups, rows[n], rows[..n]);
      assert rows[..n + 1] == rows[..n] + [rows[n]];
    }
    assert rows[..|rows|] == rows;
  }

  lemma {:induction false} MarkedAppend(rows: seq<TlsRow>, r: TlsRow)
    ensures Marked(rows + [r]) == Marked(rows) + [r.(sub := true)]
  {
    if rows == [] {
      assert [] + [r] == [r] && [r][1..] == [];
    } else {
      MarkedAppend(rows[1..], r);
      assert (rows + [r])[1..] == rows[1..] + [r];
    }
  }

  method ArrangeGroup(p: string, rows: seq<TlsRow>) returns (out: seq<TlsRow>)
    ensures out == Arrange(p, rows)
  {
    var head, subs := [], [];
    for n := 0 to |rows|
      invariant head == Having(rows[..n], HostOf, p)
      invariant subs == Marked(Lacking(rows[..n], HostOf, p))
    {
      var r := rows[n];
      assert rows[..n + 1] == rows[..n] + [r];
      HavingAppend(rows[..n], r, HostOf, p);
      LackingAppend(rows[..n], r, HostOf, p);
      if r.host == p {
        head := head + [r];
      } else {
        MarkedAppend(Lacking(rows[..n], HostOf, p), r);
        subs := subs + [r.(sub := true)];
      }
    }
    assert rows[..|rows|] == rows;
    out := head + Sort(ByHost, subs);
  }

  lemma {:induction false} FlattenAppend<T>(gs: seq<Group<T>>, g: Group<T>)
    ensures Flatten(gs + [g]) == Flatten(gs) + g.items
  {
    if gs == [] {
      assert [] + [g] == [g] && [g][1..] == [];
    } else {
      FlattenAppend(gs[1..], g);
      assert (gs + [g])[1..] == gs[1..] + [g];
    }
  }

  lemma {:induction false} ArrangedAt(gs: seq<Group<TlsRow>>, i: nat)
    requires i < |gs| && gs[i].key != ""
    ensures |Arranged(gs)| == |gs|
    ensures Arranged(gs)[i] == Group(gs[i].key, Arrange(gs[i].key[1..], gs[i].items))
  {
    if i > 0 {
      ArrangedAt(gs[1..], i - 1);
    } else if |gs| > 1 {
      ArrangedLength(gs);
    } 
  }

  lemma {:induction false} ArrangedLength(gs: seq<Group<TlsRow>>)
    ensures |Arranged(gs)| == |gs|
  {
    if gs != [] { ArrangedLength(gs[1..]); }
  }

  lemma ReadArranged(order: seq<string>, groups: map<string, seq<TlsRow>>, n: nat)
    requires forall p | p in order :: p in groups
    requires n < |order|
    ensures n < |Arranged(Read(order, groups))|
    ensures Arranged(Read(order, groups))[n].items == Arrange(order[n], groups[order[n]])
  {
    ArrangedAt(Read(order, groups), n);
    assert ("@" + order[n])[1..] == order[n];
  }

  lemma FlattenNext<T>(gs: seq<Group<T>>, n: nat)
    requires n < |gs|
    ensures Flatten(gs[..n + 1]) == Flatten(gs[..n]) + gs[n].items
  {
    FlattenAppend(gs[..n], gs[n]);
    assert gs[..n + 1] == gs[..n] + [gs[n]];
  }

  method ListGroups(order: seq<string>, groups: map<string, seq<TlsRow>>) returns (out: seq<TlsRow>)
    requires forall p | p in order :: p in groups
    ensures out == Flatten(Arranged(Read(order, groups)))
  {
    ghost var hs := Arranged(Read(order, groups));
    ArrangedLength(Read(order, groups));
    out := [];
    for n := 0 to |order|
      invariant out == Flatten(hs[..n])
    {
      var items := ArrangeGroup(order[n], groups[order[n]]);
      ReadArranged(order, groups, n);
      FlattenNext(hs, n);
      out := out + items;
    }
    assert hs[..|order|] == hs;
  }

  method GroupTLSRows(rows: seq<TlsRow>) returns (out: seq<TlsRow>)
    ensures out == Listed(rows)
  {
    var order, groups := CollectDomains(rows);
    out := ListGroups(order, groups);
  }

  // ---------------------------------------------------------------- all rows are kept

  /** How often a row occurs, whatever its indentation. */
  function Occurrences(rows: seq<TlsRow>, r: TlsRow): nat {
    multiset(rows)[r.(sub := true)] + multiset(rows)[r.(sub := false)]
  }

  lemma OccurrencesConcat(a: seq<TlsRow>, b: seq<TlsRow>, r: TlsRow)
    ensures Occurrences(a + b, r) == Occurrences(a, r) + Occurrences(b, r)
  {
  }

  lemma OccurrencesFirst(x: TlsRow, rest: seq<TlsRow>, r: TlsRow)
    ensures Occurrences([x] + rest, r) == (if x.(sub := false) == r.(sub := false) then 1 else 0) + Occurrences(rest, r)
  {
    assert x == if x.sub then x.(sub := true) else x.(sub := false);
    assert multiset([x]) == multiset{x};
    OccurrencesConcat([x], rest, r);
  }

  lemma {:induction false} MarkingKeepsRows(rows: seq<TlsRow>, r: TlsRow)
    ensures Occurrences(Marked(rows), r) == Occurrences(rows, r)
  {
    if rows != [] {
      MarkingKeepsRows(rows[1..], r);
      OccurrencesFirst(rows[0], rows[1..], r);
      OccurrencesFirst(rows[0].(sub := true), Marked(rows[1..]), r);
      assert rows == [rows[0]] + rows[1..];
    }
  }

  lemma ArrangeKeepsRows(p: string, rows: seq<TlsRow>, r: TlsRow)
    ensures Occurrences(Arrange(p, rows), r) == Occurrences(rows, r)
  {
    SplitByKey(rows, HostOf, p);
    SortPermutes(ByHost, Marked(Lacking(rows, HostOf, p)));
    MarkingKeepsRows(Lacking(rows, HostOf, p), r);
  }

  lemma {:induction false} ArrangedKeepsRows(gs: seq<Group<TlsRow>>, r: TlsRow)
    ensures Occurrences(Flatten(Arranged(gs)), r) == Occurrences(Flatten(gs), r)
  {
    if gs != [] {
      var p := if gs[0].key == "" then "" else gs[0].key[1..];
      ArrangedKeepsRows(gs[1..], r);
      ArrangeKeepsRows(p, gs[0].items, r);
      OccurrencesConcat(gs[0].items, Flatten(gs[1..]), r);
      assert Arranged(gs)[1..] == Arranged(gs[1..]);
      OccurrencesConcat(Arrange(p, gs[0].items), Flatten(Arranged(gs[1..])), r);
    }
  }

  /** The list shows every row as often as it was given. */
  lemma ListingKeepsRows(rows: seq<TlsRow>, r: TlsRow)
    ensures Occurrences(Listed(rows), r) == Occurrences(rows, r)
  {
    FlattenPermutes(rows, DomainKey);
    ArrangedKeepsRows(GroupsOf(rows, DomainKey), r);
  }

  // ---------------------------------------------------------------- idempotence

  /** Groups that grouping their own rows gives back. */
  ghost predicate WellGrouped<T>(gs: seq<Group<T>>, key: T -> string) {
    && (forall i | 0 <= i < |gs| :: gs[i].key != "" && gs[i].items != [])
    && (forall i, t | 0 <= i < |gs| && t in gs[i].items :: key(t) == gs[i].key)
    && (forall i, j | 0 <= i < j < |gs| :: gs[i].key != gs[j].key)
  }

  lemma {:induction false} HavingAll<T>(ts: seq<T>, key: T -> string, k: string)
    requires forall t | t in ts :: key(t) == k
    ensures Having(ts, key, k) == ts && Lacking(ts, key, k) == []
  {
    if ts != [] {
      HavingAll(ts[1..], key, k);
      assert ts == [ts[0]] + ts[1..];
    }
  }

  lemma {:induction false} HavingNone<T>(ts: seq<T>, key: T -> string, k: string)
    requires forall t | t in ts :: key(t) != k
    ensures Having(ts, key, k) == [] && Lacking(ts, key, k) == ts
  {
    if ts != [] {
      HavingNone(ts[1..], key, k);
      assert ts == [ts[0]] + ts[1..];
    }
  }

  lemma ThreeParts<T>(x: seq<T>, y: seq<T>, z: seq<T>)
    ensures (x + y) + z == x + (y + z)
  {
  }

  lemma {:induction false} FilterConcat<T>(a: seq<T>, b: seq<T>, key: T -> string, k: string)
    ensures Having(a + b, key, k) == Having(a, key, k) + Having(b, key, k)
    ensures Lacking(a + b, key, k) == Lacking(a, key, k) + Lacking(b, key, k)
  {
    if a == [] {
      assert a + b == b;
    } else {
      assert (a + b)[1..] == a[1..] + b && (a + b)[0] == a[0];
      FilterConcat(a[1..], b, key, k);
      ThreeParts([a[0]], Having(a[1..], key, k), Having(b, key, k));
      ThreeParts([a[0]], Lacking(a[1..], key, k), Lacking(b, key, k));
    }
  }

  lemma {:induction false} FlattenMember<T>(gs: seq<Group<T>>, t: T) returns (i: nat)
    requires t in Flatten(gs)
    ensures i < |gs| && t in gs[i].items
  {
    if t in gs[0].items {
      i := 0;
    } else {
      i := FlattenMember(gs[1..], t);
      i := i + 1;
    }
  }

  lemma LeadingGroup<T>(items: seq<T>, rest: seq<T>, key: T -> string, k: string)
    requires k != "" && items != []
    requires forall t | t in items :: key(t) == k
    requires forall t | t in rest :: key(t) != k
    ensures GroupsOf(items + rest, key) == [Group(k, items)] + GroupsOf(rest, key)
  {
    var ts := items + rest;
    assert ts[0] == items[0] && items[0] in items && ts[1..] == items[1..] + rest;
    HavingAll(items, key, k);
    HavingAll(items[1..], key, k);
    HavingNone(rest, key, k);
    FilterConcat(items, rest, key, k);
    FilterConcat(items[1..], rest, key, k);
    assert items + [] == items && [] + rest == rest;
  }

  lemma {:induction false} GroupsAreRecovered<T>(gs: seq<Group<T>>, key: T -> string)
    requires WellGrouped(gs, key)
    ensures GroupsOf(Flatten(gs), key) == gs
  {
    if gs != [] {
      assert WellGrouped(gs[1..], key);
      GroupsAreRecovered(gs[1..], key);
      forall t | t in Flatten(gs[1..]) ensures key(t) != gs[0].key {
        var i := FlattenMember(gs[1..], t);
      }
      LeadingGroup(gs[0].items, Flatten(gs[1..]), key, gs[0].key);
      assert gs == [gs[0]] + gs[1..];
    }
  }

  lemma {:induction false} MarkedFacts(rows: seq<TlsRow>, m: TlsRow)
    requires m in Marked(rows)
    ensures m.sub && exists r :: r in rows && m.host == r.host
  {
    if m == rows[0].(sub := true) {
      assert rows[0] in rows;
    } else {
      MarkedFacts(rows[1..], m);
    }
  }

  lemma {:induction false} MarkedAgain(rows: seq<TlsRow>)
    requires forall r | r in rows :: r.sub
    ensures Marked(rows) == rows
  {
    if rows != [] {
      MarkedAgain(rows[1..]);
      assert rows == [rows[0]] + rows[1..];
    }
  }

  lemma {:induction false} SortOfSorted<T>(leq: (T, T) -> bool, s: seq<T>)
    requires Sorted(leq, s)
    ensures Sort(leq, s) == s
  {
    if s != [] {
      SortOfSorted(leq, s[1..]);
      assert s == [s[0]] + s[1..];
      if |s| > 1 {
        assert leq(s[0], s[1]);
      }
    }
  }

  lemma ByHostIsPreorder()
    ensures TotalPreorder(ByHost)
  {
    forall x, y ensures ByHost(x, y) || ByHost(y, x) { LeqTotal(x.host, y.host); }
    forall x, y, z | ByHost(x, y) && ByHost(y, z) ensures ByHost(x, z) { LeqTransitive(x.host, y.host, z.host); }
  }

  /** A group on screen: first the domain's own rows, unchanged; then its subdomains, marked and by name. */
  lemma ArrangeFacts(p: string, rows: seq<TlsRow>) returns (subs: seq<TlsRow>)
    ensures Arrange(p, rows) == Having(rows, HostOf, p) + subs
    ensures forall r | r in subs :: r.sub && r.host != p && exists q :: q in rows && q.host == r.host
    ensures forall r | r in Having(rows, HostOf, p) :: r.host == p && r in rows
    ensures Sorted(ByHost, subs)
  {
    var inner := Lacking(rows, HostOf, p);
    subs := Sort(ByHost, Marked(inner));
    ByHostIsPreorder();
    SortSorts(ByHost, Marked(inner));
    SameElements(subs, Marked(inner));
    LackingMembers(rows, HostOf, p);
    HavingMembers(rows, HostOf, p);
    forall r | r in subs ensures r.sub && r.host != p && exists q :: q in rows && q.host == r.host {
      MarkedFacts(inner, r);
      var q :| q in inner && r.host == q.host;
      assert q in rows;
    }
  }

  lemma {:induction false} HavingMembers<T>(ts: seq<T>, key: T -> string, k: string)
    ensures forall t :: t in Having(ts, key, k) <==> t in ts && key(t) == k
  {
    if ts != [] {
      HavingMembers(ts[1..], key, k);
      assert ts == [ts[0]] + ts[1..];
    }
  }

  lemma ArrangeIsIdempotent(p: string, rows: seq<TlsRow>)
    ensures Arrange(p, Arrange(p, rows)) == Arrange(p, rows)
  {
    var heads := Having(rows, HostOf, p);
    var subs := ArrangeFacts(p, rows);
    FilterConcat(heads, subs, HostOf, p);
    HavingAll(heads, HostOf, p);
    HavingNone(subs, HostOf, p);
    MarkedAgain(subs);
    SortOfSorted(ByHost, subs);
    assert heads + [] == heads && [] + subs == subs;
  }

  lemma {:induction false} ArrangedAgain(gs: seq<Group<TlsRow>>)
    ensures Arranged(Arranged(gs)) == Arranged(gs)
  {
    if gs != [] {
      ArrangedAgain(gs[1..]);
      ArrangeIsIdempotent(if gs[0].key == "" then "" else gs[0].key[1..], gs[0].items);
      assert Arranged(gs)[1..] == Arranged(gs[1..]);
    }
  }

  /** The group of a domain as the list shows it. */
  lemma ListedGroup(rows: seq<TlsRow>, i: nat)
    requires i < |GroupsOf(rows, DomainKey)|
    ensures var g := GroupsOf(rows, DomainKey)[i];
            var h := Arranged(GroupsOf(rows, DomainKey));
            && g.key != "" && |h| == |GroupsOf(rows, DomainKey)| && h[i].key == g.key && h[i].items != []
            && forall r | r in h[i].items :: DomainKey(r) == g.key
  {
    var gs := GroupsOf(rows, DomainKey);
    var g := gs[i];
    GroupsAreStable(rows, DomainKey, i);
    HavingMembers(rows, DomainKey, g.key);
    ArrangedAt(gs, i);
    var p := g.key[1..];
    var subs := ArrangeFacts(p, g.items);
    var r := g.items[0];
    ArrangeKeepsRows(p, g.items, r);
    assert r in multiset(g.items);
    assert r == if r.sub then r.(sub := true) else r.(sub := false);
    assert Occurrences(g.items, r) > 0;
  }

  lemma ListedIsWellGrouped(rows: seq<TlsRow>)
    ensures WellGrouped(Arranged(GroupsOf(rows, DomainKey)), DomainKey)
  {
    var gs := GroupsOf(rows, DomainKey);
    var hs := Arranged(gs);
    ArrangedLength(gs);
    forall i | 0 <= i < |gs|
      ensures hs[i].key == gs[i].key != "" && hs[i].items != []
      ensures forall t | t in hs[i].items :: DomainKey(t) == hs[i].key
    {
      ListedGroup(rows, i);
    }
    forall i, j | 0 <= i < j < |hs| ensures hs[i].key != hs[j].key {
      KeysAreDistinct(rows, DomainKey, i, j);
    }
  }

  /** Grouping a grouped list changes nothing. */
  lemma ListingIsIdempotent(rows: seq<TlsRow>)
    ensures Listed(Listed(rows)) == Listed(rows)
  {
    ListedIsWellGrouped(rows);
    GroupsAreRecovered(Arranged(GroupsOf(rows, DomainKey)), DomainKey);
    ArrangedAgain(GroupsOf(rows, DomainKey));
  }

  /** For distinct hosts every sort, stable or not, gives the same group. */
  lemma SubdomainOrderIsForced(subs: seq<TlsRow>, sorted: seq<TlsRow>)
    requires forall a, b | a in subs && b in subs && a.host == b.host :: a == b
    requires multiset(sorted) == multiset(subs) && Sorted(ByHost, sorted)
    ensures sorted == Sort(ByHost, subs)
  {
    ByHostIsPreorder();
    SortSorts(ByHost, subs);
    SameElements(sorted, subs);
    forall x, y | x in sorted && y in sorted && ByHost(x, y) && ByHost(y, x) ensures x == y {
      LeqAntisymmetric(x.host, y.host);
    }
    SortedUnique(ByHost, sorted, Sort(ByHost, subs));
  }
}
