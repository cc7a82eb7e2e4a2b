/** One-pass grouping (handlers/admin.go, server.go, tls.go) against its simple specification. */
module Grouping {
  import opened Models
  import opened Ordering

  datatype Group<+T> = Group(key: string, items: seq<T>)

  function Having<T>(ts: seq<T>, key: T -> string, k: string): seq<T> {
    if ts == [] then []
    else if key(ts[0]) == k then [ts[0]] + Having(ts[1..], key, k)
    else Having(ts[1..], key, k)
  }

  function Lacking<T>(ts: seq<T>, key: T -> string, k: string): (r: seq<T>)
    ensures |r| <= |ts|
  {
    if ts == [] then []
    else if key(ts[0]) != k then [ts[0]] + Lacking(ts[1..], key, k)
    else Lacking(ts[1..], key, k)
  }

  /** The specification: each key in order of first appearance with all its items in order; an item
      without a key stands alone in its place. */
  function GroupsOf<T>(ts: seq<T>, key: T -> string): seq<Group<T>>
    decreases |ts|
  {
    if ts == [] then []
    else if key(ts[0]) == "" then [Group("", [ts[0]])] + GroupsOf(ts[1..], key)
    else [Group(key(ts[0]), Having(ts, key, key(ts[0])))] + GroupsOf(Lacking(ts[1..], key, key(ts[0])), key)
  }

  // ---------------------------------------------------------------- the one-pass loop

  lemma {:induction false} HavingAppend<T>(ts: seq<T>, t: T, key: T -> string, k: string)
    ensures Having(ts + [t], key, k) == if key(t) == k then Having(ts, key, k) + [t] else Having(ts, key, k)
  {
    if ts == [] {
      assert [t][1..] == [] && [] + [t] == [t];
    } else {
      HavingAppend(ts[1..], t, key, k);
      assert (ts + [t])[1..] == ts[1..] + [t];
      assert [ts[0]] + (Having(ts[1..], key, k) + [t]) == [ts[0]] + Having(ts[1..], key, k) + [t];
    }
  }

  lemma {:induction false} LackingAppend<T>(ts: seq<T>, t: T, key: T -> string, k: string)
    ensures Lacking(ts + [t], key, k) == if key(t) != k then Lacking(ts, key, k) + [t] else Lacking(ts, key, k)
  {
    if ts == [] {
      assert [t][1..] == [] && [] + [t] == [t];
    } else {
      LackingAppend(ts[1..], t, key, k);
      assert (ts + [t])[1..] == ts[1..] + [t];
      assert [ts[0]] + (Lacking(ts[1..], key, k) + [t]) == [ts[0]] + Lacking(ts[1..], key, k) + [t];
    }
  }

  lemma {:induction false} LackingMembers<T>(ts: seq<T>, key: T -> string, k: string)
    ensures forall t :: t in Lacking(ts, key, k) <==> t in ts && key(t) != k
  {
    if ts != [] {
      LackingMembers(ts[1..], key, k);
      assert ts == [ts[0]] + ts[1..];
    }
  }

  ghost predicate HasKey<T>(ts: seq<T>, key: T -> string, k: string) {
    exists t | t in ts :: key(t) == k
  }

  /** The group of `k`, if the key has appeared. */
  lemma {:induction false} GroupIndex<T>(ts: seq<T>, key: T -> string, k: string) returns (i: nat)
    requires k != ""
    ensures HasKey(ts, key, k) ==> i < |GroupsOf(ts, key)| && GroupsOf(ts, key)[i].key == k
    ensures !HasKey(ts, key, k) ==> forall j | 0 <= j < |GroupsOf(ts, key)| :: GroupsOf(ts, key)[j].key != k
    decreases |ts|
  {
    i := 0;
    if ts != [] {
      assert ts == [ts[0]] + ts[1..];
      var h := key(ts[0]);
      var rest := if h == "" then ts[1..] else Lacking(ts[1..], key, h);
      LackingMembers(ts[1..], key, h);
      if h != k {
        assert HasKey(ts, key, k) <==> HasKey(rest, key, k);
        i := GroupIndex(rest, key, k);
        i := i + 1;
      }
    }
  }

  lemma {:induction false} KeysAreDistinct<T>(ts: seq<T>, key: T -> string, i: nat, j: nat)
    requires i < j < |GroupsOf(ts, key)| && GroupsOf(ts, key)[i].key != ""
    ensures GroupsOf(ts, key)[i].key != GroupsOf(ts, key)[j].key
    decreases |ts|
  {
    var h := key(ts[0]);
    var rest := if h == "" then ts[1..] else Lacking(ts[1..], key, h);
    if i > 0 {
      KeysAreDistinct(rest, key, i - 1, j - 1);
    } else {
      LackingMembers(ts[1..], key, h);
      var _ := GroupIndex(rest, key, h);
      assert GroupsOf(rest, key)[j - 1].key != h;
    }
  }

  lemma LackingHasNoNewKey<T>(ts: seq<T>, key: T -> string, h: string, k: string)
    ensures HasKey(Lacking(ts, key, h), key, k) ==> HasKey(ts, key, k)
  {
    LackingMembers(ts, key, h);
    if HasKey(Lacking(ts, key, h), key, k) {
      var x :| x in Lacking(ts, key, h) && key(x) == k;
      assert x in ts;
    }
  }

  /** A new item without a key, or with a new key, opens a group at the end. */
  lemma {:induction false} AppendNew<T>(ts: seq<T>, t: T, key: T -> string)
    requires key(t) == "" || !HasKey(ts, key, key(t))
    ensures GroupsOf(ts + [t], key) == GroupsOf(ts, key) + [Group(key(t), [t])]
    decreases |ts|
  {
    if ts == [] {
      assert [] + [t] == [t] && [t][1..] == [];
      assert Having([t], key, key(t)) == [t];
    } else {
      var h, more := key(ts[0]), ts + [t];
      assert more[1..] == ts[1..] + [t] && ts == [ts[0]] + ts[1..];
      if h == "" {
        AppendNew(ts[1..], t, key);
      } else {
        assert ts[0] in ts && h != key(t);
        assert HasKey(ts[1..], key, key(t)) ==> HasKey(ts, key, key(t)) by {
          if HasKey(ts[1..], key, key(t)) {
            var x :| x in ts[1..] && key(x) == key(t);
            assert x in [ts[0]] + ts[1..];
          }
        }
        HavingAppend(ts, t, key, h);
        LackingAppend(ts[1..], t, key, h);
        LackingHasNoNewKey(ts[1..], key, h, key(t));
        AppendNew(Lacking(ts[1..], key, h), t, key);
      }
    }
  }

  lemma UpdateTail<T>(g: T, rest: seq<T>, i: nat, x: T)
    requires 0 < i <= |rest|
    ensures ([g] + rest)[i := x] == [g] + rest[i - 1 := x]
  {
  }

  /** The specification of a longer list, one group at a time. */
  lemma AppendUnfolds<T>(ts: seq<T>, t: T, key: T -> string)
    requires ts != []
    ensures var h, rest := key(ts[0]), GroupsOf(ts + [t], key)[1..];
            && GroupsOf(ts + [t], key) == [GroupsOf(ts + [t], key)[0]] + rest
            && rest == GroupsOf(if h == "" then ts[1..] + [t]
                                else if key(t) == h then Lacking(ts[1..], key, h)
                                else Lacking(ts[1..], key, h) + [t], key)
    ensures var h, g, g' := key(ts[0]), GroupsOf(ts, key)[0], GroupsOf(ts + [t], key)[0];
            g' == if h != "" && key(t) == h then Group(h, g.items + [t]) else g
  {
    var h := key(ts[0]);
    assert (ts + [t])[1..] == ts[1..] + [t];
    HavingAppend(ts, t, key, h);
    LackingAppend(ts[1..], t, key, h);
  }

  /** An item with a known key joins the group of that key. */
  lemma {:induction false} AppendKnown<T>(ts: seq<T>, t: T, key: T -> string, i: nat)
    requires key(t) != "" && i < |GroupsOf(ts, key)| && GroupsOf(ts, key)[i].key == key(t)
    ensures GroupsOf(ts + [t], key)
         == GroupsOf(ts, key)[i := Group(key(t), GroupsOf(ts, key)[i].items + [t])]
    decreases |ts|
  {
    var h, gs := key(ts[0]), GroupsOf(ts, key);
    var rest := if h == "" then ts[1..] else Lacking(ts[1..], key, h);
    assert gs == [gs[0]] + GroupsOf(rest, key);
    AppendUnfolds(ts, t, key);
    if i > 0 {
      if h != "" {
        KeysAreDistinct(ts, key, 0, i);
      }
      AppendKnown(rest, t, key, i - 1);
      UpdateTail(gs[0], GroupsOf(rest, key), i, Group(key(t), gs[i].items + [t]));
    }
  }

  /** `idx` finds the group of every key that has appeared. */
  ghost predicate Indexes<T>(idx: map<string, nat>, out: seq<Group<T>>, ts: seq<T>, key: T -> string) {
    && (forall k | k in idx :: k != "" && idx[k] < |out| && out[idx[k]].key == k)
    && (forall t | t in ts && key(t) != "" :: key(t) in idx)
    && (forall k | k in idx :: HasKey(ts, key, k))
  }

  lemma HasKeyAppend<T>(ts: seq<T>, t: T, key: T -> string, k: string)
    ensures HasKey(ts + [t], key, k) <==> HasKey(ts, key, k) || key(t) == k
  {
    if HasKey(ts, key, k) {
      var x :| x in ts && key(x) == k;
      assert x in ts + [t];
    } else if key(t) == k {
      assert t in ts + [t];
    }
  }

  /** One more item keeps the index: groups only gain items, and a new key gets the new last group. */
  lemma IndexesStep<T>(idx: map<string, nat>, out: seq<Group<T>>, ts: seq<T>, t: T, key: T -> string,
                       idx': map<string, nat>, out': seq<Group<T>>)
    requires Indexes(idx, out, ts, key)
    requires |out| <= |out'| && forall i | 0 <= i < |out| :: out'[i].key == out[i].key
    requires if key(t) == "" || key(t) in idx then idx' == idx
             else |out'| == |out| + 1 && out'[|out|].key == key(t) && idx' == idx[key(t) := |out|]
    ensures Indexes(idx', out', ts + [t], key)
  {
    forall k | k in idx' ensures HasKey(ts + [t], key, k) {
      HasKeyAppend(ts, t, key, k);
    }
  }

  /** The loop shared by groupTiles, groupServiceBackends and authzTree. */
  method GroupOnePass<T>(ts: seq<T>, key: T -> string) returns (out: seq<Group<T>>)
    ensures out == GroupsOf(ts, key)
  {
    out := [];
    var idx: map<string, nat> := map[];
    for n := 0 to |ts|
      invariant out == GroupsOf(ts[..n], key)
      invariant Indexes(idx, out, ts[..n], key)
    {
      var t := ts[n];
      var k := key(t);
      ghost var was, idxWas := out, idx;
      if k == "" {
        AppendNew(ts[..n], t, key);
        out := out + [Group("", [t])];
      } else if k in idx {
        AppendKnown(ts[..n], t, key, idx[k]);
        out := out[idx[k] := Group(k, out[idx[k]].items + [t])];
      } else {
        AppendNew(ts[..n], t, key);
        idx := idx[k := |out|];
        out := out + [Group(k, [t])];
      }
      IndexesStep(idxWas, was, ts[..n], t, key, idx, out);
      assert ts[..n + 1] == ts[..n] + [t];
    }
    assert ts[..|ts|] == ts;
  }

  // ---------------------------------------------------------------- what grouping means

  function Flatten<T>(gs: seq<Group<T>>): seq<T> {
    if gs == [] then [] else gs[0].items + Flatten(gs[1..])
  }

  lemma FirstCounts<T>(x: T, ts: seq<T>)
    ensures multiset([x] + ts) == multiset{x} + multiset(ts)
  {
  }

  lemma {:induction false} SplitByKey<T>(ts: seq<T>, key: T -> string, k: string)
    ensures multiset(Having(ts, key, k)) + multiset(Lacking(ts, key, k)) == multiset(ts)
  {
    if ts != [] {
      SplitByKey(ts[1..], key, k);
      assert ts == [ts[0]] + ts[1..];
      FirstCounts(ts[0], ts[1..]);
      if key(ts[0]) == k {
        FirstCounts(ts[0], Having(ts[1..], key, k));
      } else {
        FirstCounts(ts[0], Lacking(ts[1..], key, k));
      }
    }
  }

  /** Grouping loses and invents nothing. */
  lemma {:induction false} FlattenPermutes<T>(ts: seq<T>, key: T -> string)
    ensures multiset(Flatten(GroupsOf(ts, key))) == multiset(ts)
    decreases |ts|
  {
    if ts != [] {
      var h, gs := key(ts[0]), GroupsOf(ts, key);
      assert ts == [ts[0]] + ts[1..];
      if h == "" {
        FlattenPermutes(ts[1..], key);
        assert gs[1..] == GroupsOf(ts[1..], key);
      } else {
        var rest := Lacking(ts[1..], key, h);
        FlattenPermutes(rest, key);
        assert gs[1..] == GroupsOf(rest, key);
        SplitByKey(ts, key, h);
        assert Lacking(ts, key, h) == rest;
      }
    }
  }

  lemma {:induction false} HavingOfLacking<T>(ts: seq<T>, key: T -> string, k: string, h: string)
    requires k != h
    ensures Having(Lacking(ts, key, h), key, k) == Having(ts, key, k)
  {
    if ts != [] {
      HavingOfLacking(ts[1..], key, k, h);
      if key(ts[0]) != h {
        assert Lacking(ts, key, h)[1..] == Lacking(ts[1..], key, h);
      }
    }
  }

  /** A keyed group is all the items of its key, in input order; an unkeyed group is one item. */
  lemma {:induction false} GroupsAreStable<T>(ts: seq<T>, key: T -> string, i: nat)
    requires i < |GroupsOf(ts, key)|
    ensures var g := GroupsOf(ts, key)[i];
            if g.key == "" then |g.items| == 1 && key(g.items[0]) == ""
            else g.items == Having(ts, key, g.key) && g.items != []
    decreases |ts|
  {
    var h := key(ts[0]);
    if i > 0 {
      if h == "" {
        GroupsAreStable(ts[1..], key, i - 1);
      } else {
        GroupsAreStable(Lacking(ts[1..], key, h), key, i - 1);
        KeysAreDistinct(ts, key, 0, i);
        HavingOfLacking(ts[1..], key, GroupsOf(ts, key)[i].key, h);
      }
    }
  }

  /** The items that have no key, or are the first of theirs. */
  function Firsts<T>(ts: seq<T>, key: T -> string, seen: set<string>): seq<T> {
    if ts == [] then []
    else if key(ts[0]) in seen then Firsts(ts[1..], key, seen)
    else [ts[0]] + Firsts(ts[1..], key, if key(ts[0]) == "" then seen else seen + {key(ts[0])})
  }

  function Heads<T>(gs: seq<Group<T>>): seq<T> {
    if gs == [] then [] else (if gs[0].items == [] then [] else [gs[0].items[0]]) + Heads(gs[1..])
  }

  lemma {:induction false} FirstsOfLacking<T>(ts: seq<T>, key: T -> string, h: string, seen: set<string>)
    requires h != ""
    ensures Firsts(Lacking(ts, key, h), key, seen) == Firsts(ts, key, seen + {h})
  {
    if ts != [] {
      var k := key(ts[0]);
      if k == h {
        FirstsOfLacking(ts[1..], key, h, seen);
      } else {
        assert Lacking(ts, key, h)[1..] == Lacking(ts[1..], key, h);
        FirstsOfLacking(ts[1..], key, h, seen);
        FirstsOfLacking(ts[1..], key, h, seen + {k});
        assert seen + {k} + {h} == seen + {h} + {k};
      }
    }
  }

  /** The groups stand in the order in which their keys first appear. */
  lemma {:induction false} GroupsInFirstAppearanceOrder<T>(ts: seq<T>, key: T -> string)
    ensures Heads(GroupsOf(ts, key)) == Firsts(ts, key, {})
    decreases |ts|
  {
    if ts != [] {
      var h, gs := key(ts[0]), GroupsOf(ts, key);
      if h == "" {
        GroupsInFirstAppearanceOrder(ts[1..], key);
        assert gs[1..] == GroupsOf(ts[1..], key);
      } else {
        var rest := Lacking(ts[1..], key, h);
        GroupsInFirstAppearanceOrder(rest, key);
        assert gs[1..] == GroupsOf(rest, key);
        FirstsOfLacking(ts[1..], key, h, {});
      }
    }
  }

  // ---------------------------------------------------------------- services, tiles and authorizations

  datatype SvcItem = SvcItem(backend: Backend, title: string)

  function OwnSite(be: Backend): string {
    if be.hosting.Some? then be.hosting.value.site else ""
  }

  /** The first hosting site that owns a host. */
  function HostSite(bs: seq<Backend>, host: string): string {
    if bs == [] then ""
    else
      var prev := HostSite(bs[..|bs| - 1], host);
      if prev == "" && bs[|bs| - 1].host == host then OwnSite(bs[|bs| - 1]) else prev
  }

  function HostCount(bs: seq<Backend>, host: string): nat {
    if bs == [] then 0
    else HostCount(bs[..|bs| - 1], host) + (if bs[|bs| - 1].host == host then 1 else 0)
  }

  /** The header a service appears under, or "" when it stands alone. */
  function SiteOf(bs: seq<Backend>, be: Backend): string {
    if OwnSite(be) != "" then OwnSite(be)
    else if HostSite(bs, be.host) != "" then HostSite(bs, be.host)
    else if be.host != "" && HostCount(bs, be.host) > 1 then be.host
    else ""
  }

  function ServiceLabel(be: Backend, site: string): string {
    var name := if be.name == "" then be.id else be.name;
    if site == "" then name
    else if be.hosting.Some? && be.hosting.value.vhost != "" then be.hosting.value.vhost
    else if site + "/" <= name then name[|site| + 1..]
    else name
  }

  function Labelled(bs: seq<Backend>): seq<SvcItem> {
    seq(|bs|, i requires 0 <= i < |bs| => SvcItem(bs[i], ServiceLabel(bs[i], SiteOf(bs, bs[i]))))
  }

  /** A service alone in its group keeps its full name. */
  function Relabelled(gs: seq<Group<SvcItem>>): seq<Group<SvcItem>> {
    seq(|gs|, i requires 0 <= i < |gs| =>
      if |gs[i].items| == 1 then
        gs[i].(items := [gs[i].items[0].(title := ServiceLabel(gs[i].items[0].backend, ""))])
      else gs[i])
  }

  ghost predicate Scanned(bs: seq<Backend>, site: map<string, string>, count: map<string, nat>) {
    && (forall h :: (if h in site then site[h] else "") == HostSite(bs, h))
    && (forall h :: (if h in count then count[h] else 0) == HostCount(bs, h))
  }

  lemma ScanStep(bs: seq<Backend>, b: Backend, h: string)
    ensures HostSite(bs + [b], h) == if HostSite(bs, h) == "" && b.host == h then OwnSite(b) else HostSite(bs, h)
    ensures HostCount(bs + [b], h) == HostCount(bs, h) + (if b.host == h then 1 else 0)
  {
    assert (bs + [b])[..|bs|] == bs;
  }

  /** The maps after one more service. */
  lemma ScannedStep(bs: seq<Backend>, b: Backend, site: map<string, string>, count: map<string, nat>)
    requires Scanned(bs, site, count)
    ensures var more := b.hosting.Some? && b.hosting.value.site != "" && (b.host !in site || site[b.host] == "");
            Scanned(bs + [b], if more then site[b.host := b.hosting.value.site] else site,
                    count[b.host := (if b.host in count then count[b.host] else 0) + 1])
  {
    forall h { ScanStep(bs, b, h); }
  }

  method ScanHosts(bs: seq<Backend>) returns (hostSite: map<string, string>, hostCount: map<string, nat>)
    ensures Scanned(bs, hostSite, hostCount)
  {
    hostSite, hostCount := map[], map[];
    for n := 0 to |bs|
      invariant Scanned(bs[..n], hostSite, hostCount)
    {
      var b := bs[n];
      assert bs[..n + 1] == bs[..n] + [b];
      ScannedStep(bs[..n], b, hostSite, hostCount);
      hostCount := hostCount[b.host := (if b.host in hostCount then hostCount[b.host] else 0) + 1];
      if b.hosting.Some? && b.hosting.value.site != "" && (b.host !in hostSite || hostSite[b.host] == "") {
        hostSite := hostSite[b.host := b.hosting.value.site];
      }
    }
    assert bs[..|bs|] == bs;
  }

  /** The items with the names they have inside their group. */
  method LabelItems(bs: seq<Backend>) returns (items: seq<SvcItem>)
    ensures items == Labelled(bs)
  {
    var hostSite, hostCount := ScanHosts(bs);
    items := [];
    for n := 0 to |bs|
      invariant |items| == n && forall i | 0 <= i < n :: items[i] == Labelled(bs)[i]
    {
      var b := bs[n];
      var site := if b.hosting.Some? then b.hosting.value.site else "";
      if site == "" {
        if b.host in hostSite && hostSite[b.host] != "" {
          site := hostSite[b.host];
        } else if b.host != "" && b.host in hostCount && hostCount[b.host] > 1 {
          site := b.host;
        }
      }
      assert site == SiteOf(bs, b);
      items := items + [SvcItem(b, ServiceLabel(b, site))];
    }
  }

  method Relabel(gs: seq<Group<SvcItem>>) returns (out: seq<Group<SvcItem>>)
    ensures out == Relabelled(gs)
  {
    out := gs;
    for n := 0 to |gs|
      invariant |out| == |gs|
      invariant forall i | 0 <= i < n :: out[i] == Relabelled(gs)[i]
      invariant forall i | n <= i < |gs| :: out[i] == gs[i]
    {
      if |out[n].items| == 1 {
        var it := out[n].items[0];
        out := out[n := out[n].(items := [it.(title := ServiceLabel(it.backend, ""))])];
      }
    }
  }

  /** A lone service is shown in full; the items of a group, and every header, stay as they are. */
  lemma RelabelledAt(gs: seq<Group<SvcItem>>, i: nat)
    requires i < |gs|
    ensures var g, r, be := gs[i], Relabelled(gs)[i], if gs[i].items == [] then NO_BACKEND else gs[i].items[0].backend;
            && |Relabelled(gs)| == |gs| && r.key == g.key
            && (|g.items| != 1 ==> r == g)
            && (|g.items| == 1 ==> r.items == [SvcItem(be, if be.name != "" then be.name else be.id)])
  {
  }

  method GroupServiceBackends(bs: seq<Backend>) returns (out: seq<Group<SvcItem>>)
    ensures out == Relabelled(GroupsOf(Labelled(bs), (it: SvcItem) => SiteOf(bs, it.backend)))
  {
    var items := LabelItems(bs);
    var gs := GroupOnePass(items, (it: SvcItem) => SiteOf(bs, it.backend));
    out := Relabel(gs);
  }

  /** The site of a host is that of the first service on it that has one. */
  lemma {:induction false} HostSiteIsFirst(bs: seq<Backend>, host: string) returns (i: nat)
    requires HostSite(bs, host) != ""
    ensures i < |bs| && bs[i].host == host && bs[i].hosting.Some? && bs[i].hosting.value.site == HostSite(bs, host)
    ensures forall k | 0 <= k < i && bs[k].host == host :: bs[k].hosting.None? || bs[k].hosting.value.site == ""
  {
    var n := |bs| - 1;
    if HostSite(bs[..n], host) != "" {
      i := HostSiteIsFirst(bs[..n], host);
    } else {
      i := n;
      HostSiteFacts(bs[..n], host);
      forall k | 0 <= k < n && bs[k].host == host ensures OwnSite(bs[k]) == "" {
        assert bs[k] in bs[..n];
      }
    }
  }

  lemma {:induction false} SharedIff(bs: seq<Backend>, host: string)
    ensures HostCount(bs, host) > 1 <==> exists i, j | 0 <= i < j < |bs| :: bs[i].host == bs[j].host == host
    ensures HostCount(bs, host) > 0 <==> exists i | 0 <= i < |bs| :: bs[i].host == host
  {
    if bs != [] {
      var n := |bs| - 1;
      SharedIff(bs[..n], host);
      if bs[n].host == host && HostCount(bs[..n], host) > 0 {
        var i :| 0 <= i < n && bs[..n][i].host == host;
        assert bs[i].host == bs[n].host == host;
      }
      if i, j :| 0 <= i < j < n && bs[..n][i].host == bs[..n][j].host == host {
        assert bs[i].host == bs[j].host == host;
      }
      forall i | 0 <= i < n ensures bs[..n][i] == bs[i] {
      }
    }
  }

  /** The header of a service: its own site, else the site of its host, else the host when it is shared. */
  lemma SiteOfIff(bs: seq<Backend>, be: Backend)
    ensures var own := be.hosting.Some? && be.hosting.value.site != "";
            var shared := be.host != "" && exists i, j | 0 <= i < j < |bs| :: bs[i].host == bs[j].host == be.host;
            && (own ==> SiteOf(bs, be) == be.hosting.value.site)
            && (!own && HostSite(bs, be.host) != "" ==> SiteOf(bs, be) == HostSite(bs, be.host))
            && (!own && HostSite(bs, be.host) == "" ==> SiteOf(bs, be) == if shared then be.host else "")
  {
    SharedIff(bs, be.host);
  }

  /** The label inside a group is the vhost, or the name without the header and a slash before it: with the
      header in front it reads as the full name again. A name that does not begin so, and one outside a group,
      is shown in full. */
  lemma LabelIff(be: Backend, site: string)
    ensures var full, shown := (if be.name != "" then be.name else be.id), ServiceLabel(be, site);
            && (site == "" ==> shown == full)
            && (site != "" && be.hosting.Some? && be.hosting.value.vhost != "" ==> shown == be.hosting.value.vhost)
            && (site != "" && (be.hosting.None? || be.hosting.value.vhost == "") ==>
                  if site + "/" <= full then site + "/" + shown == full else shown == full)
  {
  }

  lemma {:induction false} HostSiteFacts(bs: seq<Backend>, host: string)
    ensures HostSite(bs, host) != "" <==> exists b | b in bs :: b.host == host && OwnSite(b) != ""
    ensures HostSite(bs, host) != "" ==> exists b | b in bs :: b.host == host && OwnSite(b) == HostSite(bs, host)
  {
    if bs != [] {
      var n := |bs| - 1;
      HostSiteFacts(bs[..n], host);
      assert bs == bs[..n] + [bs[n]];
    }
  }

  lemma {:induction false} SharedHostCounts(bs: seq<Backend>, host: string, i: nat, j: nat)
    requires i < j < |bs| && bs[i].host == bs[j].host == host
    ensures HostCount(bs, host) > 1
  {
    var n := |bs| - 1;
    if j < n {
      SharedHostCounts(bs[..n], host, i, j);
    } else {
      HostIsCounted(bs[..n], host, i);
    }
  }

  lemma {:induction false} HostIsCounted(bs: seq<Backend>, host: string, i: nat)
    requires i < |bs| && bs[i].host == host
    ensures HostCount(bs, host) > 0
  {
    if i < |bs| - 1 {
      HostIsCounted(bs[..|bs| - 1], host, i);
    }
  }

  /** All services of a shared host appear under one header exactly when no two hosting sites claim it. */
  lemma SharedHostIsOneGroupIff(bs: seq<Backend>, host: string)
    requires host != ""
    ensures (forall b, c | b in bs && c in bs && b.host == c.host == host && b != c ::
               SiteOf(bs, b) == SiteOf(bs, c) != "")
       <==> (forall b, c | b in bs && c in bs && b.host == c.host == host && OwnSite(b) != "" && OwnSite(c) != "" ::
               OwnSite(b) == OwnSite(c))
  {
    HostSiteFacts(bs, host);
    if forall b, c | b in bs && c in bs && b.host == c.host == host && OwnSite(b) != "" && OwnSite(c) != "" ::
         OwnSite(b) == OwnSite(c)
    {
      forall b, c | b in bs && c in bs && b.host == c.host == host && b != c
        ensures SiteOf(bs, b) == SiteOf(bs, c) != ""
      {
        var i :| 0 <= i < |bs| && bs[i] == b;
        var j :| 0 <= j < |bs| && bs[j] == c;
        if i < j {
          SharedHostCounts(bs, host, i, j);
        } else {
          SharedHostCounts(bs, host, j, i);
        }
      }
    }
  }

  datatype Tile = Tile(name: string, site: string)

  method GroupTiles(ts: seq<Tile>) returns (out: seq<Group<Tile>>)
    ensures out == GroupsOf(ts, (t: Tile) => t.site)
  {
    out := GroupOnePass(ts, (t: Tile) => t.site);
  }

  datatype AuthzItem = AuthzItem(id: string, title: string, site: string)

  function AuthzOf(b: Backend): AuthzItem {
    if OwnSite(b) != "" then
      AuthzItem(b.id, if b.hosting.value.vhost == "" then b.id else b.hosting.value.vhost, OwnSite(b))
    else AuthzItem(b.id, b.id, "")
  }

  function AuthzItems(base: seq<Backend>, services: seq<Backend>, links: seq<string>): seq<AuthzItem> {
    seq(|base|, i requires 0 <= i < |base| => AuthzItem(base[i].id, base[i].id, ""))
    + seq(|services|, i requires 0 <= i < |services| => AuthzOf(services[i]))
    + seq(|links|, i requires 0 <= i < |links| => AuthzItem(links[i], links[i], ""))
  }

  method AuthzTree(base: seq<Backend>, services: seq<Backend>, links: seq<string>) returns (out: seq<Group<AuthzItem>>)
    ensures out == GroupsOf(AuthzItems(base, services, links), (a: AuthzItem) => a.site)
  {
    out := GroupOnePass(AuthzItems(base, services, links), (a: AuthzItem) => a.site);
  }

  function ItemIds(items: seq<AuthzItem>): seq<string> {
    seq(|items|, i requires 0 <= i < |items| => items[i].id)
  }

  function BackendIds(bs: seq<Backend>): seq<string> {
    seq(|bs|, i requires 0 <= i < |bs| => bs[i].id)
  }

  /** What the tree offers to authorize: every base backend, service and link, by its id, in this order; only
      a service with a hosting site has a header, and then its vhost, if it has one, as its title. */
  lemma AuthzItemAt(base: seq<Backend>, services: seq<Backend>, links: seq<string>, i: nat)
    requires i < |base| + |services| + |links|
    ensures var items, m, n := AuthzItems(base, services, links), |base|, |base| + |services|;
            && |items| == n + |links|
            && items[i].id == (if i < m then base[i].id else if i < n then services[i - m].id else links[i - n])
            && (if m <= i < n && services[i - m].hosting.Some? && services[i - m].hosting.value.site != "" then
                  var h := services[i - m].hosting.value;
                  items[i].site == h.site && items[i].title == if h.vhost != "" then h.vhost else services[i - m].id
                else items[i].site == "" && items[i].title == items[i].id)
  {
  }

  lemma ThreeParts(a: seq<string>, b: seq<string>, c: seq<string>, i: nat)
    requires i < |a| + |b| + |c|
    ensures (a + b + c)[i] == if i < |a| then a[i] else if i < |a| + |b| then b[i - |a|] else c[i - |a| - |b|]
  {
  }

  /** Every base backend, service and link is offered, in this order. */
  lemma AuthzOffersAll(base: seq<Backend>, services: seq<Backend>, links: seq<string>)
    ensures ItemIds(AuthzItems(base, services, links)) == BackendIds(base) + BackendIds(services) + links
  {
    var ids, b, s := ItemIds(AuthzItems(base, services, links)), BackendIds(base), BackendIds(services);
    forall i | 0 <= i < |ids| ensures ids[i] == (b + s + links)[i] {
      AuthzItemAt(base, services, links, i);
      ThreeParts(b, s, links, i);
    }
  }

  /** The grouping loses and doubles nothing. */
  lemma AuthzTreeKeepsItems(base: seq<Backend>, services: seq<Backend>, links: seq<string>)
    ensures var items := AuthzItems(base, services, links);
            multiset(Flatten(GroupsOf(items, (a: AuthzItem) => a.site))) == multiset(items)
  {
    FlattenPermutes(AuthzItems(base, services, links), (a: AuthzItem) => a.site);
  }
}
