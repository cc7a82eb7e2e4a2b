/** config/save.go: versioned saves with a ring of snapshots, over abstract file maps. */
module Snapshots {
  import opened Models
  import opened Ordering

  const BACKUPS_KEEP := 10
  const EXT := ".json"

  /** The live file of each kind, and the files of the backups directory by name. */
  datatype Files = Files(live: map<string, string>, backups: map<string, string>)

  function Name(kind: string, stamp: string): string {
    kind + "-" + stamp + EXT
  }

  /** The pattern "<kind>-*.json". */
  predicate Globs(kind: string, name: string) {
    |kind| + 1 + |EXT| <= |name| && kind + "-" <= name && name[|name| - |EXT|..] == EXT
  }

  // ---------------------------------------------------------------- the operations as functions

  /** The snapshots of `kind` that sort after `name`. */
  function Newer(names: set<string>, kind: string, name: string): set<string> {
    set m | m in names && Globs(kind, m) && m != name && Leq(name, m)
  }

  /** A file survives pruning iff it is not a snapshot of the kind, or fewer than `keep` of them are newer. */
  predicate Survives(names: set<string>, kind: string, keep: nat, name: string) {
    !Globs(kind, name) || |Newer(names, kind, name)| < keep
  }

  function Pruned(backups: map<string, string>, kind: string, keep: nat): map<string, string> {
    map n | n in backups && Survives(backups.Keys, kind, keep, n) :: backups[n]
  }

  function Snapshot(f: Files, kind: string, stamp: string): Files {
    if kind !in f.live then f
    else f.(backups := Pruned(f.backups[Name(kind, stamp) := f.live[kind]], kind, BACKUPS_KEEP))
  }

  function Saved(f: Files, kind: string, content: string, stamp: string): Files {
    var f' := Snapshot(f, kind, stamp);
    f'.(live := f'.live[kind := content])
  }

  /** The kind that a snapshot name belongs to. */
  function KindOf(name: string): Option<string> {
    if "users-" <= name then Some("users")
    else if "services-" <= name then Some("services")
    else if "secrets-" <= name then Some("secrets")
    else if "backends-" <= name then Some("backends")
    else None
  }

  function Restored(f: Files, name: string): Files {
    if name !in f.backups || KindOf(name).None? then f
    else f.(live := f.live[KindOf(name).value := f.backups[name]])
  }

  // ---------------------------------------------------------------- the files

  class ConfigDir {
    var live: map<string, string>
    var backups: map<string, string>

    function State(): Files
      reads this
    {
      Files(live, backups)
    }

    constructor ()
      ensures State() == Files(map[], map[])
    {
      live, backups := map[], map[];
    }

    /** The snapshots of a kind, in an unspecified order. */
    method Glob(kind: string) returns (matches: seq<string>)
      ensures forall n :: n in matches <==> n in backups && Globs(kind, n)
      ensures forall i, j | 0 <= i < j < |matches| :: matches[i] != matches[j]
    {
      var rest := set n | n in backups && Globs(kind, n);
      ghost var all := rest;
      matches := [];
      while rest != {}
        invariant rest <= all
        invariant forall n :: n in matches <==> n in all - rest
        invariant forall i, j | 0 <= i < j < |matches| :: matches[i] != matches[j]
        decreases rest
      {
        var n :| n in rest;
        assert n !in matches;
        matches := matches + [n];
        rest := rest - {n};
      }
    }

    /** Sorts the snapshots of a kind and removes all but the last `keep`. */
    method PruneBackups(kind: string, keep: nat)
      modifies this`backups
      ensures backups == Pruned(old(backups), kind, keep)
    {
      var matches := Glob(kind);
      ghost var all := backups;
      var sorted := SortNames(matches);
      forall i | 0 <= i < |sorted| ensures |Newer(all.Keys, kind, sorted[i])| == |sorted| - 1 - i {
        NewerThan(all.Keys, kind, sorted, i);
      }
      if |matches| <= keep {
        assert forall n | n in all :: Survives(all.Keys, kind, keep, n);
        return;
      }
      for i := 0 to |sorted| - keep
        invariant backups == map n | n in all && n !in sorted[..i] :: all[n]
      {
        backups := backups - {sorted[i]};
      }
      forall n | n in all ensures n in sorted[..|sorted| - keep] <==> !Survives(all.Keys, kind, keep, n) {
        if n in sorted {
          var i :| 0 <= i < |sorted| && sorted[i] == n;
          assert |Newer(all.Keys, kind, n)| == |sorted| - 1 - i;
          if n in sorted[..|sorted| - keep] {
            var k :| 0 <= k < |sorted| - keep && sorted[k] == n;
          }
        }
      }
    }

    /** Copies the live file, if there is one, and prunes. */
    method SnapshotAndPrune(kind: string, stamp: string)
      modifies this`backups
      ensures State() == Snapshot(old(State()), kind, stamp)
    {
      if kind !in live {
        return;
      }
      backups := backups[Name(kind, stamp) := live[kind]];
      PruneBackups(kind, BACKUPS_KEEP);
    }

    /** SaveUsers, SaveServices and SaveSecrets. */
    method Save(kind: string, content: string, stamp: string)
      modifies this
      ensures State() == Saved(old(State()), kind, content, stamp)
    {
      SnapshotAndPrune(kind, stamp);
      live := live[kind := content];
    }

    method RestoreSnapshot(name: string) returns (ok: bool)
      modifies this`live
      ensures ok == (name in backups && KindOf(name).Some?)
      ensures State() == Restored(old(State()), name)
    {
      if name !in backups {
        return false;
      }
      var kind := KindOf(name);
      if kind.None? {
        return false;
      }
      live := live[kind.value := backups[name]];
      return true;
    }
  }

  /** sort.Strings on distinct names. */
  method SortNames(names: seq<string>) returns (sorted: seq<string>)
    requires forall i, j | 0 <= i < j < |names| :: names[i] != names[j]
    ensures Sorted(Leq, sorted) && |sorted| == |names|
    ensures forall n :: n in sorted <==> n in names
    ensures forall i, j | 0 <= i < j < |sorted| :: sorted[i] != sorted[j]
  {
    sorted := Sort(Leq, names);
    LeqIsPreorder();
    SortSorts(Leq, names);
    SameElements(names, sorted);
    NoDupsSurvive(names, sorted);
  }

  /** In sorted order, what is newer than a name is what follows it. */
  lemma NewerThan(names: set<string>, kind: string, sorted: seq<string>, i: nat)
    requires i < |sorted| && Sorted(Leq, sorted)
    requires forall n :: n in sorted <==> n in names && Globs(kind, n)
    requires forall j, k | 0 <= j < k < |sorted| :: sorted[j] != sorted[k]
    ensures |Newer(names, kind, sorted[i])| == |sorted| - 1 - i
  {
    var after := sorted[i + 1..];
    forall m ensures m in Newer(names, kind, sorted[i]) <==> m in after {
      if m in after {
        var k :| 0 <= k < |after| && after[k] == m;
        assert m == sorted[i + 1 + k] && Leq(sorted[i], sorted[i + 1 + k]);
      }
      if m in Newer(names, kind, sorted[i]) {
        var k :| 0 <= k < |sorted| && sorted[k] == m;
        if k < i {
          LeqAntisymmetric(sorted[k], sorted[i]);
        }
        assert m == after[k - i - 1];
      }
    }
    assert Newer(names, kind, sorted[i]) == set m | m in after;
    DistinctSize(after);
  }

  lemma {:induction false} DistinctSize(s: seq<string>)
    requires forall i, j | 0 <= i < j < |s| :: s[i] != s[j]
    ensures |set m | m in s| == |s|
  {
    if s != [] {
      DistinctSize(s[1..]);
      assert (set m | m in s) == {s[0]} + (set m | m in s[1..]);
      assert s[0] !in s[1..];
    }
  }

  // ---------------------------------------------------------------- names and stamps

  lemma TailOfConcat(p: string, a: string)
    requires p != ""
    ensures p + a != "" && (p + a)[0] == p[0] && (p + a)[1..] == p[1..] + a
  {
  }

  lemma {:induction false} LeqSamePrefix(p: string, a: string, b: string)
    ensures Leq(p + a, p + b) <==> Leq(a, b)
  {
    if p == "" {
      assert p + a == a && p + b == b;
    } else {
      LeqSamePrefix(p[1..], a, b);
      TailOfConcat(p, a);
      TailOfConcat(p, b);
    }
  }

  lemma {:induction false} LeqSameSuffix(a: string, b: string, x: string)
    requires |a| == |b|
    ensures Leq(a + x, b + x) <==> Leq(a, b)
  {
    if a == "" {
      LeqTotal(x, x);
      assert a + x == x && b + x == x;
    } else {
      LeqSameSuffix(a[1..], b[1..], x);
      assert (a + x)[1..] == a[1..] + x && (b + x)[1..] == b[1..] + x;
    }
  }

  lemma NameParts(kind: string, s: string)
    ensures Name(kind, s) == (kind + "-") + (s + ".json")
    ensures Name(kind, s)[|kind| + 1..|kind| + 1 + |s|] == s
  {
  }

  lemma NameGlobs(kind: string, s: string)
    ensures Globs(kind, Name(kind, s))
  {
    NameParts(kind, s);
    assert Name(kind, s)[|Name(kind, s)| - |EXT|..] == EXT;
  }

  /** Names of one kind sort as their stamps, which have a fixed width, and differ when those do. */
  lemma NamesSortAsStamps(kind: string, s: string, t: string)
    requires |s| == |t|
    ensures Leq(Name(kind, s), Name(kind, t)) <==> Leq(s, t)
    ensures Name(kind, s) == Name(kind, t) <==> s == t
    ensures Globs(kind, Name(kind, s))
  {
    NameParts(kind, s);
    NameParts(kind, t);
    LeqSamePrefix(kind + "-", s + EXT, t + EXT);
    LeqSameSuffix(s, t, EXT);
    NameGlobs(kind, s);
  }

  lemma DashEnds(kind: string, name: string, i: nat)
    requires '-' !in kind && kind + "-" <= name
    ensures i < |kind| ==> name[i] == kind[i] && name[i] != '-'
    ensures name[|kind|] == '-'
  {
    assert (kind + "-")[|kind|] == '-';
    assert i < |kind| ==> (kind + "-")[i] == kind[i] && kind[i] in kind;
  }

  /** A file is a snapshot of at most one kind. */
  lemma GlobsOneKind(kind: string, other: string, name: string)
    requires '-' !in kind && '-' !in other && Globs(kind, name) && Globs(other, name)
    ensures kind == other
  {
    DashEnds(kind, name, |other|);
    DashEnds(other, name, |kind|);
    assert |kind| == |other|;
    assert (kind + "-")[..|kind|] == kind && (other + "-")[..|kind|] == other;
  }

  // ---------------------------------------------------------------- runs

  datatype SaveOp = SaveOp(kind: string, content: string, stamp: string)

  /** The files after the saves, from absent files and no backups. */
  function After(ops: seq<SaveOp>): Files {
    if ops == [] then Files(map[], map[])
    else
      var op := ops[|ops| - 1];
      Saved(After(ops[..|ops| - 1]), op.kind, op.content, op.stamp)
  }

  /** The saves of one kind. */
  function Versions(ops: seq<SaveOp>, kind: string): seq<SaveOp> {
    if ops == [] then []
    else
      var op := ops[|ops| - 1];
      if op.kind == kind then Versions(ops[..|ops| - 1], kind) + [op] else Versions(ops[..|ops| - 1], kind)
  }

  const STAMP_WIDTH := 15

  /** The clock does not go back; saves within one second share their stamp. */
  ghost predicate StampsDoNotFall(vs: seq<SaveOp>) {
    && (forall i | 0 <= i < |vs| :: |vs[i].stamp| == STAMP_WIDTH)
    && (forall i, j | 0 <= i < j < |vs| :: Leq(vs[i].stamp, vs[j].stamp))
  }

  /** The saves from number `from` on have different stamps. */
  ghost predicate StampsDiffer(vs: seq<SaveOp>, from: nat) {
    forall i, j | from <= i < j < |vs| :: vs[i].stamp != vs[j].stamp
  }

  /** No kind contains a dash and every stamp has the format's width. */
  ghost predicate ValidOps(ops: seq<SaveOp>) {
    forall i | 0 <= i < |ops| :: '-' !in ops[i].kind && |ops[i].stamp| == STAMP_WIDTH
  }

  /** The first of `n` saves whose snapshot is still there: the save number i keeps version i - 1. */
  function Oldest(n: nat): nat {
    if n > BACKUPS_KEEP + 1 then n - BACKUPS_KEEP else 1
  }

  /** The names of the snapshots taken by the saves from number `from` on. */
  function RingNames(kind: string, vs: seq<SaveOp>, from: nat): (names: seq<string>)
    ensures |names| == if from < |vs| then |vs| - from else 0
    ensures forall j | 0 <= j < |names| :: names[j] == Name(kind, vs[from + j].stamp)
  {
    if from >= |vs| then []
    else seq(|vs| - from, j requires 0 <= j < |vs| - from => Name(kind, vs[from + j].stamp))
  }

  /** The live file holds the last version and the backups hold the ones before it, at most ten. */
  ghost predicate Ring(f: Files, kind: string, vs: seq<SaveOp>) {
    && (kind in f.live <==> vs != [])
    && (vs != [] ==> f.live[kind] == vs[|vs| - 1].content)
    && (forall name | Globs(kind, name) :: name in f.backups <==> name in RingNames(kind, vs, Oldest(|vs|)))
    && (forall i | Oldest(|vs|) <= i < |vs| ::
          Name(kind, vs[i].stamp) in f.backups && f.backups[Name(kind, vs[i].stamp)] == vs[i - 1].content)
  }

  /** How many previous versions the ring has room for. */
  function RingSize(n: nat): nat {
    if n <= 1 then 0 else if n - 1 < BACKUPS_KEEP then n - 1 else BACKUPS_KEEP
  }

  ghost function SnapshotsOf(f: Files, kind: string): set<string> {
    set n | n in f.backups && Globs(kind, n)
  }

  // ---------------------------------------------------------------- what the backups hold

  /** The snapshots ever taken, each name once: a save within the second of the one before reuses its name. */
  function Taken(kind: string, vs: seq<SaveOp>): seq<string> {
    if |vs| <= 1 then []
    else
      var prev, name := Taken(kind, vs[..|vs| - 1]), Name(kind, vs[|vs| - 1].stamp);
      if prev != [] && prev[|prev| - 1] == name then prev else prev + [name]
  }

  function LastTen(names: seq<string>): seq<string> {
    if |names| <= BACKUPS_KEEP then names else names[|names| - BACKUPS_KEEP..]
  }

  /** No later save has the stamp of save `i`. */
  ghost predicate IsLastOfStamp(vs: seq<SaveOp>, i: nat) {
    i < |vs| && forall j | i < j < |vs| :: vs[j].stamp != vs[i].stamp
  }

  /** The state of the files after any saves: the last ten names taken, each with the version before the
      last save of its stamp. */
  ghost predicate Held(f: Files, kind: string, vs: seq<SaveOp>) {
    && (kind in f.live <==> vs != [])
    && (vs != [] ==> f.live[kind] == vs[|vs| - 1].content)
    && (forall name | Globs(kind, name) :: name in f.backups <==> name in LastTen(Taken(kind, vs)))
    && (forall i | 1 <= i < |vs| && IsLastOfStamp(vs, i) && Name(kind, vs[i].stamp) in f.backups ::
          f.backups[Name(kind, vs[i].stamp)] == vs[i - 1].content)
  }

  lemma DoNotFallBefore(vs: seq<SaveOp>, op: SaveOp)
    requires StampsDoNotFall(vs + [op])
    ensures StampsDoNotFall(vs) && |op.stamp| == STAMP_WIDTH
    ensures forall i | 0 <= i < |vs| :: Leq(vs[i].stamp, op.stamp)
  {
    var all := vs + [op];
    assert all[|vs|] == op;
    assert forall i | 0 <= i < |vs| :: all[i] == vs[i];
  }

  lemma TakenAppend(kind: string, vs: seq<SaveOp>, op: SaveOp)
    ensures var prev, name := Taken(kind, vs), Name(kind, op.stamp);
            Taken(kind, vs + [op])
              == if vs == [] then [] else if prev != [] && prev[|prev| - 1] == name then prev else prev + [name]
  {
    assert (vs + [op])[..|vs|] == vs;
  }

  /** The name list ends with the last save's, and each of its names is that of a save that is the last
      of its stamp. */
  lemma {:induction false} TakenFacts(kind: string, vs: seq<SaveOp>)
    ensures |Taken(kind, vs)| <= (if vs == [] then 0 else |vs| - 1)
    ensures |vs| >= 2 ==> Taken(kind, vs) != [] && Taken(kind, vs)[|Taken(kind, vs)| - 1] == Name(kind, vs[|vs| - 1].stamp)
  {
    if |vs| > 1 {
      TakenFacts(kind, vs[..|vs| - 1]);
    }
  }

  lemma {:induction false} TakenIsNamed(kind: string, vs: seq<SaveOp>, name: string) returns (i: nat)
    requires name in Taken(kind, vs) && forall k | 0 <= k < |vs| :: |vs[k].stamp| == STAMP_WIDTH
    ensures 1 <= i < |vs| && name == Name(kind, vs[i].stamp) && IsLastOfStamp(vs, i)
  {
    var n := |vs| - 1;
    if name == Name(kind, vs[n].stamp) {
      i := n;
    } else {
      i := TakenIsNamed(kind, vs[..n], name);
      assert vs[..n][i] == vs[i];
      forall j | i < j < |vs| ensures vs[j].stamp != vs[i].stamp {
        assert j < n ==> vs[..n][j] == vs[j];
      }
    }
  }

  lemma TakenBelow(kind: string, vs: seq<SaveOp>, op: SaveOp, name: string)
    requires StampsDoNotFall(vs + [op]) && name in Taken(kind, vs)
    ensures Leq(name, Name(kind, op.stamp)) && Globs(kind, name)
  {
    DoNotFallBefore(vs, op);
    var i := TakenIsNamed(kind, vs, name);
    NamesSortAsStamps(kind, vs[i].stamp, op.stamp);
  }

  /** The names are sorted and different. */
  ghost predicate Ascending(names: seq<string>) {
    Sorted(Leq, names) && forall i, j | 0 <= i < j < |names| :: names[i] != names[j]
  }

  lemma AscendingAppend(names: seq<string>, name: string)
    requires Ascending(names) && (forall m | m in names :: Leq(m, name))
    requires names != [] ==> names[|names| - 1] != name
    ensures Ascending(names + [name]) && name !in names
  {
    if name in names {
      var i :| 0 <= i < |names| && names[i] == name;
      assert names[|names| - 1] in names;
      assert i < |names| - 1 ==> Leq(names[i], names[|names| - 1]);
      LeqAntisymmetric(name, names[|names| - 1]);
    }
  }

  lemma {:induction false} TakenAscends(kind: string, vs: seq<SaveOp>)
    requires StampsDoNotFall(vs)
    ensures Ascending(Taken(kind, vs))
    ensures forall n | n in Taken(kind, vs) :: Globs(kind, n)
  {
    if |vs| > 1 {
      var n := |vs| - 1;
      var prev, name := Taken(kind, vs[..n]), Name(kind, vs[n].stamp);
      assert vs == vs[..n] + [vs[n]];
      DoNotFallBefore(vs[..n], vs[n]);
      TakenAscends(kind, vs[..n]);
      forall m | m in prev ensures Leq(m, name) {
        TakenBelow(kind, vs[..n], vs[n], m);
      }
      NamesSortAsStamps(kind, vs[n].stamp, vs[n].stamp);
      if prev == [] || prev[|prev| - 1] != name {
        AscendingAppend(prev, name);
      }
    }
  }

  lemma LastTenAscends(names: seq<string>)
    requires Ascending(names)
    ensures Ascending(LastTen(names)) && forall n | n in LastTen(names) :: n in names
  {
  }

  lemma LastTenAppend(names: seq<string>, name: string)
    ensures LastTen(LastTen(names) + [name]) == LastTen(names + [name])
    ensures LastTen(LastTen(names)) == LastTen(names)
    ensures names != [] ==> names[|names| - 1] in LastTen(names)
  {
    assert names != [] ==> LastTen(names)[|LastTen(names)| - 1] == names[|names| - 1];
  }

  /** Pruning keeps the last `keep` of the sorted snapshots. */
  lemma PruningKeepsLast(backups: map<string, string>, kind: string, sorted: seq<string>, keep: nat, i: nat)
    requires Ascending(sorted) && i < |sorted|
    requires forall n :: n in sorted <==> n in backups && Globs(kind, n)
    ensures sorted[i] in Pruned(backups, kind, keep) <==> |sorted| - i <= keep
  {
    NewerThan(backups.Keys, kind, sorted, i);
    assert sorted[i] in sorted;
  }

  lemma InLastTen(sorted: seq<string>, j: nat)
    requires Ascending(sorted) && j < |sorted|
    ensures sorted[j] in LastTen(sorted) <==> |sorted| - j <= BACKUPS_KEEP
  {
    var k := |sorted| - |LastTen(sorted)|;
    if j >= k {
      assert LastTen(sorted)[j - k] == sorted[j];
    } else {
      forall i | 0 <= i < |LastTen(sorted)| ensures LastTen(sorted)[i] != sorted[j] {
        assert LastTen(sorted)[i] == sorted[k + i];
      }
    }
  }

  lemma PruneIsLastTen(backups: map<string, string>, kind: string, sorted: seq<string>, n: string)
    requires Ascending(sorted) && Globs(kind, n)
    requires forall m :: m in sorted <==> m in backups && Globs(kind, m)
    ensures n in Pruned(backups, kind, BACKUPS_KEEP) <==> n in LastTen(sorted)
  {
    LastTenAscends(sorted);
    if n in sorted {
      var j :| 0 <= j < |sorted| && sorted[j] == n;
      PruningKeepsLast(backups, kind, sorted, BACKUPS_KEEP, j);
      InLastTen(sorted, j);
    }
  }

  // ---------------------------------------------------------------- every save keeps the state

  /** A save of one kind leaves the snapshots of every other kind alone. */
  lemma OtherKindUntouched(f: Files, kind: string, op: SaveOp, name: string)
    requires '-' !in kind && '-' !in op.kind && op.kind != kind && Globs(kind, name)
    ensures var g := Saved(f, op.kind, op.content, op.stamp);
            && (name in g.backups <==> name in f.backups)
            && (name in g.backups ==> g.backups[name] == f.backups[name])
  {
    NamesSortAsStamps(op.kind, op.stamp, op.stamp);
    if Globs(op.kind, name) {
      GlobsOneKind(kind, op.kind, name);
    }
  }

  lemma OtherSaveKeepsHeld(f: Files, kind: string, vs: seq<SaveOp>, op: SaveOp)
    requires Held(f, kind, vs) && '-' !in kind && '-' !in op.kind && op.kind != kind
    ensures Held(Saved(f, op.kind, op.content, op.stamp), kind, vs)
  {
    var g := Saved(f, op.kind, op.content, op.stamp);
    forall name | Globs(kind, name)
      ensures name in g.backups <==> name in f.backups
      ensures name in g.backups ==> g.backups[name] == f.backups[name]
    {
      OtherKindUntouched(f, kind, op, name);
    }
    forall i | 1 <= i < |vs| ensures Globs(kind, Name(kind, vs[i].stamp)) {
      NamesSortAsStamps(kind, vs[i].stamp, vs[i].stamp);
    }
  }

  /** The names of the kind once the snapshot of a save is written, before pruning. */
  function Added(kind: string, vs: seq<SaveOp>, op: SaveOp): seq<string> {
    var t, name := LastTen(Taken(kind, vs)), Name(kind, op.stamp);
    if name in t then t else t + [name]
  }

  lemma LastIsInLastTen(names: seq<string>)
    requires names != []
    ensures LastTen(names) != [] && LastTen(names)[|LastTen(names)| - 1] == names[|names| - 1]
  {
  }

  lemma NewNameFacts(names: seq<string>, name: string)
    requires Ascending(names) && (forall m | m in names :: Leq(m, name))
    requires names != [] ==> names[|names| - 1] != name
    ensures name !in LastTen(names) && Ascending(LastTen(names) + [name])
  {
    AscendingAppend(names, name);
    LastTenAscends(names);
    if names != [] {
      LastIsInLastTen(names);
    }
    AscendingAppend(LastTen(names), name);
  }

  lemma AddedFacts(kind: string, vs: seq<SaveOp>, op: SaveOp)
    requires vs != [] && StampsDoNotFall(vs + [op])
    ensures Ascending(Added(kind, vs, op))
    ensures LastTen(Added(kind, vs, op)) == LastTen(Taken(kind, vs + [op]))
  {
    var t, name := Taken(kind, vs), Name(kind, op.stamp);
    DoNotFallBefore(vs, op);
    TakenAscends(kind, vs);
    TakenAppend(kind, vs, op);
    LastTenAscends(t);
    LastTenAppend(t, name);
    if t == [] || t[|t| - 1] != name {
      forall m | m in t ensures Leq(m, name) {
        TakenBelow(kind, vs, op, m);
      }
      NewNameFacts(t, name);
    }
  }

  lemma AddedNames(f: Files, kind: string, vs: seq<SaveOp>, op: SaveOp, n: string)
    requires Held(f, kind, vs) && vs != [] && op.kind == kind && StampsDoNotFall(vs + [op])
    ensures n in Added(kind, vs, op) <==> n in f.backups[Name(kind, op.stamp) := f.live[kind]] && Globs(kind, n)
  {
    DoNotFallBefore(vs, op);
    TakenAscends(kind, vs);
    LastTenAscends(Taken(kind, vs));
    NamesSortAsStamps(kind, op.stamp, op.stamp);
  }

  lemma OwnSnapshotNames(f: Files, kind: string, vs: seq<SaveOp>, op: SaveOp, n: string)
    requires Held(f, kind, vs) && vs != [] && op.kind == kind && StampsDoNotFall(vs + [op]) && Globs(kind, n)
    ensures n in Snapshot(f, kind, op.stamp).backups <==> n in LastTen(Taken(kind, vs + [op]))
  {
    forall m ensures m in Added(kind, vs, op) <==> m in f.backups[Name(kind, op.stamp) := f.live[kind]] && Globs(kind, m) {
      AddedNames(f, kind, vs, op, m);
    }
    AddedFacts(kind, vs, op);
    PruneIsLastTen(f.backups[Name(kind, op.stamp) := f.live[kind]], kind, Added(kind, vs, op), n);
  }

  lemma OwnSnapshotContent(f: Files, kind: string, vs: seq<SaveOp>, op: SaveOp, i: nat)
    requires Held(f, kind, vs) && vs != [] && op.kind == kind && StampsDoNotFall(vs + [op])
    requires 1 <= i <= |vs| && IsLastOfStamp(vs + [op], i)
    ensures var all, g := vs + [op], Snapshot(f, kind, op.stamp);
            Name(kind, all[i].stamp) in g.backups ==> g.backups[Name(kind, all[i].stamp)] == all[i - 1].content
  {
    var all := vs + [op];
    DoNotFallBefore(vs, op);
    assert all[|vs|] == op && all[i - 1] == vs[i - 1];
    if i < |vs| {
      assert forall j | 0 <= j < |vs| :: all[j] == vs[j];
      NamesSortAsStamps(kind, vs[i].stamp, op.stamp);
      assert IsLastOfStamp(vs, i);
    }
  }

  /** A save keeps the state: its snapshot joins or replaces the one of the same second, and the oldest
      leaves when there are more than ten. */
  lemma OwnSaveKeepsHeld(f: Files, kind: string, vs: seq<SaveOp>, op: SaveOp)
    requires Held(f, kind, vs) && op.kind == kind && StampsDoNotFall(vs + [op])
    ensures Held(Saved(f, kind, op.content, op.stamp), kind, vs + [op])
  {
    var all := vs + [op];
    TakenAppend(kind, vs, op);
    if vs != [] {
      var g := Snapshot(f, kind, op.stamp);
      forall n | Globs(kind, n) ensures n in g.backups <==> n in LastTen(Taken(kind, all)) {
        OwnSnapshotNames(f, kind, vs, op, n);
      }
      forall i: nat | 1 <= i < |all| && IsLastOfStamp(all, i) && Name(kind, all[i].stamp) in g.backups
        ensures g.backups[Name(kind, all[i].stamp)] == all[i - 1].content
      {
        OwnSnapshotContent(f, kind, vs, op, i);
      }
    }
  }

  lemma VersionsAppend(ops: seq<SaveOp>, op: SaveOp, kind: string)
    ensures Versions(ops + [op], kind) == if op.kind == kind then Versions(ops, kind) + [op] else Versions(ops, kind)
  {
    assert (ops + [op])[..|ops|] == ops;
  }

  /** After any saves of any kinds with a clock that does not go back, the backups of a kind hold the last
      ten names taken, each with the version before the last save of its second. */
  lemma {:induction false} BackupsAreHeld(ops: seq<SaveOp>, kind: string)
    requires '-' !in kind && ValidOps(ops) && StampsDoNotFall(Versions(ops, kind))
    ensures Held(After(ops), kind, Versions(ops, kind))
  {
    if ops != [] {
      var n := |ops| - 1;
      var op, vs := ops[n], Versions(ops[..n], kind);
      if op.kind == kind {
        DoNotFallBefore(vs, op);
        BackupsAreHeld(ops[..n], kind);
        OwnSaveKeepsHeld(After(ops[..n]), kind, vs, op);
      } else {
        BackupsAreHeld(ops[..n], kind);
        OtherSaveKeepsHeld(After(ops[..n]), kind, vs, op);
      }
    }
  }

  // ---------------------------------------------------------------- the ring

  lemma RingAppend(kind: string, vs: seq<SaveOp>, op: SaveOp, from: nat)
    requires from <= |vs|
    ensures RingNames(kind, vs + [op], from) == RingNames(kind, vs, from) + [Name(kind, op.stamp)]
  {
  }

  lemma EndsWith<T>(x: seq<T>, y: seq<T>, z: T)
    ensures (x + y) + [z] == x + (y + [z])
  {
  }

  lemma EndsInLast(names: seq<string>)
    requires names != []
    ensures names == names[..|names| - 1] + ([] + [names[|names| - 1]])
  {
  }

  /** One more save with a stamp of its own: the names taken still end with those of the last saves. */
  lemma TakenStep(kind: string, init: seq<SaveOp>, op: SaveOp, from: nat, x: seq<string>) returns (y: seq<string>)
    requires 1 <= from <= |init| && StampsDoNotFall(init + [op]) && StampsDiffer(init + [op], from)
    requires Taken(kind, init) == x + RingNames(kind, init, from)
    ensures Taken(kind, init + [op]) == y + (RingNames(kind, init, from) + [Name(kind, op.stamp)])
  {
    var prev, name := Taken(kind, init), Name(kind, op.stamp);
    TakenAppend(kind, init, op);
    if prev != [] && prev[|prev| - 1] == name {
      SameNameMeansAtStart(kind, init, op, from);
      y := prev[..|prev| - 1];
      EndsInLast(prev);
    } else {
      y := x;
      EndsWith(x, RingNames(kind, init, from), name);
    }
  }

  /** When the last saves have different stamps, the names taken end with theirs. */
  lemma {:induction false} TakenEndsWith(kind: string, vs: seq<SaveOp>, from: nat) returns (x: seq<string>)
    requires 1 <= from <= |vs| && StampsDoNotFall(vs) && StampsDiffer(vs, from)
    ensures Taken(kind, vs) == x + RingNames(kind, vs, from)
  {
    if from == |vs| {
      x := Taken(kind, vs);
      assert x + [] == x;
    } else {
      var n := |vs| - 1;
      var init, op := vs[..n], vs[n];
      assert vs == init + [op];
      DoNotFallBefore(init, op);
      var y := TakenEndsWith(kind, init, from);
      x := TakenStep(kind, init, op, from, y);
      RingAppend(kind, init, op, from);
    }
  }

  lemma SameNameMeansAtStart(kind: string, init: seq<SaveOp>, op: SaveOp, from: nat)
    requires 1 <= from <= |init| && StampsDoNotFall(init + [op]) && StampsDiffer(init + [op], from)
    requires var prev := Taken(kind, init); prev != [] && prev[|prev| - 1] == Name(kind, op.stamp)
    ensures from == |init|
  {
    var n := |init|;
    TakenFacts(kind, init);
    assert (init + [op])[n - 1] == init[n - 1] && (init + [op])[n] == op;
    DoNotFallBefore(init, op);
    NamesSortAsStamps(kind, init[n - 1].stamp, op.stamp);
  }

  lemma {:induction false} SizeAtMost(s: seq<string>)
    ensures |set m | m in s| <= |s|
  {
    if s != [] {
      SizeAtMost(s[1..]);
      assert (set m | m in s) == {s[0]} + (set m | m in s[1..]);
    }
  }

  lemma RepeatShrinks(s: seq<string>, i: nat, j: nat)
    requires i < j < |s| && s[i] == s[j]
    ensures |set m | m in s| < |s|
  {
    var rest := s[..j] + s[j + 1..];
    assert rest[i] == s[j];
    forall m ensures m in s <==> m in rest {
      if m in s {
        var k :| 0 <= k < |s| && s[k] == m;
        assert k != j ==> rest[if k < j then k else k - 1] == m;
      }
    }
    assert (set m | m in s) == (set m | m in rest);
    SizeAtMost(rest);
  }

  lemma LastTenOf(x: seq<string>, ring: seq<string>)
    requires |ring| == BACKUPS_KEEP || (x == [] && |ring| <= BACKUPS_KEEP)
    ensures LastTen(x + ring) == ring
  {
  }

  lemma RingLength(kind: string, vs: seq<SaveOp>)
    ensures |RingNames(kind, vs, Oldest(|vs|))| == RingSize(|vs|)
  {
  }

  lemma NothingBefore(names: seq<string>, x: seq<string>, ring: seq<string>)
    requires names == x + ring && |names| <= |ring|
    ensures x == []
  {
  }

  /** With different last stamps the names held are those of the ring. */
  lemma RingIsHeld(kind: string, vs: seq<SaveOp>)
    requires StampsDoNotFall(vs) && StampsDiffer(vs, Oldest(|vs|))
    ensures LastTen(Taken(kind, vs)) == RingNames(kind, vs, Oldest(|vs|))
  {
    if vs != [] {
      var x := TakenEndsWith(kind, vs, Oldest(|vs|));
      TakenFacts(kind, vs);
      RingLength(kind, vs);
      if |vs| <= BACKUPS_KEEP + 1 {
        NothingBefore(Taken(kind, vs), x, RingNames(kind, vs, Oldest(|vs|)));
      }
      LastTenOf(x, RingNames(kind, vs, Oldest(|vs|)));
    }
  }

  lemma RingMember(kind: string, vs: seq<SaveOp>, from: nat, i: nat)
    requires from <= i < |vs|
    ensures Name(kind, vs[i].stamp) in RingNames(kind, vs, from)
    ensures Globs(kind, Name(kind, vs[i].stamp))
  {
    assert RingNames(kind, vs, from)[i - from] == Name(kind, vs[i].stamp);
    NamesSortAsStamps(kind, vs[i].stamp, vs[i].stamp);
  }

  lemma RingNamesGlob(kind: string, vs: seq<SaveOp>, from: nat, n: string)
    requires n in RingNames(kind, vs, from)
    ensures Globs(kind, n)
  {
    var i :| 0 <= i < |RingNames(kind, vs, from)| && RingNames(kind, vs, from)[i] == n;
    RingMember(kind, vs, from, from + i);
  }

  lemma SnapshotsAreRing(f: Files, kind: string, vs: seq<SaveOp>)
    requires Ring(f, kind, vs)
    ensures SnapshotsOf(f, kind) == set n | n in RingNames(kind, vs, Oldest(|vs|))
  {
    forall n ensures n in SnapshotsOf(f, kind) <==> n in RingNames(kind, vs, Oldest(|vs|)) {
      if n in RingNames(kind, vs, Oldest(|vs|)) {
        RingNamesGlob(kind, vs, Oldest(|vs|), n);
      }
    }
  }

  lemma HeldIsRing(f: Files, kind: string, vs: seq<SaveOp>)
    requires Held(f, kind, vs) && StampsDoNotFall(vs) && StampsDiffer(vs, Oldest(|vs|))
    ensures Ring(f, kind, vs) && |SnapshotsOf(f, kind)| == RingSize(|vs|)
  {
    RingIsHeld(kind, vs);
    RingLength(kind, vs);
    forall i: nat | Oldest(|vs|) <= i < |vs|
      ensures Name(kind, vs[i].stamp) in f.backups && f.backups[Name(kind, vs[i].stamp)] == vs[i - 1].content
    {
      RingMember(kind, vs, Oldest(|vs|), i);
      assert IsLastOfStamp(vs, i);
    }
    SnapshotsAreRing(f, kind, vs);
    TakenAscends(kind, vs);
    LastTenAscends(Taken(kind, vs));
    DistinctSize(RingNames(kind, vs, Oldest(|vs|)));
  }

  lemma RingRepeats(kind: string, vs: seq<SaveOp>, i: nat, j: nat)
    requires Oldest(|vs|) <= i < j < |vs| && vs[i].stamp == vs[j].stamp
    ensures var names := RingNames(kind, vs, Oldest(|vs|)); |set n | n in names| < |names| == RingSize(|vs|)
  {
    var names, from := RingNames(kind, vs, Oldest(|vs|)), Oldest(|vs|);
    RingLength(kind, vs);
    assert names[i - from] == Name(kind, vs[from + (i - from)].stamp);
    assert names[j - from] == Name(kind, vs[from + (j - from)].stamp);
    RepeatShrinks(names, i - from, j - from);
  }

  lemma RingNeedsDifferentStamps(f: Files, kind: string, vs: seq<SaveOp>, i: nat, j: nat)
    requires Oldest(|vs|) <= i < j < |vs| && vs[i].stamp == vs[j].stamp && Ring(f, kind, vs)
    ensures |SnapshotsOf(f, kind)| < RingSize(|vs|)
  {
    SnapshotsAreRing(f, kind, vs);
    RingRepeats(kind, vs, i, j);
  }

  /** The ring: after any saves of any kinds, with a clock that does not go back, the backups of a kind
      hold its last min(n - 1, 10) previous versions, each in a file of its own, exactly when the saves
      that took them have different stamps. */
  lemma BackupsAreLastVersionsIff(ops: seq<SaveOp>, kind: string)
    requires '-' !in kind && ValidOps(ops) && StampsDoNotFall(Versions(ops, kind))
    ensures var vs, f := Versions(ops, kind), After(ops);
            Ring(f, kind, vs) && |SnapshotsOf(f, kind)| == RingSize(|vs|) <==> StampsDiffer(vs, Oldest(|vs|))
    ensures var n := |Versions(ops, kind)|; n > 0 ==> n - Oldest(n) == RingSize(n) == if n - 1 < 10 then n - 1 else 10
  {
    var vs, f := Versions(ops, kind), After(ops);
    BackupsAreHeld(ops, kind);
    if StampsDiffer(vs, Oldest(|vs|)) {
      HeldIsRing(f, kind, vs);
    } else if Ring(f, kind, vs) {
      var i, j :| Oldest(|vs|) <= i < j < |vs| && vs[i].stamp == vs[j].stamp;
      RingNeedsDifferentStamps(f, kind, vs, i, j);
    }
  }

  /** In particular with strictly rising stamps. */
  lemma BackupsAreLastVersions(ops: seq<SaveOp>, kind: string)
    requires '-' !in kind && ValidOps(ops)
    requires StampsDoNotFall(Versions(ops, kind)) && StampsDiffer(Versions(ops, kind), 1)
    ensures Ring(After(ops), kind, Versions(ops, kind))
  {
    BackupsAreLastVersionsIff(ops, kind);
  }

  /** A version whose snapshot is overwritten within its second is lost: no snapshot of the kind holds it,
      unless another version had the same content. */
  lemma OverwrittenVersionIsLost(ops: seq<SaveOp>, kind: string, i: nat, name: string)
    requires '-' !in kind && ValidOps(ops) && StampsDoNotFall(Versions(ops, kind))
    requires var vs := Versions(ops, kind);
             && 1 <= i && i + 1 < |vs| && vs[i].stamp == vs[i + 1].stamp
             && (forall j | 0 <= j < |vs| && j != i - 1 :: vs[j].content != vs[i - 1].content)
    requires name in SnapshotsOf(After(ops), kind)
    ensures After(ops).backups[name] != Versions(ops, kind)[i - 1].content
  {
    var vs := Versions(ops, kind);
    BackupsAreHeld(ops, kind);
    TakenAscends(kind, vs);
    LastTenAscends(Taken(kind, vs));
    var j := TakenIsNamed(kind, vs, name);
    assert After(ops).backups[name] == vs[j - 1].content && j != i;
  }

  // ---------------------------------------------------------------- restoring

  /** Whatever the stamps: a save keeps its own snapshot, with the version it replaces, exactly when fewer
      than ten snapshots of the kind sort after its name. */
  lemma FreshSnapshotStaysIff(f: Files, kind: string, content: string, stamp: string)
    requires kind in f.live
    ensures var g, name := Saved(f, kind, content, stamp), Name(kind, stamp);
            && (name in g.backups <==> |Newer(f.backups.Keys, kind, name)| < 10)
            && (name in g.backups ==> g.backups[name] == f.live[kind])
  {
    var name := Name(kind, stamp);
    NameGlobs(kind, stamp);
    assert Newer(f.backups[name := f.live[kind]].Keys, kind, name) == Newer(f.backups.Keys, kind, name);
  }

  /** So restoring it undoes the save exactly then, or when nothing was changed. */
  lemma RestoreUndoesSaveIff(f: Files, kind: string, content: string, stamp: string)
    requires kind in {"users", "services", "secrets"} && kind in f.live
    ensures Restored(Saved(f, kind, content, stamp), Name(kind, stamp)).live == f.live
       <==> |Newer(f.backups.Keys, kind, Name(kind, stamp))| < 10 || content == f.live[kind]
  {
    FreshSnapshotStaysIff(f, kind, content, stamp);
    KindOfName(kind, stamp);
    var g := Saved(f, kind, content, stamp);
    assert g.live == f.live[kind := content];
    if Name(kind, stamp) in g.backups {
      assert Restored(g, Name(kind, stamp)).live == f.live[kind := content][kind := f.live[kind]] == f.live;
    } else {
      assert Restored(g, Name(kind, stamp)).live == f.live[kind := content];
      assert f.live[kind := content] == f.live <==> content == f.live[kind];
    }
  }

  lemma HeldBeforeAndAfter(ops: seq<SaveOp>, op: SaveOp)
    requires ValidOps(ops + [op]) && StampsDoNotFall(Versions(ops + [op], op.kind))
    ensures var vs := Versions(ops, op.kind);
            && StampsDoNotFall(vs + [op])
            && Held(After(ops), op.kind, vs) && Held(After(ops + [op]), op.kind, vs + [op])
  {
    ValidBefore(ops, op);
    VersionsAppend(ops, op, op.kind);
    DoNotFallBefore(Versions(ops, op.kind), op);
    BackupsAreHeld(ops, op.kind);
    BackupsAreHeld(ops + [op], op.kind);
  }

  /** After any run of saves, restoring the snapshot of the last one undoes it exactly then; with stamps
      that do not fall it always does, also within one second. */
  lemma RestoreUndoesLastSave(ops: seq<SaveOp>, op: SaveOp)
    requires op.kind in {"users", "services", "secrets"} && op.kind in After(ops).live
    ensures var name, f := Name(op.kind, op.stamp), After(ops);
            var undone := Restored(After(ops + [op]), name).live == f.live;
            && (undone <==> |Newer(f.backups.Keys, op.kind, name)| < 10 || op.content == f.live[op.kind])
            && (ValidOps(ops + [op]) && StampsDoNotFall(Versions(ops + [op], op.kind)) ==> undone)
  {
    AfterAppend(ops, op);
    RestoreUndoesSaveIff(After(ops), op.kind, op.content, op.stamp);
    if ValidOps(ops + [op]) && StampsDoNotFall(Versions(ops + [op], op.kind)) {
      RestoreReverts(ops, op);
    }
  }

  lemma ValidBefore(ops: seq<SaveOp>, op: SaveOp)
    requires ValidOps(ops + [op])
    ensures ValidOps(ops) && '-' !in op.kind
  {
    assert forall i | 0 <= i < |ops| :: (ops + [op])[i] == ops[i];
    assert (ops + [op])[|ops|] == op;
  }

  lemma AfterAppend(ops: seq<SaveOp>, op: SaveOp)
    ensures After(ops + [op]) == Saved(After(ops), op.kind, op.content, op.stamp)
    ensures After(ops + [op]).live == After(ops).live[op.kind := op.content]
  {
    assert (ops + [op])[..|ops|] == ops;
  }

  lemma RestoreReverts(ops: seq<SaveOp>, op: SaveOp)
    requires op.kind in {"users", "services", "secrets"} && op.kind in After(ops).live
    requires ValidOps(ops + [op]) && StampsDoNotFall(Versions(ops + [op], op.kind))
    ensures Restored(After(ops + [op]), Name(op.kind, op.stamp)).live == After(ops).live
  {
    AfterAppend(ops, op);
    HeldBeforeAndAfter(ops, op);
    LastSnapshotIsPrevious(After(ops), After(ops + [op]), op.kind, Versions(ops, op.kind), op);
    KindOfName(op.kind, op.stamp);
  }

  lemma LastSnapshotIsPrevious(f: Files, g: Files, kind: string, vs: seq<SaveOp>, op: SaveOp)
    requires Held(f, kind, vs) && Held(g, kind, vs + [op]) && vs != [] && |op.stamp| == STAMP_WIDTH
    ensures Name(kind, op.stamp) in g.backups && g.backups[Name(kind, op.stamp)] == f.live[kind]
  {
    var all := vs + [op];
    assert all[|vs|] == op && all[|vs| - 1] == vs[|vs| - 1] && IsLastOfStamp(all, |vs|);
    TakenFacts(kind, all);
    LastTenAppend(Taken(kind, all), "");
    NamesSortAsStamps(kind, op.stamp, op.stamp);
  }

  /** A name is of the kind that it begins with, and of none when it begins with no kind. */
  lemma KindOfIff(name: string, kind: string)
    ensures KindOf(name) == Some(kind) <==> kind in {"users", "services", "secrets", "backends"} && kind + "-" <= name
  {
    assert "users" + "-" == "users-" && "services" + "-" == "services-";
    assert "secrets" + "-" == "secrets-" && "backends" + "-" == "backends-";
    if kind in {"users", "services", "secrets", "backends"} && kind + "-" <= name {
      assert name[0] == kind[0] && name[2] == kind[2];
      assert "users-"[0] == 'u' && "services-"[0] == 's' && "secrets-"[0] == 's' && "backends-"[0] == 'b';
      assert "services-"[2] == 'r' && "secrets-"[2] == 'c';
    }
  }

  lemma KindOfName(kind: string, stamp: string)
    requires kind in {"users", "services", "secrets"}
    ensures KindOf(Name(kind, stamp)) == Some(kind)
  {
    assert kind + "-" <= Name(kind, stamp);
    KindOfIff(Name(kind, stamp), kind);
  }
}
