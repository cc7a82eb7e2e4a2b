/** dockerscan/scan.go: the concurrent port scan, as a system of interleaved steps. */
module Scanner {

  const MAX_SCAN_PORTS := 2000
  const SLOTS := 100

  /** The range that is scanned, and whether the request was narrowed. */
  function ClampRange(from: int, to: int): (r: (int, int, bool)) {
    var lo := if from < 1 then 1 else from;
    var hi := if to > 65535 then 65535 else to;
    if hi < lo then (lo, hi, false)
    else if hi - lo + 1 > MAX_SCAN_PORTS then (lo, lo + MAX_SCAN_PORTS - 1, true)
    else (lo, hi, false)
  }

  /** The clamped range is the first 2000 requested ports that exist, and narrowing is reported. */
  lemma ClampIsFirstPorts(from: int, to: int, p: int)
    ensures var (lo, hi, narrowed) := ClampRange(from, to);
            && (lo <= p <= hi ==> from <= p <= to && 1 <= p <= 65535)
            && (from <= p <= to && 1 <= p <= 65535 ==> lo <= p && (p <= hi || (narrowed && p - lo >= 2000)))
            && hi - lo + 1 <= 2000
            && (narrowed ==> hi - lo + 1 == 2000 && hi < to && hi < 65535)
  {
  }

  // ---------------------------------------------------------------- the step system

  /** A goroutine holds its slot until it leaves `Closing`; `Released` has only `wg.Done` left. */
  datatype Phase = Dialing | Found | Closing | Released | Done

  /** `spawned` goroutines exist, for the ports `lo .. lo + spawned`; `slots` is the fill of the
      semaphore and `open` the shared result, in order of completion. */
  datatype Scan = Scan(phases: seq<Phase>, slots: nat, open: seq<int>, dials: seq<int>)

  /** The environment: the range, and which ports answer. */
  datatype Net = Net(lo: int, hi: int, listens: int -> bool)

  datatype Action = Spawn | Proceed(i: nat)

  function Size(n: Net): nat {
    if n.hi < n.lo then 0 else n.hi - n.lo + 1
  }

  predicate HoldsSlot(ph: Phase) {
    ph == Dialing || ph == Found || ph == Closing
  }

  predicate Enabled(n: Net, s: Scan, a: Action) {
    match a
    // the loop reserves a slot before it starts the next goroutine
    case Spawn => |s.phases| < Size(n) && s.slots < SLOTS
    case Proceed(i) => i < |s.phases| && s.phases[i] != Done
  }

  /** One step of the loop or of one goroutine. */
  function Step(n: Net, s: Scan, a: Action): Scan
    requires Enabled(n, s, a)
  {
    match a
    case Spawn =>
      s.(phases := s.phases + [Dialing], slots := s.slots + 1, dials := s.dials + [n.lo + |s.phases|])
    case Proceed(i) =>
      match s.phases[i]
      case Dialing => s.(phases := s.phases[i := if n.listens(n.lo + i) then Found else Closing])
      case Found => s.(phases := s.phases[i := Closing], open := s.open + [n.lo + i])
      case Closing =>
        s.(phases := s.phases[i := Released], slots := if s.slots > 0 then s.slots - 1 else 0)
      case Released => s.(phases := s.phases[i := Done])
      case Done => s
  }

  const START := Scan([], 0, [], [])

  /** `wg.Wait()` returns. */
  predicate Finished(n: Net, s: Scan) {
    |s.phases| == Size(n) && forall i | 0 <= i < |s.phases| :: s.phases[i] == Done
  }

  ghost predicate Schedule(n: Net, s: Scan, actions: seq<Action>)
    decreases |actions|
  {
    actions == [] || (Enabled(n, s, actions[0]) && Schedule(n, Step(n, s, actions[0]), actions[1..]))
  }

  ghost function RunFrom(n: Net, s: Scan, actions: seq<Action>): Scan
    requires Schedule(n, s, actions)
    decreases |actions|
  {
    if actions == [] then s else RunFrom(n, Step(n, s, actions[0]), actions[1..])
  }

  // ---------------------------------------------------------------- the invariant

  function Holding(phases: seq<Phase>): nat {
    if phases == [] then 0
    else Holding(phases[..|phases| - 1]) + (if HoldsSlot(phases[|phases| - 1]) then 1 else 0)
  }

  /** Goroutine `i` has appended its port. */
  predicate Appended(n: Net, s: Scan, i: nat)
    requires i < |s.phases|
  {
    n.listens(n.lo + i) && s.phases[i] != Dialing && s.phases[i] != Found
  }

  /** The semaphore counts the holders, and the dials are the ports started, in order. */
  ghost predicate Counted(n: Net, s: Scan) {
    && |s.phases| <= Size(n)
    && s.slots == Holding(s.phases) <= SLOTS
    && s.dials == seq(|s.phases|, i => n.lo + i)
  }

  /** The shared result holds exactly the open ports whose goroutine has got that far, once each. */
  ghost predicate Collected(n: Net, s: Scan) {
    && (forall i | 0 <= i < |s.phases| && s.phases[i] == Found :: n.listens(n.lo + i))
    && (forall p :: p in s.open <==> n.lo <= p < n.lo + |s.phases| && Appended(n, s, p - n.lo))
    && (forall j, k | 0 <= j < k < |s.open| :: s.open[j] != s.open[k])
  }

  ghost predicate Inv(n: Net, s: Scan) {
    Counted(n, s) && Collected(n, s)
  }

  lemma {:induction false} HoldingUpdate(phases: seq<Phase>, i: nat, ph: Phase)
    requires i < |phases|
    ensures Holding(phases[i := ph])
         == Holding(phases) - (if HoldsSlot(phases[i]) then 1 else 0) + (if HoldsSlot(ph) then 1 else 0)
    ensures HoldsSlot(phases[i]) ==> Holding(phases) > 0
  {
    var n := |phases| - 1;
    if i == n {
      assert phases[i := ph][..n] == phases[..n];
    } else {
      assert phases[i := ph][..n] == phases[..n][i := ph];
      HoldingUpdate(phases[..n], i, ph);
    }
  }

  lemma HoldingAppend(phases: seq<Phase>, ph: Phase)
    ensures Holding(phases + [ph]) == Holding(phases) + (if HoldsSlot(ph) then 1 else 0)
  {
    assert (phases + [ph])[..|phases|] == phases;
  }

  lemma StepKeepsCounts(n: Net, s: Scan, a: Action)
    requires Counted(n, s) && Enabled(n, s, a)
    ensures Counted(n, Step(n, s, a))
  {
    match a
    case Spawn =>
      HoldingAppend(s.phases, Dialing);
    case Proceed(i) =>
      HoldingUpdate(s.phases, i, Step(n, s, a).phases[i]);
  }

  lemma StepKeepsCollected(n: Net, s: Scan, a: Action)
    requires Collected(n, s) && Enabled(n, s, a)
    ensures Collected(n, Step(n, s, a))
  {
    var t := Step(n, s, a);
    forall p ensures p in t.open <==> n.lo <= p < n.lo + |t.phases| && Appended(n, t, p - n.lo) {
      if a.Spawn? && p == n.lo + |s.phases| {
        assert p !in s.open;
      }
    }
    if a.Proceed? && s.phases[a.i] == Found {
      assert !Appended(n, s, a.i);
      assert n.lo + a.i !in s.open;
    }
  }

  /** Every step of every goroutine keeps the invariant. */
  lemma StepKeepsInv(n: Net, s: Scan, a: Action)
    requires Inv(n, s) && Enabled(n, s, a)
    ensures Inv(n, Step(n, s, a))
  {
    StepKeepsCounts(n, s, a);
    StepKeepsCollected(n, s, a);
  }

  lemma {:induction false} RunKeepsInv(n: Net, s: Scan, actions: seq<Action>)
    requires Inv(n, s) && Schedule(n, s, actions)
    ensures Inv(n, RunFrom(n, s, actions))
    decreases |actions|
  {
    if actions != [] {
      StepKeepsInv(n, s, actions[0]);
      RunKeepsInv(n, Step(n, s, actions[0]), actions[1..]);
    }
  }

  /** Under every schedule at most 100 dials are in flight, and each port is dialled at most once, in range. */
  lemma DialsAreBounded(n: Net, actions: seq<Action>)
    requires Schedule(n, START, actions)
    ensures var s := RunFrom(n, START, actions);
            && Holding(s.phases) <= 100
            && |s.dials| <= Size(n)
            && forall i | 0 <= i < |s.dials| :: s.dials[i] == n.lo + i
  {
    RunKeepsInv(n, START, actions);
  }

  // ---------------------------------------------------------------- termination

  function Left(ph: Phase): nat {
    match ph
    case Dialing => 4
    case Found => 3
    case Closing => 2
    case Released => 1
    case Done => 0
  }

  function Work(phases: seq<Phase>): nat {
    if phases == [] then 0 else Work(phases[..|phases| - 1]) + Left(phases[|phases| - 1])
  }

  /** What remains to be done: five steps for every port not yet started, and the rest of each goroutine. */
  function Remaining(n: Net, s: Scan): int {
    5 * (Size(n) - |s.phases|) + Work(s.phases)
  }

  lemma {:induction false} WorkUpdate(phases: seq<Phase>, i: nat, ph: Phase)
    requires i < |phases|
    ensures Work(phases[i := ph]) == Work(phases) - Left(phases[i]) + Left(ph)
  {
    var n := |phases| - 1;
    if i == n {
      assert phases[i := ph][..n] == phases[..n];
    } else {
      assert phases[i := ph][..n] == phases[..n][i := ph];
      WorkUpdate(phases[..n], i, ph);
    }
  }

  /** Every step decreases what remains, which is never negative. */
  lemma EveryStepDecreases(n: Net, s: Scan, a: Action)
    requires Inv(n, s) && Enabled(n, s, a)
    ensures 0 <= Remaining(n, Step(n, s, a)) < Remaining(n, s)
  {
    match a
    case Spawn =>
      assert (s.phases + [Dialing])[..|s.phases|] == s.phases;
    case Proceed(i) =>
      WorkUpdate(s.phases, i, Step(n, s, a).phases[i]);
  }

  /** No schedule is longer than five steps a port. */
  lemma {:induction false} SchedulesAreBounded(n: Net, s: Scan, actions: seq<Action>)
    requires Inv(n, s) && Schedule(n, s, actions)
    ensures |actions| <= Remaining(n, s)
    decreases |actions|
  {
    if actions != [] {
      EveryStepDecreases(n, s, actions[0]);
      StepKeepsInv(n, s, actions[0]);
      SchedulesAreBounded(n, Step(n, s, actions[0]), actions[1..]);
    }
  }

  lemma {:induction false} SomeoneHolds(phases: seq<Phase>) returns (i: nat)
    requires Holding(phases) > 0
    ensures i < |phases| && HoldsSlot(phases[i])
  {
    var n := |phases| - 1;
    if HoldsSlot(phases[n]) {
      i := n;
    } else {
      i := SomeoneHolds(phases[..n]);
    }
  }

  /** The scan never deadlocks: it is finished exactly when no step is enabled. */
  lemma StuckIffFinished(n: Net, s: Scan)
    requires Inv(n, s)
    ensures Finished(n, s) <==> forall a :: !Enabled(n, s, a)
  {
    if !Finished(n, s) {
      if |s.phases| < Size(n) {
        if s.slots == SLOTS {
          var i := SomeoneHolds(s.phases);
          assert Enabled(n, s, Proceed(i));
        } else {
          assert Enabled(n, s, Spawn);
        }
      } else {
        var i :| 0 <= i < |s.phases| && s.phases[i] != Done;
        assert Enabled(n, s, Proceed(i));
      }
    }
  }

  // ---------------------------------------------------------------- the result

  predicate Ascending(s: seq<int>) {
    forall i, j | 0 <= i < j < |s| :: s[i] < s[j]
  }

  /** sort.Ints. */
  function SortInts(s: seq<int>): seq<int> {
    if s == [] then [] else InsertInt(s[0], SortInts(s[1..]))
  }

  function InsertInt(x: int, s: seq<int>): seq<int> {
    if s == [] || x <= s[0] then [x] + s else [s[0]] + InsertInt(x, s[1..])
  }

  /** The open ports of a range, from below. */
  function OpenPorts(n: Net, lo: int): seq<int>
    decreases n.hi - lo
  {
    if lo > n.hi then [] else (if n.listens(lo) then [lo] else []) + OpenPorts(n, lo + 1)
  }

  lemma {:induction false} OpenPortsFacts(n: Net, lo: int)
    ensures Ascending(OpenPorts(n, lo))
    ensures forall p :: p in OpenPorts(n, lo) <==> lo <= p <= n.hi && n.listens(p)
    decreases n.hi - lo
  {
    if lo <= n.hi {
      OpenPortsFacts(n, lo + 1);
      var rest := OpenPorts(n, lo + 1);
      LowestFirst(lo, rest);
      assert [] + rest == rest;
    }
  }

  lemma LowestFirst(lo: int, rest: seq<int>)
    requires Ascending(rest) && forall p | p in rest :: lo < p
    ensures Ascending([lo] + rest)
    ensures forall p :: p in [lo] + rest <==> p == lo || p in rest
  {
    assert forall k | 0 <= k < |rest| :: rest[k] in rest;
  }

  lemma {:induction false} InsertIntFacts(x: int, s: seq<int>)
    requires Ascending(s) && x !in s
    ensures Ascending(InsertInt(x, s))
    ensures forall y :: y in InsertInt(x, s) <==> y == x || y in s
  {
    if s != [] && x > s[0] {
      assert x !in s[1..];
      InsertIntFacts(x, s[1..]);
      var rest := InsertInt(x, s[1..]);
      assert forall k | 0 <= k < |rest| :: rest[k] in rest;
      assert forall y :: y in s <==> y == s[0] || y in s[1..];
    }
  }

  lemma {:induction false} SortIntsFacts(s: seq<int>)
    requires forall i, j | 0 <= i < j < |s| :: s[i] != s[j]
    ensures Ascending(SortInts(s))
    ensures forall y :: y in SortInts(s) <==> y in s
  {
    if s != [] {
      SortIntsFacts(s[1..]);
      assert forall y :: y in s <==> y == s[0] || y in s[1..];
      assert s[0] !in s[1..];
      InsertIntFacts(s[0], SortInts(s[1..]));
    }
  }

  lemma {:induction false} AscendingUnique(s: seq<int>, t: seq<int>)
    requires Ascending(s) && Ascending(t) && forall y :: y in s <==> y in t
    ensures s == t
  {
    assert s == [] || s[0] in s;
    assert t == [] || t[0] in t;
    if s != [] {
      assert s[0] == t[0];
      forall y ensures y in s[1..] <==> y in t[1..] {
        assert y in s[1..] <==> y in s && y != s[0];
        assert y in t[1..] <==> y in t && y != t[0];
      }
      AscendingUnique(s[1..], t[1..]);
    }
  }

  /** Whatever the schedule, the result is the ascending list of exactly the open ports of the clamped
      range, and each port of the range was dialled exactly once. */
  lemma ResultIsScheduleFree(from: int, to: int, listens: int -> bool, actions: seq<Action>)
    requires var (lo, hi, _) := ClampRange(from, to);
             && Schedule(Net(lo, hi, listens), START, actions)
             && Finished(Net(lo, hi, listens), RunFrom(Net(lo, hi, listens), START, actions))
    ensures var (lo, hi, _) := ClampRange(from, to);
            var n := Net(lo, hi, listens);
            var s := RunFrom(n, START, actions);
            && SortInts(s.open) == OpenPorts(n, lo)
            && s.dials == seq(Size(n), i => lo + i)
  {
    var (lo, hi, narrowed) := ClampRange(from, to);
    var n := Net(lo, hi, listens);
    RunKeepsInv(n, START, actions);
    var s := RunFrom(n, START, actions);
    OpenPortsFacts(n, lo);
    SortIntsFacts(s.open);
    forall p ensures p in s.open <==> p in OpenPorts(n, lo) {
      assert lo <= p <= hi ==> Appended(n, s, p - lo) == listens(p);
    }
    AscendingUnique(SortInts(s.open), OpenPorts(n, lo));
  }
}
