/** health/checker.go: periodic probes and alerts on state transitions. */
module Monitoring {
  import opened Models

  datatype State = Unknown | Up | Down | Unreachable

  datatype Status = Status(backendID: string, host: string, url: string, state: State, lastCheck: int)

  /** One notification: the state before and the state recorded. */
  datatype Notification = Notification(id: string, prev: State, cur: State)

  /** One recorded check, with the interval in force for its backend. */
  datatype Check = Check(id: string, state: State, time: int, interval: int)

  /** What a GET brings back: no answer, or a status code. */
  datatype Response = NoAnswer | Code(code: int)

  /** The clock and the network at one probe. */
  datatype Probe = Probe(time: int, response: Response)

  /** `status` is the checker's map; `checks` and `sent` are its history. */
  datatype Checks = Checks(status: map<string, Status>, checks: seq<Check>, sent: seq<Notification>)

  const SECOND := 1_000_000_000

  function Interval(be: Backend): int {
    if be.health.intervalSeconds <= 0 then 30 * SECOND else be.health.intervalSeconds * SECOND
  }

  function Observed(r: Response): State {
    match r
    case NoAnswer => Unreachable
    case Code(c) => if 200 <= c < 300 then Up else Down
  }

  /** The backend is probed: it has a health URL and its last check is old enough. */
  predicate Due(status: map<string, Status>, be: Backend, now: int) {
    be.health.url != "" && (be.id in status ==> now - status[be.id].lastCheck >= Interval(be))
  }

  /** One probe: records the status and notifies on a change of a known state. */
  function Probed(alerting: bool, c: Checks, be: Backend, p: Probe): Checks {
    var st := Status(be.id, be.host, be.health.url, Observed(p.response), p.time);
    var alert := alerting && be.id in c.status
                 && c.status[be.id].state != Unknown && c.status[be.id].state != st.state;
    Checks(c.status[be.id := st],
           c.checks + [Check(be.id, st.state, p.time, Interval(be))],
           if alert then c.sent + [Notification(be.id, c.status[be.id].state, st.state)] else c.sent)
  }

  /** One tick over the backends; `probes[i]` is what the i-th backend would meet. */
  function Ticked(alerting: bool, c: Checks, bs: seq<Backend>, now: int, probes: seq<Probe>): Checks
    requires |probes| == |bs|
  {
    if bs == [] then c
    else
      var n := |bs| - 1;
      var c' := Ticked(alerting, c, bs[..n], now, probes[..n]);
      if Due(c'.status, bs[n], now) then Probed(alerting, c', bs[n], probes[n]) else c'
  }

  class Checker {
    const alerting: bool
    var status: map<string, Status>
    ghost var checks: seq<Check>
    ghost var sent: seq<Notification>

    ghost function Abs(): Checks
      reads this
    {
      Checks(status, checks, sent)
    }

    constructor (alerting: bool)
      ensures this.alerting == alerting && Abs() == Checks(map[], [], [])
    {
      this.alerting := alerting;
      status, checks, sent := map[], [], [];
    }

    /** `prevState` is none when the backend had no status yet. */
    method DoProbe(be: Backend, prevState: Option<State>, p: Probe)
      requires prevState == if be.id in status then Some(status[be.id].state) else None
      modifies this
      ensures Abs() == Probed(alerting, old(Abs()), be, p)
    {
      var state := Unreachable;
      if p.response.Code? {
        if p.response.code >= 200 && p.response.code < 300 {
          state := Up;
        } else {
          state := Down;
        }
      }
      status := status[be.id := Status(be.id, be.host, be.health.url, state, p.time)];
      checks := checks + [Check(be.id, state, p.time, Interval(be))];
      if alerting && prevState.Some? && prevState.value != Unknown && prevState.value != state {
        sent := sent + [Notification(be.id, prevState.value, state)];
      }
    }

    method Tick(bs: seq<Backend>, now: int, probes: seq<Probe>)
      requires |probes| == |bs|
      modifies this
      ensures Abs() == Ticked(alerting, old(Abs()), bs, now, probes)
    {
      for i := 0 to |bs|
        invariant Abs() == Ticked(alerting, old(Abs()), bs[..i], now, probes[..i])
      {
        assert bs[..i + 1][..i] == bs[..i] && probes[..i + 1][..i] == probes[..i];
        var be := bs[i];
        if be.health.url == "" {
          continue;
        }
        var interval := be.health.intervalSeconds * SECOND;
        if interval <= 0 {
          interval := 30 * SECOND;
        }
        var prev := if be.id in status then Some(status[be.id]) else None;
        if prev.Some? && now - prev.value.lastCheck < interval {
          continue;
        }
        DoProbe(be, if prev.Some? then Some(prev.value.state) else None, probes[i]);
      }
      assert bs[..|bs|] == bs && probes[..|bs|] == probes;
    }
  }

  // ---------------------------------------------------------------- what a tick does

  /** A 2xx answer is up, any other answer is down, and none is unreachable. */
  lemma ObservedIff(r: Response)
    ensures Observed(r) == Up <==> r.Code? && 200 <= r.code <= 299
    ensures Observed(r) == Unreachable <==> r.NoAnswer?
    ensures Observed(r) != Unknown
  {
  }

  /** Thirty seconds without a positive interval of its own. */
  predicate IsInterval(be: Backend, i: int) {
    i == (if be.health.intervalSeconds <= 0 then 30 else be.health.intervalSeconds) * 1_000_000_000
  }

  /** A backend with a health URL is checked when it never was, or when its interval has passed since. */
  predicate MustProbe(status: map<string, Status>, be: Backend, now: int, interval: int) {
    be.health.url != "" && (be.id !in status || now - status[be.id].lastCheck >= interval)
  }

  /** What becomes of one backend in a tick that names it once: the state that its probe saw, at the time of the
      probe, if it must be checked, and nothing otherwise. */
  ghost predicate ProbedOnce(c: Checks, d: Checks, be: Backend, now: int, p: Probe, interval: int) {
    if MustProbe(c.status, be, now, interval) then
      && be.id in d.status
      && d.status[be.id] == Status(be.id, be.host, be.health.url, Observed(p.response), p.time)
      && Check(be.id, Observed(p.response), p.time, interval) in d.checks
    else (be.id in d.status <==> be.id in c.status) && (be.id in c.status ==> d.status[be.id] == c.status[be.id])
  }

  lemma {:induction false} TickKeepsOthers(alerting: bool, c: Checks, bs: seq<Backend>, now: int, probes: seq<Probe>, id: string)
    requires |probes| == |bs| && forall i | 0 <= i < |bs| :: bs[i].id != id
    ensures var d := Ticked(alerting, c, bs, now, probes);
            (id in d.status <==> id in c.status) && (id in c.status ==> d.status[id] == c.status[id])
  {
    if bs != [] {
      var n := |bs| - 1;
      TickKeepsOthers(alerting, c, bs[..n], now, probes[..n], id);
    }
  }

  /** Every backend of a tick is checked exactly when it is due, and its status is what the probe brought. */
  lemma {:induction false} TickProbesTheDue(alerting: bool, c: Checks, bs: seq<Backend>, now: int, probes: seq<Probe>, k: nat, interval: int)
    requires |probes| == |bs| && k < |bs| && IsInterval(bs[k], interval)
    requires forall i, j | 0 <= i < j < |bs| :: bs[i].id != bs[j].id
    ensures ProbedOnce(c, Ticked(alerting, c, bs, now, probes), bs[k], now, probes[k], interval)
  {
    var n := |bs| - 1;
    if k == n {
      TickKeepsOthers(alerting, c, bs[..n], now, probes[..n], bs[n].id);
    } else {
      TickProbesTheDue(alerting, c, bs[..n], now, probes[..n], k, interval);
      var d := Ticked(alerting, c, bs[..n], now, probes[..n]);
      assert forall x | x in d.checks :: x in Ticked(alerting, c, bs, now, probes).checks;
    }
  }

  // ---------------------------------------------------------------- runs

  datatype TickInput = TickInput(bs: seq<Backend>, now: int, probes: seq<Probe>)

  /** There is a probe for every backend, and no probe happens before its tick. */
  predicate Timely(t: TickInput) {
    |t.probes| == |t.bs| && forall i | 0 <= i < |t.probes| :: t.now <= t.probes[i].time
  }

  function RunTicks(alerting: bool, ticks: seq<TickInput>): Checks
    requires forall t | t in ticks :: Timely(t)
  {
    if ticks == [] then Checks(map[], [], [])
    else
      var t := ticks[|ticks| - 1];
      assert Timely(t);
      Ticked(alerting, RunTicks(alerting, ticks[..|ticks| - 1]), t.bs, t.now, t.probes)
  }

  // ---------------------------------------------------------------- the history of one backend

  /** The states recorded for `id`, in order. */
  function States(checks: seq<Check>, id: string): seq<State> {
    if checks == [] then []
    else
      var c := checks[|checks| - 1];
      States(checks[..|checks| - 1], id) + (if c.id == id then [c.state] else [])
  }

  function SentTo(sent: seq<Notification>, id: string): seq<Notification> {
    if sent == [] then []
    else
      var m := sent[|sent| - 1];
      SentTo(sent[..|sent| - 1], id) + (if m.id == id then [m] else [])
  }

  /** The consecutive changes of a history of states. */
  function Changes(id: string, h: seq<State>): seq<Notification> {
    if |h| <= 1 then []
    else
      var n := |h| - 1;
      Changes(id, h[..n]) + (if h[n - 1] != h[n] then [Notification(id, h[n - 1], h[n])] else [])
  }

  /** The recorded checks of one id are at least the interval of the later one apart. */
  ghost predicate Apart(checks: seq<Check>) {
    forall i, j | 0 <= i < j < |checks| && checks[i].id == checks[j].id ::
      checks[j].time - checks[i].time >= checks[j].interval
  }

  /** The notifications, the recorded states and the status of `id` agree. */
  ghost predicate Told(alerting: bool, c: Checks, id: string) {
    && SentTo(c.sent, id) == (if alerting then Changes(id, States(c.checks, id)) else [])
    && (id in c.status <==> States(c.checks, id) != [])
    && (id in c.status ==> Last(States(c.checks, id)) == c.status[id].state != Unknown)
  }

  /** No recorded check is later than the last check of its backend. */
  ghost predicate Recent(c: Checks) {
    forall k | 0 <= k < |c.checks| ::
      c.checks[k].id in c.status && c.checks[k].time <= c.status[c.checks[k].id].lastCheck
  }

  ghost predicate Inv(alerting: bool, c: Checks) {
    (forall id :: Told(alerting, c, id)) && Recent(c) && Apart(c.checks)
  }

  function Last(h: seq<State>): State {
    if h == [] then Unknown else h[|h| - 1]
  }

  lemma AppendCheck(checks: seq<Check>, c: Check, id: string)
    ensures States(checks + [c], id) == if c.id == id then States(checks, id) + [c.state] else States(checks, id)
  {
    assert (checks + [c])[..|checks|] == checks;
  }

  lemma AppendSent(sent: seq<Notification>, m: Notification, id: string)
    ensures SentTo(sent + [m], id) == if m.id == id then SentTo(sent, id) + [m] else SentTo(sent, id)
  {
    assert (sent + [m])[..|sent|] == sent;
  }

  lemma AppendState(id: string, h: seq<State>, s: State)
    ensures Changes(id, h + [s])
         == if h != [] && Last(h) != s then Changes(id, h) + [Notification(id, Last(h), s)] else Changes(id, h)
  {
    assert (h + [s])[..|h|] == h;
  }

  lemma ProbeTellsItsBackend(alerting: bool, c: Checks, be: Backend, p: Probe)
    requires Told(alerting, c, be.id)
    ensures Told(alerting, Probed(alerting, c, be, p), be.id)
  {
    var s := Observed(p.response);
    AppendCheck(c.checks, Check(be.id, s, p.time, Interval(be)), be.id);
    AppendState(be.id, States(c.checks, be.id), s);
    if be.id in c.status {
      AppendSent(c.sent, Notification(be.id, c.status[be.id].state, s), be.id);
    }
  }

  lemma ProbeTellsNoOther(alerting: bool, c: Checks, be: Backend, p: Probe, id: string)
    requires Told(alerting, c, id) && id != be.id
    ensures Told(alerting, Probed(alerting, c, be, p), id)
  {
    var s := Observed(p.response);
    AppendCheck(c.checks, Check(be.id, s, p.time, Interval(be)), id);
    if be.id in c.status {
      AppendSent(c.sent, Notification(be.id, c.status[be.id].state, s), id);
    }
  }

  lemma ProbeKeepsApart(alerting: bool, c: Checks, be: Backend, now: int, p: Probe)
    requires Recent(c) && Apart(c.checks) && Due(c.status, be, now) && now <= p.time
    ensures Apart(Probed(alerting, c, be, p).checks)
  {
    var checks, last := c.checks, Check(be.id, Observed(p.response), p.time, Interval(be));
    forall i | 0 <= i < |checks| && checks[i].id == be.id ensures p.time - checks[i].time >= Interval(be) {
      assert checks[i].time <= c.status[be.id].lastCheck;
    }
    assert Apart(checks + [last]);
  }

  lemma ProbeKeepsRecent(alerting: bool, c: Checks, be: Backend, now: int, p: Probe)
    requires Recent(c) && Due(c.status, be, now) && now <= p.time
    ensures Recent(Probed(alerting, c, be, p))
  {
    var d := Probed(alerting, c, be, p);
    assert Interval(be) > 0;
    forall k | 0 <= k < |d.checks|
      ensures d.checks[k].id in d.status && d.checks[k].time <= d.status[d.checks[k].id].lastCheck
    {
      if k < |c.checks| {
        assert d.checks[k] == c.checks[k];
      }
    }
  }

  /** A probe that is due keeps the invariant. */
  lemma ProbeKeepsInv(alerting: bool, c: Checks, be: Backend, now: int, p: Probe)
    requires Inv(alerting, c) && Due(c.status, be, now) && now <= p.time
    ensures Inv(alerting, Probed(alerting, c, be, p))
  {
    forall id ensures Told(alerting, Probed(alerting, c, be, p), id) {
      if id == be.id {
        ProbeTellsItsBackend(alerting, c, be, p);
      } else {
        ProbeTellsNoOther(alerting, c, be, p, id);
      }
    }
    ProbeKeepsApart(alerting, c, be, now, p);
    ProbeKeepsRecent(alerting, c, be, now, p);
  }

  lemma {:induction false} TickKeepsInv(alerting: bool, c: Checks, bs: seq<Backend>, now: int, probes: seq<Probe>)
    requires Inv(alerting, c) && |probes| == |bs|
    requires forall i | 0 <= i < |probes| :: now <= probes[i].time
    ensures Inv(alerting, Ticked(alerting, c, bs, now, probes))
  {
    if bs != [] {
      var n := |bs| - 1;
      TickKeepsInv(alerting, c, bs[..n], now, probes[..n]);
      var c' := Ticked(alerting, c, bs[..n], now, probes[..n]);
      if Due(c'.status, bs[n], now) {
        ProbeKeepsInv(alerting, c', bs[n], now, probes[n]);
      }
    }
  }

  lemma {:induction false} RunKeepsInv(alerting: bool, ticks: seq<TickInput>)
    requires forall t | t in ticks :: Timely(t)
    ensures Inv(alerting, RunTicks(alerting, ticks))
  {
    if ticks != [] {
      var t := ticks[|ticks| - 1];
      RunKeepsInv(alerting, ticks[..|ticks| - 1]);
      assert Timely(t);
      TickKeepsInv(alerting, RunTicks(alerting, ticks[..|ticks| - 1]), t.bs, t.now, t.probes);
    }
  }

  /** Over any run the notifications of a backend are exactly the consecutive changes of its recorded
      states, and its recorded checks are at least its interval apart. */
  lemma AlertsAreChanges(alerting: bool, ticks: seq<TickInput>, id: string)
    requires forall t | t in ticks :: Timely(t)
    ensures var c := RunTicks(alerting, ticks);
            && SentTo(c.sent, id) == (if alerting then Changes(id, States(c.checks, id)) else [])
            && Apart(c.checks)
            && (id in c.status ==> States(c.checks, id) != [] && Last(States(c.checks, id)) == c.status[id].state)
  {
    RunKeepsInv(alerting, ticks);
    assert Told(alerting, RunTicks(alerting, ticks), id);
  }

  /** The changes link up, and lead from the first state of a history to its last. */
  ghost predicate Telescopes(id: string, ch: seq<Notification>, h: seq<State>)
    requires h != []
  {
    && (forall k | 0 <= k < |ch| :: ch[k].id == id && ch[k].prev != ch[k].cur)
    && (forall k | 0 <= k < |ch| - 1 :: ch[k].cur == ch[k + 1].prev)
    && (if ch == [] then forall k | 0 <= k < |h| :: h[k] == h[0] else ch[0].prev == h[0] && ch[|ch| - 1].cur == Last(h))
  }

  /** A chain of changes links each notification to the one before and telescopes to the whole history:
      from the first state to the last. */
  lemma {:induction false} ChangesTelescope(id: string, h: seq<State>)
    requires h != []
    ensures Telescopes(id, Changes(id, h), h)
  {
    if |h| > 1 {
      var n := |h| - 1;
      ChangesTelescope(id, h[..n]);
      assert h == h[..n] + [h[n]];
      AppendState(id, h[..n], h[n]);
      TelescopeStep(id, h[..n], h[n], Changes(id, h[..n]));
    }
  }

  /** A change from the last state continues the chain. */
  lemma TelescopeStep(id: string, h: seq<State>, s: State, ch: seq<Notification>)
    requires h != [] && Telescopes(id, ch, h)
    ensures Telescopes(id, if Last(h) != s then ch + [Notification(id, Last(h), s)] else ch, h + [s])
  {
  }

  /** So the alerts of a backend lead, link by link, to the state it is recorded in. */
  lemma AlertsLeadToCurrentState(ticks: seq<TickInput>, id: string)
    requires forall t | t in ticks :: Timely(t)
    ensures var c := RunTicks(true, ticks);
            var sent := SentTo(c.sent, id);
            && (forall k | 0 <= k < |sent| - 1 :: sent[k].cur == sent[k + 1].prev)
            && (sent != [] ==> id in c.status && sent[|sent| - 1].cur == c.status[id].state)
  {
    RunKeepsInv(true, ticks);
    assert Told(true, RunTicks(true, ticks), id);
    var h := States(RunTicks(true, ticks).checks, id);
    if h != [] {
      ChangesTelescope(id, h);
    }
  }
}
