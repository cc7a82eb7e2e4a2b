/** auth/session.go: the session store, its file, and restarts. */
module Sessions {
  import opened Models

  /** `ttl` and `idle` limit the age and the inactivity; a value that is not positive disables the check. */
  datatype Limits = Limits(ttl: int, idle: int, persistent: bool)

  /** The map in memory and the map in the file. */
  datatype Store = Store(mem: map<string, Session>, disk: map<string, Session>)

  predicate Expired(l: Limits, s: Session, now: int) {
    (l.ttl > 0 && now - s.createdAt > l.ttl) || (l.idle > 0 && now - s.lastSeen > l.idle)
  }

  // ---------------------------------------------------------------- the operations as functions

  function Persist(l: Limits, st: Store): Store {
    if l.persistent then st.(disk := st.mem) else st
  }

  function Created(l: Limits, st: Store, id: string, email: string, provider: string, now: int): Store {
    Persist(l, st.(mem := st.mem[id := Session(id, email, provider, false, now, now)]))
  }

  function Got(l: Limits, st: Store, id: string, now: int): (Store, Option<Session>) {
    if id == "" || id !in st.mem then (st, None)
    else if Expired(l, st.mem[id], now) then (Persist(l, st.(mem := st.mem - {id})), None)
    else
      var s := st.mem[id].(lastSeen := now);
      (st.(mem := st.mem[id := s]), Some(s))
  }

  function Completed(l: Limits, st: Store, id: string): Store {
    if id in st.mem then Persist(l, st.(mem := st.mem[id := st.mem[id].(twoFADone := true)])) else st
  }

  function Deleted(l: Limits, st: Store, id: string): Store {
    Persist(l, st.(mem := st.mem - {id}))
  }

  /** A restart reads the file back. */
  function Restarted(l: Limits, st: Store): Store {
    st.(mem := if l.persistent then st.disk else map[])
  }

  // ---------------------------------------------------------------- the store

  class MemoryStore {
    const limits: Limits
    var m: map<string, Session>
    var disk: map<string, Session>

    function State(): Store
      reads this
    {
      Store(m, disk)
    }

    /** Opens the store; a persistent one loads the sessions of its file. */
    constructor (l: Limits, file: map<string, Session>)
      ensures limits == l && State() == Restarted(l, Store(map[], file))
    {
      limits := l;
      disk := file;
      m := if l.persistent then file else map[];
    }

    method PersistLocked()
      modifies this
      ensures State() == Persist(limits, old(State()))
    {
      if !limits.persistent {
        return;
      }
      disk := m;
    }

    /** `id` is the fresh random id, or none when the random source failed. */
    method Create(id: Option<string>, email: string, provider: string, now: int) returns (r: Option<Session>)
      modifies this
      ensures id.None? ==> r == None && State() == old(State())
      ensures id.Some? ==> r == Some(Session(id.value, email, provider, false, now, now))
      ensures id.Some? ==> State() == Created(limits, old(State()), id.value, email, provider, now)
    {
      if id.None? {
        return None;
      }
      var s := Session(id.value, email, provider, false, now, now);
      m := m[id.value := s];
      PersistLocked();
      return Some(s);
    }

    method Get(id: string, now: int) returns (r: Option<Session>)
      modifies this
      ensures (State(), r) == Got(limits, old(State()), id, now)
    {
      if id == "" || id !in m {
        return None;
      }
      var s := m[id];
      if Expired(limits, s, now) {
        m := m - {id};
        PersistLocked();
        return None;
      }
      s := s.(lastSeen := now);
      m := m[id := s];
      return Some(s);
    }

    method Complete2FA(id: string) returns (ok: bool)
      modifies this
      ensures ok == (id in old(m)) && State() == Completed(limits, old(State()), id)
    {
      if id in m {
        m := m[id := m[id].(twoFADone := true)];
        PersistLocked();
        return true;
      }
      return false;
    }

    method Delete(id: string)
      modifies this
      ensures State() == Deleted(limits, old(State()), id)
    {
      m := m - {id};
      PersistLocked();
    }
  }

  // ---------------------------------------------------------------- runs

  datatype Op =
    | Create(id: string, email: string, provider: string, now: int)
    | Get(id: string, now: int)
    | Complete2FA(id: string)
    | Delete(id: string)
    | Crash

  datatype Answer = Hit(session: Session) | Miss | Marked(ok: bool) | Quiet

  /** One operation; a crash restarts the store when `crashes`, and is ignored otherwise. */
  function Step(l: Limits, crashes: bool, st: Store, op: Op): (Store, Answer) {
    match op
    case Create(id, email, provider, now) => (Created(l, st, id, email, provider, now), Quiet)
    case Get(id, now) =>
      var (st', s) := Got(l, st, id, now);
      (st', if s.Some? then Hit(s.value) else Miss)
    case Complete2FA(id) => (Completed(l, st, id), Marked(id in st.mem))
    case Delete(id) => (Deleted(l, st, id), Quiet)
    case Crash => (if crashes then Restarted(l, st) else st, Quiet)
  }

  function Answers(l: Limits, crashes: bool, st: Store, ops: seq<Op>): (r: seq<Answer>)
    ensures |r| == |ops|
    decreases |ops|
  {
    if ops == [] then []
    else
      var (st', a) := Step(l, crashes, st, ops[0]);
      [a] + Answers(l, crashes, st', ops[1..])
  }

  function Final(l: Limits, crashes: bool, st: Store, ops: seq<Op>): Store
    decreases |ops|
  {
    if ops == [] then st else Final(l, crashes, Step(l, crashes, st, ops[0]).0, ops[1..])
  }

  function Clock(op: Op, clock: int): int {
    if op.Create? || op.Get? then op.now else clock
  }

  /** The clock never goes back. */
  ghost predicate Monotone(ops: seq<Op>, clock: int)
    decreases |ops|
  {
    ops == [] || (clock <= Clock(ops[0], clock) && Monotone(ops[1..], Clock(ops[0], clock)))
  }

  // ---------------------------------------------------------------- memory and file

  /** `b` is `a`, seen at the same time or later. */
  predicate SeenLater(a: Session, b: Session) {
    b == a.(lastSeen := b.lastSeen) && a.lastSeen <= b.lastSeen
  }

  ghost predicate Behind(old': map<string, Session>, new': map<string, Session>) {
    forall id | id in old' :: id in new' && SeenLater(old'[id], new'[id])
  }

  /** The file has the sessions of the memory, up to the time they were last seen. */
  ghost predicate Inv(l: Limits, st: Store, clock: int) {
    && Behind(st.disk, st.mem)
    && (l.persistent ==> st.disk.Keys == st.mem.Keys)
    && (forall id | id in st.mem :: st.mem[id].lastSeen <= clock)
  }

  /** Every operation, crashes included, keeps the file consistent with the memory. */
  lemma StepKeepsInv(l: Limits, crashes: bool, st: Store, op: Op, clock: int)
    requires Inv(l, st, clock) && clock <= Clock(op, clock)
    requires !l.persistent ==> st.disk == map[]
    ensures Inv(l, Step(l, crashes, st, op).0, Clock(op, clock))
    ensures !l.persistent ==> Step(l, crashes, st, op).0.disk == map[]
  {
  }

  /** Over a whole run the file differs from the memory in nothing but the time last seen. */
  lemma {:induction false} FileTracksMemory(l: Limits, crashes: bool, st: Store, ops: seq<Op>, clock: int)
    requires Inv(l, st, clock) && Monotone(ops, clock)
    requires !l.persistent ==> st.disk == map[]
    ensures Behind(Final(l, crashes, st, ops).disk, Final(l, crashes, st, ops).mem)
    ensures l.persistent ==> Final(l, crashes, st, ops).disk.Keys == Final(l, crashes, st, ops).mem.Keys
    decreases |ops|
  {
    if ops != [] {
      StepKeepsInv(l, crashes, st, ops[0], clock);
      FileTracksMemory(l, crashes, Step(l, crashes, st, ops[0]).0, ops[1..], Clock(ops[0], clock));
    }
  }

  // ---------------------------------------------------------------- restarts

  /** `r` may have restarted; `n` never did. */
  ghost predicate Simulates(l: Limits, n: Store, r: Store, clock: int) {
    && Behind(r.mem, n.mem)
    && Behind(r.disk, r.mem)
    && (l.persistent ==> r.disk.Keys == r.mem.Keys)
    && (!l.persistent ==> r.disk == map[])
    && (forall id | id in n.mem :: n.mem[id].lastSeen <= clock)
    && (l.persistent && l.idle <= 0 ==> r.mem.Keys == n.mem.Keys)
  }

  /** Whatever the restarted store grants, the other grants identically. */
  predicate Weaker(a: Answer, b: Answer) {
    && (a.Hit? ==> b == a)
    && (a == Marked(true) ==> b == a)
    && (a.Hit? || a.Miss? <==> b.Hit? || b.Miss?)
  }

  /** Expiry is earlier, never later, for the store whose sessions were seen earlier. */
  lemma ExpiresEarlier(l: Limits, a: Session, b: Session, now: int)
    requires SeenLater(a, b)
    ensures Expired(l, b, now) ==> Expired(l, a, now)
    ensures l.idle <= 0 ==> Expired(l, a, now) == Expired(l, b, now)
  {
  }

  lemma GetAnswers(l: Limits, n: Store, r: Store, id: string, now: int, clock: int)
    requires Simulates(l, n, r, clock) && clock <= now
    ensures Got(l, r, id, now).1.Some? ==> Got(l, n, id, now).1 == Got(l, r, id, now).1
    ensures l.persistent && l.idle <= 0 ==> Got(l, n, id, now).1 == Got(l, r, id, now).1
  {
    if id in r.mem {
      ExpiresEarlier(l, r.mem[id], n.mem[id], now);
    }
  }

  lemma GetKeepsBehind(l: Limits, n: Store, r: Store, id: string, now: int, clock: int)
    requires Simulates(l, n, r, clock) && clock <= now
    ensures Behind(Got(l, r, id, now).0.mem, Got(l, n, id, now).0.mem)
    ensures l.persistent && l.idle <= 0 ==> Got(l, r, id, now).0.mem.Keys == Got(l, n, id, now).0.mem.Keys
  {
    if id in r.mem {
      ExpiresEarlier(l, r.mem[id], n.mem[id], now);
    }
  }

  lemma GetKeepsFile(l: Limits, n: Store, r: Store, id: string, now: int, clock: int)
    requires Simulates(l, n, r, clock) && clock <= now
    ensures var r' := Got(l, r, id, now).0;
            && Behind(r'.disk, r'.mem) && (l.persistent ==> r'.disk.Keys == r'.mem.Keys)
            && (!l.persistent ==> r'.disk == map[])
    ensures forall i | i in Got(l, n, id, now).0.mem :: Got(l, n, id, now).0.mem[i].lastSeen <= now
  {
    if id in r.mem {
      assert SeenLater(r.mem[id], n.mem[id]);
    }
  }

  lemma GetSimulates(l: Limits, n: Store, r: Store, id: string, now: int, clock: int)
    requires Simulates(l, n, r, clock) && clock <= now
    ensures Simulates(l, Got(l, n, id, now).0, Got(l, r, id, now).0, now)
    ensures Got(l, r, id, now).1.Some? ==> Got(l, n, id, now).1 == Got(l, r, id, now).1
    ensures l.persistent && l.idle <= 0 ==> Got(l, n, id, now).1 == Got(l, r, id, now).1
  {
    GetAnswers(l, n, r, id, now, clock);
    GetKeepsBehind(l, n, r, id, now, clock);
    GetKeepsFile(l, n, r, id, now, clock);
  }

  lemma CreateSimulates(l: Limits, n: Store, r: Store, op: Op, clock: int)
    requires Simulates(l, n, r, clock) && op.Create? && clock <= op.now
    ensures Simulates(l, Step(l, false, n, op).0, Step(l, true, r, op).0, op.now)
  {
  }

  lemma ChangeSimulates(l: Limits, n: Store, r: Store, op: Op, clock: int)
    requires Simulates(l, n, r, clock) && (op.Complete2FA? || op.Delete?)
    ensures Simulates(l, Step(l, false, n, op).0, Step(l, true, r, op).0, clock)
  {
    match op
    case Complete2FA(id) =>
      if id in r.mem {
        assert SeenLater(r.mem[id], n.mem[id]);
      }
    case Delete(id) =>
  }

  /** After a restart the store is further behind, but behind. */
  lemma CrashSimulates(l: Limits, n: Store, r: Store, clock: int)
    requires Simulates(l, n, r, clock)
    ensures Simulates(l, n, Restarted(l, r), clock)
  {
    var r' := Restarted(l, r);
    forall id | id in r'.mem ensures id in n.mem && SeenLater(r'.mem[id], n.mem[id]) {
      assert SeenLater(r.disk[id], r.mem[id]) && SeenLater(r.mem[id], n.mem[id]);
    }
  }

  lemma StepSimulates(l: Limits, n: Store, r: Store, op: Op, clock: int)
    requires Simulates(l, n, r, clock) && clock <= Clock(op, clock)
    ensures Simulates(l, Step(l, false, n, op).0, Step(l, true, r, op).0, Clock(op, clock))
    ensures Weaker(Step(l, true, r, op).1, Step(l, false, n, op).1)
    ensures l.persistent && l.idle <= 0 ==> Step(l, true, r, op).1 == Step(l, false, n, op).1
  {
    match op
    case Create(_, _, _, _) => CreateSimulates(l, n, r, op, clock);
    case Get(id, now) => GetSimulates(l, n, r, id, now, clock);
    case Complete2FA(_) => ChangeSimulates(l, n, r, op, clock);
    case Delete(_) => ChangeSimulates(l, n, r, op, clock);
    case Crash => CrashSimulates(l, n, r, clock);
  }

  lemma {:induction false} RunSimulates(l: Limits, n: Store, r: Store, ops: seq<Op>, clock: int, k: nat)
    requires Simulates(l, n, r, clock) && Monotone(ops, clock) && k < |ops|
    ensures Weaker(Answers(l, true, r, ops)[k], Answers(l, false, n, ops)[k])
    ensures l.persistent && l.idle <= 0 ==> Answers(l, true, r, ops)[k] == Answers(l, false, n, ops)[k]
    decreases |ops|
  {
    StepSimulates(l, n, r, ops[0], clock);
    if k > 0 {
      RunSimulates(l, Step(l, false, n, ops[0]).0, Step(l, true, r, ops[0]).0, ops[1..], Clock(ops[0], clock), k - 1);
    }
  }

  /** Restarts never grant: whatever a store that restarts any number of times answers with a session,
      the store that never restarts answers with the same session. Without an idle limit a persistent
      store is indistinguishable from one that never restarts. */
  lemma RestartsRefine(l: Limits, st: Store, ops: seq<Op>, clock: int, k: nat)
    requires Inv(l, st, clock) && Monotone(ops, clock) && k < |ops|
    requires !l.persistent ==> st.disk == map[]
    ensures Weaker(Answers(l, true, st, ops)[k], Answers(l, false, st, ops)[k])
    ensures l.persistent && l.idle <= 0 ==> Answers(l, true, st, ops)[k] == Answers(l, false, st, ops)[k]
  {
    RunSimulates(l, st, st, ops, clock, k);
  }

  /** The first lookup after a restart differs exactly when the file's time last seen is past the
      idle limit and the memory's was not. */
  lemma RestartIsVisibleIff(l: Limits, st: Store, id: string, now: int, clock: int)
    requires Inv(l, st, clock) && l.persistent && id != "" && id in st.mem
    ensures Got(l, Restarted(l, st), id, now).1 != Got(l, st, id, now).1
       <==> l.idle > 0 && now - st.disk[id].lastSeen > l.idle && !Expired(l, st.mem[id], now)
  {
    assert SeenLater(st.disk[id], st.mem[id]);
  }

  /** A session that is nowhere stays gone until its id is created again. */
  lemma {:induction false} AbsentStaysAbsent(l: Limits, st: Store, id: string, ops: seq<Op>, k: nat)
    requires id !in st.mem && id !in st.disk && k < |ops|
    requires forall op | op in ops :: !(op.Create? && op.id == id)
    ensures ops[k].Get? && ops[k].id == id ==> Answers(l, true, st, ops)[k] == Miss
    decreases |ops|
  {
    assert ops[0] in ops;
    if k > 0 {
      AbsentStaysAbsent(l, Step(l, true, st, ops[0]).0, id, ops[1..], k - 1);
    }
  }

  /** From any consistent state, a deleted session misses in every later run, crashes included, until
      its id is created again. */
  lemma DeletedStaysDeleted(l: Limits, st: Store, clock: int, id: string, ops: seq<Op>, k: nat)
    requires Inv(l, st, clock) && (!l.persistent ==> st.disk == map[])
    requires k < |ops| && forall op | op in ops :: !(op.Create? && op.id == id)
    ensures ops[k].Get? && ops[k].id == id ==> Answers(l, true, Deleted(l, st, id), ops)[k] == Miss
  {
    AbsentStaysAbsent(l, Deleted(l, st, id), id, ops, k);
  }
}
