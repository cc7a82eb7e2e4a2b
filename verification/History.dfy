/** auth/session.go, read from the history: when a lookup finds a session, whatever happened before. */
module History {
  import opened Models
  import opened Sessions

  const EMPTY := Store(map[], map[])

  /** The store before the k-th operation, and the answers, of a store that starts empty. */
  function StateAt(l: Limits, crashes: bool, ops: seq<Op>, k: nat): Store
    requires k <= |ops|
  {
    Final(l, crashes, EMPTY, ops[..k])
  }

  function Told(l: Limits, crashes: bool, ops: seq<Op>): (ans: seq<Answer>)
    ensures |ans| == |ops|
  {
    Answers(l, crashes, EMPTY, ops)
  }

  // ---------------------------------------------------------------- the history of one id

  /** The operation, with its answer, leaves a session of `id` standing; a crash only if there is a file. */
  predicate Keeps(l: Limits, crashes: bool, op: Op, a: Answer, id: string) {
    match op
    case Create(i, _, _, _) => i != id
    case Delete(i) => i != id
    case Get(i, _) => i != id || a != Miss
    case Complete2FA(_) => true
    case Crash => !crashes || l.persistent
  }

  /** `id` was created by operation `c`, and nothing before operation `k` ended that session. */
  ghost predicate Standing(l: Limits, crashes: bool, ops: seq<Op>, ans: seq<Answer>, c: nat, k: nat, id: string)
    requires k <= |ops| == |ans|
  {
    && c < k && ops[c].Create? && ops[c].id == id
    && forall j | c < j < k :: Keeps(l, crashes, ops[j], ans[j], id)
  }

  ghost predicate Stands(l: Limits, crashes: bool, ops: seq<Op>, ans: seq<Answer>, k: nat, id: string)
    requires k <= |ops| == |ans|
  {
    exists c: nat :: Standing(l, crashes, ops, ans, c, k, id)
  }

  /** Operation `j` wrote the file: it created, deleted, marked, or missed a session that stood. */
  ghost predicate Writes(l: Limits, crashes: bool, ops: seq<Op>, ans: seq<Answer>, j: nat)
    requires j < |ops| == |ans|
  {
    match ops[j]
    case Create(_, _, _, _) => true
    case Delete(_) => true
    case Complete2FA(_) => ans[j] == Marked(true)
    case Get(i, _) => i != "" && ans[j] == Miss && Stands(l, crashes, ops, ans, j, i)
    case Crash => false
  }

  /** When the session created by `c` was last used, as the memory and as the file know it. */
  ghost function LastUse(l: Limits, crashes: bool, ops: seq<Op>, ans: seq<Answer>, c: nat, k: nat, id: string): (int, int)
    requires c < k <= |ops| == |ans| && ops[c].Create?
  {
    if k == c + 1 then (ops[c].now, ops[c].now)
    else
      var (m, f) := LastUse(l, crashes, ops, ans, c, k - 1, id);
      var op := ops[k - 1];
      if op.Crash? then (if crashes then f else m, f)
      else
        var m' := if op.Get? && op.id == id then op.now else m;
        (m', if Writes(l, crashes, ops, ans, k - 1) then m' else f)
  }

  /** It was completed since. */
  ghost predicate Marked2FA(ops: seq<Op>, c: nat, k: nat, id: string)
    requires k <= |ops|
  {
    exists j | c < j < k :: ops[j] == Complete2FA(id)
  }

  /** The session created by `c`, last seen at `seen`. */
  ghost function Made(ops: seq<Op>, c: nat, k: nat, id: string, seen: int): Session
    requires c < k <= |ops| && ops[c].Create?
  {
    Session(id, ops[c].email, ops[c].provider, Marked2FA(ops, c, k, id), ops[c].now, seen)
  }

  // ---------------------------------------------------------------- one step at a time

  lemma {:induction false} FinalAppend(l: Limits, crashes: bool, st: Store, ops: seq<Op>, op: Op)
    ensures Final(l, crashes, st, ops + [op]) == Step(l, crashes, Final(l, crashes, st, ops), op).0
    decreases |ops|
  {
    if ops == [] {
      assert [] + [op] == [op] && [op][1..] == [];
    } else {
      assert (ops + [op])[1..] == ops[1..] + [op];
      FinalAppend(l, crashes, Step(l, crashes, st, ops[0]).0, ops[1..], op);
    }
  }

  lemma StateStep(l: Limits, crashes: bool, ops: seq<Op>, k: nat)
    requires k < |ops|
    ensures StateAt(l, crashes, ops, k + 1) == Step(l, crashes, StateAt(l, crashes, ops, k), ops[k]).0
  {
    assert ops[..k + 1] == ops[..k] + [ops[k]];
    FinalAppend(l, crashes, EMPTY, ops[..k], ops[k]);
  }

  lemma {:induction false} AnswerAt(l: Limits, crashes: bool, st: Store, ops: seq<Op>, k: nat)
    requires k < |ops|
    ensures Answers(l, crashes, st, ops)[k] == Step(l, crashes, Final(l, crashes, st, ops[..k]), ops[k]).1
    decreases |ops|
  {
    if k > 0 {
      AnswerAt(l, crashes, Step(l, crashes, st, ops[0]).0, ops[1..], k - 1);
      assert ops[..k][1..] == ops[1..][..k - 1];
    }
  }

  lemma StandingStep(l: Limits, crashes: bool, ops: seq<Op>, ans: seq<Answer>, c: nat, k: nat, id: string)
    requires k < |ops| == |ans|
    ensures Standing(l, crashes, ops, ans, c, k + 1, id)
       <==> ((c == k && ops[k].Create? && ops[k].id == id)
             || (Standing(l, crashes, ops, ans, c, k, id) && Keeps(l, crashes, ops[k], ans[k], id)))
  {
  }

  lemma MadeStep(ops: seq<Op>, c: nat, k: nat, id: string)
    requires c < k < |ops|
    ensures Marked2FA(ops, c, k + 1, id) <==> Marked2FA(ops, c, k, id) || ops[k] == Complete2FA(id)
  {
  }

  /** The session that `c` created is in the store as the history says, in memory and, if there is one, in the file. */
  ghost predicate Holds(l: Limits, crashes: bool, ops: seq<Op>, ans: seq<Answer>, st: Store, c: nat, k: nat, id: string)
    requires c < k <= |ops| == |ans| && ops[c].Create?
  {
    var (m, f) := LastUse(l, crashes, ops, ans, c, k, id);
    && id in st.mem && st.mem[id] == Made(ops, c, k, id, m)
    && (l.persistent ==> id in st.disk && st.disk[id] == Made(ops, c, k, id, f))
  }

  /** The store holds, under `id`, exactly the session that the history says. */
  ghost predicate Agrees(l: Limits, crashes: bool, ops: seq<Op>, ans: seq<Answer>, st: Store, k: nat, id: string)
    requires k <= |ops| == |ans|
  {
    && (id in st.mem <==> Stands(l, crashes, ops, ans, k, id))
    && (id in st.disk <==> l.persistent && id in st.mem)
    && forall c: nat | Standing(l, crashes, ops, ans, c, k, id) :: Holds(l, crashes, ops, ans, st, c, k, id)
  }

  lemma StandsStep(l: Limits, crashes: bool, ops: seq<Op>, ans: seq<Answer>, k: nat, id: string)
    requires k < |ops| == |ans|
    ensures Stands(l, crashes, ops, ans, k + 1, id)
       <==> ((ops[k].Create? && ops[k].id == id)
             || (Stands(l, crashes, ops, ans, k, id) && Keeps(l, crashes, ops[k], ans[k], id)))
  {
    if Stands(l, crashes, ops, ans, k + 1, id) {
      var c: nat :| Standing(l, crashes, ops, ans, c, k + 1, id);
      StandingStep(l, crashes, ops, ans, c, k, id);
    }
    if Stands(l, crashes, ops, ans, k, id) {
      var c: nat :| Standing(l, crashes, ops, ans, c, k, id);
      StandingStep(l, crashes, ops, ans, c, k, id);
    }
    StandingStep(l, crashes, ops, ans, k, k, id);
  }

  /** What a step leaves of the two maps, under `id`. */
  lemma StepKeys(l: Limits, crashes: bool, ops: seq<Op>, ans: seq<Answer>, st: Store, k: nat, id: string)
    requires k < |ops| == |ans| && id != "" && Agrees(l, crashes, ops, ans, st, k, id)
    requires ans[k] == Step(l, crashes, st, ops[k]).1
    ensures var st' := Step(l, crashes, st, ops[k]).0;
            && (id in st'.mem <==> Stands(l, crashes, ops, ans, k + 1, id))
            && (id in st'.disk <==> l.persistent && id in st'.mem)
  {
    StandsStep(l, crashes, ops, ans, k, id);
  }

  /** A session that was there before the step, and after it. */
  lemma StepSession(l: Limits, crashes: bool, ops: seq<Op>, ans: seq<Answer>, st: Store, k: nat, id: string, c: nat)
    requires k < |ops| == |ans| && id != "" && Agrees(l, crashes, ops, ans, st, k, id)
    requires ans[k] == Step(l, crashes, st, ops[k]).1
    requires ops[k].Get? && ops[k].id != "" ==> Agrees(l, crashes, ops, ans, st, k, ops[k].id)
    requires Standing(l, crashes, ops, ans, c, k, id) && Keeps(l, crashes, ops[k], ans[k], id)
    ensures Holds(l, crashes, ops, ans, Step(l, crashes, st, ops[k]).0, c, k + 1, id)
  {
    MadeStep(ops, c, k, id);
    assert Stands(l, crashes, ops, ans, k, id);
    match ops[k]
    case Create(_, _, _, _) =>
    case Get(i, _) =>
    case Complete2FA(_) =>
    case Delete(_) =>
    case Crash =>
  }

  lemma StepAgrees(l: Limits, crashes: bool, ops: seq<Op>, ans: seq<Answer>, st: Store, k: nat, id: string)
    requires k < |ops| == |ans| && id != "" && Agrees(l, crashes, ops, ans, st, k, id)
    requires ans[k] == Step(l, crashes, st, ops[k]).1
    requires ops[k].Get? && ops[k].id != "" ==> Agrees(l, crashes, ops, ans, st, k, ops[k].id)
    ensures Agrees(l, crashes, ops, ans, Step(l, crashes, st, ops[k]).0, k + 1, id)
  {
    StepKeys(l, crashes, ops, ans, st, k, id);
    var n := k + 1;
    forall c: nat | Standing(l, crashes, ops, ans, c, n, id)
      ensures Holds(l, crashes, ops, ans, Step(l, crashes, st, ops[k]).0, c, n, id)
    {
      StandingStep(l, crashes, ops, ans, c, k, id);
      if c < k {
        StepSession(l, crashes, ops, ans, st, k, id, c);
      }
    }
  }

  /** In every state of every run, restarts included, the store holds what the history says. */
  lemma {:induction false} StoreIsHistory(l: Limits, crashes: bool, ops: seq<Op>, k: nat, id: string)
    requires k <= |ops| && id != ""
    ensures Agrees(l, crashes, ops, Told(l, crashes, ops), StateAt(l, crashes, ops, k), k, id)
  {
    if k > 0 {
      StoreIsHistory(l, crashes, ops, k - 1, id);
      StateStep(l, crashes, ops, k - 1);
      AnswerAt(l, crashes, EMPTY, ops, k - 1);
      if ops[k - 1].Get? && ops[k - 1].id != "" {
        StoreIsHistory(l, crashes, ops, k - 1, ops[k - 1].id);
      }
      StepAgrees(l, crashes, ops, Told(l, crashes, ops), StateAt(l, crashes, ops, k - 1), k - 1, id);
    }
  }

  // ---------------------------------------------------------------- lookups

  /** Neither limit has passed at `now`: the age counts from `created`, the inactivity from `used`. */
  predicate InTime(l: Limits, created: int, used: int, now: int) {
    (l.ttl > 0 ==> now - created <= l.ttl) && (l.idle > 0 ==> now - used <= l.idle)
  }

  ghost predicate Live(l: Limits, crashes: bool, ops: seq<Op>, ans: seq<Answer>, c: nat, k: nat, id: string, now: int)
    requires k <= |ops| == |ans|
  {
    Standing(l, crashes, ops, ans, c, k, id)
    && InTime(l, ops[c].now, LastUse(l, crashes, ops, ans, c, k, id).0, now)
  }

  /** Over any run, with any restarts: a lookup finds a session exactly when its id was created and not
      deleted, missed or lost in a restart since, neither longer ago than the lifetime nor, by the last
      use that the store knows, unused for longer than the idle limit. It is the session as created,
      complete exactly if it was marked since, and seen now. */
  lemma GetHitsIff(l: Limits, crashes: bool, ops: seq<Op>, k: nat)
    requires k < |ops| && ops[k].Get?
    ensures var ans, id, now := Told(l, crashes, ops), ops[k].id, ops[k].now;
            && (ans[k].Hit? <==> id != "" && exists c: nat :: Live(l, crashes, ops, ans, c, k, id, now))
            && (ans[k].Hit? || ans[k] == Miss)
            && (ans[k].Hit? ==> forall c: nat | Standing(l, crashes, ops, ans, c, k, id) ::
                  ans[k].session == Made(ops, c, k, id, now))
  {
    var id := ops[k].id;
    AnswerAt(l, crashes, EMPTY, ops, k);
    if id != "" {
      StoreIsHistory(l, crashes, ops, k, id);
      if Stands(l, crashes, ops, Told(l, crashes, ops), k, id) {
        var c: nat :| Standing(l, crashes, ops, Told(l, crashes, ops), c, k, id);
        assert Told(l, crashes, ops)[k].Hit? ==> Live(l, crashes, ops, Told(l, crashes, ops), c, k, id, ops[k].now);
      }
    }
  }

  /** Without a restart since, the last use is the latest lookup, or the creation if there was none. */
  lemma {:induction false} LastUseIsLatest(l: Limits, crashes: bool, ops: seq<Op>, ans: seq<Answer>, c: nat, k: nat, id: string)
    requires k <= |ops| == |ans| && Standing(l, crashes, ops, ans, c, k, id)
    requires !crashes || forall j | c < j < k :: !ops[j].Crash?
    ensures exists j: nat :: IsLatestUse(ops, c, j, k, id) && ops[j].now == LastUse(l, crashes, ops, ans, c, k, id).0
  {
    if k == c + 1 {
      assert IsLatestUse(ops, c, c, k, id);
    } else {
      LastUseIsLatest(l, crashes, ops, ans, c, k - 1, id);
      var j: nat :| IsLatestUse(ops, c, j, k - 1, id) && ops[j].now == LastUse(l, crashes, ops, ans, c, k - 1, id).0;
      if ops[k - 1].Get? && ops[k - 1].id == id {
        assert IsLatestUse(ops, c, k - 1, k, id);
      } else {
        assert IsLatestUse(ops, c, j, k, id);
      }
    }
  }

  predicate IsLatestUse(ops: seq<Op>, c: nat, j: nat, k: nat, id: string)
    requires k <= |ops|
  {
    && c <= j < k
    && (if j == c then ops[j].Create? && ops[j].id == id else ops[j].Get? && ops[j].id == id)
    && forall i | j < i < k :: !(ops[i].Get? && ops[i].id == id)
  }

  ghost predicate LiveSince(l: Limits, ops: seq<Op>, ans: seq<Answer>, c: nat, j: nat, k: nat, id: string, now: int)
    requires k <= |ops| == |ans|
  {
    Standing(l, false, ops, ans, c, k, id) && IsLatestUse(ops, c, j, k, id) && InTime(l, ops[c].now, ops[j].now, now)
  }

  /** So without restarts a lookup hits exactly when the id was created at some `c`, neither deleted nor
      missed since, not longer ago than the lifetime, and last looked up, or created, within the idle limit. */
  lemma GetHitsWithoutRestartsIff(l: Limits, ops: seq<Op>, k: nat)
    requires k < |ops| && ops[k].Get?
    ensures var ans, id, now := Told(l, false, ops), ops[k].id, ops[k].now;
            ans[k].Hit? <==> id != "" && exists c: nat, j: nat :: LiveSince(l, ops, ans, c, j, k, id, now)
  {
    var ans, id, now := Told(l, false, ops), ops[k].id, ops[k].now;
    GetHitsIff(l, false, ops, k);
    if ans[k].Hit? {
      var c: nat :| Live(l, false, ops, ans, c, k, id, now);
      LastUseIsLatest(l, false, ops, ans, c, k, id);
      var j: nat :| IsLatestUse(ops, c, j, k, id) && ops[j].now == LastUse(l, false, ops, ans, c, k, id).0;
      assert LiveSince(l, ops, ans, c, j, k, id, now);
    }
    if id != "" && exists c: nat, j: nat :: LiveSince(l, ops, ans, c, j, k, id, now) {
      var c: nat, j: nat :| LiveSince(l, ops, ans, c, j, k, id, now);
      LastUseIsLatest(l, false, ops, ans, c, k, id);
      assert Live(l, false, ops, ans, c, k, id, now);
    }
  }
}
