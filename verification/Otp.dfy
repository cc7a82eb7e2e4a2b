/** auth/otp.go: one-time login codes. */
module Otp {
  import opened Models

  datatype Entry = Entry(hash: string, issued: int, expires: int)

  /** `hash` stands for the digest under which codes are stored. */
  datatype Params = Params(ttl: int, cooldown: int, hash: string -> string)

  // ---------------------------------------------------------------- the operations as functions

  predicate Cooling(p: Params, codes: map<string, Entry>, email: string, now: int) {
    email in codes && now - codes[email].issued < p.cooldown
  }

  function Issued(p: Params, codes: map<string, Entry>, email: string, code: string, now: int): map<string, Entry> {
    if Cooling(p, codes, email, now) then codes
    else codes[email := Entry(p.hash(code), now, now + p.ttl)]
  }

  predicate Matches(p: Params, codes: map<string, Entry>, email: string, code: string, now: int) {
    email in codes && now <= codes[email].expires && codes[email].hash == p.hash(code)
  }

  function Verified(p: Params, codes: map<string, Entry>, email: string, code: string, now: int): map<string, Entry> {
    if Matches(p, codes, email, code, now) then codes - {email} else codes
  }

  // ---------------------------------------------------------------- the store

  class OTPStore {
    const p: Params
    const length: nat
    var codes: map<string, Entry>

    /** Fewer than four digits are replaced by six. */
    constructor (p: Params, length: int)
      ensures this.p == p && codes == map[]
      ensures this.length == (if length < 4 then 6 else length)
    {
      this.p := p;
      this.length := if length < 4 then 6 else length;
      codes := map[];
    }

    /** `drawn` is the random code drawn for this call. */
    method Issue(email: string, drawn: string, now: int) returns (code: string, ok: bool)
      requires |drawn| == length
      modifies this
      ensures ok == !Cooling(p, old(codes), email, now)
      ensures code == if ok then drawn else ""
      ensures codes == Issued(p, old(codes), email, drawn, now)
    {
      if email in codes && now - codes[email].issued < p.cooldown {
        return "", false;
      }
      code := drawn;
      codes := codes[email := Entry(p.hash(code), now, now + p.ttl)];
      ok := true;
    }

    /** Checks a code and consumes it on success. */
    method Verify(email: string, code: string, now: int) returns (ok: bool)
      modifies this
      ensures ok == Matches(p, old(codes), email, code, now)
      ensures codes == Verified(p, old(codes), email, code, now)
    {
      if email !in codes || now > codes[email].expires {
        return false;
      }
      if codes[email].hash != p.hash(code) {
        return false;
      }
      codes := codes - {email};
      return true;
    }
  }

  // ---------------------------------------------------------------- runs

  datatype Call = Issue(email: string, code: string, now: int) | Verify(email: string, code: string, now: int)

  predicate Granted(p: Params, codes: map<string, Entry>, c: Call) {
    match c
    case Issue(email, _, now) => !Cooling(p, codes, email, now)
    case Verify(email, code, now) => Matches(p, codes, email, code, now)
  }

  function Apply(p: Params, codes: map<string, Entry>, c: Call): map<string, Entry> {
    match c
    case Issue(email, code, now) => Issued(p, codes, email, code, now)
    case Verify(email, code, now) => Verified(p, codes, email, code, now)
  }

  /** The store after the calls, from empty. */
  function After(p: Params, calls: seq<Call>): map<string, Entry> {
    if calls == [] then map[] else Apply(p, After(p, calls[..|calls| - 1]), calls[|calls| - 1])
  }

  /** The calls that succeeded, in order. */
  function Log(p: Params, calls: seq<Call>): seq<Call> {
    if calls == [] then []
    else
      var n := |calls| - 1;
      if Granted(p, After(p, calls[..n]), calls[n]) then Log(p, calls[..n]) + [calls[n]] else Log(p, calls[..n])
  }

  /** The latest issue to `email` that no later verification has consumed. */
  function Pending(log: seq<Call>, email: string): Option<Call> {
    if log == [] then None
    else
      var c := log[|log| - 1];
      if c.email != email then Pending(log[..|log| - 1], email)
      else if c.Issue? then Some(c)
      else None
  }

  lemma PendingAppend(log: seq<Call>, c: Call, email: string)
    ensures Pending(log + [c], email)
         == if c.email != email then Pending(log, email) else if c.Issue? then Some(c) else None
  {
    assert (log + [c])[..|log|] == log;
  }

  /** The store holds exactly the pending issue of `email`. */
  ghost predicate Holds(p: Params, codes: map<string, Entry>, pend: Option<Call>, email: string) {
    && (email in codes <==> pend.Some?)
    && (pend.Some? ==>
          && pend.value.Issue? && pend.value.email == email
          && codes[email] == Entry(p.hash(pend.value.code), pend.value.now, pend.value.now + p.ttl))
  }

  lemma CallHolds(p: Params, codes: map<string, Entry>, log: seq<Call>, c: Call, email: string)
    requires Holds(p, codes, Pending(log, email), email)
    ensures Holds(p, Apply(p, codes, c), Pending(if Granted(p, codes, c) then log + [c] else log, email), email)
  {
    PendingAppend(log, c, email);
  }

  /** The store is a function of the history: it holds exactly the pending issue of each email. */
  lemma {:induction false} StoreHoldsPending(p: Params, calls: seq<Call>, email: string)
    ensures Holds(p, After(p, calls), Pending(Log(p, calls), email), email)
  {
    if calls != [] {
      var n := |calls| - 1;
      StoreHoldsPending(p, calls[..n], email);
      CallHolds(p, After(p, calls[..n]), Log(p, calls[..n]), calls[n], email);
    }
  }

  /** A verification succeeds exactly for the latest unconsumed issue, within its lifetime. */
  lemma VerifySucceedsIff(p: Params, calls: seq<Call>, email: string, code: string, now: int)
    ensures var pend := Pending(Log(p, calls), email);
            Matches(p, After(p, calls), email, code, now)
            <==> pend.Some? && p.hash(pend.value.code) == p.hash(code) && now - pend.value.now <= p.ttl
  {
    StoreHoldsPending(p, calls, email);
  }

  /** An issue is refused exactly while an unconsumed issue to the same email is younger than the cooldown. */
  lemma IssueGrantedIff(p: Params, calls: seq<Call>, email: string, code: string, now: int)
    ensures var pend := Pending(Log(p, calls), email);
            Granted(p, After(p, calls), Issue(email, code, now))
            <==> (pend.Some? ==> now - pend.value.now >= p.cooldown)
  {
    StoreHoldsPending(p, calls, email);
  }

  function Count(log: seq<Call>, email: string, issues: bool): nat {
    if log == [] then 0
    else
      var c := log[|log| - 1];
      Count(log[..|log| - 1], email, issues) + (if c.email == email && c.Issue? == issues then 1 else 0)
  }

  lemma CountAppend(log: seq<Call>, c: Call, email: string, issues: bool)
    ensures Count(log + [c], email, issues)
         == Count(log, email, issues) + (if c.email == email && c.Issue? == issues then 1 else 0)
  {
    assert (log + [c])[..|log|] == log;
  }

  /** Codes are conserved: every successful verification, and the code still pending, has its own issue. */
  lemma {:induction false} CodesAreConserved(p: Params, calls: seq<Call>, email: string)
    ensures var log := Log(p, calls);
            Count(log, email, false) + (if Pending(log, email).Some? then 1 else 0) <= Count(log, email, true)
  {
    if calls != [] {
      var n := |calls| - 1;
      var log, c := Log(p, calls[..n]), calls[n];
      CodesAreConserved(p, calls[..n], email);
      StoreHoldsPending(p, calls[..n], email);
      PendingAppend(log, c, email);
      CountAppend(log, c, email, true);
      CountAppend(log, c, email, false);
    }
  }

  /** Every granted issue of a log respects the cooldown towards the issue pending before it. */
  ghost predicate Spaced(p: Params, log: seq<Call>) {
    forall n | 0 <= n < |log| && log[n].Issue? && Pending(log[..n], log[n].email).Some? ::
      log[n].now - Pending(log[..n], log[n].email).value.now >= p.cooldown
  }

  lemma {:induction false} LogIsSpaced(p: Params, calls: seq<Call>)
    ensures Spaced(p, Log(p, calls))
  {
    if calls != [] {
      var n := |calls| - 1;
      var log := Log(p, calls[..n]);
      LogIsSpaced(p, calls[..n]);
      if Granted(p, After(p, calls[..n]), calls[n]) {
        StoreHoldsPending(p, calls[..n], calls[n].email);
        var more := log + [calls[n]];
        forall k | 0 <= k < |more| && more[k].Issue? && Pending(more[..k], more[k].email).Some?
          ensures more[k].now - Pending(more[..k], more[k].email).value.now >= p.cooldown
        {
          assert more[..k] == log[..k];
          assert log[..|log|] == log;
        }
      }
    }
  }

  lemma {:induction false} PendingSince(log: seq<Call>, email: string, i: nat, j: nat) returns (m: nat)
    requires i < j <= |log| && log[i].Issue? && log[i].email == email
    requires forall k | i <= k < j && log[k].email == email :: log[k].Issue?
    ensures i <= m < j && log[m].Issue? && log[m].email == email && Pending(log[..j], email) == Some(log[m])
    ensures Count(log[m + 1..j], email, true) == 0
  {
    assert log[..j][..j - 1] == log[..j - 1];
    if log[j - 1].email == email {
      m := j - 1;
      assert log[j..j] == [];
    } else {
      m := PendingSince(log, email, i, j - 1);
      assert log[m + 1..j] == log[m + 1..j - 1] + [log[j - 1]];
      CountAppend(log[m + 1..j - 1], log[j - 1], email, true);
    }
  }

  lemma {:induction false} CountSplits(a: seq<Call>, b: seq<Call>, email: string)
    ensures Count(a + b, email, true) == Count(a, email, true) + Count(b, email, true)
  {
    if b == [] {
      assert a + b == a;
    } else {
      var n := |b| - 1;
      CountSplits(a, b[..n], email);
      assert a + b == a + b[..n] + [b[n]];
      CountAppend(a + b[..n], b[n], email, true);
    }
  }

  lemma CountAcross(log: seq<Call>, email: string, i: nat, m: nat, j: nat)
    requires i <= m < j < |log| && Count(log[m + 1..j], email, true) == 0
    requires log[j].Issue? && log[j].email == email
    ensures Count(log[i..j + 1], email, true) == Count(log[i..m + 1], email, true) + 1
  {
    var head, between := log[i..m + 1], log[m + 1..j];
    assert log[i..j + 1] == head + between + [log[j]];
    CountAppend(head + between, log[j], email, true);
    CountSplits(head, between, email);
  }

  lemma CountOne(log: seq<Call>, email: string, i: nat)
    requires i < |log| && log[i].Issue? && log[i].email == email
    ensures Count(log[i..i + 1], email, true) == 1
  {
    assert log[i..i + 1] == [] + [log[i]];
    CountAppend([], log[i], email, true);
  }

  lemma SpacedAt(p: Params, log: seq<Call>, m: nat, j: nat)
    requires Spaced(p, log) && m < j < |log| && log[j].Issue? && Pending(log[..j], log[j].email) == Some(log[m])
    requires log[m].Issue?
    ensures log[j].now - log[m].now >= p.cooldown
  {
  }

  lemma OneMore(a: int, b: int, c: int, n: int, d: int)
    requires b - a >= (n - 1) * d && c - b >= d
    ensures c - a >= (n + 1 - 1) * d
  {
    assert n * d == (n - 1) * d + d;
  }

  lemma RateStep(p: Params, log: seq<Call>, email: string, i: nat, m: nat, j: nat)
    requires Spaced(p, log) && i <= m < j < |log| && log[m].Issue? && log[j].Issue? && log[j].email == email
    requires Pending(log[..j], email) == Some(log[m]) && Count(log[m + 1..j], email, true) == 0
    requires log[m].now - log[i].now >= (Count(log[i..m + 1], email, true) - 1) * p.cooldown
    ensures log[j].now - log[i].now >= (Count(log[i..j + 1], email, true) - 1) * p.cooldown
  {
    CountAcross(log, email, i, m, j);
    SpacedAt(p, log, m, j);
    OneMore(log[i].now, log[m].now, log[j].now, Count(log[i..m + 1], email, true), p.cooldown);
  }

  /** k successful issues to one email without a successful verification between them span (k-1) cooldowns. */
  lemma {:induction false} IssuesAreRateBounded(p: Params, log: seq<Call>, email: string, i: nat, j: nat)
    requires Spaced(p, log) && i <= j < |log|
    requires log[i].Issue? && log[i].email == email && log[j].Issue? && log[j].email == email
    requires forall k | i <= k <= j && log[k].email == email :: log[k].Issue?
    ensures log[j].now - log[i].now >= (Count(log[i..j + 1], email, true) - 1) * p.cooldown
    decreases j
  {
    if i == j {
      CountOne(log, email, i);
    } else {
      var m := PendingSince(log, email, i, j);
      IssuesAreRateBounded(p, log, email, i, m);
      RateStep(p, log, email, i, m, j);
    }
  }

  /** For every run: the log of the store is rate-bounded between two issues with no verification between. */
  lemma RunIsRateBounded(p: Params, calls: seq<Call>, email: string, i: nat, j: nat)
    requires var log := Log(p, calls);
             && i <= j < |log|
             && log[i].Issue? && log[i].email == email && log[j].Issue? && log[j].email == email
             && forall k | i <= k <= j && log[k].email == email :: log[k].Issue?
    ensures var log := Log(p, calls);
            log[j].now - log[i].now >= (Count(log[i..j + 1], email, true) - 1) * p.cooldown
  {
    LogIsSpaced(p, calls);
    IssuesAreRateBounded(p, Log(p, calls), email, i, j);
  }

  /** A successful verification forgets the cooldown: the next issue may follow at once. */
  lemma CooldownIsForgotten(p: Params, email: string, a: string, b: string, now: int)
    requires p.ttl >= 0
    ensures Log(p, [Issue(email, a, now), Verify(email, a, now), Issue(email, b, now)])
         == [Issue(email, a, now), Verify(email, a, now), Issue(email, b, now)]
  {
    var c0, c1, c2 := Issue(email, a, now), Verify(email, a, now), Issue(email, b, now);
    assert [c0, c1, c2][..2] == [c0, c1] && [c0, c1][..1] == [c0] && [c0][..0] == [];
    assert After(p, [c0]) == map[email := Entry(p.hash(a), now, now + p.ttl)];
    assert After(p, [c0, c1]) == map[];
    assert Log(p, [c0]) == [c0];
    assert Log(p, [c0, c1]) == [c0, c1];
  }
}
