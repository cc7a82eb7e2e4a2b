/** config/expand.go: expansion of ${VAR} and ${VAR:-default}. */
module Expand {
  import opened Models

  /** A piece of the input: a character to copy, or the inside of a closed reference. */
  datatype Token = Lit(c: char) | Ref(expr: string)

  /** The index of the first closing brace at or after `from`, or -1. */
  function CloseFrom(s: string, from: nat): (i: int)
    requires from <= |s|
    ensures i == -1 || (from <= i < |s| && s[i] == '}')
    ensures forall k | from <= k < (if i == -1 then |s| else i) :: s[k] != '}'
    decreases |s| - from
  {
    if from == |s| then -1 else if s[from] == '}' then from else CloseFrom(s, from + 1)
  }

  /** A reference that is closed further on starts at index `i`. */
  predicate ClosedAt(s: string, i: nat) {
    i + 2 <= |s| && s[i] == '$' && s[i + 1] == '{' && CloseFrom(s, i + 2) != -1
  }

  /** The length of the first token of a text. */
  function FirstLength(s: string): (n: nat)
    requires s != ""
    ensures 0 < n <= |s|
  {
    if ClosedAt(s, 0) then CloseFrom(s, 2) + 1 else 1
  }

  function FirstToken(s: string): Token
    requires s != ""
  {
    if ClosedAt(s, 0) then Ref(s[2..CloseFrom(s, 2)]) else Lit(s[0])
  }

  /** Splits the text into tokens, from the left. */
  function Tokens(s: string): seq<Token>
    decreases |s|
  {
    if s == "" then [] else [FirstToken(s)] + Tokens(s[FirstLength(s)..])
  }

  // ---------------------------------------------------------------- evaluation

  predicate MarkAt(s: string, k: int) {
    0 <= k && k + 2 <= |s| && s[k] == ':' && s[k + 1] == '-'
  }

  /** The first ":-" at or after `from`, or -1. */
  function DefaultAt(s: string, from: nat): (i: int)
    ensures i >= 0 ==> from <= i && MarkAt(s, i) && forall k | from <= k < i :: !MarkAt(s, k)
    ensures i < 0 ==> i == -1 && forall k | from <= k :: !MarkAt(s, k)
    decreases |s| - from
  {
    if from >= |s| then -1 else if MarkAt(s, from) then from else DefaultAt(s, from + 1)
  }

  function ResolveExpr(expr: string, lookup: string -> Option<string>): string {
    var at := DefaultAt(expr, 0);
    var name := if at >= 0 then expr[..at] else expr;
    var v := lookup(name);
    if v.Some? && v.value != "" then v.value
    else if at >= 0 then expr[at + 2..]
    else ""
  }

  /** The value of a variable, or `def` when it is unset or empty. */
  function ValueOr(name: string, def: string, lookup: string -> Option<string>): string {
    if lookup(name).Some? && lookup(name).value != "" then lookup(name).value else def
  }

  /** "NAME:-default" and "NAME" mean what the documentation says, for every name without ":-". */
  lemma ReferenceForms(name: string, def: string, lookup: string -> Option<string>)
    requires forall k :: !MarkAt(name, k)
    ensures ResolveExpr(name + ":-" + def, lookup) == ValueOr(name, def, lookup)
    ensures ResolveExpr(name, lookup) == ValueOr(name, "", lookup)
  {
    var e := name + ":-" + def;
    assert MarkAt(e, |name|);
    forall k | 0 <= k < |name| ensures !MarkAt(e, k) {
      assert MarkAt(e, k) ==> MarkAt(name, k);
    }
    assert DefaultAt(e, 0) == |name|;
    assert e[..|name|] == name && e[|name| + 2..] == def;
  }

  function EvalToken(t: Token, lookup: string -> Option<string>): string {
    match t
    case Lit(c) => [c]
    case Ref(expr) => ResolveExpr(expr, lookup)
  }

  /** Each token contributes on its own: what is substituted is never looked at again. */
  function Eval(ts: seq<Token>, lookup: string -> Option<string>): string {
    if ts == [] then "" else EvalToken(ts[0], lookup) + Eval(ts[1..], lookup)
  }

  /** Dropping a prefix shifts the braces. */
  lemma CloseShift(s: string, i: nat, from: nat)
    requires i + from <= |s|
    ensures CloseFrom(s[i..], from) == if CloseFrom(s, i + from) == -1 then -1 else CloseFrom(s, i + from) - i
  {
    var r, t := CloseFrom(s[i..], from), CloseFrom(s, i + from);
    assert r != -1 ==> s[i + r] == '}';
    assert t != -1 ==> s[i..][t - i] == '}';
  }

  lemma ClosedShift(s: string, i: nat, j: nat)
    requires i + j <= |s|
    ensures ClosedAt(s[i..], j) <==> ClosedAt(s, i + j)
  {
    if i + j + 2 <= |s| {
      CloseShift(s, i, j + 2);
    }
  }

  lemma Suffix(a: string, n: nat, i: nat)
    requires n + i <= |a|
    ensures a[n..][i..] == a[n + i..]
  {
  }

  /** The first token of what is left at index `i`, in terms of the index. */
  lemma LiteralAt(s: string, i: nat)
    requires i < |s| && !ClosedAt(s, i)
    ensures Tokens(s[i..]) == [Lit(s[i])] + Tokens(s[i + 1..])
  {
    ClosedShift(s, i, 0);
    Suffix(s, i, 1);
  }

  lemma Between(s: string, i: nat, from: nat, to: nat)
    requires from <= to && i + to <= |s|
    ensures s[i..][from..to] == s[i + from..i + to]
  {
  }

  lemma FirstReference(s: string, i: nat)
    requires ClosedAt(s, i)
    ensures var close := CloseFrom(s, i + 2);
            FirstToken(s[i..]) == Ref(s[i + 2..close]) && FirstLength(s[i..]) == close - i + 1
  {
    var close := CloseFrom(s, i + 2);
    ClosedShift(s, i, 0);
    CloseShift(s, i, 2);
    Between(s, i, 2, close - i);
  }

  lemma ReferenceAt(s: string, i: nat)
    requires ClosedAt(s, i)
    ensures var close := CloseFrom(s, i + 2);
            Tokens(s[i..]) == [Ref(s[i + 2..close])] + Tokens(s[close + 1..])
  {
    var close := CloseFrom(s, i + 2);
    FirstReference(s, i);
    Unfold(s[i..], Ref(s[i + 2..close]), close - i + 1);
    Suffix(s, i, close - i + 1);
  }

  lemma Unfold(r: string, t: Token, n: nat)
    requires r != "" && FirstToken(r) == t && FirstLength(r) == n
    ensures Tokens(r) == [t] + Tokens(r[n..])
  {
  }

  lemma {:induction false} EvalAppend(ts: seq<Token>, t: Token, lookup: string -> Option<string>)
    ensures Eval(ts + [t], lookup) == Eval(ts, lookup) + EvalToken(t, lookup)
  {
    EvalConcat(ts, [t], lookup);
    assert [t][1..] == [];
    assert EvalToken(t, lookup) + "" == EvalToken(t, lookup);
  }

  lemma TokensAppend(done: seq<Token>, t: Token, rest: seq<Token>)
    ensures done + ([t] + rest) == (done + [t]) + rest
  {
  }

  /** The index loop of expandEnv. */
  method ExpandEnv(s: string, lookup: string -> Option<string>) returns (b: string)
    ensures b == Eval(Tokens(s), lookup)
  {
    b := "";
    var i := 0;
    ghost var done: seq<Token> := [];
    assert s[0..] == s;
    while i < |s|
      invariant 0 <= i <= |s|
      invariant b == Eval(done, lookup)
      invariant done + Tokens(s[i..]) == Tokens(s)
    {
      ghost var t: Token;
      if s[i] == '$' && i + 1 < |s| && s[i + 1] == '{' {
        var close := CloseFrom(s, i + 2);
        if close >= 0 {
          ReferenceAt(s, i);
          t := Ref(s[i + 2..close]);
          EvalAppend(done, t, lookup);
          b := b + ResolveExpr(s[i + 2..close], lookup);
          i := close + 1;
          TokensAppend(done, t, Tokens(s[i..]));
          done := done + [t];
          continue;
        }
      }
      LiteralAt(s, i);
      t := Lit(s[i]);
      EvalAppend(done, t, lookup);
      b := b + [s[i]];
      i := i + 1;
      TokensAppend(done, t, Tokens(s[i..]));
      done := done + [t];
    }
    assert done + [] == done;
  }

  // ---------------------------------------------------------------- the split is unique

  function TextOf(t: Token): string {
    match t
    case Lit(c) => [c]
    case Ref(expr) => "${" + expr + "}"
  }

  function Text(ts: seq<Token>): string {
    if ts == [] then "" else TextOf(ts[0]) + Text(ts[1..])
  }

  /** A split of a text: references are closed at their first brace, and no literal starts a closed one. */
  ghost predicate IsSplit(ts: seq<Token>) {
    ts == [] || (IsSplit(ts[1..]) && if ts[0].Ref? then '}' !in ts[0].expr else !ClosedAt(Text(ts), 0))
  }

  lemma TextOfFirst(s: string)
    requires s != ""
    ensures TextOf(FirstToken(s)) + s[FirstLength(s)..] == s
    ensures FirstToken(s).Ref? ==> '}' !in FirstToken(s).expr
  {
    if ClosedAt(s, 0) {
      var close := CloseFrom(s, 2);
      assert forall k | 0 <= k < close - 2 :: s[2..close][k] == s[k + 2];
      assert s == "${" + s[2..close] + "}" + s[close + 1..];
    }
  }

  lemma {:induction false} TokensSplit(s: string)
    ensures Text(Tokens(s)) == s && IsSplit(Tokens(s))
    decreases |s|
  {
    if s != "" {
      TokensSplit(s[FirstLength(s)..]);
      TextOfFirst(s);
      assert Tokens(s)[1..] == Tokens(s[FirstLength(s)..]);
    }
  }

  lemma FirstBrace(expr: string, rest: string)
    requires '}' !in expr
    ensures var s := "${" + expr + "}" + rest;
            ClosedAt(s, 0) && FirstToken(s) == Ref(expr) && s[FirstLength(s)..] == rest
  {
    var s := "${" + expr + "}" + rest;
    assert s[2 + |expr|] == '}';
    assert forall k | 0 <= k < |expr| :: s[2 + k] == expr[k] && expr[k] in expr;
    assert CloseFrom(s, 2) == 2 + |expr|;
    assert s[2..2 + |expr|] == expr;
  }

  lemma {:induction false} SplitIsTokens(ts: seq<Token>)
    requires IsSplit(ts)
    ensures Tokens(Text(ts)) == ts
  {
    if ts != [] {
      SplitIsTokens(ts[1..]);
      if ts[0].Ref? {
        FirstBrace(ts[0].expr, Text(ts[1..]));
      } else {
        assert Text(ts)[1..] == Text(ts[1..]);
      }
    }
  }

  /** The tokens are the one and only split of the text. */
  lemma TokensIffSplit(ts: seq<Token>, s: string)
    ensures ts == Tokens(s) <==> IsSplit(ts) && Text(ts) == s
  {
    TokensSplit(s);
    if IsSplit(ts) {
      SplitIsTokens(ts);
    }
  }

  /** Text without a closed reference is copied, unclosed references included. */
  lemma {:induction false} UnclosedIsVerbatim(s: string, lookup: string -> Option<string>)
    requires forall i: nat :: !ClosedAt(s, i)
    ensures Eval(Tokens(s), lookup) == s
    decreases |s|
  {
    if s != "" {
      forall i: nat | i <= |s[1..]| ensures !ClosedAt(s[1..], i) {
        ClosedShift(s, 1, i);
      }
      UnclosedIsVerbatim(s[1..], lookup);
      assert Tokens(s) == [Lit(s[0])] + Tokens(s[1..]);
    }
  }

  // ---------------------------------------------------------------- composition

  /** A reference opened in `a` at `i` and not closed there. */
  predicate OpenAt(a: string, i: nat) {
    i + 2 <= |a| && a[i] == '$' && a[i + 1] == '{' && CloseFrom(a, i + 2) == -1
  }

  /** `b` closes a reference that `a` leaves open. */
  ghost predicate Dangling(a: string, b: string) {
    && CloseFrom(b, 0) != -1
    && ((exists i: nat :: OpenAt(a, i)) || (a != "" && a[|a| - 1] == '$' && b[0] == '{'))
  }

  /** The first brace of a concatenation. */
  lemma CloseConcat(a: string, b: string, from: nat)
    requires from <= |a|
    ensures CloseFrom(a + b, from)
         == if CloseFrom(a, from) != -1 then CloseFrom(a, from)
            else if CloseFrom(b, 0) != -1 then |a| + CloseFrom(b, 0) else -1
  {
    var r, x, y := CloseFrom(a + b, from), CloseFrom(a, from), CloseFrom(b, 0);
    assert forall k | 0 <= k < |a| :: (a + b)[k] == a[k];
    assert forall k | 0 <= k < |b| :: (a + b)[|a| + k] == b[k];
    assert x != -1 ==> (a + b)[x] == '}';
    assert y != -1 ==> (a + b)[|a| + y] == '}';
    assert r != -1 && r >= |a| ==> b[r - |a|] == '}';
  }

  lemma OpenShift(a: string, n: nat, i: nat)
    requires n <= |a|
    ensures OpenAt(a[n..], i) <==> OpenAt(a, n + i)
  {
    if n + i + 2 <= |a| {
      CloseShift(a, n, i + 2);
    }
  }

  /** A text that opens no reference opens one across the seam exactly when it dangles at its start. */
  lemma ClosedAcross(a: string, b: string)
    requires a != "" && !ClosedAt(a, 0)
    ensures ClosedAt(a + b, 0) <==> CloseFrom(b, 0) != -1 && (OpenAt(a, 0) || (a == "$" && b[0] == '{'))
  {
    if |a| >= 2 {
      CloseConcat(a, b, 2);
    } else if b != "" {
      assert a + b == [a[0]] + b;
      CloseShift(a + b, 1, 1);
      assert (a + b)[1..] == b;
      assert b[0] == '{' ==> CloseFrom(b, 0) == CloseFrom(b, 1);
    }
  }

  /** Nothing inside a closed reference is left open. */
  lemma ClosedIsNotOpen(a: string, i: nat)
    requires ClosedAt(a, 0) && OpenAt(a, i)
    ensures i >= FirstLength(a)
  {
    assert a[FirstLength(a) - 1] == '}';
    assert i + 2 > FirstLength(a) - 1;
  }

  /** A reference left open in `a` is left open in what follows its first token, and conversely. */
  lemma OpenAfter(a: string, b: string)
    requires a != "" && (ClosedAt(a, 0) || !ClosedAt(a + b, 0)) && CloseFrom(b, 0) != -1
    ensures (exists i: nat :: OpenAt(a[FirstLength(a)..], i)) <==> (exists i: nat :: OpenAt(a, i))
  {
    var n := FirstLength(a);
    if i: nat :| OpenAt(a[n..], i) {
      OpenShift(a, n, i);
    }
    if i: nat :| OpenAt(a, i) {
      if ClosedAt(a, 0) {
        ClosedIsNotOpen(a, i);
      } else {
        ClosedAcross(a, b);
      }
      OpenShift(a, n, i - n);
    }
  }

  /** What remains after a first token dangles as the whole does. */
  lemma DanglingAfter(a: string, b: string)
    requires a != "" && (ClosedAt(a, 0) || !ClosedAt(a + b, 0))
    ensures Dangling(a[FirstLength(a)..], b) <==> Dangling(a, b)
  {
    var n := FirstLength(a);
    if CloseFrom(b, 0) != -1 {
      OpenAfter(a, b);
      if n == |a| {
        if !ClosedAt(a, 0) {
          ClosedAcross(a, b);
          assert a == [a[0]];
        }
      } else {
        assert a[n..][|a| - n - 1] == a[|a| - 1];
      }
    }
  }

  lemma ClosedFirst(a: string, b: string)
    requires ClosedAt(a, 0)
    ensures ClosedAt(a + b, 0) && FirstLength(a + b) == FirstLength(a) && FirstToken(a + b) == FirstToken(a)
  {
    CloseConcat(a, b, 2);
    assert (a + b)[2..CloseFrom(a, 2)] == a[2..CloseFrom(a, 2)];
  }

  /** Splitting commutes with concatenation exactly when `b` does not close a reference left open in `a`. */
  lemma {:induction false} TokensConcatIff(a: string, b: string)
    ensures Tokens(a + b) == Tokens(a) + Tokens(b) <==> !Dangling(a, b)
    decreases |a|
  {
    if a == "" {
      assert a + b == b;
    } else if !ClosedAt(a, 0) && ClosedAt(a + b, 0) {
      ClosedAcross(a, b);
      assert Tokens(a + b)[0].Ref? && (Tokens(a) + Tokens(b))[0].Lit?;
    } else {
      var n := FirstLength(a);
      if ClosedAt(a, 0) {
        ClosedFirst(a, b);
      }
      assert (a + b)[n..] == a[n..] + b;
      DanglingAfter(a, b);
      TokensConcatIff(a[n..], b);
      SameHead(FirstToken(a), Tokens(a[n..] + b), Tokens(a[n..]), Tokens(b));
    }
  }

  lemma SameHead(h: Token, whole: seq<Token>, left: seq<Token>, right: seq<Token>)
    ensures [h] + whole == ([h] + left) + right <==> whole == left + right
  {
    assert ([h] + left) + right == [h] + (left + right);
    assert ([h] + whole)[1..] == whole && ([h] + (left + right))[1..] == left + right;
  }

  lemma Assoc(a: string, b: string, c: string)
    ensures (a + b) + c == a + (b + c)
  {
  }

  lemma {:induction false} EvalConcat(s: seq<Token>, t: seq<Token>, lookup: string -> Option<string>)
    ensures Eval(s + t, lookup) == Eval(s, lookup) + Eval(t, lookup)
  {
    if s == [] {
      assert s + t == t;
    } else {
      EvalConcat(s[1..], t, lookup);
      assert (s + t)[1..] == s[1..] + t && (s + t)[0] == s[0];
      Assoc(EvalToken(s[0], lookup), Eval(s[1..], lookup), Eval(t, lookup));
    }
  }

  /** Expansion is compositional at every token boundary. */
  lemma ExpansionConcat(a: string, b: string, lookup: string -> Option<string>)
    requires !Dangling(a, b)
    ensures Eval(Tokens(a + b), lookup) == Eval(Tokens(a), lookup) + Eval(Tokens(b), lookup)
  {
    TokensConcatIff(a, b);
    EvalConcat(Tokens(a), Tokens(b), lookup);
  }
}
