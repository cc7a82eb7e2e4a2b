/** `strings.TrimSpace`, with Go's set of white space. */
module Text {

  predicate IsSpace(c: char) {
    var n := c as int;
    9 <= n <= 13 || n == 0x20 || n == 0x85 || n == 0xA0 || n == 0x1680 || 0x2000 <= n <= 0x200A
    || n == 0x2028 || n == 0x2029 || n == 0x202F || n == 0x205F || n == 0x3000
  }

  /** Among the Latin-1 characters: tab to carriage return, the space, next line and the no-break space. */
  lemma LatinSpaces(c: char)
    requires c as int < 256
    ensures IsSpace(c) <==> '\t' <= c <= '\r' || c == ' ' || c as int == 0x85 || c as int == 0xA0
  {
  }

  function TrimLeft(s: string): (t: string)
    ensures t == "" || !IsSpace(t[0])
  {
    if s != "" && IsSpace(s[0]) then TrimLeft(s[1..]) else s
  }

  function TrimRight(s: string): (t: string)
    ensures t <= s && (t == "" || !IsSpace(t[|t| - 1]))
  {
    if s != "" && IsSpace(s[|s| - 1]) then TrimRight(s[..|s| - 1]) else s
  }

  function TrimSpace(s: string): string {
    TrimRight(TrimLeft(s))
  }

  predicate Blank(s: string) {
    forall i | 0 <= i < |s| :: IsSpace(s[i])
  }

  lemma {:induction false} TrimLeftCuts(s: string)
    ensures |TrimLeft(s)| <= |s|
    ensures var n := |s| - |TrimLeft(s)|; s[n..] == TrimLeft(s) && Blank(s[..n])
  {
    if s != "" && IsSpace(s[0]) {
      TrimLeftCuts(s[1..]);
      var n := |s| - |TrimLeft(s)|;
      assert s[n..] == s[1..][n - 1..];
      forall i | 0 <= i < n ensures IsSpace(s[i]) {
        assert i > 0 ==> s[i] == s[1..][..n - 1][i - 1];
      }
    }
  }

  lemma {:induction false} TrimRightCuts(s: string)
    ensures Blank(s[|TrimRight(s)|..])
  {
    if s != "" && IsSpace(s[|s| - 1]) {
      var n, m := |s| - 1, |TrimRight(s)|;
      TrimRightCuts(s[..n]);
      forall i | m <= i < |s| ensures IsSpace(s[i]) {
        assert i < n ==> s[i] == s[..n][m..][i - m];
      }
    }
  }

  lemma Within(s: string, n: nat, k: nat)
    requires n + k <= |s|
    ensures s[n..][..k] == s[n..n + k] && s[n..][k..] == s[n + k..]
  {
  }

  /** Trimming cuts off white space at both ends, and nothing else. */
  lemma TrimSpaceCuts(s: string) returns (n: nat, m: nat)
    ensures n <= m <= |s| && TrimSpace(s) == s[n..m] && Blank(s[..n]) && Blank(s[m..]) && Trimmed(s[n..m])
  {
    var l, t := TrimLeft(s), TrimSpace(s);
    TrimLeftCuts(s);
    TrimRightCuts(l);
    TrimSpaceIff(s);
    n := |s| - |l|;
    m := n + |t|;
    Within(s, n, |t|);
  }

  /** Neither end is a space. */
  predicate Trimmed(s: string) {
    s == "" || (!IsSpace(s[0]) && !IsSpace(s[|s| - 1]))
  }

  /** The trimmed strings are exactly the fixed points of TrimSpace, and its results. */
  lemma TrimSpaceIff(s: string)
    ensures TrimSpace(s) == s <==> Trimmed(s)
    ensures Trimmed(TrimSpace(s))
  {
    var l := TrimLeft(s);
    var t := TrimRight(l);
    assert t != "" ==> t[0] == l[0];
  }
}
