/** handlers/admin.go: the paths of the service form, with their "= " marker for exact matches. */
module RouteForm {
  import opened Text

  const EXACT := "= "

  function SplitMatch(p: string): (string, bool) {
    if EXACT <= p then (TrimSpace(p[2..]), true) else (p, false)
  }

  function JoinMatch(path: string, exact: bool): string {
    if exact then EXACT + TrimSpace(path) else TrimSpace(path)
  }

  /** What the form stores for a typed path and the state of its "exact" selector; an empty path is dropped. */
  function Stored(typed: string, exact: bool): string {
    var (cp, marked) := SplitMatch(TrimSpace(typed));
    if cp == "" then "" else JoinMatch(cp, marked || exact)
  }

  /** What is stored when a stored path is opened in the form and saved unchanged. */
  function Resaved(p: string): string {
    var (shown, exact) := SplitMatch(p);
    Stored(shown, exact)
  }

  /** The marker is an equals sign and a space; what stands behind it, or all of a path without it, is the path. */
  lemma FormsOfAPath(path: string)
    ensures SplitMatch("= " + path) == (TrimSpace(path), true) && JoinMatch(path, true) == "= " + TrimSpace(path)
    ensures !("= " <= path) ==> SplitMatch(path) == (path, false)
    ensures JoinMatch(path, false) == TrimSpace(path)
  {
    MarkerIsCut(path);
  }

  lemma MarkerIsCut(path: string)
    ensures EXACT <= EXACT + path && (EXACT + path)[2..] == path
  {
  }

  /** What is stored: the trimmed path, behind the marker if it is selected or typed; nothing for an empty path. */
  lemma StoredForms(path: string, exact: bool)
    requires Trimmed(path)
    ensures !("= " <= path) && path != "" ==> Stored(path, exact) == (if exact then "= " else "") + path
    ensures path != "" ==> Stored("= " + path, exact) == "= " + path
    ensures Stored("", exact) == ""
  {
    TrimSpaceIff(path);
    FormsOfAPath(path);
    TrimSpaceIff("= " + path);
    TrimSpaceIff("");
    assert path != "" ==> ("= " + path)[|path| + 1] == path[|path| - 1];
  }

  /** Splitting and joining are inverse: on the paths that are stored trimmed, and on what is joined
      from a path that does not itself carry the marker. */
  lemma SplitJoinIff(path: string, exact: bool)
    ensures JoinMatch(SplitMatch(path).0, SplitMatch(path).1) == path
       <==> Trimmed(if EXACT <= path then path[2..] else path)
    ensures SplitMatch(JoinMatch(path, exact)) == (TrimSpace(path), exact)
       <==> exact || !(EXACT <= TrimSpace(path))
  {
    TrimSpaceIff(path);
    TrimSpaceIff(TrimSpace(path));
    MarkerIsCut(TrimSpace(path));
    if EXACT <= path {
      TrimSpaceIff(path[2..]);
      TrimSpaceIff(TrimSpace(path[2..]));
      MarkerIsCut(TrimSpace(path[2..]));
      assert path == EXACT + path[2..];
    }
  }

  /** Opening a service and saving it unchanged keeps a stored path, unless two markers were typed. */
  lemma ResavedIff(typed: string, exact: bool)
    requires Stored(typed, exact) != ""
    ensures Resaved(Stored(typed, exact)) == Stored(typed, exact)
       <==> !(EXACT <= SplitMatch(TrimSpace(typed)).0)
  {
    var (cp, marked) := SplitMatch(TrimSpace(typed));
    TrimSpaceIff(typed);
    if marked {
      TrimSpaceIff(TrimSpace(typed)[2..]);
    }
    TrimSpaceIff(cp);
    assert TrimSpace(cp) == cp;
    MarkerIsCut(cp);
    if EXACT <= cp {
      MarkersShrink(cp);
    }
  }

  /** A second marker is taken for the selector and lost. */
  lemma MarkersShrink(cp: string)
    requires EXACT <= cp && Trimmed(cp)
    ensures Resaved(EXACT + cp) != EXACT + cp
  {
    MarkerIsCut(cp);
    TrimSpaceIff(cp);
    var inner := TrimSpace(cp[2..]);
    TrimSpaceIff(cp[2..]);
    TrimSpaceIff(inner);
    TrimIsShorter(cp[2..]);
    assert Resaved(EXACT + cp) == "" || |Resaved(EXACT + cp)| <= |cp|;
  }

  lemma TrimIsShorter(s: string)
    ensures |TrimSpace(s)| <= |s|
  {
    TrimLeftCuts(s);
  }
}
