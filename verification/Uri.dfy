/** How NGINX reads a request path before it looks for a location: percent decoding, merged slashes, dot segments. */
module Uri {
  import opened Models

  function Hex(c: char): int {
    if '0' <= c <= '9' then c as int - '0' as int
    else if 'a' <= c <= 'f' then c as int - 'a' as int + 10
    else if 'A' <= c <= 'F' then c as int - 'A' as int + 10
    else -1
  }

  function Cons(c: char, s: Option<string>): Option<string> {
    if s.None? then None else Some([c] + s.value)
  }

  /** The path ends at a query or a fragment. */
  function Cut(s: string): string {
    if s == "" || s[0] == '?' || s[0] == '#' then "" else [s[0]] + Cut(s[1..])
  }

  /** Each "%xy" is one byte, decoded once; a bad escape or a zero byte is refused. */
  function Decode(s: string): Option<string>
    decreases |s|
  {
    if s == "" then Some("")
    else if s[0] != '%' then Cons(s[0], Decode(s[1..]))
    else if |s| < 3 || Hex(s[1]) < 0 || Hex(s[2]) < 0 || Hex(s[1]) + Hex(s[2]) == 0 then None
    else Cons((16 * Hex(s[1]) + Hex(s[2])) as char, Decode(s[3..]))
  }

  /** The parts between the slashes. */
  function Segments(s: string): (r: seq<string>)
    ensures r != []
  {
    if s == "" then [""]
    else if s[0] == '/' then [""] + Segments(s[1..])
    else var rest := Segments(s[1..]); [[s[0]] + rest[0]] + rest[1..]
  }

  /** Each segment behind a slash. */
  function Path(segs: seq<string>): string {
    if segs == [] then "" else "/" + segs[0] + Path(segs[1..])
  }

  /** Drops empty and "." segments and lets ".." take back the one before; an empty last segment stays for
      the final slash. A path above the root is refused. */
  function Resolve(segs: seq<string>, done: seq<string>): Option<seq<string>>
    requires segs != []
    decreases |segs|
  {
    var seg, last := segs[0], |segs| == 1;
    if seg == ".." && done == [] then None
    else
      var next := if seg == "" || seg == "." then done
                  else if seg == ".." then done[..|done| - 1]
                  else done + [seg];
      if !last then Resolve(segs[1..], next)
      else if seg == "" || seg == "." || seg == ".." then Some(next + [""])
      else Some(next)
  }

  /** The path that NGINX matches for the path `raw` as it was sent, if it accepts it. */
  function Normalised(raw: string): Option<string> {
    var s := Decode(Cut(raw));
    if s.None? || s.value == "" || s.value[0] != '/' then None
    else
      var segs := Resolve(Segments(s.value[1..]), []);
      if segs.None? then None else Some(Path(segs.value))
  }

  // ---------------------------------------------------------------- what is matched as it was sent

  predicate PlainText(s: string) {
    '%' !in s && '?' !in s && '#' !in s
  }

  /** No escape, query or fragment, no empty segment but the last, no dot segment. */
  predicate Plain(p: string) {
    p != "" && p[0] == '/' && PlainText(p) && PlainSegments(Segments(p[1..]))
  }

  predicate PlainSegments(segs: seq<string>) {
    forall i | 0 <= i < |segs| :: segs[i] != "." && segs[i] != ".." && (segs[i] == "" ==> i == |segs| - 1)
  }

  lemma {:induction false} DecodePlain(s: string)
    requires PlainText(s)
    ensures Cut(s) == s && Decode(s) == Some(s)
  {
    if s != "" {
      assert s == [s[0]] + s[1..];
      DecodePlain(s[1..]);
    }
  }

  lemma {:induction false} ResolvePlain(segs: seq<string>, done: seq<string>)
    requires segs != [] && PlainSegments(segs)
    ensures Resolve(segs, done) == Some(done + segs)
  {
    if |segs| == 1 {
      assert segs == [segs[0]];
    } else {
      assert segs[0] != "";
      TailIsPlain(segs);
      ResolvePlain(segs[1..], done + [segs[0]]);
      assert done + [segs[0]] + segs[1..] == done + segs;
    }
  }

  lemma TailIsPlain(segs: seq<string>)
    requires |segs| > 1 && PlainSegments(segs)
    ensures PlainSegments(segs[1..])
  {
    forall i | 0 <= i < |segs[1..]|
      ensures segs[1..][i] != "." && segs[1..][i] != ".." && (segs[1..][i] == "" ==> i == |segs[1..]| - 1)
    {
      assert segs[1..][i] == segs[i + 1];
    }
  }

  lemma Regroup(c: char, a: string, b: string)
    ensures "/" + ([c] + a) + b == "/" + [c] + (a + b)
    ensures ("/" + a + b)[1..] == a + b
  {
  }

  lemma PathPrefixed(c: char, segs: seq<string>)
    requires segs != []
    ensures Path([[c] + segs[0]] + segs[1..]) == "/" + [c] + Path(segs)[1..]
  {
    assert ([[c] + segs[0]] + segs[1..])[1..] == segs[1..];
    Regroup(c, segs[0], Path(segs[1..]));
  }

  lemma {:induction false} PathOfSegments(s: string)
    ensures Path(Segments(s)) == "/" + s
  {
    if s == "" {
      assert [""][1..] == [];
    } else {
      PathOfSegments(s[1..]);
      assert s == [s[0]] + s[1..];
      if s[0] == '/' {
        assert ([""] + Segments(s[1..]))[1..] == Segments(s[1..]);
      } else {
        PathPrefixed(s[0], Segments(s[1..]));
        assert ("/" + s[1..])[1..] == s[1..];
      }
    }
  }

  /** A plain path is matched exactly as it was sent. */
  lemma PlainIsMatchedAsSent(p: string)
    requires Plain(p)
    ensures Normalised(p) == Some(p)
  {
    DecodePlain(p);
    ResolvePlain(Segments(p[1..]), []);
    PathOfSegments(p[1..]);
    assert p == "/" + p[1..] && [] + Segments(p[1..]) == Segments(p[1..]);
  }

  // ---------------------------------------------------------------- nothing else is

  lemma {:induction false} PathConcat(a: seq<string>, b: seq<string>)
    ensures |Path(a + b)| == |Path(a)| + |Path(b)|
  {
    if a == [] {
      assert a + b == b;
    } else {
      assert (a + b)[0] == a[0] && (a + b)[1..] == a[1..] + b;
      PathConcat(a[1..], b);
    }
  }

  lemma PathSnoc(a: seq<string>, x: string)
    ensures |Path(a + [x])| == |Path(a)| + 1 + |x|
  {
    PathConcat(a, [x]);
    assert [x][1..] == [];
  }

  lemma PathPops(a: seq<string>)
    requires a != []
    ensures |Path(a[..|a| - 1])| < |Path(a)|
  {
    PathSnoc(a[..|a| - 1], a[|a| - 1]);
    assert a == a[..|a| - 1] + [a[|a| - 1]];
  }

  lemma PlainPrefixed(segs: seq<string>)
    requires |segs| > 1 && segs[0] !in ["", ".", ".."] && PlainSegments(segs[1..])
    ensures PlainSegments(segs)
  {
    forall i | 0 <= i < |segs| ensures segs[i] != "." && segs[i] != ".." && (segs[i] == "" ==> i == |segs| - 1) {
      if i > 0 {
        assert segs[i] == segs[1..][i - 1];
      }
    }
  }

  lemma {:induction false} CutShortens(s: string)
    ensures |Cut(s)| <= |s| && (|Cut(s)| == |s| ==> Cut(s) == s && '?' !in s && '#' !in s)
  {
    if s != "" {
      CutShortens(s[1..]);
      assert s == [s[0]] + s[1..];
    }
  }

  lemma {:induction false} DecodeShortens(s: string)
    requires Decode(s).Some?
    ensures |Decode(s).value| <= |s| && (|Decode(s).value| == |s| ==> '%' !in s)
    decreases |s|
  {
    if s != "" {
      DecodeShortens(if s[0] == '%' then s[3..] else s[1..]);
      assert s[0] != '%' ==> s == [s[0]] + s[1..];
    }
  }

  /** The last segment resolves to a path that is not longer, and shorter for a dot segment. */
  lemma LastShortens(seg: string, done: seq<string>)
    requires Resolve([seg], done).Some?
    ensures |Path(Resolve([seg], done).value)| <= |Path(done)| + |Path([seg])|
    ensures |Path(Resolve([seg], done).value)| == |Path(done)| + |Path([seg])| ==> PlainSegments([seg])
  {
    PathSnoc([], seg);
    assert [] + [seg] == [seg];
    if seg == ".." {
      PathPops(done);
      PathSnoc(done[..|done| - 1], "");
    } else {
      PathSnoc(done, if seg == "." then "" else seg);
    }
  }

  lemma {:induction false} ResolveShortens(segs: seq<string>, done: seq<string>)
    requires segs != [] && Resolve(segs, done).Some?
    ensures |Path(Resolve(segs, done).value)| <= |Path(done)| + |Path(segs)|
    ensures |Path(Resolve(segs, done).value)| == |Path(done)| + |Path(segs)| ==> PlainSegments(segs)
    decreases |segs|
  {
    var seg, rest := segs[0], segs[1..];
    if rest == [] {
      assert segs == [seg];
      LastShortens(seg, done);
    } else if seg == "" || seg == "." {
      ResolveShortens(rest, done);
    } else if seg == ".." {
      PathPops(done);
      ResolveShortens(rest, done[..|done| - 1]);
    } else {
      PathSnoc(done, seg);
      ResolveShortens(rest, done + [seg]);
      if PlainSegments(rest) {
        PlainPrefixed(segs);
      }
    }
  }

  lemma TextIsKept(p: string)
    requires Decode(Cut(p)).Some?
    ensures var d := Decode(Cut(p)).value; |d| <= |p| && (|d| == |p| ==> PlainText(p) && d == p)
  {
    CutShortens(p);
    DecodeShortens(Cut(p));
    if |Decode(Cut(p)).value| == |p| {
      DecodePlain(p);
    }
  }

  lemma SegmentsAreKept(d: string)
    requires d != "" && d[0] == '/' && Resolve(Segments(d[1..]), []).Some?
    ensures var q := Path(Resolve(Segments(d[1..]), []).value);
            |q| <= |d| && (|q| == |d| ==> PlainSegments(Segments(d[1..])))
  {
    ResolveShortens(Segments(d[1..]), []);
    PathOfSegments(d[1..]);
  }

  /** NGINX matches a path as it was sent exactly when it is plain. */
  lemma MatchedAsSentIff(p: string)
    ensures Normalised(p) == Some(p) <==> Plain(p)
  {
    if Plain(p) {
      PlainIsMatchedAsSent(p);
    } else if Normalised(p) == Some(p) {
      TextIsKept(p);
      SegmentsAreKept(Decode(Cut(p)).value);
    }
  }

  // ---------------------------------------------------------------- one step up

  lemma {:induction false} SegmentsConcat(a: string, b: string)
    requires '/' !in a
    ensures Segments(a + "/" + b) == [a] + Segments(b)
  {
    if a == "" {
      assert a + "/" + b == "/" + b && ("/" + b)[1..] == b;
    } else {
      assert (a + "/" + b)[1..] == a[1..] + "/" + b && (a + "/" + b)[0] == a[0];
      SegmentsConcat(a[1..], b);
      assert [a[0]] + a[1..] == a;
    }
  }

  lemma {:induction false} OneSegment(a: string)
    requires '/' !in a
    ensures Segments(a) == [a]
  {
    if a != "" {
      OneSegment(a[1..]);
      assert [a[0]] + a[1..] == a;
    }
  }

  /** One step up: a segment followed by ".." is taken back. */
  lemma StepUp(a: string, b: string)
    requires '/' !in a && '/' !in b && PlainText(a) && PlainText(b)
    requires a !in ["", ".", ".."] && b !in ["", ".", ".."]
    ensures Normalised("/" + a + "/../" + b) == Some("/" + b)
  {
    var p := "/" + a + "/../" + b;
    var rest := ".." + "/" + b;
    assert p == "/" + (a + "/" + rest) && p[1..] == a + "/" + rest;
    DecodePlain(p);
    SegmentsConcat(a, rest);
    SegmentsConcat("..", b);
    OneSegment(b);
    assert Segments(p[1..]) == [a, "..", b];
    StepsUp(a, b);
    assert Path([b]) == "/" + b + Path([]) == "/" + b;
  }

  lemma StepsUp(a: string, b: string)
    requires a !in ["", ".", ".."] && b !in ["", ".", ".."]
    ensures Resolve([a, "..", b], []) == Some([b])
  {
    assert [a, "..", b][1..] == ["..", b] && ["..", b][1..] == [b];
    assert [] + [a] == [a] && [a][..0] == [] && [] + [b] == [b];
    assert Resolve([b], []) == Some([b]);
    assert Resolve(["..", b], [a]) == Resolve([b], []);
  }
}
