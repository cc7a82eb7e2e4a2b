/** Go's string order and its sort functions, as far as the model needs them. */
module Ordering {

  /** Go's `<=` on strings: lexicographic, a proper prefix first. */
  predicate Leq(a: string, b: string) {
    a == "" || (b != "" && (a[0] < b[0] || (a[0] == b[0] && Leq(a[1..], b[1..]))))
  }

  lemma {:induction false} LeqTotal(a: string, b: string)
    ensures Leq(a, b) || Leq(b, a)
    ensures a == b ==> Leq(a, b)
  {
    if a != "" && b != "" && a[0] == b[0] {
      LeqTotal(a[1..], b[1..]);
    }
  }

  lemma {:induction false} LeqTransitive(a: string, b: string, c: string)
    requires Leq(a, b) && Leq(b, c)
    ensures Leq(a, c)
  {
    if a != "" && a[0] == b[0] == c[0] {
      LeqTransitive(a[1..], b[1..], c[1..]);
    }
  }

  lemma {:induction false} LeqAntisymmetric(a: string, b: string)
    requires Leq(a, b) && Leq(b, a)
    ensures a == b
  {
    if a != "" {
      LeqAntisymmetric(a[1..], b[1..]);
      assert a == [a[0]] + a[1..] && b == [b[0]] + b[1..];
    }
  }

  /** `a` sorts before `b` at position `i`: they agree before it, and `a` ends there or has the smaller character. */
  predicate BeforeAt(a: string, b: string, i: nat) {
    i <= |a| && i <= |b| && a[..i] == b[..i] && (i == |a| || (i < |b| && a[i] < b[i]))
  }

  /** The order is decided at the first difference; a prefix comes first. */
  lemma {:induction false} LeqIff(a: string, b: string)
    ensures Leq(a, b) <==> exists i: nat :: BeforeAt(a, b, i)
  {
    if a == "" {
      assert BeforeAt(a, b, 0);
    } else if b != "" && a[0] == b[0] {
      LeqIff(a[1..], b[1..]);
      assert a == [a[0]] + a[1..] && b == [b[0]] + b[1..];
      if i: nat :| BeforeAt(a[1..], b[1..], i) {
        assert a[..i + 1] == [a[0]] + a[1..][..i] && b[..i + 1] == [b[0]] + b[1..][..i];
        assert BeforeAt(a, b, i + 1);
      }
      if i: nat :| BeforeAt(a, b, i) {
        assert i > 0;
        assert a[1..][..i - 1] == a[..i][1..] && b[1..][..i - 1] == b[..i][1..];
        assert BeforeAt(a[1..], b[1..], i - 1);
      }
    } else {
      assert Leq(a, b) ==> BeforeAt(a, b, 0);
      if i: nat :| BeforeAt(a, b, i) {
        FirstDecides(a, b, i);
      }
    }
  }

  lemma FirstDecides(a: string, b: string, i: nat)
    requires a != "" && BeforeAt(a, b, i)
    ensures b != "" && (a[0] == b[0] || a[0] < b[0])
  {
    if b != "" && i > 0 {
      assert a[0] == a[..i][0] && b[0] == b[..i][0];
    }
  }

  ghost predicate TotalPreorder<T(!new)>(leq: (T, T) -> bool) {
    && (forall x, y :: leq(x, y) || leq(y, x))
    && (forall x, y, z :: leq(x, y) && leq(y, z) ==> leq(x, z))
  }

  lemma LeqIsPreorder()
    ensures TotalPreorder(Leq)
  {
    forall x, y ensures Leq(x, y) || Leq(y, x) { LeqTotal(x, y); }
    forall x, y, z | Leq(x, y) && Leq(y, z) ensures Leq(x, z) { LeqTransitive(x, y, z); }
  }

  ghost predicate Sorted<T>(leq: (T, T) -> bool, s: seq<T>) {
    forall i, j | 0 <= i < j < |s| :: leq(s[i], s[j])
  }

  /** Puts `x` before the first element that is not smaller. */
  function Insert<T>(leq: (T, T) -> bool, x: T, s: seq<T>): (r: seq<T>)
    ensures |r| == |s| + 1
  {
    if s == [] then [x]
    else if leq(x, s[0]) then [x] + s
    else [s[0]] + Insert(leq, x, s[1..])
  }

  /** A stable sort: what `sort.Strings` and `sort.SliceStable` return. */
  function Sort<T>(leq: (T, T) -> bool, s: seq<T>): (r: seq<T>)
    ensures |r| == |s|
  {
    if s == [] then [] else Insert(leq, s[0], Sort(leq, s[1..]))
  }

  lemma {:induction false} InsertPermutes<T>(leq: (T, T) -> bool, x: T, s: seq<T>)
    ensures multiset(Insert(leq, x, s)) == multiset{x} + multiset(s)
  {
    if s != [] && !leq(x, s[0]) {
      InsertPermutes(leq, x, s[1..]);
      assert s == [s[0]] + s[1..];
    }
  }

  lemma {:induction false} SortPermutes<T>(leq: (T, T) -> bool, s: seq<T>)
    ensures multiset(Sort(leq, s)) == multiset(s)
  {
    if s != [] {
      SortPermutes(leq, s[1..]);
      InsertPermutes(leq, s[0], Sort(leq, s[1..]));
      assert s == [s[0]] + s[1..];
    }
  }

  lemma SameElements<T>(s: seq<T>, t: seq<T>)
    requires multiset(s) == multiset(t)
    ensures |s| == |t|
    ensures forall x :: x in s <==> x in t
  {
    assert |s| == |multiset(s)| == |multiset(t)| == |t|;
    forall x ensures x in s <==> x in t {
      assert x in s <==> x in multiset(s);
      assert x in t <==> x in multiset(t);
    }
  }

  lemma {:induction false} InsertSorts<T(!new)>(leq: (T, T) -> bool, x: T, s: seq<T>)
    requires TotalPreorder(leq) && Sorted(leq, s)
    ensures Sorted(leq, Insert(leq, x, s))
  {
    if s != [] && !leq(x, s[0]) {
      InsertSorts(leq, x, s[1..]);
      InsertPermutes(leq, x, s[1..]);
      var rest := Insert(leq, x, s[1..]);
      forall k | 0 <= k < |rest| ensures leq(s[0], rest[k]) {
        assert rest[k] in multiset(rest);
        assert rest[k] == x || rest[k] in s[1..];
      }
    }
  }

  lemma {:induction false} SortSorts<T(!new)>(leq: (T, T) -> bool, s: seq<T>)
    requires TotalPreorder(leq)
    ensures Sorted(leq, Sort(leq, s)) && multiset(Sort(leq, s)) == multiset(s)
  {
    SortPermutes(leq, s);
    if s != [] {
      SortSorts(leq, s[1..]);
      InsertSorts(leq, s[0], Sort(leq, s[1..]));
    }
  }

  lemma TailMultiset<T>(s: seq<T>)
    requires s != []
    ensures multiset(s[1..]) == multiset(s) - multiset{s[0]}
    ensures forall x | x in s[1..] :: x in s
  {
    assert s == [s[0]] + s[1..];
  }

  lemma HeadsAgree<T>(leq: (T, T) -> bool, s: seq<T>, t: seq<T>)
    requires s != [] && t != [] && Sorted(leq, s) && Sorted(leq, t)
    requires forall x :: x in s <==> x in t
    requires forall x, y | x in s && y in s && leq(x, y) && leq(y, x) :: x == y
    ensures s[0] == t[0]
  {
    assert t[0] in s && s[0] in t;
    var i :| 0 <= i < |s| && s[i] == t[0];
    var j :| 0 <= j < |t| && t[j] == s[0];
    if i != 0 && j != 0 {
      assert leq(s[0], s[i]) && leq(t[0], t[j]);
    }
  }

  lemma TailSorted<T>(leq: (T, T) -> bool, s: seq<T>)
    requires s != [] && Sorted(leq, s)
    ensures Sorted(leq, s[1..])
  {
    forall i, j | 0 <= i < j < |s[1..]| ensures leq(s[1..][i], s[1..][j]) {
      assert leq(s[i + 1], s[j + 1]);
    }
  }

  lemma HeadTail<T>(s: seq<T>, t: seq<T>)
    requires s != [] && t != [] && s[0] == t[0] && s[1..] == t[1..]
    ensures s == t
  {
    assert s == [s[0]] + s[1..] && t == [t[0]] + t[1..];
  }

  /** A sorted arrangement of given elements is unique when the order separates them. */
  lemma {:induction false} SortedUnique<T>(leq: (T, T) -> bool, s: seq<T>, t: seq<T>)
    requires Sorted(leq, s) && Sorted(leq, t) && multiset(s) == multiset(t)
    requires forall x, y | x in s && y in s && leq(x, y) && leq(y, x) :: x == y
    ensures s == t
  {
    SameElements(s, t);
    if s != [] {
      HeadsAgree(leq, s, t);
      TailMultiset(s);
      TailMultiset(t);
      TailSorted(leq, s);
      TailSorted(leq, t);
      SortedUnique(leq, s[1..], t[1..]);
      HeadTail(s, t);
    }
  }

  /** Sorting forgets the order it was given, when the order separates the elements. */
  lemma SortForgetsOrder<T(!new)>(leq: (T, T) -> bool, s: seq<T>, t: seq<T>)
    requires TotalPreorder(leq) && multiset(s) == multiset(t)
    requires forall x, y | x in s && y in s && leq(x, y) && leq(y, x) :: x == y
    ensures Sort(leq, s) == Sort(leq, t)
  {
    SortSorts(leq, s);
    SortSorts(leq, t);
    SameElements(s, Sort(leq, s));
    SortedUnique(leq, Sort(leq, s), Sort(leq, t));
  }

  lemma FirstIsMember<T>(s: seq<T>)
    ensures s == [] || s[0] in s
  {
  }

  /** Duplicate-free sequences with the same elements are permutations of each other. */
  lemma NoDupsPermute<T>(s: seq<T>, t: seq<T>)
    requires forall i, j | 0 <= i < j < |s| :: s[i] != s[j]
    requires forall i, j | 0 <= i < j < |t| :: t[i] != t[j]
    requires forall x :: x in s <==> x in t
    ensures multiset(s) == multiset(t)
  {
    forall x ensures multiset(s)[x] == multiset(t)[x] {
      CountAtMostOnce(s, x);
      CountAtMostOnce(t, x);
      assert x in multiset(s) <==> x in s;
      assert x in multiset(t) <==> x in t;
    }
  }

  /** A permutation of a duplicate-free sequence is duplicate-free. */
  lemma NoDupsSurvive<T>(s: seq<T>, t: seq<T>)
    requires multiset(s) == multiset(t)
    requires forall i, j | 0 <= i < j < |s| :: s[i] != s[j]
    ensures forall i, j | 0 <= i < j < |t| :: t[i] != t[j]
  {
    forall i, j | 0 <= i < j < |t| ensures t[i] != t[j] {
      if t[i] == t[j] {
        var x := t[i];
        assert t == t[..i] + [t[i]] + t[i + 1..j] + [t[j]] + t[j + 1..];
        assert multiset(t)[x] >= 2;
        CountAtMostOnce(s, x);
      }
    }
  }

  lemma {:induction false} CountAtMostOnce<T>(s: seq<T>, x: T)
    requires forall i, j | 0 <= i < j < |s| :: s[i] != s[j]
    ensures multiset(s)[x] <= 1
  {
    if s != [] {
      CountAtMostOnce(s[1..], x);
      assert s == [s[0]] + s[1..];
      if s[0] == x {
        assert x !in s[1..];
        assert multiset(s[1..])[x] == 0;
      }
    }
  }

  lemma WithoutAt<T>(s: seq<T>, i: nat)
    requires i < |s|
    ensures multiset(s) == multiset{s[i]} + multiset(s[..i] + s[i + 1..])
  {
    assert s == s[..i] + [s[i]] + s[i + 1..];
  }

  /** A concatenation loses its last element from its second part. */
  lemma SnocConcat<T>(a: seq<T>, b: seq<T>)
    requires b != []
    ensures a + b == a + b[..|b| - 1] + [b[|b| - 1]]
  {
  }

  lemma Snoc<T>(b: seq<T>)
    requires b != []
    ensures b == b[..|b| - 1] + [b[|b| - 1]]
  {
  }

  lemma ConcatAssociates<T>(a: seq<T>, b: seq<T>, c: seq<T>)
    ensures (a + b) + c == a + (b + c)
  {
  }
}
