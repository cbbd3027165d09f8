/** `Array.prototype.sort` with a comparator: the stable sorted arrangement of a list. */
module StableSort {
  /** What a comparator must satisfy for the result of a sort to be defined. */
  ghost predicate Orders<T(!new)>(cmp: (T, T) -> int) {
    && (forall a, b :: cmp(a, b) < 0 <==> cmp(b, a) > 0)
    && (forall a, b, c :: cmp(a, b) <= 0 && cmp(b, c) <= 0 ==> cmp(a, c) <= 0)
  }

  function Insert<T>(x: T, s: seq<T>, cmp: (T, T) -> int): (r: seq<T>)
    ensures |r| == |s| + 1
  {
    if s == [] || cmp(x, s[0]) <= 0 then [x] + s
    else [s[0]] + Insert(x, s[1..], cmp)
  }

  function SortBy<T>(s: seq<T>, cmp: (T, T) -> int): (r: seq<T>)
    ensures |r| == |s|
  {
    if s == [] then [] else Insert(s[0], SortBy(s[1..], cmp), cmp)
  }

  ghost predicate Sorted<T>(s: seq<T>, cmp: (T, T) -> int) {
    s != [] ==> (forall y :: y in s[1..] ==> cmp(s[0], y) <= 0) && Sorted(s[1..], cmp)
  }

  lemma HeadAndTail<T>(s: seq<T>)
    requires s != []
    ensures multiset(s) == multiset{s[0]} + multiset(s[1..])
    ensures forall y :: y in s <==> y == s[0] || y in s[1..]
  {
    assert s == [s[0]] + s[1..];
  }

  lemma {:induction false} InsertPermutes<T>(x: T, s: seq<T>, cmp: (T, T) -> int)
    ensures multiset(Insert(x, s, cmp)) == multiset{x} + multiset(s)
    ensures forall y :: y in Insert(x, s, cmp) <==> y == x || y in s
  {
    var r := Insert(x, s, cmp);
    HeadAndTail(r);
    if s == [] || cmp(x, s[0]) <= 0 {
      assert r[1..] == s;
    } else {
      assert r[1..] == Insert(x, s[1..], cmp);
      InsertPermutes(x, s[1..], cmp);
      HeadAndTail(s);
    }
  }

  /** All that the elements hold. */
  function Collected<T, U>(s: seq<T>, held: T -> multiset<U>): multiset<U> {
    if s == [] then multiset{} else held(s[0]) + Collected(s[1..], held)
  }

  lemma {:induction false} InsertCollects<T, U>(x: T, s: seq<T>, cmp: (T, T) -> int, held: T -> multiset<U>)
    ensures Collected(Insert(x, s, cmp), held) == held(x) + Collected(s, held)
  {
    var r := Insert(x, s, cmp);
    if s == [] || cmp(x, s[0]) <= 0 {
      assert r[1..] == s;
    } else {
      assert r[1..] == Insert(x, s[1..], cmp);
      InsertCollects(x, s[1..], cmp, held);
    }
  }

  /** Sorting neither adds nor loses anything that the elements hold. */
  lemma {:induction false} SortCollects<T, U>(s: seq<T>, cmp: (T, T) -> int, held: T -> multiset<U>)
    ensures Collected(SortBy(s, cmp), held) == Collected(s, held)
  {
    if s != [] {
      SortCollects(s[1..], cmp, held);
      InsertCollects(s[0], SortBy(s[1..], cmp), cmp, held);
    }
  }

  /** Sorting only rearranges. */
  lemma {:induction false} SortPermutes<T>(s: seq<T>, cmp: (T, T) -> int)
    ensures multiset(SortBy(s, cmp)) == multiset(s)
    ensures forall y :: y in SortBy(s, cmp) <==> y in s
  {
    if s != [] {
      SortPermutes(s[1..], cmp);
      InsertPermutes(s[0], SortBy(s[1..], cmp), cmp);
      HeadAndTail(s);
    }
  }

  lemma InsertInFront<T(!new)>(x: T, s: seq<T>, cmp: (T, T) -> int)
    requires Orders(cmp) && Sorted(s, cmp) && s != [] && cmp(x, s[0]) <= 0
    ensures Sorted([x] + s, cmp)
  {
    assert ([x] + s)[1..] == s;
    forall y | y in s
      ensures cmp(x, y) <= 0
    {
      HeadAndTail(s);
    }
  }

  lemma {:induction false} InsertSorts<T(!new)>(x: T, s: seq<T>, cmp: (T, T) -> int)
    requires Orders(cmp) && Sorted(s, cmp)
    ensures Sorted(Insert(x, s, cmp), cmp)
  {
    if s == [] {
      assert ([x] + s)[1..] == [];
    } else if cmp(x, s[0]) <= 0 {
      InsertInFront(x, s, cmp);
    } else {
      InsertSorts(x, s[1..], cmp);
      InsertPermutes(x, s[1..], cmp);
      assert Insert(x, s, cmp)[1..] == Insert(x, s[1..], cmp);
      assert cmp(s[0], x) < 0;
    }
  }

  /** Sorting with a comparator that orders gives a sorted list. */
  lemma {:induction false} SortSorts<T(!new)>(s: seq<T>, cmp: (T, T) -> int)
    requires Orders(cmp)
    ensures Sorted(SortBy(s, cmp), cmp)
  {
    if s != [] {
      SortSorts(s[1..], cmp);
      InsertSorts(s[0], SortBy(s[1..], cmp), cmp);
    }
  }

  /** The first element of a sorted list is at most any other. */
  lemma FirstIsLeast<T(!new)>(s: seq<T>, cmp: (T, T) -> int)
    requires Orders(cmp) && s != []
    ensures SortBy(s, cmp) != [] && SortBy(s, cmp)[0] in s
    ensures forall y :: y in s ==> cmp(SortBy(s, cmp)[0], y) <= 0
  {
    SortSorts(s, cmp);
    SortPermutes(s, cmp);
    var r := SortBy(s, cmp);
    HeadAndTail(r);
    forall y | y in s
      ensures cmp(r[0], y) <= 0
    {
      assert y in r;
      assert cmp(r[0], r[0]) <= 0;
    }
  }

  lemma {:induction false} SortedPair<T>(s: seq<T>, cmp: (T, T) -> int, i: nat, j: nat)
    requires Sorted(s, cmp) && i < j < |s|
    ensures cmp(s[i], s[j]) <= 0
  {
    if i == 0 {
      assert s[1..][j - 1] == s[j];
    } else {
      SortedPair(s[1..], cmp, i - 1, j - 1);
    }
  }

  // ---------- stability ----------

  /** The elements that the comparator does not tell from `x`, in their order. */
  function Alike<T>(s: seq<T>, x: T, cmp: (T, T) -> int): seq<T> {
    if s == [] then []
    else (if cmp(x, s[0]) == 0 then [s[0]] else []) + Alike(s[1..], x, cmp)
  }

  /** `t` is sorted and keeps the order of all elements that are alike, so it also keeps the elements. */
  ghost predicate StablySorted<T(!new)>(t: seq<T>, s: seq<T>, cmp: (T, T) -> int) {
    Sorted(t, cmp) && forall x :: Alike(t, x, cmp) == Alike(s, x, cmp)
  }

  lemma AlikeTail<T>(s: seq<T>, x: T, cmp: (T, T) -> int)
    requires s != []
    ensures Alike(s, x, cmp) == Alike([s[0]], x, cmp) + Alike(s[1..], x, cmp)
  {
    assert [s[0]][1..] == [];
  }

  lemma NotBothAlike<T(!new)>(a: T, b: T, x: T, cmp: (T, T) -> int)
    requires Orders(cmp) && cmp(a, b) > 0
    ensures Alike([a], x, cmp) + Alike([b], x, cmp) == Alike([b], x, cmp) + Alike([a], x, cmp)
  {
    assert [a][1..] == [] && [b][1..] == [];
    assert cmp(x, a) == 0 ==> cmp(a, x) <= 0;
    assert cmp(a, x) <= 0 && cmp(x, b) <= 0 ==> cmp(a, b) <= 0;
  }

  lemma {:induction false} InsertIsStable<T(!new)>(e: T, s: seq<T>, x: T, cmp: (T, T) -> int)
    requires Orders(cmp)
    ensures Alike(Insert(e, s, cmp), x, cmp) == Alike([e], x, cmp) + Alike(s, x, cmp)
  {
    var r := Insert(e, s, cmp);
    AlikeTail(r, x, cmp);
    if s == [] || cmp(e, s[0]) <= 0 {
      assert r[1..] == s;
    } else {
      assert r[1..] == Insert(e, s[1..], cmp);
      InsertIsStable(e, s[1..], x, cmp);
      AlikeTail(s, x, cmp);
      NotBothAlike(e, s[0], x, cmp);
      var a, b, c := Alike([s[0]], x, cmp), Alike([e], x, cmp), Alike(s[1..], x, cmp);
      assert a + (b + c) == (a + b) + c && (b + a) + c == b + (a + c);
    }
  }

  lemma {:induction false} SortKeepsAlike<T(!new)>(s: seq<T>, x: T, cmp: (T, T) -> int)
    requires Orders(cmp)
    ensures Alike(SortBy(s, cmp), x, cmp) == Alike(s, x, cmp)
  {
    if s != [] {
      SortKeepsAlike(s[1..], x, cmp);
      InsertIsStable(s[0], SortBy(s[1..], cmp), x, cmp);
      AlikeTail(s, x, cmp);
    }
  }

  /** Elements that the comparator does not tell apart keep their order. */
  lemma SortIsStable<T(!new)>(s: seq<T>, cmp: (T, T) -> int)
    requires Orders(cmp)
    ensures StablySorted(SortBy(s, cmp), s, cmp)
  {
    SortSorts(s, cmp);
    forall x
      ensures Alike(SortBy(s, cmp), x, cmp) == Alike(s, x, cmp)
    {
      SortKeepsAlike(s, x, cmp);
    }
  }

  lemma {:induction false} AlikeMembers<T>(s: seq<T>, x: T, cmp: (T, T) -> int)
    ensures forall y :: y in Alike(s, x, cmp) ==> y in s && cmp(x, y) == 0
  {
    if s != [] {
      AlikeMembers(s[1..], x, cmp);
      HeadAndTail(s);
    }
  }

  /** The first element of one sorted list is at most that of another with the same elements. */
  lemma HeadAtMost<T(!new)>(a: seq<T>, b: seq<T>, cmp: (T, T) -> int)
    requires Orders(cmp) && Sorted(a, cmp) && a != [] && b != []
    requires Alike(a, b[0], cmp) == Alike(b, b[0], cmp)
    ensures cmp(a[0], b[0]) <= 0
  {
    assert cmp(b[0], b[0]) == 0;
    var y := Alike(a, b[0], cmp)[0];
    AlikeMembers(a, b[0], cmp);
    assert y in Alike(a, b[0], cmp);
    HeadAndTail(a);
    assert cmp(a[0], a[0]) <= 0;
    assert cmp(a[0], y) <= 0 && cmp(y, b[0]) <= 0;
  }

  lemma AlikeItself<T(!new)>(s: seq<T>, cmp: (T, T) -> int)
    requires Orders(cmp)
    ensures s != [] ==> Alike(s, s[0], cmp) != []
  {
    assert s != [] ==> cmp(s[0], s[0]) == 0;
  }

  lemma SameBehind<T>(p: seq<T>, a: seq<T>, b: seq<T>)
    requires p + a == p + b
    ensures a == b
  {
    assert (p + a)[|p|..] == a && (p + b)[|p|..] == b;
  }

  lemma {:induction false} SortedAlikeAreEqual<T(!new)>(a: seq<T>, b: seq<T>, cmp: (T, T) -> int)
    requires Orders(cmp) && Sorted(a, cmp) && Sorted(b, cmp)
    requires forall x :: Alike(a, x, cmp) == Alike(b, x, cmp)
    ensures a == b
  {
    if a == [] {
      AlikeItself(b, cmp);
    } else {
      assert cmp(a[0], a[0]) == 0;
      assert Alike(a, a[0], cmp) == Alike(b, a[0], cmp);
      HeadAtMost(a, b, cmp);
      HeadAtMost(b, a, cmp);
      assert Alike(a, a[0], cmp)[0] == a[0] && Alike(b, a[0], cmp)[0] == b[0];
      forall x
        ensures Alike(a[1..], x, cmp) == Alike(b[1..], x, cmp)
      {
        assert Alike(a, x, cmp) == Alike(b, x, cmp);
        AlikeTail(a, x, cmp);
        AlikeTail(b, x, cmp);
        SameBehind(Alike([a[0]], x, cmp), Alike(a[1..], x, cmp), Alike(b[1..], x, cmp));
      }
      SortedAlikeAreEqual(a[1..], b[1..], cmp);
      assert a == [a[0]] + a[1..] && b == [b[0]] + b[1..];
    }
  }

  /** There is one stable sorted arrangement, so this is what every stable sort gives. */
  lemma StableSortIsUnique<T(!new)>(t: seq<T>, s: seq<T>, cmp: (T, T) -> int)
    requires Orders(cmp) && StablySorted(t, s, cmp)
    ensures t == SortBy(s, cmp)
  {
    SortIsStable(s, cmp);
    forall x
      ensures Alike(t, x, cmp) == Alike(SortBy(s, cmp), x, cmp)
    {
      assert Alike(t, x, cmp) == Alike(s, x, cmp);
    }
    SortedAlikeAreEqual(t, SortBy(s, cmp), cmp);
  }
}
