/**
  The string operations of the JavaScript runtime that the modelled code relies on:
  white space and `trim`, `split`, `join`, line-ending normalisation, decimal numbers,
  and first appearances.
*/
module Text {

  datatype Option<+T> = None | Some(value: T) {
    function GetOr(default: T): T {
      if Some? then value else default
    }
  }

  /** A value, or what an exception says. */
  datatype Result<T, E> = Ok(value: T) | Err(error: E)

  lemma ConcatAssociates<T>(a: seq<T>, b: seq<T>, c: seq<T>)
    ensures a + (b + c) == (a + b) + c
  {
  }

  // ---------- white space ----------

  /** The WhiteSpace and LineTerminator code points removed by `trim` and matched by `\s`. */
  predicate IsSpace(c: char) {
    || '\t' <= c <= '\r'
    || c == ' ' || c == '\U{A0}' || c == '\U{1680}'
    || '\U{2000}' <= c <= '\U{200A}'
    || c == '\U{2028}' || c == '\U{2029}' || c == '\U{202F}' || c == '\U{205F}'
    || c == '\U{3000}' || c == BOM
  }

  const BOM: char := '\U{FEFF}'

  predicate AllSpace(s: string) {
    forall i :: 0 <= i < |s| ==> IsSpace(s[i])
  }

  function TrimLeft(s: string): string {
    if s != [] && IsSpace(s[0]) then TrimLeft(s[1..]) else s
  }

  function TrimRight(s: string): (r: string)
    ensures r <= s
  {
    if s == [] then [] else
      var r := TrimRight(s[1..]);
      if r == [] && IsSpace(s[0]) then [] else [s[0]] + r
  }

  function Trim(s: string): string {
    TrimRight(TrimLeft(s))
  }

  /** A text that `trim` leaves alone. */
  predicate Tight(s: string) {
    s != [] ==> !IsSpace(s[0]) && !IsSpace(s[|s| - 1])
  }

  lemma {:induction false} TrimRightSplits(s: string)
    ensures AllSpace(s[|TrimRight(s)|..])
    ensures TrimRight(s) != [] ==> !IsSpace(TrimRight(s)[|TrimRight(s)| - 1])
  {
    if s != [] {
      TrimRightSplits(s[1..]);
      var r := TrimRight(s[1..]);
      if r == [] && IsSpace(s[0]) {
        assert forall i :: 0 < i < |s| ==> s[i] == s[1..][i - 1];
      } else {
        assert s[|r| + 1..] == s[1..][|r|..];
      }
    }
  }

  lemma {:induction false} TrimRightUnique(m: string, b: string)
    requires AllSpace(b)
    requires m != [] ==> !IsSpace(m[|m| - 1])
    ensures TrimRight(m + b) == m
  {
    if m == [] {
      assert m + b == b;
      if b != [] {
        TrimRightUnique([], b[1..]);
        assert [] + b[1..] == b[1..];
      }
    } else {
      TrimRightUnique(m[1..], b);
      assert (m + b)[1..] == m[1..] + b;
    }
  }

  lemma {:induction false} TrimLeftDrops(a: string, s: string)
    requires AllSpace(a)
    ensures TrimLeft(a + s) == TrimLeft(s)
  {
    if a == [] {
      assert a + s == s;
    } else {
      TrimLeftDrops(a[1..], s);
      assert (a + s)[1..] == a[1..] + s;
    }
  }

  lemma SpaceInFront(c: char, a: string)
    requires IsSpace(c) && AllSpace(a)
    ensures AllSpace([c] + a)
  {
  }

  lemma {:induction false} TrimLeftSplits(s: string) returns (a: string)
    ensures AllSpace(a) && s == a + TrimLeft(s)
    ensures TrimLeft(s) != [] ==> !IsSpace(TrimLeft(s)[0])
  {
    if s != [] && IsSpace(s[0]) {
      var rest := TrimLeftSplits(s[1..]);
      a := [s[0]] + rest;
      SpaceInFront(s[0], rest);
      ConcatAssociates([s[0]], rest, TrimLeft(s));
    } else {
      a := [];
    }
  }

  /** `trim` cuts a text into leading space, a tight middle and trailing space. */
  lemma {:induction false} TrimSplits(s: string) returns (a: string, b: string)
    ensures AllSpace(a) && AllSpace(b) && s == a + Trim(s) + b && Tight(Trim(s))
  {
    a := TrimLeftSplits(s);
    var t := TrimLeft(s);
    TrimRightSplits(t);
    b := t[|TrimRight(t)|..];
    assert t == TrimRight(t) + b;
    ConcatAssociates(a, TrimRight(t), b);
  }

  /** ... and there is only one such cut. */
  lemma {:induction false} TrimUnique(a: string, m: string, b: string)
    requires AllSpace(a) && AllSpace(b) && Tight(m)
    ensures Trim(a + m + b) == m
  {
    assert a + m + b == a + (m + b);
    TrimLeftDrops(a, m + b);
    if m == [] {
      assert m + b == b;
      assert b + [] == b;
      TrimLeftDrops(b, []);
    } else {
      assert (m + b)[0] == m[0];
      TrimRightUnique(m, b);
    }
  }

  lemma TightIsTrimmed(m: string)
    requires Tight(m)
    ensures Trim(m) == m
  {
    TrimUnique([], m, []);
    assert [] + m + [] == m;
  }

  lemma TrimIsTight(s: string)
    ensures Tight(Trim(s)) && Trim(Trim(s)) == Trim(s)
  {
    var _, _ := TrimSplits(s);
    TightIsTrimmed(Trim(s));
  }

  lemma TrimPadded(a: string, s: string, b: string)
    requires AllSpace(a) && AllSpace(b)
    ensures Trim(a + s + b) == Trim(s)
  {
    var x, y := TrimSplits(s);
    assert a + s + b == (a + x) + Trim(s) + (y + b);
    TrimUnique(a + x, Trim(s), y + b);
  }

  lemma TrimHead(s: string)
    requires s != [] && !IsSpace(s[0])
    ensures Trim(s) != [] && Trim(s)[0] == s[0]
  {
    var _, _ := TrimSplits(s);
  }

  /** Every character of a trimmed text is one of the text's own. */
  lemma TrimWithin(s: string, c: char)
    requires c !in s
    ensures c !in Trim(s)
  {
    var a, b := TrimSplits(s);
    assert forall i :: 0 <= i < |Trim(s)| ==> Trim(s)[i] == s[|a| + i];
  }

  // ---------- searching ----------

  /** `indexOf(c)`, with the length of the text for -1. */
  function IndexOf(s: string, c: char): (i: nat)
    ensures i <= |s|
    ensures i < |s| ==> s[i] == c
    ensures c !in s[..i]
  {
    if s == [] || s[0] == c then 0 else 1 + IndexOf(s[1..], c)
  }

  lemma {:induction false} IndexOfNone(s: string, c: char)
    requires c !in s
    ensures IndexOf(s, c) == |s|
  {
    if s != [] {
      IndexOfNone(s[1..], c);
    }
  }

  lemma {:induction false} IndexOfFirst(a: string, c: char, b: string)
    requires c !in a
    ensures IndexOf(a + [c] + b, c) == |a|
  {
    if a != [] {
      assert (a + [c] + b)[1..] == a[1..] + [c] + b;
      IndexOfFirst(a[1..], c, b);
    }
  }

  // ---------- split and join ----------

  function Split(s: string, c: char): (parts: seq<string>)
    ensures |parts| > 0
  {
    if s == [] then [[]]
    else
      var rest := Split(s[1..], c);
      if s[0] == c then [[]] + rest else [[s[0]] + rest[0]] + rest[1..]
  }

  function Join(parts: seq<string>, sep: string): string {
    if |parts| == 0 then []
    else if |parts| == 1 then parts[0]
    else parts[0] + sep + Join(parts[1..], sep)
  }

  /** A separator cuts the text into two that are split on their own. */
  lemma {:induction false} SplitAt(a: string, c: char, b: string)
    ensures Split(a + [c] + b, c) == Split(a, c) + Split(b, c)
  {
    var s := a + [c] + b;
    if a == [] {
      assert s[1..] == b;
    } else {
      assert s[1..] == a[1..] + [c] + b;
      SplitAt(a[1..], c, b);
      var x, y := Split(a[1..], c), Split(b, c);
      if a[0] == c {
        ConcatAssociates([[]], x, y);
      } else {
        assert (x + y)[1..] == x[1..] + y;
        ConcatAssociates([[a[0]] + x[0]], x[1..], y);
      }
    }
  }

  lemma {:induction false} SplitWhole(s: string, c: char)
    requires c !in s
    ensures Split(s, c) == [s]
  {
    if s != [] {
      SplitWhole(s[1..], c);
      assert s == [s[0]] + s[1..];
    }
  }

  lemma {:induction false} SplitPartsLackSeparator(s: string, c: char)
    ensures forall i :: 0 <= i < |Split(s, c)| ==> c !in Split(s, c)[i]
  {
    if s != [] {
      SplitPartsLackSeparator(s[1..], c);
    }
  }

  lemma {:induction false} SplitLacks(s: string, c: char, x: char)
    requires x !in s
    ensures forall i :: 0 <= i < |Split(s, c)| ==> x !in Split(s, c)[i]
  {
    if s != [] {
      SplitLacks(s[1..], c, x);
    }
  }

  /** Splitting is the inverse of joining parts that do not hold the separator. */
  lemma {:induction false} SplitOfJoin(parts: seq<string>, c: char)
    requires |parts| > 0
    requires forall i :: 0 <= i < |parts| ==> c !in parts[i]
    ensures Split(Join(parts, [c]), c) == parts
  {
    SplitWhole(parts[0], c);
    if |parts| > 1 {
      SplitOfJoin(parts[1..], c);
      SplitAt(parts[0], c, Join(parts[1..], [c]));
      assert parts == [parts[0]] + parts[1..];
    } else {
      assert parts == [parts[0]];
    }
  }

  lemma {:induction false} JoinOfSplit(s: string, c: char)
    ensures Join(Split(s, c), [c]) == s
  {
    if s != [] {
      JoinOfSplit(s[1..], c);
      var rest := Split(s[1..], c);
      if s[0] == c {
        assert ([[]] + rest)[1..] == rest;
        assert [] + [c] + Join(rest, [c]) == s;
      } else {
        var parts := [[s[0]] + rest[0]] + rest[1..];
        assert parts[1..] == rest[1..];
        if |rest| > 1 {
          assert ([s[0]] + rest[0]) + [c] + Join(rest[1..], [c]) == [s[0]] + Join(rest, [c]);
        }
        assert s == [s[0]] + s[1..];
      }
    }
  }

  lemma JoinFirst(x: char, parts: seq<string>, sub: string)
    requires parts != []
    ensures Join([[x] + parts[0]] + parts[1..], sub) == [x] + Join(parts, sub)
  {
    var all := [[x] + parts[0]] + parts[1..];
    assert all[1..] == parts[1..];
    if |parts| > 1 {
      assert ([x] + parts[0]) + sub + Join(parts[1..], sub) == [x] + (parts[0] + sub + Join(parts[1..], sub));
    }
  }

  /** These are the places from `n` up to `end` with a property, in order. */
  ghost predicate PlacesFrom(has: nat -> bool, n: nat, end: nat, at: seq<nat>) {
    && (forall k :: 0 <= k < |at| ==> n <= at[k] < end && has(at[k]))
    && (forall k, l :: 0 <= k < l < |at| ==> at[k] < at[l])
    && (forall i :: n <= i < end && has(i) ==> i in at)
  }

  lemma OneMorePlace(has: nat -> bool, n: nat, end: nat, rest: seq<nat>)
    requires n < end && PlacesFrom(has, n + 1, end, rest)
    ensures has(n) ==> PlacesFrom(has, n, end, [n] + rest)
    ensures !has(n) ==> PlacesFrom(has, n, end, rest)
  {
    if has(n) {
      forall i | n <= i < end && has(i)
        ensures i in [n] + rest
      {
        assert i == n || i in rest;
      }
    }
  }

  // ---------- non-blank lines ----------

  function TrimAll(parts: seq<string>): seq<string> {
    seq(|parts|, i requires 0 <= i < |parts| => Trim(parts[i]))
  }

  function NonEmpty(parts: seq<string>): seq<string> {
    if parts == [] then []
    else if parts[0] == [] then NonEmpty(parts[1..])
    else [parts[0]] + NonEmpty(parts[1..])
  }

  /** The trimmed parts between separators that are not blank: `split(c).map(trim).filter(Boolean)`. */
  function Fields(s: string, c: char): seq<string> {
    NonEmpty(TrimAll(Split(s, c)))
  }

  /** What a line-by-line reader that trims lines and skips blank ones sees. */
  function ContentLines(s: string): seq<string> {
    Fields(s, '\n')
  }

  lemma {:induction false} NonEmptyConcat(a: seq<string>, b: seq<string>)
    ensures NonEmpty(a + b) == NonEmpty(a) + NonEmpty(b)
  {
    if a == [] {
      assert a + b == b;
    } else {
      NonEmptyConcat(a[1..], b);
      assert (a + b)[1..] == a[1..] + b;
      ConcatAssociates([a[0]], NonEmpty(a[1..]), NonEmpty(b));
    }
  }

  lemma {:induction false} NonEmptyMembers(parts: seq<string>, f: string)
    requires f in NonEmpty(parts)
    ensures f != [] && f in parts
  {
    if parts[0] == [] || f != parts[0] {
      NonEmptyMembers(parts[1..], f);
    }
  }

  lemma FieldsAt(a: string, c: char, b: string)
    ensures Fields(a + [c] + b, c) == Fields(a, c) + Fields(b, c)
  {
    SplitAt(a, c, b);
    assert TrimAll(Split(a, c) + Split(b, c)) == TrimAll(Split(a, c)) + TrimAll(Split(b, c));
    NonEmptyConcat(TrimAll(Split(a, c)), TrimAll(Split(b, c)));
  }

  lemma FieldsWhole(s: string, c: char)
    requires c !in s
    ensures Fields(s, c) == if Trim(s) == [] then [] else [Trim(s)]
  {
    SplitWhole(s, c);
    assert TrimAll([s]) == [Trim(s)];
    var one := [Trim(s)];
    assert one[1..] == [];
    assert NonEmpty(one[1..]) == [];
  }

  /** Fields are tight, not empty, and hold no separator. */
  lemma FieldsAreClean(s: string, c: char)
    ensures forall f :: f in Fields(s, c) ==> f != [] && Tight(f) && c !in f
  {
    SplitPartsLackSeparator(s, c);
    var parts := Split(s, c);
    forall f | f in Fields(s, c)
      ensures f != [] && Tight(f) && c !in f
    {
      NonEmptyMembers(TrimAll(parts), f);
      var k :| 0 <= k < |parts| && TrimAll(parts)[k] == f;
      TrimIsTight(parts[k]);
      TrimWithin(parts[k], c);
    }
  }

  lemma FieldsHead(x: char, s: string, c: char)
    requires IsSpace(x)
    ensures Fields([x] + s, c) == Fields(s, c)
  {
    if x == c {
      assert [x] + s == [] + [c] + s;
      FieldsAt([], c, s);
      FieldsWhole([], c);
    } else {
      var parts := Split(s, c);
      assert ([x] + s)[1..] == s;
      assert Split([x] + s, c) == [[x] + parts[0]] + parts[1..];
      TrimPadded([x], parts[0], []);
      assert [x] + parts[0] + [] == [x] + parts[0];
      assert ([[x] + parts[0]] + parts[1..])[1..] == parts[1..];
      assert TrimAll(Split([x] + s, c)) == TrimAll(parts);
    }
  }

  lemma {:induction false} FieldsLeading(a: string, s: string, c: char)
    requires AllSpace(a)
    ensures Fields(a + s, c) == Fields(s, c)
  {
    if a == [] {
      assert a + s == s;
    } else {
      FieldsLeading(a[1..], s, c);
      assert a + s == [a[0]] + (a[1..] + s);
      FieldsHead(a[0], a[1..] + s, c);
    }
  }

  /** A list of lines with one more character on the last line. */
  function OnLast(parts: seq<string>, x: char): seq<string>
    requires parts != []
  {
    parts[..|parts| - 1] + [parts[|parts| - 1] + [x]]
  }

  lemma OnLastLater(p: string, parts: seq<string>, x: char)
    requires parts != []
    ensures OnLast([p] + parts, x) == [p] + OnLast(parts, x)
  {
  }

  lemma {:induction false} SplitSnoc(s: string, x: char, c: char)
    requires x != c
    ensures Split(s + [x], c) == OnLast(Split(s, c), x)
  {
    if s == [] {
      var one := [x];
      assert s + one == one && one[1..] == [];
      var rest := Split(one[1..], c);
      assert rest == [[]] && [x] + rest[0] == [x];
    } else {
      assert (s + [x])[1..] == s[1..] + [x];
      SplitSnoc(s[1..], x, c);
      var p := Split(s[1..], c);
      if s[0] == c {
        OnLastLater([], p, x);
      } else if |p| == 1 {
        ConcatAssociates([s[0]], p[0], [x]);
        assert p == [p[0]];
      } else {
        assert p == [p[0]] + p[1..];
        OnLastLater(p[0], p[1..], x);
        OnLastLater([s[0]] + p[0], p[1..], x);
        assert ([p[0]] + OnLast(p[1..], x))[1..] == OnLast(p[1..], x);
      }
    }
  }

  lemma TrimAllOnLast(parts: seq<string>, x: char)
    requires parts != [] && IsSpace(x)
    ensures TrimAll(OnLast(parts, x)) == TrimAll(parts)
  {
    var l := parts[|parts| - 1];
    TrimPadded([], l, [x]);
    assert [] + l + [x] == l + [x];
    var p, q := TrimAll(OnLast(parts, x)), TrimAll(parts);
    forall i | 0 <= i < |q|
      ensures p[i] == q[i]
    {
    }
  }

  lemma FieldsTail(s: string, x: char, c: char)
    requires IsSpace(x)
    ensures Fields(s + [x], c) == Fields(s, c)
  {
    if x == c {
      assert s + [x] == s + [c] + [];
      FieldsAt(s, c, []);
      FieldsWhole([], c);
    } else {
      SplitSnoc(s, x, c);
      TrimAllOnLast(Split(s, c), x);
    }
  }

  lemma {:induction false} FieldsTrailing(s: string, b: string, c: char)
    requires AllSpace(b)
    ensures Fields(s + b, c) == Fields(s, c)
    decreases |b|
  {
    if b == [] {
      assert s + b == s;
    } else {
      assert s + b == (s + b[..|b| - 1]) + [b[|b| - 1]];
      FieldsTail(s + b[..|b| - 1], b[|b| - 1], c);
      FieldsTrailing(s, b[..|b| - 1], c);
    }
  }

  /** Trimming the whole text first does not change its fields. */
  lemma FieldsOfTrimmed(s: string, c: char)
    ensures Fields(Trim(s), c) == Fields(s, c)
  {
    var a, b := TrimSplits(s);
    FieldsTrailing(a + Trim(s), b, c);
    FieldsLeading(a, Trim(s), c);
  }

  /** The characters that are not white space. */
  function NonSpaces(s: string): string {
    if s == [] then []
    else if IsSpace(s[0]) then NonSpaces(s[1..])
    else [s[0]] + NonSpaces(s[1..])
  }

  // ---------- case ----------

  /** `toLowerCase`, on the characters whose lower-case form is an ASCII letter. */
  function LowerChar(c: char): char {
    if 'A' <= c <= 'Z' then c - 'A' + 'a'
    else if c == '\U{212A}' then 'k'
    else c
  }

  function LowerName(s: string): string {
    seq(|s|, i requires 0 <= i < |s| => LowerChar(s[i]))
  }

  // ---------- byte-order mark and line endings ----------

  function StripBom(s: string): string {
    if s != [] && s[0] == BOM then s[1..] else s
  }

  /** `replace(/\r\n/g, "\n")` */
  function NormCrlf(s: string): (r: string)
    ensures |r| <= |s|
  {
    if s == [] then []
    else if |s| >= 2 && s[0] == '\r' && s[1] == '\n' then ['\n'] + NormCrlf(s[2..])
    else [s[0]] + NormCrlf(s[1..])
  }

  predicate HasCrlf(s: string) {
    exists i :: 0 <= i < |s| - 1 && s[i] == '\r' && s[i + 1] == '\n'
  }

  lemma {:induction false} NormCrlfKeeps(s: string)
    requires !HasCrlf(s)
    ensures NormCrlf(s) == s
  {
    if s != [] {
      assert !HasCrlf(s[1..]) by {
        forall i | 0 <= i < |s[1..]| - 1
          ensures !(s[1..][i] == '\r' && s[1..][i + 1] == '\n')
        {
          assert s[1..][i] == s[i + 1] && s[1..][i + 1] == s[i + 1 + 1];
        }
      }
      NormCrlfKeeps(s[1..]);
      assert |s| >= 2 ==> s[0 + 1] == s[1];
      assert s == [s[0]] + s[1..];
    }
  }

  /** Line by line, the two texts differ at most in trailing space. */
  ghost predicate SameUpToTails(p: seq<string>, q: seq<string>) {
    |p| == |q| && forall i :: 0 <= i < |p| ==> TrimRight(p[i]) == TrimRight(q[i])
  }

  lemma {:induction false} NormCrlfRightTrimmed(s: string)
    ensures SameUpToTails(Split(NormCrlf(s), '\n'), Split(s, '\n'))
    decreases |s|
  {
    if s == [] {
    } else if |s| >= 2 && s[0] == '\r' && s[1] == '\n' {
      NormCrlfRightTrimmed(s[2..]);
      assert s == ['\r'] + ['\n'] + s[2..];
      SplitAfterCrlf(s[2..], NormCrlf(s[2..]));
    } else {
      NormCrlfRightTrimmed(s[1..]);
      assert NormCrlf(s)[1..] == NormCrlf(s[1..]);
      SplitAfterOther(s[0], NormCrlf(s[1..]), s[1..]);
      assert s == [s[0]] + s[1..];
    }
  }

  lemma SplitAfterCrlf(s: string, r: string)
    requires SameUpToTails(Split(r, '\n'), Split(s, '\n'))
    ensures SameUpToTails(Split(['\n'] + r, '\n'), Split(['\r'] + ['\n'] + s, '\n'))
  {
    SplitAt(['\r'], '\n', s);
    SplitWhole(['\r'], '\n');
    assert [] + ['\n'] + r == ['\n'] + r;
    SplitAt([], '\n', r);
    TrimRightUnique([], ['\r']);
    assert [] + ['\r'] == ['\r'];
  }

  lemma SplitAfterOther(x: char, r: string, s: string)
    requires SameUpToTails(Split(r, '\n'), Split(s, '\n'))
    ensures SameUpToTails(Split([x] + r, '\n'), Split([x] + s, '\n'))
  {
    var p, q := Split(r, '\n'), Split(s, '\n');
    assert ([x] + r)[1..] == r && ([x] + s)[1..] == s;
    if x != '\n' {
      TrimRightHead(x, p[0], q[0]);
    }
  }

  lemma TrimRightHead(x: char, p: string, q: string)
    requires TrimRight(p) == TrimRight(q)
    ensures TrimRight([x] + p) == TrimRight([x] + q)
  {
    assert ([x] + p)[1..] == p && ([x] + q)[1..] == q;
  }

  lemma TrimOfTrimRight(s: string)
    ensures Trim(TrimRight(s)) == Trim(s)
  {
    TrimRightSplits(s);
    var t := TrimRight(s);
    assert s == [] + t + s[|t|..];
    TrimPadded([], t, s[|t|..]);
  }

  /** A reader that trims its lines cannot tell CR LF from LF. */
  lemma ContentLinesOfNormCrlf(s: string)
    ensures ContentLines(NormCrlf(s)) == ContentLines(s)
  {
    NormCrlfRightTrimmed(s);
    var p, q := Split(NormCrlf(s), '\n'), Split(s, '\n');
    forall i | 0 <= i < |p|
      ensures Trim(p[i]) == Trim(q[i])
    {
      TrimOfTrimRight(p[i]);
      TrimOfTrimRight(q[i]);
    }
    assert TrimAll(p) == TrimAll(q);
  }

  // ---------- decimal numbers ----------

  predicate IsDigit(c: char) {
    '0' <= c <= '9'
  }

  function DigitValue(c: char): (d: nat)
    requires IsDigit(c)
    ensures d <= 9
  {
    (c as int) - ('0' as int)
  }

  function DigitChar(d: nat): (c: char)
    requires d <= 9
    ensures IsDigit(c) && DigitValue(c) == d
  {
    (d + '0' as int) as char
  }

  /** The decimal numeral of a natural number, without leading zeros. */
  function Numeral(n: nat): (s: string)
    ensures s != [] && forall i :: 0 <= i < |s| ==> IsDigit(s[i])
  {
    if n < 10 then [DigitChar(n)] else Numeral(n / 10) + [DigitChar(n % 10)]
  }

  /** The value of a string of digits. */
  function NumeralValue(s: string): nat
    requires forall i :: 0 <= i < |s| ==> IsDigit(s[i])
  {
    if s == [] then 0 else NumeralValue(s[..|s| - 1]) * 10 + DigitValue(s[|s| - 1])
  }

  lemma {:induction false} NumeralRoundTrip(n: nat)
    ensures NumeralValue(Numeral(n)) == n
  {
    var s := Numeral(n);
    if n >= 10 {
      NumeralRoundTrip(n / 10);
      assert s[..|s| - 1] == Numeral(n / 10);
    } else {
      assert s[..|s| - 1] == [];
    }
  }

  function DigitRun(s: string): (n: nat)
    ensures n <= |s| && forall i :: 0 <= i < n ==> IsDigit(s[i])
    ensures n < |s| ==> !IsDigit(s[n])
  {
    if s != [] && IsDigit(s[0]) then 1 + DigitRun(s[1..]) else 0
  }

  /** `Number.parseInt(s, 10)`: leading space and a sign are allowed, a tail is ignored; `None` is NaN. */
  function ParseInt(s: string): Option<int> {
    var t := TrimLeft(s);
    var negative := t != [] && t[0] == '-';
    var u := if t != [] && (t[0] == '-' || t[0] == '+') then t[1..] else t;
    var n := DigitRun(u);
    if n == 0 then None else
      var v: int := NumeralValue(u[..n]);
      Some(if negative then -v else v)
  }

  lemma ParseIntOfNumeral(n: nat)
    ensures ParseInt(Numeral(n)) == Some(n)
  {
    var s := Numeral(n);
    assert IsDigit(s[0]) && !IsSpace(s[0]);
    assert TrimLeft(s) == s;
    assert DigitRun(s) == |s|;
    assert s[..|s|] == s;
    NumeralRoundTrip(n);
  }

  lemma {:induction false} DigitRunOf(digits: string, tail: string)
    requires (forall i :: 0 <= i < |digits| ==> IsDigit(digits[i])) && (tail != "" ==> !IsDigit(tail[0]))
    ensures DigitRun(digits + tail) == |digits|
  {
    if digits == [] {
      assert digits + tail == tail;
    } else {
      assert (digits + tail)[1..] == digits[1..] + tail;
      DigitRunOf(digits[1..], tail);
    }
  }

  lemma NumeralLacks(n: nat, c: char)
    requires !IsDigit(c)
    ensures c !in Numeral(n)
  {
    var s := Numeral(n);
    assert forall i :: 0 <= i < |s| ==> IsDigit(s[i]);
  }

  /** A numeral is tight and holds nothing but digits. */
  lemma NumeralIsTight(n: nat)
    ensures Tight(Numeral(n))
  {
    var s := Numeral(n);
    assert IsDigit(s[0]) && IsDigit(s[|s| - 1]);
  }

  lemma {:induction false} NumeralInjective(m: nat, n: nat)
    requires Numeral(m) == Numeral(n)
    ensures m == n
  {
    NumeralRoundTrip(m);
    NumeralRoundTrip(n);
  }

  function Pow10(k: nat): (p: nat)
    ensures p > 0
  {
    if k == 0 then 1 else 10 * Pow10(k - 1)
  }

  /** A number below a power of ten has no more digits than that power has zeros. */
  lemma {:induction false} NumeralLength(n: nat, k: nat)
    requires k > 0 && n < Pow10(k)
    ensures |Numeral(n)| <= k
  {
    if n >= 10 {
      assert k > 1;
      NumeralLength(n / 10, k - 1);
    }
  }

  function Min(a: int, b: int): int {
    if a < b then a else b
  }

  function Max(a: int, b: int): int {
    if a > b then a else b
  }

  // ---------- first appearances ----------

  /** The elements in the order in which a `Set` first takes them. */
  function Unique<T(==,!new)>(s: seq<T>): (r: seq<T>)
    ensures forall x :: x in r <==> x in s
  {
    if s == [] then []
    else
      var n := |s| - 1;
      assert s == s[..n] + [s[n]];
      var early := Unique(s[..n]);
      if s[n] in early then early else early + [s[n]]
  }

  ghost predicate NoRepeats<T>(s: seq<T>) {
    forall i, j :: 0 <= i < j < |s| ==> s[i] != s[j]
  }

  lemma {:induction false} UniqueHasNoRepeats<T(!new)>(s: seq<T>)
    ensures NoRepeats(Unique(s))
    decreases |s|
  {
    if s != [] {
      UniqueHasNoRepeats(s[..|s| - 1]);
    }
  }

  lemma UniqueSnoc<T(!new)>(s: seq<T>, x: T)
    ensures Unique(s + [x]) == if x in s then Unique(s) else Unique(s) + [x]
  {
    assert (s + [x])[..|s|] == s;
  }
}
