/** The ids of suite apps and the list they live in (`lib/suite-embeds.ts`). */
module SuiteIds {
  import opened Text

  // ---------- well-formed ids ----------

  predicate IsAlnum(c: char) {
    'a' <= c <= 'z' || '0' <= c <= '9'
  }

  predicate IsIdChar(c: char) {
    IsAlnum(c) || c == '-'
  }

  /** `/^[a-z0-9](?:[a-z0-9-]{0,38}[a-z0-9])?$/` */
  predicate IsId(s: string) {
    1 <= |s| <= 40 && IsAlnum(s[0]) && IsAlnum(s[|s| - 1]) && forall i :: 0 <= i < |s| ==> IsIdChar(s[i])
  }

  // ---------- the base of an id ----------

  /** `replace(/[^a-z0-9]+/g, "-")`; `inRun` says that the run has already been replaced. */
  function Dashed(s: string, inRun: bool): string {
    if s == [] then []
    else if IsAlnum(s[0]) then [s[0]] + Dashed(s[1..], false)
    else if inRun then Dashed(s[1..], true)
    else ['-'] + Dashed(s[1..], true)
  }

  function DropLeadingDashes(s: string): string {
    if s != [] && s[0] == '-' then DropLeadingDashes(s[1..]) else s
  }

  function DropTrailingDashes(s: string): (r: string)
    ensures r <= s && (r != [] ==> r[|r| - 1] != '-')
  {
    if s != [] && s[|s| - 1] == '-' then DropTrailingDashes(s[..|s| - 1]) else s
  }

  function Take(s: string, n: nat): string {
    if |s| <= n then s else s[..n]
  }

  /** From the name after `normalize("NFKD")`, removal of combining marks and `toLowerCase()`. */
  function Base(folded: string): string {
    DropTrailingDashes(Take(DropTrailingDashes(DropLeadingDashes(Dashed(folded, false))), 40))
  }

  function Root(folded: string): string {
    if Base(folded) == "" then "app" else Base(folded)
  }

  ghost predicate AllIdChars(s: string) {
    forall i :: 0 <= i < |s| ==> IsIdChar(s[i])
  }

  lemma {:induction false} DashedChars(s: string, inRun: bool)
    ensures AllIdChars(Dashed(s, inRun))
  {
    if s != [] {
      DashedChars(s[1..], !IsAlnum(s[0]));
    }
  }

  lemma {:induction false} DropLeadingShape(s: string)
    requires AllIdChars(s)
    ensures var r := DropLeadingDashes(s); AllIdChars(r) && (r != [] ==> IsAlnum(r[0]))
  {
    if s != [] && s[0] == '-' {
      DropLeadingShape(s[1..]);
    }
  }

  lemma RootIsId(folded: string)
    ensures IsId(Root(folded))
  {
    var d := Dashed(folded, false);
    DashedChars(folded, false);
    DropLeadingShape(d);
    var l := DropLeadingDashes(d);
    var t := Take(DropTrailingDashes(l), 40);
    assert t <= l;
    var b := Base(folded);
    assert b <= l;
    assert forall i :: 0 <= i < |b| ==> b[i] == l[i];
  }

  // ---------- candidates ----------

  /** JavaScript counts exactly up to here. */
  const MAX_SAFE: nat := 9007199254740991

  function Suffix(n: nat): string {
    "-" + Numeral(n)
  }

  lemma SuffixFits(n: nat)
    requires n <= MAX_SAFE
    ensures |Suffix(n)| <= 17
  {
    assert Pow10(4) == 10000;
    assert Pow10(8) == 1_0000_0000;
    assert Pow10(12) == 1_0000_0000_0000;
    assert Pow10(16) == 1_0000_0000_0000_0000;
    NumeralLength(n, 16);
  }

  /** The root, then the root cut short with -2, -3 and so on. */
  function Candidate(root: string, n: nat): string
    requires n <= MAX_SAFE
  {
    SuffixFits(n);
    if n < 2 then root else Take(root, 40 - |Suffix(n)|) + Suffix(n)
  }

  lemma CandidateIsId(root: string, n: nat)
    requires IsId(root) && n <= MAX_SAFE
    ensures IsId(Candidate(root, n))
  {
    SuffixFits(n);
    if n >= 2 {
      var t, s := Take(root, 40 - |Suffix(n)|), Suffix(n);
      forall i | 0 <= i < |t + s|
        ensures IsIdChar((t + s)[i])
      {
        assert i >= |t| ==> (t + s)[i] == s[i - |t|];
      }
    }
  }

  /** The text behind the last dash. */
  function AfterDash(s: string): string {
    if s == [] || s[|s| - 1] == '-' then [] else AfterDash(s[..|s| - 1]) + [s[|s| - 1]]
  }

  lemma {:induction false} AfterDashOf(a: string, b: string)
    requires '-' !in b
    ensures AfterDash(a + "-" + b) == b
  {
    var s := a + "-" + b;
    if b != [] {
      assert s[..|s| - 1] == a + "-" + b[..|b| - 1];
      AfterDashOf(a, b[..|b| - 1]);
    }
  }

  /** Numbered candidates differ; only the bare root can coincide with one of them. */
  lemma CandidatesDiffer(root: string, m: nat, n: nat)
    requires 2 <= m <= MAX_SAFE && 2 <= n <= MAX_SAFE && Candidate(root, m) == Candidate(root, n)
    ensures m == n
  {
    SuffixFits(m);
    SuffixFits(n);
    var a, b := Take(root, 40 - |Suffix(m)|), Take(root, 40 - |Suffix(n)|);
    assert Candidate(root, m) == a + "-" + Numeral(m);
    assert Candidate(root, n) == b + "-" + Numeral(n);
    AfterDashOf(a, Numeral(m));
    AfterDashOf(b, Numeral(n));
    NumeralInjective(m, n);
  }

  /** The candidates numbered 2 to k. */
  function Numbered(root: string, k: nat): set<string>
    requires k <= MAX_SAFE
  {
    if k < 2 then {} else Numbered(root, k - 1) + {Candidate(root, k)}
  }

  lemma {:induction false} NumberedMembers(root: string, k: nat, c: string)
    requires k <= MAX_SAFE && c in Numbered(root, k)
    ensures exists n :: 2 <= n <= k && c == Candidate(root, n)
  {
    if c != Candidate(root, k) {
      NumberedMembers(root, k - 1, c);
    }
  }

  lemma {:induction false} NumberedSize(root: string, k: nat)
    requires 1 <= k <= MAX_SAFE
    ensures |Numbered(root, k)| == k - 1
  {
    if k >= 2 {
      NumberedSize(root, k - 1);
      if Candidate(root, k) in Numbered(root, k - 1) {
        NumberedMembers(root, k - 1, Candidate(root, k));
        var n :| 2 <= n <= k - 1 && Candidate(root, k) == Candidate(root, n);
        CandidatesDiffer(root, k, n);
      }
    }
  }

  lemma {:induction false} SubsetSize<T>(a: set<T>, b: set<T>)
    requires a <= b
    ensures |a| <= |b|
  {
    if a != {} {
      var x :| x in a;
      SubsetSize(a - {x}, b - {x});
    }
  }

  /** If the candidates numbered 2 to k are all taken, there are at least k - 1 ids. */
  lemma Pigeonhole(root: string, k: nat, taken: set<string>)
    requires 1 <= k <= MAX_SAFE
    requires forall n :: 2 <= n <= k ==> Candidate(root, n) in taken
    ensures k - 1 <= |taken|
  {
    NumberedSize(root, k);
    forall c | c in Numbered(root, k)
      ensures c in taken
    {
      NumberedMembers(root, k, c);
    }
    SubsetSize(Numbered(root, k), taken);
  }

  // ---------- the allocator ----------

  ghost predicate AllTaken(root: string, taken: set<string>, k: nat) {
    k <= MAX_SAFE && forall n :: 1 <= n <= k ==> Candidate(root, n) in taken
  }

  /** After k candidates that are all taken there is a next one, and it is well formed. */
  lemma NextCandidate(root: string, taken: set<string>, k: nat)
    requires IsId(root) && |taken| + 2 <= MAX_SAFE && k >= 1 && AllTaken(root, taken, k)
    ensures k <= |taken| + 1 && IsId(Candidate(root, k + 1))
    ensures |Suffix(k + 1)| <= 17
    ensures Candidate(root, k + 1) == Take(root, 40 - |Suffix(k + 1)|) + Suffix(k + 1)
  {
    Pigeonhole(root, k, taken);
    SuffixFits(k + 1);
    CandidateIsId(root, k + 1);
  }

  /** The number of the first free candidate, when those before k are taken. */
  function FirstFree(root: string, taken: set<string>, k: nat): (n: nat)
    requires IsId(root) && |taken| + 2 <= MAX_SAFE && 1 <= k <= |taken| + 2 && AllTaken(root, taken, k - 1)
    ensures k <= n <= |taken| + 2
    ensures Candidate(root, n) !in taken && AllTaken(root, taken, n - 1)
    decreases |taken| + 3 - k
  {
    if Candidate(root, k) !in taken then k
    else
      NextCandidate(root, taken, k);
      FirstFree(root, taken, k + 1)
  }

  lemma FirstFreeIs(root: string, taken: set<string>, k: nat)
    requires IsId(root) && |taken| + 2 <= MAX_SAFE && 1 <= k <= |taken| + 2
    requires AllTaken(root, taken, k - 1) && Candidate(root, k) !in taken
    ensures FirstFree(root, taken, 1) == k
  {
    var _ := FirstFree(root, taken, 1);
  }

  /** The id that a name gets: the first candidate that is free. */
  function FreshId(folded: string, taken: set<string>): (id: string)
    requires |taken| + 2 <= MAX_SAFE
    ensures IsId(id) && id !in taken
  {
    RootIsId(folded);
    var n := FirstFree(Root(folded), taken, 1);
    CandidateIsId(Root(folded), n);
    Candidate(Root(folded), n)
  }

  /** Adds the new id to the ids taken; the loop tries at most |taken| + 2 candidates. */
  method SuiteAppId(folded: string, taken: set<string>) returns (id: string, taken': set<string>)
    requires |taken| + 2 <= MAX_SAFE
    ensures id == FreshId(folded, taken) && taken' == taken + {id}
  {
    var root := Root(folded);
    RootIsId(folded);
    id := root;
    var next: nat := 2;
    while id in taken || !IsId(id)
      invariant 2 <= next <= |taken| + 3
      invariant IsId(id) && id == Candidate(root, next - 1) && AllTaken(root, taken, next - 2)
      decreases |taken| + 3 - next
    {
      assert AllTaken(root, taken, next - 1);
      NextCandidate(root, taken, next - 1);
      var suffix := Suffix(next);
      id := Take(root, 40 - |suffix|) + suffix;
      next := next + 1;
    }
    FirstFreeIs(root, taken, next - 1);
    taken' := taken + {id};
  }

  // ---------- how many candidates are tried ----------

  /** The root has full length and ends like the candidate with this number. */
  predicate EndsNumbered(root: string, n: nat) {
    |root| == 40 && |Suffix(n)| <= 40 && root[40 - |Suffix(n)|..] == Suffix(n)
  }

  /** The bare root is a numbered candidate just when it has 40 characters and ends in that number. */
  lemma RootIsCandidateIff(root: string, n: nat)
    requires IsId(root) && 2 <= n <= MAX_SAFE
    ensures Candidate(root, n) == root <==> EndsNumbered(root, n)
  {
    SuffixFits(n);
    var s := Suffix(n);
    if |root| == 40 {
      assert root == root[..40 - |s|] + root[40 - |s|..];
      assert Candidate(root, n)[40 - |s|..] == s;
    }
  }

  lemma FullSubset<T>(a: set<T>, b: set<T>)
    requires a <= b && |a| == |b|
    ensures a == b
  {
    if x :| x in b && x !in a {
      SubsetSize(a + {x}, b);
    }
  }

  lemma NumberedTaken(root: string, taken: set<string>, k: nat)
    requires 1 <= k <= MAX_SAFE && AllTaken(root, taken, k)
    ensures Numbered(root, k) <= taken && root in taken
  {
    assert Candidate(root, 1) == root;
    forall c | c in Numbered(root, k)
      ensures c in taken
    {
      NumberedMembers(root, k, c);
    }
  }

  lemma {:induction false} NumberedHolds(root: string, k: nat, n: nat)
    requires 2 <= n <= k <= MAX_SAFE
    ensures Candidate(root, n) in Numbered(root, k)
  {
    if n < k {
      NumberedHolds(root, k - 1, n);
    }
  }

  lemma NumberedAreTaken(root: string, n: nat, k: nat)
    requires IsId(root) && 2 <= n <= k <= MAX_SAFE && EndsNumbered(root, n)
    ensures AllTaken(root, Numbered(root, k), k)
  {
    RootIsCandidateIff(root, n);
    forall m | 1 <= m <= k
      ensures Candidate(root, m) in Numbered(root, k)
    {
      NumberedHolds(root, k, if m == 1 then n else m);
    }
  }

  /**
    One candidate more than the ids taken and one is tried just when the ids taken are the numbered
    candidates up to there and the root is among them.
  */
  lemma OneMoreIff(root: string, taken: set<string>)
    requires IsId(root) && |taken| + 2 <= MAX_SAFE
    ensures FirstFree(root, taken, 1) == |taken| + 2 <==>
      taken == Numbered(root, |taken| + 1) && exists n :: 2 <= n <= |taken| + 1 && EndsNumbered(root, n)
  {
    var k := |taken| + 1;
    if FirstFree(root, taken, 1) == k + 1 {
      NumberedTaken(root, taken, k);
      NumberedSize(root, k);
      FullSubset(Numbered(root, k), taken);
      NumberedMembers(root, k, root);
      var n :| 2 <= n <= k && root == Candidate(root, n);
      RootIsCandidateIff(root, n);
    }
    if taken == Numbered(root, k) && exists n :: 2 <= n <= k && EndsNumbered(root, n) {
      var n :| 2 <= n <= k && EndsNumbered(root, n);
      NumberedAreTaken(root, n, k);
    }
  }

  /** The ids taken and one candidate more always suffice. */
  ghost predicate OneMoreSuffices(root: string)
    requires IsId(root)
  {
    forall taken: set<string> :: |taken| + 2 <= MAX_SAFE ==> FirstFree(root, taken, 1) <= |taken| + 1
  }

  /** So that many suffice for exactly the roots that are not 40 characters long with a number at the end. */
  lemma OneMoreSufficesIff(root: string)
    requires IsId(root)
    ensures OneMoreSuffices(root) <==> forall n :: 2 <= n < MAX_SAFE ==> !EndsNumbered(root, n)
  {
    if n :| 2 <= n < MAX_SAFE && EndsNumbered(root, n) {
      var taken := Numbered(root, n);
      NumberedSize(root, n);
      OneMoreIff(root, taken);
      assert FirstFree(root, taken, 1) == |taken| + 2;
    } else {
      forall taken: set<string> | |taken| + 2 <= MAX_SAFE
        ensures FirstFree(root, taken, 1) <= |taken| + 1
      {
        OneMoreIff(root, taken);
      }
    }
  }

  /** Such a root: with itself as the only id taken, the third candidate is the first free one. */
  lemma BoundIsReached()
    ensures var root := seq(38, _ => 'a') + "-2";
            IsId(root) && AllTaken(root, {root}, 2) && FirstFree(root, {root}, 1) == 3
  {
    var root := seq(38, _ => 'a') + "-2";
    assert Numeral(2) == "2" && Numeral(3) == "3";
    assert |Suffix(2)| == 2 && Suffix(2) == "-2" && Suffix(3) == "-3";
    assert Take(root, 38) == seq(38, _ => 'a');
    assert Candidate(root, 1) == root && Candidate(root, 2) == root;
    assert Candidate(root, 3)[39] == '3' && root[39] == '2';
  }
}
