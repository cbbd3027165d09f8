/** The order of template versions in `lib/lxc-templates.ts`. */
module TemplateVersions {
  import opened Text

  // ---------- the fields of a version ----------

  /** Both separators count alike: `split(/[.-]/)`. */
  function Dotted(s: string): string {
    seq(|s|, i requires 0 <= i < |s| => if s[i] == '-' then '.' else s[i])
  }

  /** `Number.parseInt(n, 10) || 0` on every field */
  function Numbers(fields: seq<string>): (p: seq<int>)
    ensures |p| == |fields|
  {
    seq(|fields|, i requires 0 <= i < |fields| => ParseInt(fields[i]).GetOr(0))
  }

  function Parts(version: string): seq<int> {
    Numbers(Split(Dotted(Trim(version)), '.'))
  }

  /** Missing fields count as zero. */
  function At(p: seq<int>, i: nat): int {
    if i < |p| then p[i] else 0
  }

  // ---------- comparing ----------

  function CompareFrom(p: seq<int>, q: seq<int>, i: nat): int
    decreases Max(|p|, |q|) - i
  {
    if i >= Max(|p|, |q|) then 0
    else if At(p, i) != At(q, i) then At(p, i) - At(q, i)
    else CompareFrom(p, q, i + 1)
  }

  function Compare(a: string, b: string): int {
    CompareFrom(Parts(a), Parts(b), 0)
  }

  method CompareTemplateVersion(a: string, b: string) returns (r: int)
    ensures r == Compare(a, b)
  {
    var pa := Parts(a);
    var pb := Parts(b);
    var len := Max(|pa|, |pb|);
    for i := 0 to len
      invariant CompareFrom(pa, pb, i) == CompareFrom(pa, pb, 0)
    {
      var da := At(pa, i);
      var db := At(pb, i);
      if da != db {
        return da - db;
      }
    }
    return 0;
  }

  /** The first place where the two differ. */
  ghost predicate FirstDifference(p: seq<int>, q: seq<int>, i: nat) {
    At(p, i) != At(q, i) && forall j: nat :: j < i ==> At(p, j) == At(q, j)
  }

  ghost predicate SameFields(p: seq<int>, q: seq<int>) {
    forall i: nat :: At(p, i) == At(q, i)
  }

  lemma {:induction false} CompareFromAt(p: seq<int>, q: seq<int>, i: nat, d: nat)
    requires FirstDifference(p, q, d) && i <= d
    ensures CompareFrom(p, q, i) == At(p, d) - At(q, d)
    decreases d - i
  {
    if i < d {
      CompareFromAt(p, q, i + 1, d);
    }
  }

  lemma {:induction false} CompareFromSame(p: seq<int>, q: seq<int>, i: nat)
    requires SameFields(p, q)
    ensures CompareFrom(p, q, i) == 0
    decreases Max(|p|, |q|) - i
  {
    if i < Max(|p|, |q|) {
      CompareFromSame(p, q, i + 1);
    }
  }

  /** Either the two agree in every field or there is a first difference. */
  lemma {:induction false} SameOrDifferent(p: seq<int>, q: seq<int>, i: nat) returns (d: nat)
    requires forall j: nat :: j < i ==> At(p, j) == At(q, j)
    ensures SameFields(p, q) || FirstDifference(p, q, d)
    decreases Max(|p|, |q|) - i
  {
    d := i;
    if i < Max(|p|, |q|) && At(p, i) == At(q, i) {
      d := SameOrDifferent(p, q, i + 1);
    }
  }

  /** Zero is the answer just for versions whose fields agree after padding with zeros. */
  lemma CompareZeroIff(a: string, b: string)
    ensures Compare(a, b) == 0 <==> SameFields(Parts(a), Parts(b))
  {
    var d := SameOrDifferent(Parts(a), Parts(b), 0);
    if SameFields(Parts(a), Parts(b)) {
      CompareFromSame(Parts(a), Parts(b), 0);
    } else {
      CompareFromAt(Parts(a), Parts(b), 0, d);
    }
  }

  /** Otherwise the first field that differs decides. */
  lemma CompareDecides(a: string, b: string)
    requires Compare(a, b) != 0
    ensures exists d :: FirstDifference(Parts(a), Parts(b), d) && Compare(a, b) == At(Parts(a), d) - At(Parts(b), d)
  {
    CompareZeroIff(a, b);
    var d := SameOrDifferent(Parts(a), Parts(b), 0);
    CompareFromAt(Parts(a), Parts(b), 0, d);
  }

  // ---------- a total preorder ----------

  lemma CompareAntisymmetric(a: string, b: string)
    ensures Compare(a, b) == -Compare(b, a)
  {
    CompareZeroIff(a, b);
    CompareZeroIff(b, a);
    var d := SameOrDifferent(Parts(a), Parts(b), 0);
    if FirstDifference(Parts(a), Parts(b), d) {
      CompareFromAt(Parts(a), Parts(b), 0, d);
      CompareFromAt(Parts(b), Parts(a), 0, d);
    }
  }

  lemma FirstDifferenceOfThree(p: seq<int>, q: seq<int>, r: seq<int>, d: nat, e: nat)
    requires FirstDifference(p, q, d) && FirstDifference(q, r, e)
    requires At(p, d) < At(q, d) && At(q, e) < At(r, e)
    ensures CompareFrom(p, r, 0) < 0
  {
    var m := if d <= e then d else e;
    assert FirstDifference(p, r, m);
    CompareFromAt(p, r, 0, m);
  }

  lemma SameFieldsCompareAlike(p: seq<int>, q: seq<int>, r: seq<int>)
    requires SameFields(p, q)
    ensures CompareFrom(p, r, 0) == CompareFrom(q, r, 0) && CompareFrom(r, p, 0) == CompareFrom(r, q, 0)
  {
    var d := SameOrDifferent(p, r, 0);
    if SameFields(p, r) {
      CompareFromSame(p, r, 0);
      CompareFromSame(q, r, 0);
      CompareFromSame(r, p, 0);
      CompareFromSame(r, q, 0);
    } else {
      CompareFromAt(p, r, 0, d);
      CompareFromAt(q, r, 0, d);
      CompareFromAt(r, p, 0, d);
      CompareFromAt(r, q, 0, d);
    }
  }

  /** At most as new: transitive whatever the number of fields. */
  lemma CompareTransitive(a: string, b: string, c: string)
    requires Compare(a, b) <= 0 && Compare(b, c) <= 0
    ensures Compare(a, c) <= 0
    ensures Compare(a, b) < 0 || Compare(b, c) < 0 ==> Compare(a, c) < 0
  {
    var p, q, r := Parts(a), Parts(b), Parts(c);
    CompareZeroIff(a, b);
    CompareZeroIff(b, c);
    var d := SameOrDifferent(p, q, 0);
    var e := SameOrDifferent(q, r, 0);
    if SameFields(p, q) {
      SameFieldsCompareAlike(p, q, r);
    } else if SameFields(q, r) {
      SameFieldsCompareAlike(q, r, p);
    } else {
      CompareFromAt(p, q, 0, d);
      CompareFromAt(q, r, 0, e);
      FirstDifferenceOfThree(p, q, r, d, e);
    }
  }
}
