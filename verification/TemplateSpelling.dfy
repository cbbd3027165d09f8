/** How the versions that people write are compared (`lib/lxc-templates.ts`). */
module TemplateSpelling {
  import opened Text
  import opened TemplateVersions

  /** A field that starts with a number, or one that does not. */
  datatype Field = Number(n: nat, tail: string) | Word(text: string)

  predicate Plain(s: string) {
    forall i :: 0 <= i < |s| ==> !IsSpace(s[i]) && s[i] != '.' && s[i] != '-'
  }

  predicate IsField(f: Field) {
    match f
    case Number(_, tail) => Plain(tail) && (tail != "" ==> !IsDigit(tail[0]))
    case Word(text) => Plain(text) && (text != "" ==> !IsDigit(text[0]) && text[0] != '+')
  }

  /** A field counts as the number it starts with, and as zero without one. */
  function Worth(f: Field): nat {
    match f
    case Number(n, _) => n
    case Word(_) => 0
  }

  function FieldText(f: Field): string {
    match f
    case Number(n, tail) => Numeral(n) + tail
    case Word(text) => text
  }

  /** A version: fields, and between any two of them a dot or a hyphen. */
  ghost predicate IsVersion(fields: seq<Field>, between: string) {
    && |fields| == |between| + 1
    && (forall f :: f in fields ==> IsField(f))
    && forall i :: 0 <= i < |between| ==> between[i] == '.' || between[i] == '-'
  }

  function Spelled(fields: seq<Field>, between: string): string
    requires |fields| == |between| + 1
  {
    if between == "" then FieldText(fields[0])
    else FieldText(fields[0]) + [between[0]] + Spelled(fields[1..], between[1..])
  }

  /** The number at place i, and zero behind the last. */
  function WorthAt(fields: seq<Field>, i: nat): int {
    if i < |fields| then Worth(fields[i]) else 0
  }

  // ---------- reading a field ----------

  lemma NumberIsRead(n: nat, tail: string)
    requires tail != "" ==> !IsDigit(tail[0])
    ensures ParseInt(Numeral(n) + tail) == Some(n)
  {
    var digits := Numeral(n);
    var s := digits + tail;
    assert IsDigit(s[0]) && !IsSpace(s[0]);
    assert TrimLeft(s) == s;
    DigitRunOf(digits, tail);
    assert s[..|digits|] == digits;
    NumeralRoundTrip(n);
  }

  lemma WordIsNone(text: string)
    requires Plain(text) && (text != "" ==> !IsDigit(text[0]) && text[0] != '+')
    ensures ParseInt(text) == None
  {
    assert TrimLeft(text) == text;
  }

  lemma FieldIsRead(f: Field)
    requires IsField(f)
    ensures ParseInt(FieldText(f)).GetOr(0) == Worth(f)
  {
    match f
    case Number(n, tail) => NumberIsRead(n, tail);
    case Word(text) => WordIsNone(text);
  }

  lemma FieldIsPlain(f: Field)
    requires IsField(f)
    ensures Plain(FieldText(f))
  {
    if f.Number? {
      var digits := Numeral(f.n);
      assert forall i :: 0 <= i < |digits| ==> IsDigit(digits[i]);
    }
  }

  // ---------- reading a version ----------

  function Texts(fields: seq<Field>): seq<string> {
    seq(|fields|, i requires 0 <= i < |fields| => FieldText(fields[i]))
  }

  lemma {:induction false} DottedPlain(s: string)
    requires Plain(s)
    ensures Dotted(s) == s
  {
  }

  lemma DottedConcat(a: string, c: char, b: string)
    requires c == '.' || c == '-'
    ensures Dotted(a + [c] + b) == Dotted(a) + ['.'] + Dotted(b)
  {
  }

  ghost predicate SpaceFree(s: string) {
    forall i :: 0 <= i < |s| ==> !IsSpace(s[i])
  }

  lemma SpaceFreeConcat(a: string, c: char, b: string)
    requires SpaceFree(a) && SpaceFree(b) && !IsSpace(c)
    ensures SpaceFree(a + [c] + b)
  {
  }

  lemma {:induction false} SpelledDotted(fields: seq<Field>, between: string)
    requires IsVersion(fields, between)
    ensures Dotted(Spelled(fields, between)) == Join(Texts(fields), ".") && SpaceFree(Spelled(fields, between))
    decreases |between|
  {
    var head := FieldText(fields[0]);
    assert fields[0] in fields;
    FieldIsPlain(fields[0]);
    DottedPlain(head);
    if between == "" {
      assert Texts(fields) == [head];
    } else {
      var rest := Spelled(fields[1..], between[1..]);
      assert forall f :: f in fields[1..] ==> f in fields;
      SpelledDotted(fields[1..], between[1..]);
      DottedConcat(head, between[0], rest);
      SpaceFreeConcat(head, between[0], rest);
      assert Texts(fields)[1..] == Texts(fields[1..]);
    }
  }

  lemma SpaceFreeIsTrimmed(s: string)
    requires SpaceFree(s)
    ensures Trim(s) == s
  {
    TightIsTrimmed(s);
  }

  /** A version is read as the numbers of its fields. */
  lemma SpelledIsRead(fields: seq<Field>, between: string)
    requires IsVersion(fields, between)
    ensures |Parts(Spelled(fields, between))| == |fields|
    ensures forall i :: 0 <= i < |fields| ==> Parts(Spelled(fields, between))[i] == Worth(fields[i])
  {
    var s, texts := Spelled(fields, between), Texts(fields);
    SpelledDotted(fields, between);
    SpaceFreeIsTrimmed(s);
    forall i | 0 <= i < |texts|
      ensures '.' !in texts[i] && ParseInt(texts[i]).GetOr(0) == Worth(fields[i])
    {
      assert fields[i] in fields;
      FieldIsPlain(fields[i]);
      FieldIsRead(fields[i]);
    }
    SplitOfJoin(texts, '.');
  }

  /**
    Two versions are compared number by number, whichever of dot and hyphen separates them, the shorter one
    filled up with zeros: the first difference is the answer, and without any the answer is zero.
  */
  lemma SpelledAreCompared(f: seq<Field>, between: string, g: seq<Field>, among: string)
    requires IsVersion(f, between) && IsVersion(g, among)
    ensures forall d: nat ::
              WorthAt(f, d) != WorthAt(g, d) && (forall j: nat :: j < d ==> WorthAt(f, j) == WorthAt(g, j)) ==>
              Compare(Spelled(f, between), Spelled(g, among)) == WorthAt(f, d) - WorthAt(g, d)
    ensures (forall j: nat :: WorthAt(f, j) == WorthAt(g, j)) ==> Compare(Spelled(f, between), Spelled(g, among)) == 0
  {
    var p, q := Parts(Spelled(f, between)), Parts(Spelled(g, among));
    SpelledIsRead(f, between);
    SpelledIsRead(g, among);
    assert forall i: nat :: At(p, i) == WorthAt(f, i) && At(q, i) == WorthAt(g, i);
    forall d: nat | WorthAt(f, d) != WorthAt(g, d) && forall j: nat :: j < d ==> WorthAt(f, j) == WorthAt(g, j)
      ensures CompareFrom(p, q, 0) == WorthAt(f, d) - WorthAt(g, d)
    {
      assert FirstDifference(p, q, d);
      CompareFromAt(p, q, 0, d);
    }
    if forall j: nat :: WorthAt(f, j) == WorthAt(g, j) {
      CompareFromSame(p, q, 0);
    }
  }
}
