/**
  Formatting markup twice is formatting it once, except when a token printed as it stands
  holds CR LF. The proof re-reads the printed text and finds the items it was printed from.
*/
module MarkupIdempotence {
  import opened Text
  import opened MarkupFormat
  import opened MarkupConservation

  // ---------- where no tag can start ----------

  /** A '<' at position i starts no tag, given whether a '>' follows the text somewhere. */
  ghost predicate OpensNothing(s: string, i: nat, gtFollows: bool)
    requires i < |s|
  {
    s[i] == '<' ==>
      || (i + 1 < |s| && s[i + 1] == '>')
      || (!gtFollows && '>' !in s[i + 1..])
  }

  ghost predicate NoTag(s: string, gtFollows: bool) {
    forall i :: 0 <= i < |s| ==> OpensNothing(s, i, gtFollows)
  }

  lemma InTail(s: string, i: nat, c: char)
    requires i <= |s|
    ensures c in s[i..] <==> exists j :: i <= j < |s| && s[j] == c
  {
    if c in s[i..] {
      var k :| 0 <= k < |s[i..]| && s[i..][k] == c;
      assert s[i + k] == c;
    }
    if exists j :: i <= j < |s| && s[j] == c {
      var j :| i <= j < |s| && s[j] == c;
      assert s[i..][j - i] == c;
    }
  }

  /** No tag in a concatenation: none in its parts, each seen with what follows it. */
  lemma NoTagConcat(a: string, b: string, g: bool)
    requires b == [] || b[0] != '>'
    ensures NoTag(a + b, g) <==> NoTag(a, g || '>' in b) && NoTag(b, g)
  {
    var s := a + b;
    forall i | 0 <= i < |a|
      ensures OpensNothing(s, i, g) <==> OpensNothing(a, i, g || '>' in b)
    {
      assert s[i + 1..] == a[i + 1..] + b;
      if i + 1 == |a| && b != [] {
        assert s[i + 1] == b[0];
      }
    }
    forall i | 0 <= i < |b|
      ensures OpensNothing(s, |a| + i, g) <==> OpensNothing(b, i, g)
    {
      assert s[|a| + i + 1..] == b[i + 1..];
      assert s[|a| + i] == b[i];
    }
    if NoTag(s, g) {
      forall i | 0 <= i < |b|
        ensures OpensNothing(b, i, g)
      {
        assert OpensNothing(s, |a| + i, g);
      }
      var later := g || '>' in b;
      forall i | 0 <= i < |a|
        ensures OpensNothing(a, i, later)
      {
        assert OpensNothing(s, i, g);
      }
    }
    if NoTag(a, g || '>' in b) && NoTag(b, g) {
      forall k | 0 <= k < |s|
        ensures OpensNothing(s, k, g)
      {
        if k >= |a| {
          assert OpensNothing(b, k - |a|, g);
          assert s[|a| + (k - |a|)] == s[k];
        } else {
          assert OpensNothing(a, k, g || '>' in b);
        }
      }
    }
  }

  lemma SpaceHasNoTag(a: string, g: bool)
    requires AllSpace(a)
    ensures NoTag(a, g) && '>' !in a
  {
  }

  lemma NoTagTail(c: string, g: bool)
    requires c != [] && NoTag(c, g)
    ensures NoTag(c[1..], g)
  {
    forall i | 0 <= i < |c[1..]|
      ensures OpensNothing(c[1..], i, g)
    {
      assert OpensNothing(c, i + 1, g);
      assert c[1..][i + 1..] == c[i + 2..];
    }
  }

  lemma HeadIsNoTag(c: string, r: string)
    requires c != [] && NoTag(c, '>' in r)
    requires |c| == 1 && c[0] == '<' ==> r == [] || r[0] != '>'
    ensures !TagAt(c + r)
  {
    var s := c + r;
    assert OpensNothing(c, 0, '>' in r);
    if c[0] == '<' && '>' in s {
      assert s == [s[0]] + (c[1..] + r);
      assert '>' in c[1..] || '>' in r;
    }
  }

  /** The next tag after a stretch without one is the first tag of what follows. */
  lemma {:induction false} FirstTagSkips(c: string, r: string)
    requires NoTag(c, '>' in r)
    requires c == [] || c[|c| - 1] != '<' || r == [] || r[0] != '>'
    ensures FirstTag(c + r) == |c| + FirstTag(r)
  {
    if c == [] {
      assert c + r == r;
    } else {
      assert (c + r)[1..] == c[1..] + r;
      HeadIsNoTag(c, r);
      NoTagTail(c, '>' in r);
      FirstTagSkips(c[1..], r);
    }
  }

  lemma HeadOpensNothing(s: string)
    requires s != [] && !TagAt(s)
    ensures var i := FirstTag(s); i > 0 && OpensNothing(s[..i], 0, i < |s|)
  {
    var i := FirstTag(s);
    var c := s[..i];
    if s[0] == '<' && |s| > 1 {
      if s[1] == '>' {
        assert !TagAt(s[1..]);
        assert FirstTag(s[1..]) > 0;
        assert c[1] == '>';
      } else {
        assert '>' !in s;
        assert i == |s|;
        assert c == s;
        InTail(s, 1, '>');
      }
    }
  }

  lemma {:induction false} BeforeFirstTag(s: string)
    ensures var i := FirstTag(s); NoTag(s[..i], i < |s|)
  {
    if s != [] && !TagAt(s) {
      var rest := s[1..];
      BeforeFirstTag(rest);
      HeadOpensNothing(s);
      var k := FirstTag(rest);
      TakeCons(s, k);
      NoTagCons(s[0], rest[..k], k < |rest|);
    }
  }

  lemma TakeCons(s: string, k: nat)
    requires k < |s|
    ensures s[..k + 1] == [s[0]] + s[1..][..k]
  {
  }

  lemma NoTagCons(x: char, s: string, g: bool)
    requires NoTag(s, g) && OpensNothing([x] + s, 0, g)
    ensures NoTag([x] + s, g)
  {
    var c := [x] + s;
    forall k | 0 <= k < |c|
      ensures OpensNothing(c, k, g)
    {
      if k > 0 {
        assert OpensNothing(s, k - 1, g);
        assert c[k + 1..] == s[k..];
      }
    }
  }

  // ---------- reading one piece at a time ----------

  /** A whole tag, as the tokeniser cuts it. */
  ghost predicate IsTag(t: string) {
    TagAt(t) && ThroughGt(t) == |t|
  }

  lemma {:induction false} ThroughGtPrefix(t: string, x: string)
    requires '>' in t
    ensures '>' in t + x && ThroughGt(t + x) == ThroughGt(t)
  {
    if t[0] != '>' {
      ThroughGtPrefix(t[1..], x);
      assert (t + x)[1..] == t[1..] + x;
    }
  }

  lemma CutTagIsTag(s: string)
    requires TagAt(s)
    ensures IsTag(s[..ThroughGt(s)])
  {
    var n := ThroughGt(s);
    var t := s[..n];
    assert t[n - 1] == '>';
    assert s == t + s[n..];
    ThroughGtPrefix(t, s[n..]);
  }

  function Reading(s: string): seq<Item> {
    Items(Tokens(s))
  }

  lemma TagIsTight(t: string)
    requires IsTag(t)
    ensures Trim(t) == t && ItemOf(t) == [Kept(t)]
  {
    TightIsTrimmed(t);
  }

  lemma TokensStep(s: string, c: string, t: string, r: string)
    requires s == c + (t + r) && t != []
    requires FirstTag(s) == |c|
    requires '>' in t + r && ThroughGt(t + r) == |t|
    ensures Tokens(s) == [c, t] + Tokens(r)
  {
    assert s[|c|..] == t + r && s[..|c|] == c;
    assert (t + r)[..|t|] == t && (t + r)[|t|..] == r;
  }

  lemma ItemsOfPair(c: string, t: string, tokens: seq<string>)
    ensures Items([c, t] + tokens) == ItemOf(c) + ItemOf(t) + Items(tokens)
  {
    var all := [c, t] + tokens;
    assert all[1..] == [t] + tokens;
    assert ([t] + tokens)[1..] == tokens;
    ConcatAssociates(ItemOf(c), ItemOf(t), Items(tokens));
  }

  /** Text, then a tag, then the rest. */
  lemma ReadingTag(c: string, t: string, r: string)
    requires IsTag(t) && NoTag(c, true)
    ensures Reading(c + t + r) == ItemOf(c) + [Kept(t)] + Reading(r)
  {
    var s := c + t + r;
    assert s == c + (t + r);
    ThroughGtPrefix(t, r);
    assert TagAt(t + r);
    FirstTagSkips(c, t + r);
    TokensStep(s, c, t, r);
    ItemsOfPair(c, t, Tokens(r));
    TagIsTight(t);
  }

  lemma ItemsOfOne(c: string)
    ensures Items([c]) == ItemOf(c)
  {
    assert [c][1..] == [];
    assert ItemOf(c) + [] == ItemOf(c);
  }

  /** Text without any tag. */
  lemma ReadingText(c: string)
    requires NoTag(c, false)
    ensures Reading(c) == ItemOf(c)
  {
    FirstTagSkips(c, []);
    assert c + [] == c;
    ItemsOfOne(c);
  }

  lemma Reassemble(s: string, i: nat, n: nat)
    requires i <= |s| && n <= |s[i..]|
    ensures s == s[..i] + s[i..][..n] + s[i..][n..]
  {
    assert s[i..] == s[i..][..n] + s[i..][n..];
  }

  /** The cut at the first tag. */
  lemma CutAtTag(s: string) returns (c: string, t: string, r: string)
    requires FirstTag(s) < |s|
    ensures s == c + t + r && IsTag(t) && NoTag(c, true) && |r| < |s|
  {
    var i := FirstTag(s);
    BeforeFirstTag(s);
    var u := s[i..];
    CutTagIsTag(u);
    var n := ThroughGt(u);
    Reassemble(s, i, n);
    c, t, r := s[..i], u[..n], u[n..];
  }

  lemma ReadingLeadingSpace(w: string, s: string)
    requires AllSpace(w)
    ensures Reading(w + s) == Reading(s)
  {
    if FirstTag(s) == |s| {
      BeforeFirstTag(s);
      assert s[..|s|] == s;
      NoTagPrepended(w, s, false);
      ReadingText(s);
      ReadingText(w + s);
      LeadingSpaceOfItem(w, s);
    } else {
      var c, t, r := CutAtTag(s);
      NoTagPrepended(w, c, true);
      ReadingTag(c, t, r);
      ReadingTag(w + c, t, r);
      LeadingSpaceOfItem(w, c);
      calc {
        w + s;
        w + (c + t + r);
        { ConcatAssociates(w, c + t, r); ConcatAssociates(w, c, t); }
        w + c + t + r;
      }
    }
  }

  lemma LeadingSpaceOfItem(w: string, c: string)
    requires AllSpace(w)
    ensures ItemOf(w + c) == ItemOf(c)
  {
    TrimPadded(w, c, []);
    assert w + c + [] == w + c;
  }

  // ---------- the items of a text ----------

  ghost predicate IsTagItem(item: Item) {
    item.Kept? && IsTag(item.token)
  }

  /** Non-blank trimmed lines, the first of which does not start with '<'. */
  ghost predicate TextLines(lines: seq<string>) {
    && lines != []
    && (forall i :: 0 <= i < |lines| ==> lines[i] != [] && Tight(lines[i]) && '\n' !in lines[i])
    && lines[0][0] != '<'
  }

  ghost predicate TextItem(item: Item, gtFollows: bool) {
    match item
    case Kept(t) => t != [] && t[0] == '<' && Tight(t) && NoTag(t, gtFollows)
    case Lines(lines) => TextLines(lines) && NoTag(Unlines(lines), gtFollows)
  }

  /** Tags, with at most one stretch of text between two of them. */
  ghost predicate Alternates(items: seq<Item>) {
    items != [] ==>
      if IsTagItem(items[0]) then Alternates(items[1..])
      else
        && TextItem(items[0], |items| > 1)
        && (|items| > 1 ==> IsTagItem(items[1]) && Alternates(items[1..]))
  }

  lemma {:induction false} NoTagInLines(parts: seq<string>, g: bool)
    requires parts != [] && NoTag(Join(parts, "\n"), g)
    ensures NoTag(Unlines(NonEmpty(TrimAll(parts))), g)
    ensures '>' in Unlines(NonEmpty(TrimAll(parts))) <==> '>' in Join(parts, "\n")
  {
    var head, t := parts[0], TrimAll(parts);
    assert t[1..] == TrimAll(parts[1..]);
    if |parts| == 1 {
      NoTagTrimmed(head, g);
      assert NonEmpty(t[1..]) == [];
      NoTagLine(t[0], [], g);
    } else {
      var rest := Join(parts[1..], "\n");
      assert Join(parts, "\n") == head + ("\n" + rest);
      NoTagConcat(head, "\n" + rest, g);
      SpaceHasNoTag("\n", g || '>' in rest);
      NoTagSuffix("\n", rest, g);
      NoTagInLines(parts[1..], g);
      NoTagTrimmed(head, g || '>' in rest);
      NoTagLine(t[0], NonEmpty(t[1..]), g);
    }
  }

  lemma NoTagSuffix(a: string, b: string, g: bool)
    requires NoTag(a + b, g)
    ensures NoTag(b, g)
  {
    forall i | 0 <= i < |b|
      ensures OpensNothing(b, i, g)
    {
      assert OpensNothing(a + b, |a| + i, g);
      assert (a + b)[|a| + i + 1..] == b[i + 1..];
      assert (a + b)[|a| + i] == b[i];
    }
  }

  lemma NoTagTrimmed(s: string, g: bool)
    requires NoTag(s, g)
    ensures NoTag(Trim(s), g)
    ensures '>' in Trim(s) <==> '>' in s
  {
    var a, b := TrimSplits(s);
    SpaceHasNoTag(a, g);
    SpaceHasNoTag(b, g);
    assert a + Trim(s) + b == a + (Trim(s) + b);
    NoTagSuffix(a, Trim(s) + b, g);
    NoTagConcat(Trim(s), b, g);
  }

  /** Putting a line in front, when it is not blank. */
  lemma NoTagLine(line: string, lines: seq<string>, g: bool)
    requires NoTag(line, g || '>' in Unlines(lines)) && NoTag(Unlines(lines), g)
    ensures var all := Unlines(if line == [] then lines else [line] + lines);
            NoTag(all, g) && ('>' in all <==> '>' in line || '>' in Unlines(lines))
  {
    if line != [] {
      assert ([line] + lines)[1..] == lines;
      var tail := "\n" + Unlines(lines);
      assert line + "\n" + Unlines(lines) == line + tail;
      NoTagPrepended("\n", Unlines(lines), g);
      assert '>' in tail <==> '>' in Unlines(lines);
      NoTagConcat(line, tail, g);
    }
  }

  /** White space in front of a text opens nothing. */
  lemma NoTagPrepended(a: string, b: string, g: bool)
    requires AllSpace(a) && NoTag(b, g)
    ensures NoTag(a + b, g)
  {
    forall i | 0 <= i < |a + b|
      ensures OpensNothing(a + b, i, g)
    {
      if i >= |a| {
        assert OpensNothing(b, i - |a|, g);
        assert (a + b)[i + 1..] == b[i - |a| + 1..];
      }
    }
  }

  lemma ContentLinesAreText(c: string, g: bool)
    requires NoTag(c, g) && Tight(c) && c != [] && c[0] != '<'
    ensures TextItem(Lines(ContentLines(c)), g)
  {
    JoinOfSplit(c, '\n');
    NoTagInLines(Split(c, '\n'), g);
    FirstContentLine(c);
    FieldsAreClean(c, '\n');
    var lines := ContentLines(c);
    forall i | 0 <= i < |lines|
      ensures lines[i] != [] && Tight(lines[i]) && '\n' !in lines[i]
    {
      assert lines[i] in Fields(c, '\n');
    }
  }

  lemma FirstContentLine(c: string)
    requires c != [] && !IsSpace(c[0])
    ensures ContentLines(c) != [] && ContentLines(c)[0] != [] && ContentLines(c)[0][0] == c[0]
  {
    var parts := Split(c, '\n');
    var p := parts[0];
    assert p != [] && p[0] == c[0];
    var a, b := TrimSplits(p);
    assert Trim(p) == [] ==> p == b;
    assert TrimAll(parts)[0] == Trim(p);
    assert p[0] == Trim(p)[0];
  }

  lemma TextItemOf(c: string, g: bool)
    requires NoTag(c, g)
    ensures ItemOf(c) == [] || (|ItemOf(c)| == 1 && TextItem(ItemOf(c)[0], g))
    ensures g && ItemOf(c) != [] ==> !IsTagItem(ItemOf(c)[0])
  {
    var t := Trim(c);
    NoTagTrimmed(c, g);
    TrimIsTight(c);
    if t != [] && t[0] != '<' {
      ContentLinesAreText(t, g);
    } else if t != [] {
      assert OpensNothing(t, 0, g);
    }
  }

  lemma {:induction false} ReadingAlternates(s: string)
    ensures Alternates(Reading(s))
    decreases |s|
  {
    if FirstTag(s) == |s| {
      BeforeFirstTag(s);
      assert s[..|s|] == s;
      TextItemOf(s, false);
      ReadingText(s);
      AlternatesOne(ItemOf(s));
    } else {
      var c, t, r := CutAtTag(s);
      TextItemOf(c, true);
      ReadingTag(c, t, r);
      ReadingAlternates(r);
      AlternatesTag(ItemOf(c), t, Reading(r));
    }
  }

  lemma AlternatesOne(a: seq<Item>)
    requires a == [] || (|a| == 1 && TextItem(a[0], false))
    ensures Alternates(a)
  {
    if a != [] {
      assert a[1..] == [];
    }
  }

  lemma AlternatesTag(a: seq<Item>, t: string, rest: seq<Item>)
    requires a == [] || (|a| == 1 && TextItem(a[0], true) && !IsTagItem(a[0]))
    requires IsTag(t) && Alternates(rest)
    ensures Alternates(a + [Kept(t)] + rest)
  {
    var tail := [Kept(t)] + rest;
    assert tail[1..] == rest;
    var all := a + [Kept(t)] + rest;
    if a == [] {
      assert all == tail;
    } else {
      assert all[1..] == tail;
      assert all[0] == a[0];
    }
  }

  // ---------- re-reading what was printed ----------

  /** Indenting a line and changing what follows it does not open a tag. */
  lemma NoTagReindented(sp: string, l: string, rest: string, deep: string, g: bool)
    requires AllSpace(sp) && l != []
    requires NoTag(l + ("\n" + rest), g) && NoTag(deep, g)
    requires '>' in deep <==> '>' in rest
    ensures NoTag(sp + (l + ("\n" + deep)), g)
    ensures '>' in sp + (l + ("\n" + deep)) <==> '>' in l + ("\n" + rest)
  {
    NoTagConcat(l, "\n" + rest, g);
    NoTagPrepended("\n", deep, g);
    NoTagConcat(l, "\n" + deep, g);
    NoTagPrepended(sp, l + ("\n" + deep), g);
  }

  lemma {:induction false} NoTagIndented(lines: seq<string>, depth: nat, g: bool)
    requires NoTag(Unlines(lines), g)
    requires forall i :: 0 <= i < |lines| ==> lines[i] != [] && Tight(lines[i])
    ensures NoTag(Unlines(IndentAll(lines, depth)), g)
    ensures '>' in Unlines(IndentAll(lines, depth)) <==> '>' in Unlines(lines)
  {
    if lines != [] {
      var sp, l, rest := Spaces(2 * depth), lines[0], lines[1..];
      ConcatAssociates(l, "\n", Unlines(rest));
      NoTagSuffix(l + "\n", Unlines(rest), g);
      NoTagIndented(rest, depth, g);
      NoTagReindented(sp, l, Unlines(rest), Unlines(IndentAll(rest, depth)), g);
      UnlinesIndented(l, rest, depth);
      assert lines == [l] + rest;
    }
  }

  lemma UnlinesIndented(l: string, rest: seq<string>, depth: nat)
    ensures Unlines(IndentAll([l] + rest, depth))
         == Spaces(2 * depth) + (l + ("\n" + Unlines(IndentAll(rest, depth))))
  {
    var sp, deep := Spaces(2 * depth), IndentAll(rest, depth);
    assert ([l] + rest)[1..] == rest;
    assert ([sp + l] + deep)[1..] == deep;
    ConcatAssociates(sp + l, "\n", Unlines(deep));
    ConcatAssociates(sp, l, "\n" + Unlines(deep));
  }

  /** Indented lines read back as the lines they are. */
  lemma {:induction false} ContentOfIndented(lines: seq<string>, depth: nat)
    requires forall i :: 0 <= i < |lines| ==> lines[i] != [] && Tight(lines[i]) && '\n' !in lines[i]
    ensures ContentLines(Unlines(IndentAll(lines, depth))) == lines
  {
    if lines == [] {
      FieldsWhole([], '\n');
    } else {
      var sp, l, rest := Spaces(2 * depth), lines[0], lines[1..];
      var deep := IndentAll(rest, depth);
      ContentOfIndented(rest, depth);
      assert lines == [l] + rest;
      UnlinesIndented(l, rest, depth);
      ConcatAssociates(sp, l, "\n" + Unlines(deep));
      ConcatAssociates(sp + l, "\n", Unlines(deep));
      FieldsAt(sp + l, '\n', Unlines(deep));
      FieldsWhole(sp + l, '\n');
      TrimPadded(sp, l, []);
      assert sp + l + [] == sp + l;
      TightIsTrimmed(l);
    }
  }

  lemma KeptReadsBack(t: string, ind: string, sp: string, g: bool)
    requires TextItem(Kept(t), g) && AllSpace(ind) && AllSpace(sp)
    ensures var c := ind + t + "\n" + sp; NoTag(c, g) && ItemOf(c) == [Kept(t)]
  {
    var tail := "\n" + sp;
    ConcatAssociates(ind + t, "\n", sp);
    ConcatAssociates(ind, t, tail);
    SpaceHasNoTag(tail, g);
    NoTagConcat(t, tail, g);
    NoTagPrepended(ind, t + tail, g);
    TrimPadded(ind, t, tail);
    TightIsTrimmed(t);
  }

  lemma LinesHaveNoTag(lines: seq<string>, depth: nat, sp: string, g: bool)
    requires TextItem(Lines(lines), g) && AllSpace(sp)
    ensures NoTag(Unlines(IndentAll(lines, depth)) + sp, g)
  {
    SpaceHasNoTag(sp, g);
    NoTagIndented(lines, depth, g);
    NoTagConcat(Unlines(IndentAll(lines, depth)), sp, g);
  }

  lemma ContentOfPrinted(lines: seq<string>, depth: nat, sp: string)
    requires AllSpace(sp)
    requires forall i :: 0 <= i < |lines| ==> lines[i] != [] && Tight(lines[i]) && '\n' !in lines[i]
    ensures ContentLines(Trim(Unlines(IndentAll(lines, depth)) + sp)) == lines
  {
    var body := Unlines(IndentAll(lines, depth));
    FieldsTrailing(body, sp, '\n');
    ContentOfIndented(lines, depth);
    FieldsOfTrimmed(body + sp, '\n');
  }

  lemma FirstOfPrinted(lines: seq<string>, depth: nat, sp: string)
    requires lines != [] && lines[0] != [] && !IsSpace(lines[0][0])
    ensures var t := Trim(Unlines(IndentAll(lines, depth)) + sp); t != [] && t[0] == lines[0][0]
  {
    assert lines == [lines[0]] + lines[1..];
    UnlinesIndented(lines[0], lines[1..], depth);
    FirstOfTrimmed(Unlines(IndentAll(lines, depth)) + sp, Spaces(2 * depth), lines[0][0]);
  }

  lemma ItemOfLines(c: string, lines: seq<string>)
    requires Trim(c) != [] && Trim(c)[0] != '<' && ContentLines(Trim(c)) == lines
    ensures ItemOf(c) == [Lines(lines)]
  {
  }

  lemma LinesReadBack(lines: seq<string>, depth: nat, sp: string, g: bool)
    requires TextItem(Lines(lines), g) && AllSpace(sp)
    ensures var c := Unlines(IndentAll(lines, depth)) + sp; NoTag(c, g) && ItemOf(c) == [Lines(lines)]
  {
    LinesHaveNoTag(lines, depth, sp, g);
    ContentOfPrinted(lines, depth, sp);
    FirstOfPrinted(lines, depth, sp);
    ItemOfLines(Unlines(IndentAll(lines, depth)) + sp, lines);
  }

  lemma PrintedOne(item: Item, depth: nat)
    requires item.Kept? ==> item.token != []
    ensures item.Kept? ==> Printed([item], depth) == Spaces(2 * DepthAt(depth, item.token)) + item.token + "\n"
    ensures item.Lines? ==> Printed([item], depth) == Unlines(IndentAll(item.lines, depth))
  {
    assert [item] + [] == [item];
    if item.Kept? {
      PrintedKept(item.token, [], depth);
    } else {
      PrintedLines(item.lines, [], depth);
    }
  }

  /** The printed form of a text item reads back as that item, whatever space follows. */
  lemma TextReadsBack(item: Item, depth: nat, sp: string, g: bool)
    requires TextItem(item, g) && AllSpace(sp)
    ensures var c := Printed([item], depth) + sp; NoTag(c, g) && ItemOf(c) == [item]
  {
    PrintedOne(item, depth);
    match item
    case Kept(t) =>
      KeptReadsBack(t, Spaces(2 * DepthAt(depth, t)), sp, g);
    case Lines(lines) =>
      LinesReadBack(lines, depth, sp, g);
  }

  lemma FirstOfTrimmed(s: string, sp: string, x: char)
    requires AllSpace(sp) && sp + [x] <= s && !IsSpace(x)
    ensures Trim(s) != [] && Trim(s)[0] == x
  {
    var r := s[|sp| + 1..];
    assert s == sp + ([x] + r);
    TrimLeftDrops(sp, [x] + r);
    var t := [x] + r;
    assert TrimLeft(t) == t;
    assert TrimRight(t) <= t;
    TrimRightSplits(t);
  }

  /** Printing and reading again gives the same items. */
  lemma {:induction false} ReadsBack(items: seq<Item>, depth: nat)
    requires Alternates(items)
    ensures Reading(Printed(items, depth)) == items
    decreases items, 1
  {
    if items == [] {
      ReadingText([]);
    } else if IsTagItem(items[0]) {
      TagReadsBack([], items, depth);
      var sp := Spaces(2 * DepthAt(depth, items[0].token));
      assert [] + sp == sp && [] + Printed(items, depth) == Printed(items, depth);
      assert sp == sp + [] + [];
      TrimUnique(sp, [], []);
      assert ItemOf(sp) + items == items;
    } else if |items| == 1 {
      TextReadsBack(items[0], depth, [], false);
      assert items == [items[0]];
      assert Printed(items, depth) + [] == Printed(items, depth);
      ReadingText(Printed(items, depth));
    } else {
      // the text is read up to the tag behind it, whose indentation it takes along
      var item, rest := items[0], items[1..];
      assert items == [item] + rest;
      var after := PrintedSplits(item, rest, depth);
      TextReadsBack(item, depth, Spaces(2 * DepthAt(after, rest[0].token)), true);
      TagReadsBack(Printed([item], depth), rest, after);
    }
  }

  /** Printing an item and then the rest, with the depth in between. */
  lemma PrintedSplits(item: Item, rest: seq<Item>, depth: nat) returns (after: nat)
    requires TextItem(item, true)
    ensures Printed([item] + rest, depth) == Printed([item], depth) + Printed(rest, after)
  {
    assert [item] + [] == [item];
    match item
    case Kept(t) =>
      PrintedKept(t, rest, depth);
      PrintedKept(t, [], depth);
      after := DepthAfter(depth, t);
      var head := Spaces(2 * DepthAt(depth, t)) + t + "\n";
      assert head + [] == head;
    case Lines(lines) =>
      PrintedLines(lines, rest, depth);
      PrintedLines(lines, [], depth);
      after := depth;
      assert Unlines(IndentAll(lines, depth)) + [] == Unlines(IndentAll(lines, depth));
  }

  lemma FourParts(c: string, sp: string, t: string, p: string)
    ensures c + (sp + t + "\n" + p) == (c + sp) + t + ("\n" + p)
  {
  }

  lemma TagReadsBack(c: string, items: seq<Item>, depth: nat)
    requires Alternates(items) && items != [] && IsTagItem(items[0])
    requires NoTag(c + Spaces(2 * DepthAt(depth, items[0].token)), true)
    ensures Reading(c + Printed(items, depth)) ==
            ItemOf(c + Spaces(2 * DepthAt(depth, items[0].token))) + items
    decreases items, 0
  {
    var t, rest := items[0].token, items[1..];
    var sp, after := Spaces(2 * DepthAt(depth, t)), DepthAfter(depth, t);
    assert items == [Kept(t)] + rest;
    PrintedKept(t, rest, depth);
    var p := Printed(rest, after);
    FourParts(c, sp, t, p);
    ReadingTag(c + sp, t, "\n" + p);
    ReadingLeadingSpace("\n", p);
    ReadsBack(rest, after);
    ConcatAssociates(ItemOf(c + sp), [Kept(t)], rest);
  }

  // ---------- carriage returns ----------

  /** A token that is printed as it stands holds CR LF. */
  ghost predicate KeepsCrlf(items: seq<Item>) {
    exists i :: 0 <= i < |items| && items[i].Kept? && HasCrlf(items[i].token)
  }

  lemma HasCrlfConcat(a: string, b: string)
    requires a == [] || a[|a| - 1] != '\r' || b == [] || b[0] != '\n'
    ensures HasCrlf(a + b) <==> HasCrlf(a) || HasCrlf(b)
  {
    var s := a + b;
    if HasCrlf(a) {
      var i :| 0 <= i < |a| - 1 && a[i] == '\r' && a[i + 1] == '\n';
      assert s[i] == '\r' && s[i + 1] == '\n';
    }
    if HasCrlf(b) {
      var i :| 0 <= i < |b| - 1 && b[i] == '\r' && b[i + 1] == '\n';
      assert s[|a| + i] == '\r' && s[|a| + i + 1] == '\n';
    }
    if HasCrlf(s) {
      var i :| 0 <= i < |s| - 1 && s[i] == '\r' && s[i + 1] == '\n';
      if i + 1 < |a| {
        assert a[i] == '\r' && a[i + 1] == '\n';
      } else if i >= |a| {
        assert b[i - |a|] == '\r' && b[i - |a| + 1] == '\n';
      }
    }
  }

  lemma CrlfInLine(depth: nat, line: string, rest: string)
    requires line != [] && Tight(line)
    ensures HasCrlf(Spaces(depth) + line + "\n" + rest) <==> HasCrlf(line) || HasCrlf(rest)
  {
    var sp := Spaces(depth);
    HasCrlfConcat(sp + line + "\n", rest);
    HasCrlfConcat(sp + line, "\n");
    HasCrlfConcat(sp, line);
  }

  lemma {:induction false} CrlfInLines(lines: seq<string>, depth: nat)
    requires forall i :: 0 <= i < |lines| ==> lines[i] != [] && Tight(lines[i]) && '\n' !in lines[i]
    ensures !HasCrlf(Unlines(IndentAll(lines, depth)))
  {
    if lines != [] {
      CrlfInLines(lines[1..], depth);
      var deep := IndentAll(lines[1..], depth);
      assert IndentAll(lines, depth)[1..] == deep;
      assert !HasCrlf(lines[0]);
      CrlfInLine(2 * depth, lines[0], Unlines(deep));
    }
  }

  lemma {:induction false} CrlfInPrinted(items: seq<Item>, depth: nat)
    requires Alternates(items)
    ensures HasCrlf(Printed(items, depth)) <==> KeepsCrlf(items)
  {
    if items != [] {
      var item, rest := items[0], items[1..];
      assert items == [item] + rest;
      assert Alternates(rest);
      if item.Kept? {
        if IsTag(item.token) {
          TagIsTight(item.token);
        }
        CrlfInPrinted(rest, DepthAfter(depth, item.token));
        PrintedKept(item.token, rest, depth);
        CrlfInLine(2 * DepthAt(depth, item.token), item.token, Printed(rest, DepthAfter(depth, item.token)));
      } else {
        CrlfInPrinted(rest, depth);
        PrintedLines(item.lines, rest, depth);
        CrlfInLines(item.lines, depth);
        var body := Unlines(IndentAll(item.lines, depth));
        assert Printed(rest, depth) != [] ==> Printed(rest, depth)[0] != '\n' by {
          if rest != [] {
            AlternatesPrintable(rest);
            PrintedStart(rest, depth);
          }
        }
        HasCrlfConcat(body, Printed(rest, depth));
      }
      KeepsCrlfStep(items);
    }
  }

  lemma KeepsCrlfStep(items: seq<Item>)
    requires items != []
    ensures KeepsCrlf(items) <==> (items[0].Kept? && HasCrlf(items[0].token)) || KeepsCrlf(items[1..])
  {
    if KeepsCrlf(items[1..]) {
      var i :| 0 <= i < |items[1..]| && items[1..][i].Kept? && HasCrlf(items[1..][i].token);
      assert items[i + 1].Kept? && HasCrlf(items[i + 1].token);
    }
    if KeepsCrlf(items) {
      var i :| 0 <= i < |items| && items[i].Kept? && HasCrlf(items[i].token);
      if i > 0 {
        assert items[1..][i - 1] == items[i];
      }
    }
  }

  /** The output starts with an indentation or with the first token, never with a line feed or a byte-order mark. */
  lemma PrintedStart(items: seq<Item>, depth: nat)
    requires items != [] && Printable(items[0])
    ensures Printed(items, depth) != []
    ensures Printed(items, depth)[0] == ' ' || !IsSpace(Printed(items, depth)[0])
  {
    var item, rest := items[0], items[1..];
    assert items == [item] + rest;
    if item.Kept? {
      KeptStart(item.token, rest, depth);
    } else {
      LinesStart(item.lines, rest, depth);
    }
  }

  ghost predicate Printable(item: Item) {
    match item
    case Kept(t) => t != [] && Tight(t)
    case Lines(lines) => TextLines(lines)
  }

  lemma AlternatesPrintable(items: seq<Item>)
    requires Alternates(items) && items != []
    ensures Printable(items[0])
  {
    if IsTagItem(items[0]) {
      TagIsTight(items[0].token);
    }
  }

  lemma KeptStart(t: string, rest: seq<Item>, depth: nat)
    requires t != [] && Tight(t)
    ensures var p := Printed([Kept(t)] + rest, depth); p != [] && (p[0] == ' ' || !IsSpace(p[0]))
  {
    PrintedKept(t, rest, depth);
    StartsWithSpaces(2 * DepthAt(depth, t), t, "\n", Printed(rest, DepthAfter(depth, t)));
  }

  lemma LinesStart(lines: seq<string>, rest: seq<Item>, depth: nat)
    requires TextLines(lines)
    ensures var p := Printed([Lines(lines)] + rest, depth); p != [] && (p[0] == ' ' || !IsSpace(p[0]))
  {
    PrintedLines(lines, rest, depth);
    assert lines == [lines[0]] + lines[1..];
    UnlinesIndented(lines[0], lines[1..], depth);
    var tail := "\n" + Unlines(IndentAll(lines[1..], depth));
    ConcatAssociates(Spaces(2 * depth), lines[0], tail);
    StartsWithSpaces(2 * depth, lines[0], tail, Printed(rest, depth));
  }

  lemma StartsWithSpaces(n: nat, t: string, tail: string, more: string)
    requires t != [] && !IsSpace(t[0])
    ensures var s := Spaces(n) + t + tail + more; s[0] == ' ' || !IsSpace(s[0])
  {
  }

  // ---------- the theorems ----------

  /** The token that the printer copies unchanged would still hold CR LF after CR LF has been normalised. */
  ghost predicate CopiesCrlf(text: string) {
    KeepsCrlf(Read(text))
  }

  lemma FormatShape(text: string)
    ensures Alternates(Read(text))
    ensures Read(text) == [] ==> Format(text) == "\n"
    ensures Read(text) != [] ==> Format(text) == Printed(Read(text), 0)
    ensures StripBom(Format(text)) == Format(text)
    ensures HasCrlf(Format(text)) <==> CopiesCrlf(text)
  {
    var items := Read(text);
    ReadingAlternates(Prepared(text));
    FormatIsPrinted(text);
    if items != [] {
      AlternatesPrintable(items);
      PrintedStart(items, 0);
      assert Layout(items, 0) == [] ==> Printed(items, 0) == [];
      CrlfInPrinted(items, 0);
    }
  }

  /** The formatted text holds the same tags and the same lines of text as the original. */
  lemma FormatKeepsItems(text: string)
    requires !CopiesCrlf(text)
    ensures Read(Format(text)) == Read(text)
  {
    FormatShape(text);
    var out := Format(text);
    NormCrlfKeeps(out);
    if Read(text) == [] {
      SpaceHasNoTag("\n", false);
      ReadingText("\n");
      TrimUnique("\n", [], []);
      assert "\n" + [] + [] == "\n";
    } else {
      ReadsBack(Read(text), 0);
    }
  }

  /** Formatting is idempotent on exactly the texts in which no copied token holds CR LF. */
  lemma FormatIdempotentIff(text: string)
    ensures Format(Format(text)) == Format(text) <==> !CopiesCrlf(text)
  {
    var out := Format(text);
    FormatShape(text);
    if CopiesCrlf(text) {
      NormCrlfReflows(out);
      FormatReflows(out);
      assert Crs(Format(out)) < Crs(out);
    } else {
      FormatKeepsItems(text);
    }
  }

  /** In particular it is idempotent on every text without carriage returns. */
  lemma FormatIdempotentWithoutCr(text: string)
    requires '\r' !in text
    ensures Format(Format(text)) == Format(text)
  {
    FormatIdempotentIff(text);
    var s := StripBom(text);
    NoCrs(s);
    NormCrlfReflows(s);
    FormatReflows(text);
    FormatShape(text);
    if CopiesCrlf(text) {
      CrlfIsCr(Format(text));
    }
  }

  lemma CrlfIsCr(s: string)
    requires HasCrlf(s)
    ensures Crs(s) > 0
  {
    var i :| 0 <= i < |s| - 1 && s[i] == '\r' && s[i + 1] == '\n';
    assert s == s[..i] + s[i..];
    CountsConcat(s[..i], s[i..]);
  }

  lemma ExampleTag(t: string)
    requires t == "<a\r\nb>"
    ensures IsTag(t) && HasCrlf(t)
  {
    assert t[5] == '>';
    assert t[2] == '\r' && t[2 + 1] == '\n';
    var n := ThroughGt(t);
    assert t[n - 1] == '>';
  }

  lemma ExamplePrepared(text: string, t: string)
    requires text == "<a\r\r\nb>" && t == "<a\r\nb>"
    ensures Prepared(text) == t
  {
    var u := "\r\nb>";
    NormCrlfKeeps("b>");
    assert u[2..] == "b>";
    assert NormCrlf(u) == "\nb>";
    NormCrlfCons('\r', u);
    NormCrlfCons('a', "\r" + u);
    NormCrlfCons('<', "a" + ("\r" + u));
    assert text == "<" + ("a" + ("\r" + u));
  }

  lemma NormCrlfCons(x: char, s: string)
    requires s == [] || s[0] != '\n'
    ensures NormCrlf([x] + s) == [x] + NormCrlf(s)
  {
    assert ([x] + s)[1..] == s;
  }

  lemma ReadingOneTag(t: string)
    requires IsTag(t)
    ensures Reading(t) == [Kept(t)]
  {
    SpaceHasNoTag([], true);
    ReadingTag([], t, []);
    assert [] + t + [] == t;
    ReadsBack([], 0);
    TightIsTrimmed([]);
  }

  lemma OneCrlfItem(t: string)
    requires HasCrlf(t)
    ensures KeepsCrlf([Kept(t)])
  {
    assert [Kept(t)][0].Kept? && HasCrlf([Kept(t)][0].token);
  }

  /** The exception is real: a tag broken by CR CR LF loses one more CR each time. */
  lemma FormatNotIdempotent()
    ensures Format(Format("<a\r\r\nb>")) != Format("<a\r\r\nb>")
  {
    var text, t := "<a\r\r\nb>", "<a\r\nb>";
    ExamplePrepared(text, t);
    ExampleTag(t);
    ReadingOneTag(t);
    OneCrlfItem(t);
    FormatIdempotentIff(text);
  }
}
