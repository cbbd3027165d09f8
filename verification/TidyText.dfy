/**
  The white-space tidier of `lib/guest-file-format.ts`: one line ending, no tabs, no trailing
  spaces, at most two blank lines in a row and none at the end.
*/
module TidyText {
  import opened Text

  function CrToLf(s: string): (r: string)
    ensures |r| == |s|
    ensures forall i :: 0 <= i < |s| ==> r[i] == if s[i] == '\r' then '\n' else s[i]
  {
    seq(|s|, i requires 0 <= i < |s| => if s[i] == '\r' then '\n' else s[i])
  }

  function ExpandTabs(s: string): string {
    if s == [] then []
    else (if s[0] == '\t' then "  " else [s[0]]) + ExpandTabs(s[1..])
  }

  /** `replace(/[ \t]+$/, "")` on a line. */
  function StripBlanks(s: string): (r: string)
    ensures r <= s
  {
    if s == [] then []
    else
      var r := StripBlanks(s[1..]);
      if r == [] && (s[0] == ' ' || s[0] == '\t') then [] else [s[0]] + r
  }

  function CleanLine(line: string): string {
    StripBlanks(ExpandTabs(line))
  }

  function CleanAll(parts: seq<string>): seq<string> {
    seq(|parts|, i requires 0 <= i < |parts| => CleanLine(parts[i]))
  }

  function CleanLines(text: string): seq<string> {
    CleanAll(Split(CrToLf(NormCrlf(StripBom(text))), '\n'))
  }

  /** Keeps two blank lines of every run; `blank` of them have gone by. */
  function Collapse(lines: seq<string>, blank: nat): seq<string> {
    if lines == [] then []
    else if lines[0] == [] then
      (if blank < 2 then [[]] else []) + Collapse(lines[1..], blank + 1)
    else [lines[0]] + Collapse(lines[1..], 0)
  }

  function DropBlankTail(lines: seq<string>): (r: seq<string>)
    ensures r <= lines
    ensures r != [] ==> r[|r| - 1] != []
  {
    if lines != [] && lines[|lines| - 1] == [] then DropBlankTail(lines[..|lines| - 1]) else lines
  }

  function TidyLines(text: string): seq<string> {
    DropBlankTail(Collapse(CleanLines(text), 0))
  }

  function Tidy(text: string): string {
    var out := TidyLines(text);
    if out == [] then "" else Join(out, "\n") + "\n"
  }

  // ---------- the loops ----------

  method TidyGuestFileText(text: string) returns (r: string)
    ensures r == Tidy(text)
  {
    var lines := CleanLines(text);
    var out: seq<string> := [];
    var blank := 0;
    assert lines[0..] == lines;
    for k := 0 to |lines|
      invariant blank >= 0
      invariant out + Collapse(lines[k..], blank) == Collapse(lines, 0)
    {
      var line := lines[k];
      assert lines[k..][1..] == lines[k + 1..];
      if line == [] {
        blank := blank + 1;
        ConcatAssociates(out, if blank <= 2 then [[]] else [], Collapse(lines[k + 1..], blank));
        if blank <= 2 {
          out := out + [[]];
        } else {
          assert out + [] == out;
        }
        continue;
      }
      blank := 0;
      ConcatAssociates(out, [line], Collapse(lines[k + 1..], 0));
      out := out + [line];
    }
    assert lines[|lines|..] == [];
    assert out + [] == out;
    while |out| > 0 && out[|out| - 1] == []
      invariant DropBlankTail(out) == TidyLines(text)
    {
      out := out[..|out| - 1];
    }
    r := if |out| > 0 then Join(out, "\n") + "\n" else "";
  }

  // ---------- the shape of the result ----------

  ghost predicate CleanedLine(line: string) {
    && '\t' !in line && '\r' !in line && '\n' !in line
    && (line != [] ==> line[|line| - 1] != ' ')
  }

  /** No more than two of the lines from k on are blank in a row, `blank` blank ones going before. */
  ghost predicate FewBlanks(lines: seq<string>, blank: nat) {
    lines != [] ==>
      if lines[0] == [] then blank < 2 && FewBlanks(lines[1..], blank + 1)
      else FewBlanks(lines[1..], 0)
  }

  ghost predicate Tidied(lines: seq<string>) {
    && (forall i :: 0 <= i < |lines| ==> CleanedLine(lines[i]))
    && FewBlanks(lines, 0)
    && (lines != [] ==> lines[|lines| - 1] != [])
  }

  lemma {:induction false} ExpandTabsWithin(s: string, c: char)
    requires c != ' ' && (c == '\t' || c !in s)
    ensures c !in ExpandTabs(s)
  {
    if s != [] {
      ExpandTabsWithin(s[1..], c);
    }
  }

  lemma {:induction false} StripBlanksEnd(s: string)
    ensures var r := StripBlanks(s); r != [] ==> r[|r| - 1] != ' '
  {
    if s != [] {
      StripBlanksEnd(s[1..]);
    }
  }

  lemma CleanLineIsClean(line: string)
    requires '\r' !in line && '\n' !in line
    ensures CleanedLine(CleanLine(line))
  {
    ExpandTabsWithin(line, '\t');
    ExpandTabsWithin(line, '\r');
    ExpandTabsWithin(line, '\n');
    StripBlanksEnd(ExpandTabs(line));
  }

  lemma CleanLinesAreClean(text: string)
    ensures forall i :: 0 <= i < |CleanLines(text)| ==> CleanedLine(CleanLines(text)[i])
  {
    var s := CrToLf(NormCrlf(StripBom(text)));
    SplitLacks(s, '\n', '\r');
    SplitPartsLackSeparator(s, '\n');
    forall i | 0 <= i < |CleanLines(text)|
      ensures CleanedLine(CleanLines(text)[i])
    {
      CleanLineIsClean(Split(s, '\n')[i]);
    }
  }

  lemma {:induction false} CollapseShape(lines: seq<string>, blank: nat)
    ensures FewBlanks(Collapse(lines, blank), if blank < 2 then blank else 2)
    ensures forall p :: p in Collapse(lines, blank) ==> p in lines
  {
    if lines != [] {
      if lines[0] == [] {
        CollapseShape(lines[1..], blank + 1);
        var rest := Collapse(lines[1..], blank + 1);
        if blank < 2 {
          assert ([[]] + rest)[1..] == rest;
        } else {
          assert [] + rest == rest;
        }
      } else {
        CollapseShape(lines[1..], 0);
        var rest := Collapse(lines[1..], 0);
        assert ([lines[0]] + rest)[1..] == rest;
      }
    }
  }

  lemma {:induction false} FewBlanksPrefix(a: seq<string>, b: seq<string>, blank: nat)
    requires a <= b && FewBlanks(b, blank)
    ensures FewBlanks(a, blank)
  {
    if a != [] {
      FewBlanksPrefix(a[1..], b[1..], if a[0] == [] then blank + 1 else 0);
    }
  }

  /** Every result is tidy. */
  lemma TidyLinesAreTidied(text: string)
    ensures Tidied(TidyLines(text))
  {
    var all := CleanLines(text);
    CleanLinesAreClean(text);
    CollapseShape(all, 0);
    var out := TidyLines(text);
    FewBlanksPrefix(out, Collapse(all, 0), 0);
    forall i | 0 <= i < |out|
      ensures CleanedLine(out[i])
    {
      assert out[i] == Collapse(all, 0)[i];
      assert out[i] in all;
    }
  }

  // ---------- what becomes of a line ----------

  lemma {:induction false} ExpandTabsJoins(s: string)
    ensures ExpandTabs(s) == Join(Split(s, '\t'), "  ")
  {
    if s != [] {
      ExpandTabsJoins(s[1..]);
      var rest := Split(s[1..], '\t');
      if s[0] == '\t' {
        assert ([[]] + rest)[1..] == rest;
        assert [] + "  " + Join(rest, "  ") == "  " + Join(rest, "  ");
      } else {
        JoinFirst(s[0], rest, "  ");
      }
    }
  }

  predicate AllBlanks(s: string) {
    forall i :: 0 <= i < |s| ==> s[i] == ' '
  }

  lemma {:induction false} StripBlanksSplits(s: string)
    requires '\t' !in s
    ensures AllBlanks(s[|StripBlanks(s)|..])
  {
    if s != [] {
      StripBlanksSplits(s[1..]);
      var r := StripBlanks(s[1..]);
      if StripBlanks(s) == [] {
        assert s[1..][0..] == s[1..];
      } else {
        assert s[1 + |r|..] == s[1..][|r|..];
      }
    }
  }

  /** In a line every tab becomes two spaces; then spaces at its end are dropped, and nothing else. */
  lemma CleanLineIs(line: string)
    ensures var whole := Join(Split(line, '\t'), "  ");
            && CleanLine(line) <= whole && AllBlanks(whole[|CleanLine(line)|..])
            && (CleanLine(line) != [] ==> CleanLine(line)[|CleanLine(line)| - 1] != ' ')
  {
    ExpandTabsJoins(line);
    ExpandTabsWithin(line, '\t');
    StripBlanksSplits(ExpandTabs(line));
    StripBlanksEnd(ExpandTabs(line));
  }

  // ---------- tidy text stays as it is ----------

  lemma {:induction false} ExpandTabsKeeps(s: string)
    requires '\t' !in s
    ensures ExpandTabs(s) == s
  {
    if s != [] {
      ExpandTabsKeeps(s[1..]);
    }
  }

  lemma {:induction false} StripBlanksKeeps(s: string)
    requires s != [] ==> s[|s| - 1] != ' ' && s[|s| - 1] != '\t'
    ensures StripBlanks(s) == s
  {
    if s != [] {
      StripBlanksKeeps(s[1..]);
    }
  }

  lemma CleanLineKeeps(line: string)
    requires CleanedLine(line)
    ensures CleanLine(line) == line
  {
    ExpandTabsKeeps(line);
    StripBlanksKeeps(line);
  }

  lemma {:induction false} CollapseKeeps(lines: seq<string>, blank: nat)
    requires FewBlanks(lines, blank)
    ensures Collapse(lines, blank) == lines
  {
    if lines != [] {
      CollapseKeeps(lines[1..], if lines[0] == [] then blank + 1 else 0);
    }
  }

  lemma {:induction false} FewBlanksEnd(lines: seq<string>, blank: nat)
    requires FewBlanks(lines, blank) && lines != [] && lines[|lines| - 1] != []
    ensures FewBlanks(lines + [[]], blank)
  {
    assert (lines + [[]])[1..] == lines[1..] + [[]];
    if |lines| == 1 {
      assert lines[1..] + [[]] == [[]];
      var one: seq<string> := [[]];
      assert one[1..] == [];
    } else {
      FewBlanksEnd(lines[1..], if lines[0] == [] then blank + 1 else 0);
    }
  }

  lemma {:induction false} JoinSnoc(lines: seq<string>, sep: string)
    requires lines != []
    ensures Join(lines + [[]], sep) == Join(lines, sep) + sep
  {
    assert (lines + [[]])[1..] == lines[1..] + [[]];
    if |lines| == 1 {
      assert lines[1..] + [[]] == [[]];
      assert lines[0] + sep + [] == lines[0] + sep;
    } else {
      JoinSnoc(lines[1..], sep);
      ConcatAssociates(lines[0] + sep, Join(lines[1..], sep), sep);
    }
  }

  lemma {:induction false} JoinWithin(parts: seq<string>, sep: string, c: char)
    requires c !in sep && forall i :: 0 <= i < |parts| ==> c !in parts[i]
    ensures c !in Join(parts, sep)
  {
    if |parts| > 1 {
      JoinWithin(parts[1..], sep, c);
    }
  }

  lemma NoCrNoCrlf(s: string)
    requires '\r' !in s
    ensures CrToLf(NormCrlf(s)) == s
  {
    assert !HasCrlf(s);
    NormCrlfKeeps(s);
  }

  /** Lines without CR, joined, are read as themselves and an empty one. */
  lemma ReadsJoined(lines: seq<string>)
    requires Tidied(lines) && lines != []
    requires lines[0] != [] ==> lines[0][0] != BOM
    ensures var text := Join(lines, "\n") + "\n";
            Split(CrToLf(NormCrlf(StripBom(text))), '\n') == lines + [[]]
  {
    var text, all := Join(lines, "\n") + "\n", lines + [[]];
    JoinSnoc(lines, "\n");
    JoinStart(lines);
    assert StripBom(text) == text;
    JoinWithin(all, "\n", '\r');
    NoCrNoCrlf(text);
    SplitOfJoin(all, '\n');
  }

  lemma CleanAllKeeps(lines: seq<string>)
    requires Tidied(lines)
    ensures CleanAll(lines + [[]]) == lines + [[]]
  {
    var all := lines + [[]];
    forall i | 0 <= i < |all|
      ensures CleanLine(all[i]) == all[i]
    {
      CleanLineKeeps(all[i]);
    }
  }

  lemma CollapseTidied(lines: seq<string>)
    requires Tidied(lines) && lines != []
    ensures DropBlankTail(Collapse(lines + [[]], 0)) == lines
  {
    var all := lines + [[]];
    FewBlanksEnd(lines, 0);
    CollapseKeeps(all, 0);
    assert all[..|all| - 1] == lines;
  }

  /** A text made of tidy lines is read as those lines, unless a byte-order mark is cut off. */
  lemma TidyKeeps(lines: seq<string>)
    requires Tidied(lines) && lines != []
    requires lines[0] != [] ==> lines[0][0] != BOM
    ensures Tidy(Join(lines, "\n") + "\n") == Join(lines, "\n") + "\n"
  {
    ReadsJoined(lines);
    CleanAllKeeps(lines);
    CollapseTidied(lines);
  }

  lemma JoinStart(lines: seq<string>)
    requires lines != []
    ensures (Join(lines, "\n") + "\n")[0] == if lines[0] == [] then '\n' else lines[0][0]
  {
  }

  // ---------- the byte-order mark ----------

  lemma FirstCleanLine(s: string)
    ensures var l := CleanAll(Split(s, '\n'))[0];
            (l != [] && l[0] == BOM) <==> (s != [] && s[0] == BOM)
  {
    if s != [] {
      var rest := Split(s[1..], '\n');
      if s[0] != '\n' {
        assert Split(s, '\n')[0] == [s[0]] + rest[0];
        assert ([s[0]] + rest[0])[1..] == rest[0];
        if s[0] != '\t' {
          assert ExpandTabs([s[0]] + rest[0]) == [s[0]] + ExpandTabs(rest[0]);
        }
      }
    }
  }

  lemma {:induction false} CollapseHead(lines: seq<string>, x: char)
    requires lines != []
    ensures var out := DropBlankTail(Collapse(lines, 0));
            (out != [] && out[0] != [] && out[0][0] == x) <==> (lines[0] != [] && lines[0][0] == x)
  {
    var c := Collapse(lines, 0);
    assert c != [] && c[0] == lines[0];
    DropBlankTailHead(c);
  }

  lemma {:induction false} DropBlankTailHead(lines: seq<string>)
    requires lines != []
    ensures DropBlankTail(lines) == [] ==> lines[0] == []
  {
    if lines[|lines| - 1] == [] && |lines| > 1 {
      DropBlankTailHead(lines[..|lines| - 1]);
    }
  }

  lemma HeadOfNormalised(s: string)
    ensures var n := CrToLf(NormCrlf(s)); (n != [] && n[0] == BOM) <==> (s != [] && s[0] == BOM)
  {
  }

  predicate StartsWithTwoBoms(text: string) {
    [BOM, BOM] <= text
  }

  lemma TidyStart(text: string)
    ensures (Tidy(text) != [] && Tidy(text)[0] == BOM) <==> StartsWithTwoBoms(text)
  {
    var s := StripBom(text);
    HeadOfNormalised(s);
    FirstCleanLine(CrToLf(NormCrlf(s)));
    CollapseHead(CleanLines(text), BOM);
    if TidyLines(text) != [] {
      JoinStart(TidyLines(text));
    }
  }

  // ---------- conservation ----------

  /** The characters other than space, tab, CR and LF. */
  function Ink(s: string): string {
    if s == [] then []
    else if s[0] in " \t\r\n" then Ink(s[1..])
    else [s[0]] + Ink(s[1..])
  }

  function InkAll(parts: seq<string>): string {
    if parts == [] then [] else Ink(parts[0]) + InkAll(parts[1..])
  }

  lemma {:induction false} InkConcat(a: string, b: string)
    ensures Ink(a + b) == Ink(a) + Ink(b)
  {
    if a == [] {
      assert a + b == b;
    } else {
      assert (a + b)[1..] == a[1..] + b;
      InkConcat(a[1..], b);
    }
  }

  lemma {:induction false} InkOfCrToLf(s: string)
    ensures Ink(CrToLf(s)) == Ink(s)
  {
    if s != [] {
      InkOfCrToLf(s[1..]);
      assert CrToLf(s)[1..] == CrToLf(s[1..]);
    }
  }

  lemma {:induction false} InkOfNormCrlf(s: string)
    ensures Ink(NormCrlf(s)) == Ink(s)
    decreases |s|
  {
    if s == [] {
    } else if |s| >= 2 && s[0] == '\r' && s[1] == '\n' {
      InkOfNormCrlf(s[2..]);
      assert NormCrlf(s)[1..] == NormCrlf(s[2..]);
      assert s[1..][1..] == s[2..];
    } else {
      InkOfNormCrlf(s[1..]);
      assert NormCrlf(s)[1..] == NormCrlf(s[1..]);
    }
  }

  lemma {:induction false} InkOfCleanLine(s: string)
    ensures Ink(ExpandTabs(s)) == Ink(s)
    ensures Ink(StripBlanks(s)) == Ink(s)
  {
    if s != [] {
      InkOfCleanLine(s[1..]);
      InkConcat(if s[0] == '\t' then "  " else [s[0]], ExpandTabs(s[1..]));
      InkConcat([s[0]], StripBlanks(s[1..]));
      assert "  "[1..] == " " && " "[1..] == "";
    }
  }

  lemma {:induction false} InkOfCleanAll(parts: seq<string>)
    ensures InkAll(CleanAll(parts)) == InkAll(parts)
  {
    if parts != [] {
      InkOfCleanLine(parts[0]);
      InkOfCleanLine(ExpandTabs(parts[0]));
      InkOfCleanAll(parts[1..]);
      assert CleanAll(parts)[1..] == CleanAll(parts[1..]);
    }
  }

  lemma {:induction false} InkOfJoin(parts: seq<string>)
    ensures Ink(Join(parts, "\n")) == InkAll(parts)
  {
    if |parts| == 1 {
      assert InkAll(parts[1..]) == [];
    } else if |parts| > 1 {
      InkOfJoin(parts[1..]);
      InkConcat(parts[0] + "\n", Join(parts[1..], "\n"));
      InkConcat(parts[0], "\n");
    }
  }

  lemma {:induction false} InkOfCollapse(lines: seq<string>, blank: nat)
    ensures InkAll(Collapse(lines, blank)) == InkAll(lines)
  {
    if lines != [] {
      var next := if lines[0] == [] then blank + 1 else 0;
      InkOfCollapse(lines[1..], next);
      var rest := Collapse(lines[1..], next);
      assert ([lines[0]] + rest)[1..] == rest;
      assert lines[0] == [] && blank >= 2 ==> Collapse(lines, blank) == rest;
    }
  }

  lemma {:induction false} InkAllSnoc(lines: seq<string>)
    ensures InkAll(lines + [[]]) == InkAll(lines)
  {
    if lines == [] {
      var one: seq<string> := [[]];
      assert lines + one == one && one[1..] == [];
    } else {
      assert (lines + [[]])[1..] == lines[1..] + [[]];
      InkAllSnoc(lines[1..]);
    }
  }

  lemma {:induction false} InkOfDropBlankTail(lines: seq<string>)
    ensures InkAll(DropBlankTail(lines)) == InkAll(lines)
  {
    if lines != [] && lines[|lines| - 1] == [] {
      InkOfDropBlankTail(lines[..|lines| - 1]);
      InkAllSnoc(lines[..|lines| - 1]);
      assert lines == lines[..|lines| - 1] + [[]];
    }
  }

  /** Tidying removes a byte-order mark and otherwise only moves spaces, tabs and line ends. */
  lemma TidyKeepsInk(text: string)
    ensures Ink(Tidy(text)) == Ink(StripBom(text))
  {
    var s := CrToLf(NormCrlf(StripBom(text)));
    InkOfNormCrlf(StripBom(text));
    InkOfCrToLf(NormCrlf(StripBom(text)));
    JoinOfSplit(s, '\n');
    InkOfJoin(Split(s, '\n'));
    InkOfCleanAll(Split(s, '\n'));
    InkOfCollapse(CleanLines(text), 0);
    InkOfDropBlankTail(Collapse(CleanLines(text), 0));
    var out := TidyLines(text);
    InkOfJoin(out);
    InkConcat(Join(out, "\n"), "\n");
  }

  // ---------- the theorems ----------

  /** Tidying is idempotent on exactly the texts that do not start with two byte-order marks. */
  lemma TidyIdempotentIff(text: string)
    ensures Tidy(Tidy(text)) == Tidy(text) <==> !StartsWithTwoBoms(text)
  {
    TidyStart(text);
    if StartsWithTwoBoms(text) {
      MarkIsLost(Tidy(text));
    } else if TidyLines(text) != [] {
      TidyLinesAreTidied(text);
      JoinStart(TidyLines(text));
      TidyKeeps(TidyLines(text));
    } else {
      TidyOfEmpty();
    }
  }

  lemma MarkIsLost(out: string)
    requires out != [] && out[0] == BOM
    ensures Tidy(out) != out
  {
    TidyKeepsInk(out);
    assert out == [BOM] + StripBom(out);
    InkConcat([BOM], StripBom(out));
  }

  lemma TidyOfEmpty()
    ensures Tidy("") == ""
  {
    assert CleanLines([]) == [[]];
    var one: seq<string> := [[]];
    assert one[1..] == [] && one[..0] == [];
    assert Collapse(one, 0) == one;
    assert DropBlankTail(one) == DropBlankTail(one[..0]);
  }

  /** Such a text: every tidying takes one mark off. */
  lemma TidyNotIdempotent()
    ensures Tidy(Tidy([BOM, BOM, 'a'])) != Tidy([BOM, BOM, 'a'])
  {
    TidyIdempotentIff([BOM, BOM, 'a']);
  }

  /** A text is left alone exactly when it is empty or a list of tidy lines, each ended by LF. */
  lemma TidyFixedPoints(text: string)
    ensures Tidy(text) == text <==>
      text == "" || (text[0] != BOM && exists lines :: lines != [] && Tidied(lines) && text == Join(lines, "\n") + "\n")
  {
    if Tidy(text) == text {
      TidyIdempotentIff(text);
      TidyStart(text);
      TidyLinesAreTidied(text);
      if text != "" {
        assert TidyLines(text) != [];
      }
    } else if text == "" {
      TidyOfEmpty();
    } else if text[0] != BOM && exists lines :: lines != [] && Tidied(lines) && text == Join(lines, "\n") + "\n" {
      var lines :| lines != [] && Tidied(lines) && text == Join(lines, "\n") + "\n";
      JoinStart(lines);
      TidyKeeps(lines);
    }
  }
}
