/** Formatting markup moves white space only: no other character is lost, added or reordered. */
module MarkupConservation {
  import opened Text
  import opened MarkupFormat

  function Crs(s: string): nat {
    if s == [] then 0 else (if s[0] == '\r' then 1 else 0) + Crs(s[1..])
  }

  /** `y` holds the same characters as `x` up to white space, and no more carriage returns. */
  ghost predicate Reflows(x: string, y: string) {
    NonSpaces(x) == NonSpaces(y) && Crs(y) <= Crs(x)
  }

  lemma {:induction false} CountsConcat(a: string, b: string)
    ensures NonSpaces(a + b) == NonSpaces(a) + NonSpaces(b)
    ensures Crs(a + b) == Crs(a) + Crs(b)
  {
    if a == [] {
      assert a + b == b;
    } else {
      assert (a + b)[1..] == a[1..] + b;
      CountsConcat(a[1..], b);
    }
  }

  lemma {:induction false} SpaceIsNothing(a: string)
    requires AllSpace(a)
    ensures NonSpaces(a) == []
  {
    if a != [] {
      SpaceIsNothing(a[1..]);
    }
  }

  lemma SpacesAreNothing(n: nat)
    ensures NonSpaces(Spaces(n)) == [] && Crs(Spaces(n)) == 0
  {
    SpaceIsNothing(Spaces(n));
    NoCrs(Spaces(n));
  }

  lemma {:induction false} NoCrs(s: string)
    requires '\r' !in s
    ensures Crs(s) == 0
  {
    if s != [] {
      NoCrs(s[1..]);
    }
  }

  lemma ReflowsConcat(a: string, a': string, b: string, b': string)
    requires Reflows(a, a') && Reflows(b, b')
    ensures Reflows(a + b, a' + b')
  {
    CountsConcat(a, b);
    CountsConcat(a', b');
  }

  lemma TrimReflows(s: string)
    ensures Reflows(s, Trim(s))
  {
    var a, b := TrimSplits(s);
    SpaceIsNothing(a);
    SpaceIsNothing(b);
    CountsConcat(a + Trim(s), b);
    CountsConcat(a, Trim(s));
  }

  lemma NewlineIsNothing()
    ensures NonSpaces("\n") == [] && Crs("\n") == 0
  {
    SpaceIsNothing("\n");
    NoCrs("\n");
  }

  lemma {:induction false} LinesReflow(parts: seq<string>)
    requires parts != []
    ensures Reflows(Join(parts, "\n"), Unlines(NonEmpty(TrimAll(parts))))
  {
    var head, t := parts[0], TrimAll(parts);
    NewlineIsNothing();
    TrimReflows(head);
    assert t[1..] == TrimAll(parts[1..]);
    CountsConcat(t[0], "\n");
    if |parts| == 1 {
      assert NonEmpty(t[1..]) == [];
      assert Unlines([t[0]][1..]) == [];
      assert t[0] + "\n" + [] == t[0] + "\n";
    } else {
      LinesReflow(parts[1..]);
      var rest, lines := Join(parts[1..], "\n"), NonEmpty(t[1..]);
      CountsConcat(head, "\n");
      CountsConcat(head + "\n", rest);
      if t[0] != [] {
        assert ([t[0]] + lines)[1..] == lines;
        CountsConcat(t[0] + "\n", Unlines(lines));
      }
    }
  }

  lemma {:induction false} IndentReflows(lines: seq<string>, depth: nat)
    ensures Reflows(Unlines(lines), Unlines(IndentAll(lines, depth)))
  {
    if lines != [] {
      var sp := Spaces(2 * depth);
      IndentReflows(lines[1..], depth);
      SpacesAreNothing(2 * depth);
      CountsConcat(sp, lines[0]);
      CountsConcat(sp + lines[0], "\n");
      CountsConcat(lines[0], "\n");
      CountsConcat(sp + lines[0] + "\n", Unlines(IndentAll(lines[1..], depth)));
      CountsConcat(lines[0] + "\n", Unlines(lines[1..]));
      assert IndentAll(lines, depth)[1..] == IndentAll(lines[1..], depth);
    }
  }

  function Concat(tokens: seq<string>): string {
    if tokens == [] then [] else tokens[0] + Concat(tokens[1..])
  }

  lemma ConcatOfPair(c: string, t: string, rest: seq<string>)
    ensures Concat([c, t] + rest) == c + (t + Concat(rest))
  {
    var tokens := [c, t] + rest;
    assert tokens[1..] == [t] + rest;
    assert ([t] + rest)[1..] == rest;
  }

  lemma CutInThree(s: string, i: nat, n: nat)
    requires i <= |s| && n <= |s| - i
    ensures s == s[..i] + (s[i..][..n] + s[i..][n..])
  {
    var u := s[i..];
    assert u == u[..n] + u[n..];
    assert s == s[..i] + u;
  }

  lemma {:induction false} ConcatOfTokens(s: string)
    ensures Concat(Tokens(s)) == s
    decreases |s|
  {
    var i := FirstTag(s);
    if i == |s| {
      assert Concat([s][1..]) == [];
    } else {
      var u := s[i..];
      var n := ThroughGt(u);
      CutInThree(s, i, n);
      ConcatOfTokens(u[n..]);
      ConcatOfPair(s[..i], u[..n], Tokens(u[n..]));
    }
  }

  lemma {:induction false} PrintedReflows(tokens: seq<string>, depth: nat)
    ensures Reflows(Concat(tokens), Printed(Items(tokens), depth))
  {
    if tokens != [] {
      var raw, rest := tokens[0], Items(tokens[1..]);
      var token := Trim(raw);
      TrimReflows(raw);
      if token == [] {
        PrintedReflows(tokens[1..], depth);
        assert [] + rest == rest;
        ReflowsConcat(raw, [], Concat(tokens[1..]), Printed(rest, depth));
        assert [] + Printed(rest, depth) == Printed(rest, depth);
      } else if token[0] == '<' {
        var at, after := DepthAt(depth, token), DepthAfter(depth, token);
        PrintedReflows(tokens[1..], after);
        PrintedKept(token, rest, depth);
        NewlineIsNothing();
        SpacesAreNothing(2 * at);
        CountsConcat(Spaces(2 * at), token);
        CountsConcat(Spaces(2 * at) + token, "\n");
        ReflowsConcat(raw, Spaces(2 * at) + token + "\n", Concat(tokens[1..]), Printed(rest, after));
      } else {
        PrintedReflows(tokens[1..], depth);
        PrintedLines(ContentLines(token), rest, depth);
        JoinOfSplit(token, '\n');
        LinesReflow(Split(token, '\n'));
        IndentReflows(ContentLines(token), depth);
        ReflowsConcat(raw, Unlines(IndentAll(ContentLines(token), depth)), Concat(tokens[1..]), Printed(rest, depth));
      }
    }
  }

  lemma {:induction false} NormCrlfReflows(s: string)
    ensures Reflows(s, NormCrlf(s))
    ensures HasCrlf(s) ==> Crs(NormCrlf(s)) < Crs(s)
    decreases |s|
  {
    if s == [] {
    } else if |s| >= 2 && s[0] == '\r' && s[1] == '\n' {
      NormCrlfReflows(s[2..]);
      NewlineIsNothing();
      CountsConcat("\n", NormCrlf(s[2..]));
      assert s[1..][1..] == s[2..];
    } else {
      NormCrlfReflows(s[1..]);
      assert NormCrlf(s)[1..] == NormCrlf(s[1..]);
      if HasCrlf(s) {
        var i :| 0 <= i < |s| - 1 && s[i] == '\r' && s[i + 1] == '\n';
        assert i > 0;
        assert s[1..][i - 1] == '\r' && s[1..][i - 1 + 1] == '\n';
      }
    }
  }

  /** The output is the printed items; a text without items prints as an empty line. */
  lemma FormatIsPrinted(text: string)
    ensures Layout(Read(text), 0) == [] ==> Format(text) == "\n"
    ensures Layout(Read(text), 0) != [] ==> Format(text) == Printed(Read(text), 0)
  {
    var lines := Layout(Read(text), 0);
    if lines != [] {
      JoinIsUnlines(lines);
    } else {
      assert [] + "\n" == "\n";
    }
  }

  lemma FormatReflows(text: string)
    ensures Reflows(Prepared(text), Format(text))
  {
    PrintedReflows(Tokens(Prepared(text)), 0);
    ConcatOfTokens(Prepared(text));
    FormatIsPrinted(text);
    NewlineIsNothing();
  }

  /** The printer loses nothing but white space, adds nothing but white space, and keeps the order. */
  lemma FormatKeepsContent(text: string)
    ensures NonSpaces(Format(text)) == NonSpaces(text)
  {
    FormatReflows(text);
    NormCrlfReflows(StripBom(text));
  }
}
