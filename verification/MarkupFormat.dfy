/**
  The markup pretty-printer of `lib/guest-file-format.ts`: cut the text at its tags, print one
  token per line, indent by nesting depth.
*/
module MarkupFormat {
  import opened Text

  // ---------- tokens: split(/(<[^>]+>)/g) ----------

  /** The pattern `<[^>]+>` matches at the start of the text. */
  predicate TagAt(s: string) {
    |s| > 1 && s[0] == '<' && s[1] != '>' && '>' in s
  }

  /** The length of the shortest prefix that ends in '>'. */
  function ThroughGt(s: string): (n: nat)
    requires '>' in s
    ensures 0 < n <= |s| && s[n - 1] == '>'
    ensures forall i :: 0 <= i < n - 1 ==> s[i] != '>'
  {
    if s[0] == '>' then 1 else 1 + ThroughGt(s[1..])
  }

  /** Where the first tag starts, or the length of the text if it has none. */
  function FirstTag(s: string): (i: nat)
    ensures i <= |s|
    ensures i < |s| ==> TagAt(s[i..])
  {
    if s == [] || TagAt(s) then 0 else 1 + FirstTag(s[1..])
  }

  function Tokens(s: string): (tokens: seq<string>)
    ensures |tokens| > 0
    decreases |s|
  {
    var i := FirstTag(s);
    if i == |s| then [s]
    else
      var n := ThroughGt(s[i..]);
      [s[..i], s[i..][..n]] + Tokens(s[i..][n..])
  }

  // ---------- indentation ----------

  const VOID_TAGS: set<string> := {
    "area", "base", "br", "col", "embed", "hr", "img", "input", "link", "meta", "param", "source", "track", "wbr"
  }

  function NameRun(s: string): (n: nat)
    ensures n <= |s|
  {
    if s == [] || IsSpace(s[0]) || s[0] == '>' || s[0] == '/' then 0 else 1 + NameRun(s[1..])
  }

  predicate EndsWith(s: string, t: string) {
    |t| <= |s| && s[|s| - |t|..] == t
  }

  predicate Closes(token: string) {
    "</" <= token
  }

  predicate SelfCloses(token: string)
    requires token != []
  {
    || EndsWith(token, "/>")
    || "<!--" <= token
    || "<?" <= token
    || "<!" <= token
    || LowerName(token[1..][..NameRun(token[1..])]) in VOID_TAGS
  }

  /** The depth at which a token starting with '<' is printed, and the depth after it. */
  function DepthAt(depth: nat, token: string): nat {
    if Closes(token) && depth > 0 then depth - 1 else depth
  }

  function DepthAfter(depth: nat, token: string): nat
    requires token != []
  {
    if Closes(token) then DepthAt(depth, token)
    else if SelfCloses(token) then depth
    else depth + 1
  }

  function Spaces(n: nat): (s: string)
    ensures |s| == n && forall i :: 0 <= i < n ==> s[i] == ' '
  {
    seq(n, _ => ' ')
  }

  // ---------- what is printed ----------

  /** A token that starts with '<' is printed as it stands; any other text line by line. */
  datatype Item = Kept(token: string) | Lines(lines: seq<string>)

  function ItemOf(raw: string): seq<Item> {
    var token := Trim(raw);
    if token == [] then []
    else if token[0] == '<' then [Kept(token)]
    else [Lines(ContentLines(token))]
  }

  function Items(tokens: seq<string>): seq<Item> {
    if tokens == [] then [] else ItemOf(tokens[0]) + Items(tokens[1..])
  }

  function IndentAll(lines: seq<string>, depth: nat): seq<string> {
    if lines == [] then [] else [Spaces(2 * depth) + lines[0]] + IndentAll(lines[1..], depth)
  }

  function Layout(items: seq<Item>, depth: nat): seq<string> {
    if items == [] then []
    else match items[0]
      case Kept(token) =>
        if token == [] then Layout(items[1..], depth)
        else [Spaces(2 * DepthAt(depth, token)) + token] + Layout(items[1..], DepthAfter(depth, token))
      case Lines(lines) => IndentAll(lines, depth) + Layout(items[1..], depth)
  }

  function Prepared(text: string): string {
    NormCrlf(StripBom(text))
  }

  /** The items the printer finds in a text. */
  function Read(text: string): seq<Item> {
    Items(Tokens(Prepared(text)))
  }

  function Format(text: string): string {
    Join(Layout(Read(text), 0), "\n") + "\n"
  }

  // ---------- the loop ----------

  lemma LayoutKept(token: string, rest: seq<Item>, depth: nat)
    requires token != []
    ensures Layout([Kept(token)] + rest, depth)
         == [Spaces(2 * DepthAt(depth, token)) + token] + Layout(rest, DepthAfter(depth, token))
  {
    assert ([Kept(token)] + rest)[1..] == rest;
  }

  lemma LayoutLines(lines: seq<string>, rest: seq<Item>, depth: nat)
    ensures Layout([Lines(lines)] + rest, depth) == IndentAll(lines, depth) + Layout(rest, depth)
  {
    assert ([Lines(lines)] + rest)[1..] == rest;
  }

  lemma IndentNext(parts: seq<string>, i: nat, depth: nat)
    requires i < |parts|
    ensures IndentAll(NonEmpty(TrimAll(parts[i..])), depth) ==
            (if Trim(parts[i]) == [] then [] else [Spaces(2 * depth) + Trim(parts[i])])
            + IndentAll(NonEmpty(TrimAll(parts[i + 1..])), depth)
  {
    assert TrimAll(parts[i..])[0] == Trim(parts[i]);
    assert TrimAll(parts[i..])[1..] == TrimAll(parts[i + 1..]);
  }

  /** The inner loop: the non-blank lines of a text token, trimmed and indented. */
  method PushLines(lines: seq<string>, token: string, indent: nat) returns (r: seq<string>)
    ensures r == lines + IndentAll(ContentLines(token), indent)
  {
    r := lines;
    var parts := Split(token, '\n');
    ghost var whole := lines + IndentAll(ContentLines(token), indent);
    assert parts[0..] == parts;
    for k := 0 to |parts|
      invariant r + IndentAll(NonEmpty(TrimAll(parts[k..])), indent) == whole
    {
      IndentNext(parts, k, indent);
      ghost var later := IndentAll(NonEmpty(TrimAll(parts[k + 1..])), indent);
      var trimmed := Trim(parts[k]);
      if trimmed != [] {
        ConcatAssociates(r, [Spaces(2 * indent) + trimmed], later);
        r := r + [Spaces(2 * indent) + trimmed];
      } else {
        assert [] + later == later;
      }
    }
    assert TrimAll(parts[|parts|..]) == [];
  }

  /** What one token adds to the output, and the depth it leaves. */
  lemma LayoutToken(tokens: seq<string>, n: nat, depth: nat)
    requires n < |tokens|
    ensures var token, rest := Trim(tokens[n]), Items(tokens[n + 1..]);
            Layout(Items(tokens[n..]), depth) ==
              if token == [] then Layout(rest, depth)
              else if token[0] == '<' then
                [Spaces(2 * DepthAt(depth, token)) + token] + Layout(rest, DepthAfter(depth, token))
              else IndentAll(ContentLines(token), depth) + Layout(rest, depth)
  {
    assert tokens[n..][1..] == tokens[n + 1..];
    var token, rest := Trim(tokens[n]), Items(tokens[n + 1..]);
    if token == [] {
      assert [] + rest == rest;
    } else if token[0] == '<' {
      LayoutKept(token, rest, depth);
    } else {
      LayoutLines(ContentLines(token), rest, depth);
    }
  }

  /** One turn of the loop over the tokens. */
  method PushToken(lines: seq<string>, indent: nat, token: string)
    returns (r: seq<string>, depth: nat)
    requires token != []
    ensures token[0] == '<' ==> depth == DepthAfter(indent, token)
    ensures token[0] == '<' ==> r == lines + [Spaces(2 * DepthAt(indent, token)) + token]
    ensures token[0] != '<' ==> depth == indent && r == lines + IndentAll(ContentLines(token), indent)
  {
    depth := indent;
    if Closes(token) {
      depth := if indent > 0 then indent - 1 else 0;
      r := lines + [Spaces(2 * depth) + token];
      return;
    }
    if token[0] == '<' {
      r := lines + [Spaces(2 * indent) + token];
      if !SelfCloses(token) {
        depth := indent + 1;
      }
      return;
    }
    r := PushLines(lines, token, indent);
  }

  method FormatMarkup(text: string) returns (out: string)
    ensures out == Format(text)
  {
    var tokens := Tokens(NormCrlf(StripBom(text)));
    var indent: nat := 0;
    var lines: seq<string> := [];
    ghost var whole := Layout(Items(tokens), 0);
    assert tokens[0..] == tokens;
    for n := 0 to |tokens|
      invariant lines + Layout(Items(tokens[n..]), indent) == whole
    {
      LayoutToken(tokens, n, indent);
      ghost var rest, depth, before := Items(tokens[n + 1..]), indent, lines;
      var token := Trim(tokens[n]);
      if token == [] {
        continue;
      }
      lines, indent := PushToken(lines, indent, token);
      if token[0] == '<' {
        ConcatAssociates(before, [Spaces(2 * DepthAt(depth, token)) + token], Layout(rest, indent));
      } else {
        ConcatAssociates(before, IndentAll(ContentLines(token), indent), Layout(rest, indent));
      }
    }
    assert tokens[|tokens|..] == [];
    assert lines == whole;
    out := Join(lines, "\n") + "\n";
  }

  // ---------- printing as one string ----------

  function Unlines(lines: seq<string>): string {
    if lines == [] then [] else lines[0] + "\n" + Unlines(lines[1..])
  }

  lemma {:induction false} JoinIsUnlines(lines: seq<string>)
    requires lines != []
    ensures Join(lines, "\n") + "\n" == Unlines(lines)
  {
    if |lines| == 1 {
      assert Unlines(lines[1..]) == [];
      assert lines[0] + "\n" + [] == lines[0] + "\n";
    } else {
      JoinIsUnlines(lines[1..]);
      assert lines[0] + "\n" + Join(lines[1..], "\n") + "\n" == lines[0] + "\n" + (Join(lines[1..], "\n") + "\n");
    }
  }

  lemma {:induction false} UnlinesConcat(a: seq<string>, b: seq<string>)
    ensures Unlines(a + b) == Unlines(a) + Unlines(b)
  {
    if a == [] {
      assert a + b == b;
    } else {
      assert (a + b)[1..] == a[1..] + b;
      UnlinesConcat(a[1..], b);
      assert a[0] + "\n" + (Unlines(a[1..]) + Unlines(b)) == a[0] + "\n" + Unlines(a[1..]) + Unlines(b);
    }
  }

  function Printed(items: seq<Item>, depth: nat): string {
    Unlines(Layout(items, depth))
  }

  lemma PrintedKept(token: string, rest: seq<Item>, depth: nat)
    requires token != []
    ensures Printed([Kept(token)] + rest, depth)
         == Spaces(2 * DepthAt(depth, token)) + token + "\n" + Printed(rest, DepthAfter(depth, token))
  {
    LayoutKept(token, rest, depth);
    var l := Spaces(2 * DepthAt(depth, token)) + token;
    var tail := Layout(rest, DepthAfter(depth, token));
    assert ([l] + tail)[1..] == tail;
  }

  lemma PrintedLines(lines: seq<string>, rest: seq<Item>, depth: nat)
    ensures Printed([Lines(lines)] + rest, depth) == Unlines(IndentAll(lines, depth)) + Printed(rest, depth)
  {
    LayoutLines(lines, rest, depth);
    UnlinesConcat(IndentAll(lines, depth), Layout(rest, depth));
  }
}
