/**
  Where the markup printer of `lib/guest-file-format.ts` puts each line: a text is taken apart into nested
  elements, and every line is printed two columns deeper than the element that holds it.
*/
module MarkupNesting {
  import opened Text
  import opened MarkupFormat
  import opened MarkupConservation
  import opened MarkupIdempotence

  /** Markup, read from the front: each part starts with the text before its first tag. */
  datatype Markup =
    | Plain(text: string)
    | Single(text: string, tag: string, rest: Markup)
    | Element(text: string, open: string, inner: Markup, close: string, rest: Markup)
    | Unclosed(text: string, open: string, inner: Markup)
    | Stray(text: string, close: string, rest: Markup)

  function Source(m: Markup): string {
    match m
    case Plain(c) => c
    case Single(c, t, rest) => c + t + Source(rest)
    case Element(c, open, inner, close, rest) => c + open + (Source(inner) + close + Source(rest))
    case Unclosed(c, open, inner) => c + open + Source(inner)
    case Stray(c, t, rest) => c + t + Source(rest)
  }

  // ---------- the kinds of tags ----------

  predicate IsVoidName(n: string) {
    || n == "area" || n == "base" || n == "br" || n == "col" || n == "embed" || n == "hr" || n == "img"
    || n == "input" || n == "link" || n == "meta" || n == "param" || n == "source" || n == "track" || n == "wbr"
  }

  predicate EndsName(c: char) {
    IsSpace(c) || c == '/' || c == '>'
  }

  /** The name of the tag has `k` characters and, in whatever case, is that of an element without content. */
  predicate VoidNameOf(t: string, k: nat) {
    && 1 + k < |t| && EndsName(t[1 + k]) && (forall i :: 1 <= i <= k ==> !EndsName(t[i]))
    && IsVoidName(LowerName(t[1..1 + k]))
  }

  predicate HasVoidName(t: string) {
    exists k: nat :: k < |t| && VoidNameOf(t, k)
  }

  ghost predicate IsClosing(t: string) {
    IsTag(t) && t[1] == '/'
  }

  /** A comment, a declaration, an instruction, a tag that closes itself or that has no content. */
  ghost predicate IsSingle(t: string) {
    IsTag(t) && t[1] != '/' && (t[1] == '!' || t[1] == '?' || t[|t| - 2] == '/' || HasVoidName(t))
  }

  ghost predicate IsOpening(t: string) {
    IsTag(t) && t[1] != '/' && !IsSingle(t)
  }

  /** Text, before a tag or at the end, in which no tag starts and which does not begin like one. */
  ghost predicate IsText(c: string, before: bool) {
    NoTag(c, before) && TextItem(c)
  }

  predicate TextItem(c: string) {
    Trim(c) == [] || Trim(c)[0] != '<'
  }

  /** Markup that a tag follows, or that lasts to the end. */
  ghost predicate Shaped(m: Markup, last: bool) {
    match m
    case Plain(c) => IsText(c, !last)
    case Single(c, t, rest) => IsText(c, true) && IsSingle(t) && Shaped(rest, last)
    case Element(c, open, inner, close, rest) =>
      IsText(c, true) && IsOpening(open) && Shaped(inner, false) && IsClosing(close) && Shaped(rest, last)
    case Unclosed(c, open, inner) => IsText(c, true) && IsOpening(open) && Shaped(inner, last)
    case Stray(c, t, rest) => IsText(c, true) && IsClosing(t) && Shaped(rest, last)
  }

  /** Closing tags without a partner stand outside all elements, and what is never closed lasts to the end. */
  predicate Nested(m: Markup, outside: bool, last: bool) {
    match m
    case Plain(_) => true
    case Single(_, _, rest) => Nested(rest, outside, last)
    case Element(_, _, inner, _, rest) => Nested(inner, false, false) && Nested(rest, outside, last)
    case Unclosed(_, _, inner) => last && Nested(inner, false, true)
    case Stray(_, _, rest) => outside && Nested(rest, outside, last)
  }

  // ---------- how it is to be printed ----------

  function AtLevel(lines: seq<string>, level: nat): seq<string> {
    seq(|lines|, i requires 0 <= i < |lines| => Spaces(2 * level) + lines[i])
  }

  /** One tag on a line; the two tags of an element in one column, its content two columns deeper. */
  function Pretty(m: Markup, level: nat): seq<string> {
    match m
    case Plain(c) => AtLevel(ContentLines(c), level)
    case Single(c, t, rest) => AtLevel(ContentLines(c) + [t], level) + Pretty(rest, level)
    case Element(c, open, inner, close, rest) =>
      AtLevel(ContentLines(c) + [open], level) + Pretty(inner, level + 1) + AtLevel([close], level)
      + Pretty(rest, level)
    case Unclosed(c, open, inner) => AtLevel(ContentLines(c) + [open], level) + Pretty(inner, level + 1)
    case Stray(c, t, rest) => AtLevel(ContentLines(c) + [t], level) + Pretty(rest, level)
  }

  // ---------- the printer knows the kinds ----------

  lemma {:induction false} NameRunEnds(s: string)
    ensures var n := NameRun(s);
            (forall i :: 0 <= i < n ==> !EndsName(s[i])) && (n < |s| ==> EndsName(s[n]))
  {
    if s != [] && !EndsName(s[0]) {
      NameRunEnds(s[1..]);
    }
  }

  lemma VoidNames(n: string)
    ensures n in VOID_TAGS <==> IsVoidName(n)
  {
  }

  lemma NameIs(t: string, k: nat)
    requires IsTag(t) && 1 + k < |t| && EndsName(t[1 + k]) && forall i :: 1 <= i <= k ==> !EndsName(t[i])
    ensures NameRun(t[1..]) == k
  {
    var n := NameRun(t[1..]);
    NameRunEnds(t[1..]);
    assert t[1..][k] == t[1 + k];
    assert n < |t[1..]| ==> t[1..][n] == t[1 + n];
  }

  lemma VoidNameIff(t: string)
    requires IsTag(t)
    ensures HasVoidName(t) <==> LowerName(t[1..][..NameRun(t[1..])]) in VOID_TAGS
  {
    var n := NameRun(t[1..]);
    NameRunEnds(t[1..]);
    assert t[1..][|t| - 2] == '>';
    forall i | 1 <= i <= n
      ensures !EndsName(t[i])
    {
      assert t[1..][i - 1] == t[i];
    }
    assert t[1..][n] == t[1 + n];
    assert t[1..][..n] == t[1..1 + n];
    VoidNames(LowerName(t[1..1 + n]));
    if k: nat :| k < |t| && VoidNameOf(t, k) {
      NameIs(t, k);
    }
    assert HasVoidName(t) || !VoidNameOf(t, n);
  }

  lemma TagEnds(t: string)
    requires IsTag(t)
    ensures t[0] == '<' && t[|t| - 1] == '>' && |t| > 2 && (EndsWith(t, "/>") <==> t[|t| - 2] == '/')
  {
    assert t[|t| - 1] == '>' && t[1] != '>';
  }

  lemma StartsWithTwo(t: string, c: char)
    requires |t| > 1 && t[0] == '<'
    ensures ['<', c] <= t <==> t[1] == c
  {
  }

  /** What a tag does to the depth. */
  lemma KindsOfTags(t: string)
    requires IsTag(t)
    ensures t != [] && (IsClosing(t) <==> Closes(t))
    ensures !IsClosing(t) ==> (IsSingle(t) <==> SelfCloses(t))
  {
    TagEnds(t);
    VoidNameIff(t);
    StartsWithTwo(t, '/');
    StartsWithTwo(t, '!');
    StartsWithTwo(t, '?');
    assert "<!--" <= t ==> "<!" <= t;
  }

  // ---------- reading the markup ----------

  function Parts(m: Markup): seq<Item> {
    match m
    case Plain(c) => ItemOf(c)
    case Single(c, t, rest) => ItemOf(c) + [Kept(t)] + Parts(rest)
    case Element(c, open, inner, close, rest) =>
      ItemOf(c) + [Kept(open)] + (Parts(inner) + [Kept(close)] + Parts(rest))
    case Unclosed(c, open, inner) => ItemOf(c) + [Kept(open)] + Parts(inner)
    case Stray(c, t, rest) => ItemOf(c) + [Kept(t)] + Parts(rest)
  }

  lemma Regroup<T>(a: seq<T>, b: seq<T>, c: seq<T>, d: seq<T>, e: seq<T>)
    ensures a + b + c + d + e == a + b + (c + d + e)
  {
  }

  lemma Regroup7<T>(a: seq<T>, b: seq<T>, c: seq<T>, d: seq<T>, e: seq<T>, f: seq<T>, g: seq<T>)
    ensures a + b + (c + d + e) + f + g == a + b + (c + d + (e + f + g))
  {
  }

  /** Before a tag. */
  lemma {:induction false} ReadsParts(m: Markup, t: string, r: string)
    requires Shaped(m, false) && IsTag(t)
    ensures Reading(Source(m) + t + r) == Parts(m) + [Kept(t)] + Reading(r)
    decreases m, 0
  {
    match m
    case Plain(c) => ReadingTag(c, t, r);
    case Single(c, s, rest) => ReadsTagAndRest(c, s, rest, t, r);
    case Unclosed(c, s, rest) => ReadsTagAndRest(c, s, rest, t, r);
    case Stray(c, s, rest) => ReadsTagAndRest(c, s, rest, t, r);
    case Element(c, open, inner, close, rest) =>
      ReadsParts(rest, t, r);
      ReadsParts(inner, close, Source(rest) + t + r);
      ReadingTag(c, open, Source(inner) + close + (Source(rest) + t + r));
      Regroup7(c, open, Source(inner), close, Source(rest), t, r);
      Regroup7(ItemOf(c), [Kept(open)], Parts(inner), [Kept(close)], Parts(rest), [Kept(t)], Reading(r));
  }

  lemma {:induction false} ReadsTagAndRest(c: string, s: string, rest: Markup, t: string, r: string)
    requires IsText(c, true) && IsTag(s) && Shaped(rest, false) && IsTag(t)
    ensures Reading(c + s + Source(rest) + t + r) == ItemOf(c) + [Kept(s)] + Parts(rest) + [Kept(t)] + Reading(r)
    decreases rest, 1
  {
    ReadsParts(rest, t, r);
    ReadingTag(c, s, Source(rest) + t + r);
    Regroup(c, s, Source(rest), t, r);
    Regroup(ItemOf(c), [Kept(s)], Parts(rest), [Kept(t)], Reading(r));
  }

  /** To the end. */
  lemma {:induction false} ReadsWhole(m: Markup)
    requires Shaped(m, true)
    ensures Reading(Source(m)) == Parts(m)
  {
    match m
    case Plain(c) => ReadingText(c);
    case Single(c, t, rest) =>
      ReadsWhole(rest);
      ReadingTag(c, t, Source(rest));
    case Unclosed(c, t, rest) =>
      ReadsWhole(rest);
      ReadingTag(c, t, Source(rest));
    case Stray(c, t, rest) =>
      ReadsWhole(rest);
      ReadingTag(c, t, Source(rest));
    case Element(c, open, inner, close, rest) =>
      ReadsWhole(rest);
      ReadsParts(inner, close, Source(rest));
      ReadingTag(c, open, Source(inner) + close + Source(rest));
  }

  // ---------- printing it ----------

  ghost predicate Moves(t: string, before: int, after: int) {
    t != [] && forall d: nat :: DepthAt(d, t) == Max(0, d + before) && DepthAfter(d, t) == Max(0, d + after)
  }

  /** The same shape, as the printer sees it. */
  ghost predicate Known(m: Markup) {
    match m
    case Plain(c) => TextItem(c)
    case Single(c, t, rest) => TextItem(c) && Moves(t, 0, 0) && Known(rest)
    case Element(c, open, inner, close, rest) =>
      TextItem(c) && Moves(open, 0, 1) && Known(inner) && Moves(close, -1, -1) && Known(rest)
    case Unclosed(c, open, inner) => TextItem(c) && Moves(open, 0, 1) && Known(inner)
    case Stray(c, t, rest) => TextItem(c) && Moves(t, -1, -1) && Known(rest)
  }

  lemma TagMoves(t: string)
    requires IsTag(t)
    ensures IsSingle(t) ==> Moves(t, 0, 0)
    ensures IsOpening(t) ==> Moves(t, 0, 1)
    ensures IsClosing(t) ==> Moves(t, -1, -1)
  {
    KindsOfTags(t);
  }

  lemma {:induction false} ShapeIsKnown(m: Markup, last: bool)
    requires Shaped(m, last)
    ensures Known(m)
  {
    match m
    case Plain(_) =>
    case Single(_, t, rest) =>
      TagMoves(t);
      ShapeIsKnown(rest, last);
    case Element(_, open, inner, close, rest) =>
      TagMoves(open);
      TagMoves(close);
      ShapeIsKnown(inner, false);
      ShapeIsKnown(rest, last);
    case Unclosed(_, open, inner) =>
      TagMoves(open);
      ShapeIsKnown(inner, last);
    case Stray(_, t, rest) =>
      TagMoves(t);
      ShapeIsKnown(rest, last);
  }

  lemma {:induction false} IndentAllIsAtLevel(lines: seq<string>, level: nat)
    ensures IndentAll(lines, level) == AtLevel(lines, level)
  {
    if lines != [] {
      IndentAllIsAtLevel(lines[1..], level);
      assert AtLevel(lines, level) == [Spaces(2 * level) + lines[0]] + AtLevel(lines[1..], level);
    }
  }

  lemma PrintsText(c: string, more: seq<Item>, level: nat)
    requires TextItem(c)
    ensures Layout(ItemOf(c) + more, level) == AtLevel(ContentLines(c), level) + Layout(more, level)
  {
    FieldsOfTrimmed(c, '\n');
    if Trim(c) == [] {
      assert Trim([]) == [];
      assert Split([], '\n') == [[]];
      assert TrimAll([[]])[1..] == [];
      assert ContentLines(c) == [];
      assert [] + more == more;
      assert AtLevel([], level) + Layout(more, level) == Layout(more, level);
    } else {
      LayoutLines(ContentLines(Trim(c)), more, level);
      IndentAllIsAtLevel(ContentLines(c), level);
    }
  }

  lemma TagLine(c: string, t: string, level: nat)
    ensures AtLevel(ContentLines(c) + [t], level) == AtLevel(ContentLines(c), level) + [Spaces(2 * level) + t]
  {
  }

  lemma PrintsTag(c: string, t: string, step: nat, more: seq<Item>, level: nat)
    requires TextItem(c) && Moves(t, 0, step)
    ensures Layout(ItemOf(c) + [Kept(t)] + more, level)
         == AtLevel(ContentLines(c) + [t], level) + Layout(more, level + step)
  {
    PrintsText(c, [Kept(t)] + more, level);
    LayoutKept(t, more, level);
    TagLine(c, t, level);
    ConcatAssociates(ItemOf(c), [Kept(t)], more);
    ConcatAssociates(AtLevel(ContentLines(c), level), [Spaces(2 * level) + t], Layout(more, level + step));
  }

  lemma PrintsClosing(t: string, more: seq<Item>, level: nat)
    requires Moves(t, -1, -1)
    ensures Layout([Kept(t)] + more, level + 1) == AtLevel([t], level) + Layout(more, level)
    ensures Layout([Kept(t)] + more, 0) == AtLevel([t], 0) + Layout(more, 0)
  {
    LayoutKept(t, more, level + 1);
    LayoutKept(t, more, 0);
  }

  lemma PrintsSingle(c: string, t: string, rest: seq<Item>, lines: seq<string>, more: seq<Item>, level: nat)
    requires TextItem(c) && Moves(t, 0, 0) && Layout(rest + more, level) == lines + Layout(more, level)
    ensures Layout(ItemOf(c) + [Kept(t)] + rest + more, level)
         == AtLevel(ContentLines(c) + [t], level) + lines + Layout(more, level)
  {
    ConcatAssociates(ItemOf(c) + [Kept(t)], rest, more);
    PrintsTag(c, t, 0, rest + more, level);
    ConcatAssociates(AtLevel(ContentLines(c) + [t], level), lines, Layout(more, level));
  }

  lemma PrintsFront(front: seq<Item>, first: seq<string>, rest: seq<Item>, lines: seq<string>, more: seq<Item>,
                    level: nat)
    requires Layout(front + (rest + more), level) == first + Layout(rest + more, level)
    requires Layout(rest + more, level) == lines + Layout(more, level)
    ensures Layout(front + rest + more, level) == first + lines + Layout(more, level)
  {
    ConcatAssociates(front, rest, more);
    ConcatAssociates(first, lines, Layout(more, level));
  }

  /** An element, or anything else that leaves none open, before more. */
  lemma {:induction false} PrintsNested(m: Markup, more: seq<Item>, level: nat)
    requires Known(m) && Nested(m, false, false)
    ensures Layout(Parts(m) + more, level) == Pretty(m, level) + Layout(more, level)
    decreases m, 1
  {
    match m
    case Plain(c) => PrintsText(c, more, level);
    case Single(c, t, rest) =>
      PrintsNested(rest, more, level);
      PrintsSingle(c, t, Parts(rest), Pretty(rest, level), more, level);
    case Element(c, open, inner, close, rest) =>
      PrintsNested(rest, more, level);
      ElementBefore(m, Parts(rest) + more, level);
      Sides(m);
      PrintsFront(ItemOf(c) + [Kept(open)] + (Parts(inner) + [Kept(close)]), Front(m, level),
                  Parts(rest), Pretty(rest, level), more, level);
  }

  /** The lines of an element up to its closing tag. */
  function Front(m: Markup, level: nat): seq<string>
    requires m.Element?
  {
    AtLevel(ContentLines(m.text) + [m.open], level) + Pretty(m.inner, level + 1) + AtLevel([m.close], level)
  }

  lemma Sides(m: Markup)
    requires m.Element?
    ensures Parts(m) == ItemOf(m.text) + [Kept(m.open)] + (Parts(m.inner) + [Kept(m.close)]) + Parts(m.rest)
  {
  }

  lemma {:induction false} ElementBefore(m: Markup, more: seq<Item>, level: nat)
    requires m.Element? && Known(m) && Nested(m.inner, false, false)
    ensures Layout(ItemOf(m.text) + [Kept(m.open)] + (Parts(m.inner) + [Kept(m.close)]) + more, level)
         == Front(m, level) + Layout(more, level)
    decreases m, 0
  {
    PrintsNested(m.inner, [Kept(m.close)] + more, level + 1);
    PrintsPair(m.text, m.open, Parts(m.inner), Pretty(m.inner, level + 1), m.close, more, level);
  }

  lemma PrintsPair(c: string, open: string, inner: seq<Item>, lines: seq<string>, close: string, more: seq<Item>,
                   level: nat)
    requires TextItem(c) && Moves(open, 0, 1) && Moves(close, -1, -1)
    requires var behind := [Kept(close)] + more;
             Layout(inner + behind, level + 1) == lines + Layout(behind, level + 1)
    ensures Layout(ItemOf(c) + [Kept(open)] + (inner + [Kept(close)]) + more, level)
         == AtLevel(ContentLines(c) + [open], level) + lines + AtLevel([close], level) + Layout(more, level)
  {
    var front, first := ItemOf(c) + [Kept(open)], AtLevel(ContentLines(c) + [open], level);
    PrintsTag(c, open, 1, inner + ([Kept(close)] + more), level);
    PrintsClosing(close, more, level);
    Regroup4(front, inner, [Kept(close)], more);
    Regroup4(first, lines, AtLevel([close], level), Layout(more, level));
  }

  lemma Regroup4<T>(a: seq<T>, b: seq<T>, c: seq<T>, d: seq<T>)
    ensures a + (b + (c + d)) == a + b + c + d == a + (b + c) + d
  {
  }

  lemma PrintsTagAndRest(c: string, t: string, step: nat, more: seq<Item>, lines: seq<string>, level: nat)
    requires TextItem(c) && Moves(t, 0, step) && Layout(more, level + step) == lines
    ensures Layout(ItemOf(c) + [Kept(t)] + more, level) == AtLevel(ContentLines(c) + [t], level) + lines
  {
    PrintsTag(c, t, step, more, level);
  }

  lemma PrintsStray(c: string, t: string, more: seq<Item>, lines: seq<string>)
    requires TextItem(c) && Moves(t, -1, -1) && Layout(more, 0) == lines
    ensures Layout(ItemOf(c) + [Kept(t)] + more, 0) == AtLevel(ContentLines(c) + [t], 0) + lines
  {
    ConcatAssociates(ItemOf(c), [Kept(t)], more);
    PrintsText(c, [Kept(t)] + more, 0);
    PrintsClosing(t, more, 0);
    assert AtLevel(ContentLines(c) + [t], 0) == AtLevel(ContentLines(c), 0) + AtLevel([t], 0);
    ConcatAssociates(AtLevel(ContentLines(c), 0), AtLevel([t], 0), Layout(more, 0));
  }

  ghost predicate PrintsAs(m: Markup, level: nat) {
    Layout(Parts(m), level) == Pretty(m, level)
  }

  /** A document, or what follows a tag that is never closed. */
  lemma {:induction false} PrintsWhole(m: Markup, level: nat)
    requires Known(m) && Nested(m, level == 0, true)
    ensures PrintsAs(m, level)
  {
    match m
    case Plain(_) => PlainPrints(m, level);
    case Single(_, _, rest) =>
      PrintsWhole(rest, level);
      SinglePrints(m, level);
    case Unclosed(_, _, inner) =>
      PrintsWhole(inner, level + 1);
      UnclosedPrints(m, level);
    case Stray(_, _, rest) =>
      PrintsWhole(rest, 0);
      StrayPrints(m);
    case Element(_, _, _, _, rest) =>
      PrintsWhole(rest, level);
      ElementPrints(m, level);
  }

  lemma PlainPrints(m: Markup, level: nat)
    requires m.Plain? && Known(m)
    ensures PrintsAs(m, level)
  {
    PrintsText(m.text, [], level);
    assert ItemOf(m.text) + [] == ItemOf(m.text);
  }

  lemma SinglePrints(m: Markup, level: nat)
    requires m.Single? && Known(m) && PrintsAs(m.rest, level)
    ensures PrintsAs(m, level)
  {
    PrintsTagAndRest(m.text, m.tag, 0, Parts(m.rest), Pretty(m.rest, level), level);
  }

  lemma UnclosedPrints(m: Markup, level: nat)
    requires m.Unclosed? && Known(m) && PrintsAs(m.inner, level + 1)
    ensures PrintsAs(m, level)
  {
    PrintsTagAndRest(m.text, m.open, 1, Parts(m.inner), Pretty(m.inner, level + 1), level);
  }

  lemma StrayPrints(m: Markup)
    requires m.Stray? && Known(m) && PrintsAs(m.rest, 0)
    ensures PrintsAs(m, 0)
  {
    PrintsStray(m.text, m.close, Parts(m.rest), Pretty(m.rest, 0));
  }

  lemma ElementPrints(m: Markup, level: nat)
    requires m.Element? && Known(m) && Nested(m.inner, false, false)
    requires PrintsAs(m.rest, level)
    ensures PrintsAs(m, level)
  {
    ElementBefore(m, Parts(m.rest), level);
    Sides(m);
  }

  /** Markup is printed by its nesting. */
  lemma FormatIsPretty(text: string, m: Markup)
    requires Prepared(text) == Source(m) && Shaped(m, true) && Nested(m, true, true)
    ensures Format(text) == Join(Pretty(m, 0), "\n") + "\n"
  {
    ReadsWhole(m);
    ShapeIsKnown(m, true);
    PrintsWhole(m, 0);
  }

  // ---------- every text is such markup ----------

  /** All that starts with '<' and is printed as it stands is a tag. */
  ghost predicate OnlyTags(s: string) {
    forall item :: item in Reading(s) && item.Kept? ==> IsTag(item.token)
  }

  lemma TextBetween(c: string, before: bool)
    requires NoTag(c, before)
    requires forall item :: item in ItemOf(c) && item.Kept? ==> IsTag(item.token)
    ensures IsText(c, before)
  {
    var t := Trim(c);
    if t != [] && t[0] == '<' {
      assert Kept(t) in ItemOf(c);
      NoTagTrimmed(c, before);
      assert OpensNothing(t, 0, before);
      InTail(t, 1, '>');
      TagEnds(t);
    }
  }

  lemma OnlyTagsBehind(c: string, t: string, r: string)
    requires IsTag(t) && NoTag(c, true) && OnlyTags(c + t + r)
    ensures IsText(c, true) && OnlyTags(r)
  {
    ReadingTag(c, t, r);
    forall item | item in ItemOf(c) && item.Kept?
      ensures IsTag(item.token)
    {
      assert item in Reading(c + t + r);
    }
    TextBetween(c, true);
  }

  /** What has been read, up to the end or to a closing tag without a partner in it. */
  ghost predicate ReadUpTo(s: string, inside: bool, m: Markup, ended: bool, close: string, r: string) {
    if ended then Source(m) == s && Shaped(m, true) && Nested(m, !inside, true)
    else
      && inside && Source(m) + close + r == s && |r| < |s| && IsClosing(close) && OnlyTags(r)
      && Shaped(m, false) && Nested(m, false, false)
  }

  lemma {:induction false} TakeApart(s: string, inside: bool)
    returns (m: Markup, ended: bool, close: string, r: string)
    requires OnlyTags(s)
    ensures ReadUpTo(s, inside, m, ended, close, r)
    decreases |s|
  {
    ended, close, r := true, [], [];
    if FirstTag(s) == |s| {
      m := Plain(s);
      BeforeFirstTag(s);
      assert s[..|s|] == s;
      ReadingText(s);
      TextBetween(s, false);
      return;
    }
    var c, t, behind := CutAtTag(s);
    OnlyTagsBehind(c, t, behind);
    if IsClosing(t) {
      if inside {
        m, ended, close, r := Plain(c), false, t, behind;
      } else {
        m, ended, close, r := TakeApart(behind, false);
        m := Stray(c, t, m);
      }
    } else if IsSingle(t) {
      m, ended, close, r := TakeApart(behind, inside);
      if !ended {
        Regroup(c, t, Source(m), close, r);
      }
      m := Single(c, t, m);
    } else {
      m, ended, close, r := TakeApart(behind, true);
      if ended {
        m := Unclosed(c, t, m);
      } else {
        var inner, partner, later := m, close, r;
        m, ended, close, r := TakeApart(later, inside);
        if !ended {
          Regroup7(c, t, Source(inner), partner, Source(m), close, r);
        }
        m := Element(c, t, inner, partner, m);
      }
    }
  }

  /** Every text whose tags are closed by '>' is printed by its nesting. */
  lemma EveryTextIsNested(text: string) returns (m: Markup)
    requires OnlyTags(Prepared(text))
    ensures Prepared(text) == Source(m) && Shaped(m, true) && Nested(m, true, true)
    ensures Format(text) == Join(Pretty(m, 0), "\n") + "\n"
  {
    var ended, close, r;
    m, ended, close, r := TakeApart(Prepared(text), false);
    FormatIsPretty(text, m);
  }
}
