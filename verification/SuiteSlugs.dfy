/** What the id of an app keeps of its name (`lib/suite-embeds.ts`). */
module SuiteSlugs {
  import opened Text
  import opened SuiteIds

  /** Letters and digits stay; everything else separates. */
  function Marked(s: string): string {
    seq(|s|, i requires 0 <= i < |s| => if IsAlnum(s[i]) then s[i] else '-')
  }

  /** The words of a text: its unbroken runs of letters and digits. */
  function WordsOf(s: string): seq<string> {
    NonEmpty(Split(Marked(s), '-'))
  }

  function Slug(s: string): string {
    Join(WordsOf(s), "-")
  }

  lemma MarkedCons(s: string)
    requires s != []
    ensures Marked(s)[0] == (if IsAlnum(s[0]) then s[0] else '-') && Marked(s)[1..] == Marked(s[1..])
  {
  }

  lemma SlugSkips(s: string)
    requires s != [] && !IsAlnum(s[0])
    ensures Slug(s) == Slug(s[1..])
  {
    MarkedCons(s);
    var rest := Split(Marked(s[1..]), '-');
    assert ([[]] + rest)[1..] == rest;
  }

  lemma FirstPart(s: string)
    requires s != [] && IsAlnum(s[0])
    ensures Split(Marked(s), '-')[0] != []
  {
    MarkedCons(s);
  }

  /** A letter in front of a letter. */
  lemma SlugGrows(s: string)
    requires |s| > 1 && IsAlnum(s[0]) && IsAlnum(s[1])
    ensures Slug(s) == [s[0]] + Slug(s[1..])
  {
    MarkedCons(s);
    FirstPart(s[1..]);
    var rest := Split(Marked(s[1..]), '-');
    var parts := [[s[0]] + rest[0]] + rest[1..];
    assert parts[1..] == rest[1..] && rest == [rest[0]] + rest[1..];
    var words := [rest[0]] + NonEmpty(rest[1..]);
    assert words[1..] == NonEmpty(rest[1..]);
    JoinFirst(s[0], words, "-");
  }

  /** A word of one letter. */
  lemma SlugStarts(s: string)
    requires |s| > 1 && IsAlnum(s[0]) && !IsAlnum(s[1])
    ensures WordsOf(s) == [[s[0]]] + WordsOf(s[2..])
  {
    MarkedCons(s);
    MarkedCons(s[1..]);
    assert s[1..][1..] == s[2..];
    var rest := Split(Marked(s[2..]), '-');
    assert Split(Marked(s[1..]), '-') == [[]] + rest;
    assert ([[]] + rest)[1..] == rest && [s[0]] + [] == [s[0]];
    var parts := [[s[0]]] + rest;
    assert Split(Marked(s), '-') == parts;
    assert parts[0] == [s[0]] && parts[1..] == rest;
  }

  lemma {:induction false} DropTrailingCons(c: char, s: string)
    requires c != '-'
    ensures DropTrailingDashes([c] + s) == [c] + DropTrailingDashes(s)
    decreases |s|
  {
    var t := [c] + s;
    if s == [] {
      assert t[|t| - 1] == c;
    } else if s[|s| - 1] == '-' {
      assert t[..|t| - 1] == [c] + s[..|s| - 1];
      DropTrailingCons(c, s[..|s| - 1]);
    }
  }

  lemma {:induction false} DropTrailingAfterDash(s: string)
    ensures DropTrailingDashes(['-'] + s) ==
            if DropTrailingDashes(s) == [] then [] else ['-'] + DropTrailingDashes(s)
    decreases |s|
  {
    var t := ['-'] + s;
    if s == [] {
      assert t[..0] == [];
    } else if s[|s| - 1] == '-' {
      assert t[..|t| - 1] == ['-'] + s[..|s| - 1];
      DropTrailingAfterDash(s[..|s| - 1]);
    }
  }

  lemma SlugOfWords(w: string, words: seq<string>)
    requires forall v :: v in words ==> v != []
    ensures Join([w] + words, "-") == if Join(words, "-") == [] then w else w + "-" + Join(words, "-")
  {
    assert ([w] + words)[1..] == words;
    if words != [] {
      assert words[0] in words;
    }
  }

  /** With or without a run before it, the text comes out as its words. */
  lemma {:induction false} DashedIsSlug(s: string)
    ensures DropTrailingDashes(Dashed(s, true)) == Slug(s)
    ensures s != [] && IsAlnum(s[0]) ==> DropTrailingDashes(Dashed(s, false)) == Slug(s)
    decreases |s|
  {
    if s == [] {
      assert WordsOf([]) == [];
    } else if !IsAlnum(s[0]) {
      DashedIsSlug(s[1..]);
      SlugSkips(s);
    } else if |s| == 1 {
      MarkedCons(s);
      assert Marked(s[1..]) == [];
      assert s[1..] == [] && Dashed(s, true) == [s[0]] == Dashed(s, false);
      OneLetter(s);
      DropTrailingCons(s[0], []);
    } else if IsAlnum(s[1]) {
      DashedIsSlug(s[1..]);
      DropTrailingCons(s[0], Dashed(s[1..], false));
      SlugGrows(s);
    } else {
      AfterWord(s);
    }
  }

  lemma OneLetter(s: string)
    requires |s| == 1 && IsAlnum(s[0])
    ensures WordsOf(s) == [[s[0]]]
  {
    assert Marked(s) == s == [s[0]];
    SplitWhole(s, '-');
    var parts := [s];
    assert parts[1..] == [] && parts[0] == [s[0]];
    assert NonEmpty(parts) == [s] + NonEmpty(parts[1..]) == [s];
  }

  lemma {:induction false} AfterWord(s: string)
    requires |s| > 1 && IsAlnum(s[0]) && !IsAlnum(s[1])
    ensures DropTrailingDashes(Dashed(s, true)) == Slug(s) == DropTrailingDashes(Dashed(s, false))
    decreases |s|, 0
  {
    DashedIsSlug(s[2..]);
    DashedAfterWord(s);
    SlugAfterWord(s);
  }

  lemma DashedAfterWord(s: string)
    requires |s| > 1 && IsAlnum(s[0]) && !IsAlnum(s[1])
    ensures var d := DropTrailingDashes(Dashed(s[2..], true));
            DropTrailingDashes(Dashed(s, true)) == DropTrailingDashes(Dashed(s, false))
            == if d == [] then [s[0]] else [s[0]] + "-" + d
  {
    var rest := Dashed(s[2..], true);
    assert s[1..][1..] == s[2..];
    assert Dashed(s[1..], false) == ['-'] + rest;
    DropTrailingCons(s[0], ['-'] + rest);
    DropTrailingAfterDash(rest);
    ConcatAssociates([s[0]], ['-'], DropTrailingDashes(rest));
  }

  lemma SlugAfterWord(s: string)
    requires |s| > 1 && IsAlnum(s[0]) && !IsAlnum(s[1])
    ensures Slug(s) == if Slug(s[2..]) == [] then [s[0]] else [s[0]] + "-" + Slug(s[2..])
  {
    SlugStarts(s);
    NonEmptyAre(Split(Marked(s[2..]), '-'));
    SlugOfWords([s[0]], WordsOf(s[2..]));
  }

  lemma {:induction false} NonEmptyAre(parts: seq<string>)
    ensures forall v :: v in NonEmpty(parts) ==> v != []
  {
    if parts != [] {
      NonEmptyAre(parts[1..]);
    }
  }

  lemma {:induction false} DashedStart(s: string)
    ensures var d := Dashed(s, true); d != [] ==> d[0] != '-'
  {
    if s != [] {
      DashedStart(s[1..]);
    }
  }

  lemma DroppedBothEnds(s: string)
    ensures DropTrailingDashes(DropLeadingDashes(Dashed(s, false))) == Slug(s)
  {
    DashedIsSlug(s);
    if s != [] && !IsAlnum(s[0]) {
      DashedIsSlug(s[1..]);
      DashedStart(s[1..]);
      SlugSkips(s);
      var d := Dashed(s[1..], true);
      assert (['-'] + d)[1..] == d;
    } else if s == [] {
      assert WordsOf([]) == [];
    }
  }

  lemma {:induction false} DroppedAreDashes(s: string)
    ensures forall i :: |DropTrailingDashes(s)| <= i < |s| ==> s[i] == '-'
  {
    if s != [] && s[|s| - 1] == '-' {
      DroppedAreDashes(s[..|s| - 1]);
    }
  }

  /**
    The root of an id: the words of the name with hyphens between them, cut after 40 characters and then
    freed of a hyphen at its end; "app" for a name without words.
  */
  lemma RootIsSlug(folded: string)
    ensures Slug(folded) == "" ==> Root(folded) == "app"
    ensures var slug, root := Slug(folded), Root(folded);
            slug != "" ==>
              && root <= slug && |root| <= 40 && root[|root| - 1] != '-'
              && forall i :: |root| <= i < |slug| && i < 40 ==> slug[i] == '-'
  {
    var slug := Slug(folded);
    DroppedBothEnds(folded);
    var cut := Take(slug, 40);
    DroppedAreDashes(cut);
    if slug != "" {
      SlugFirst(folded);
      assert cut[0] == slug[0];
      assert DropTrailingDashes(cut) != [];
    }
  }

  lemma SlugFirst(s: string)
    ensures Slug(s) != "" ==> Slug(s)[0] != '-'
  {
    DroppedBothEnds(s);
    DashedChars(s, false);
    DropLeadingShape(Dashed(s, false));
    var l := DropLeadingDashes(Dashed(s, false));
    assert DropTrailingDashes(l) <= l;
  }
}
