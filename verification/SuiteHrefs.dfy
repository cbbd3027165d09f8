/** The rewriting of `href:"/` in scripts (`lib/suite-proxy.ts`). */
module SuiteHrefs {
  import opened Text
  import opened SuiteIds
  import opened SuiteRewrite

  /** `href:"/`, cut before the slash. */
  const HREF: string := "href:\""

  predicate AtHref(s: string) {
    HREF <= s && |s| > 6 && s[6] == '/'
  }

  /** Behind `href:"/` stands another slash or the mount already. */
  predicate LeftAlone(rest: string, already: string) {
    "/" <= rest || already <= rest
  }

  /** One scan: every `href:"/` gets the mount unless it is to be left alone. */
  function HrefPass(s: string, mount: string): string
    requires mount != []
    decreases |s|
  {
    if s == [] then []
    else if AtHref(s) then
      HREF + (if LeftAlone(s[7..], mount[1..]) then [] else mount) + "/" + HrefPass(s[7..], mount)
    else [s[0]] + HrefPass(s[1..], mount)
  }

  // ---------- the loop ----------

  /** `indexOf(token, from)`, with the length of the text for -1. */
  function IndexOfHref(s: string, from: nat): (at: nat)
    requires from <= |s|
    ensures from <= at <= |s|
    ensures at < |s| ==> AtHref(s[at..])
    decreases |s| - from
  {
    if from == |s| || AtHref(s[from..]) then from else IndexOfHref(s, from + 1)
  }

  lemma HrefPassSkips(s: string, mount: string)
    requires mount != [] && s != [] && !AtHref(s)
    ensures HrefPass(s, mount) == [s[0]] + HrefPass(s[1..], mount)
  {
  }

  lemma SliceStep(s: string, from: nat, at: nat)
    requires from < at <= |s|
    ensures s[from..at] == [s[from]] + s[from + 1..at] && s[from..][1..] == s[from + 1..] && s[from..][0] == s[from]
  {
  }

  lemma {:induction false} HrefPassCopies(s: string, from: nat, mount: string)
    requires from <= |s| && mount != []
    ensures var at := IndexOfHref(s, from); HrefPass(s[from..], mount) == s[from..at] + HrefPass(s[at..], mount)
    decreases |s| - from
  {
    var at := IndexOfHref(s, from);
    if from < at {
      SliceStep(s, from, at);
      HrefPassSkips(s[from..], mount);
      HrefPassCopies(s, from + 1, mount);
      ConcatAssociates([s[from]], s[from + 1..at], HrefPass(s[at..], mount));
    } else {
      assert s[from..at] == [];
      assert [] + HrefPass(s[at..], mount) == HrefPass(s[at..], mount);
    }
  }

  method RewriteJsHrefs(body: string, mount: string) returns (out: string)
    requires mount != []
    ensures out == HrefPass(body, mount)
  {
    var already := mount[1..];
    var cursor := 0;
    out := "";
    assert body[0..] == body;
    while cursor < |body|
      invariant 0 <= cursor <= |body|
      invariant out + HrefPass(body[cursor..], mount) == HrefPass(body, mount)
    {
      var at := IndexOfHref(body, cursor);
      HrefPassCopies(body, cursor, mount);
      ConcatAssociates(out, body[cursor..at], HrefPass(body[at..], mount));
      out := out + body[cursor..at];
      if at == |body| {
        break;
      }
      var rest := body[at + 7..];
      assert body[at..][7..] == rest;
      var link := HREF + (if LeftAlone(rest, already) then [] else mount) + "/";
      ConcatAssociates(out, link, HrefPass(rest, mount));
      out := out + link;
      cursor := at + 7;
    }
  }

  // ---------- a second pass ----------

  ghost predicate PlainMount(mount: string) {
    |mount| > 1 && mount[0] == '/' && '"' !in mount && ':' !in mount
  }

  lemma PrefixIsPlain(id: string)
    requires IsId(id)
    ensures PlainMount(Prefix(id))
  {
  }

  lemma HrefAt(s: string, mount: string)
    requires PlainMount(mount) && AtHref(s)
    ensures var out := HrefPass(s, mount); AtHref(out) && out[..6] == s[..6] == HREF
    ensures var out := HrefPass(s, mount); LeftAlone(s[7..], mount[1..]) ==> out[7..] == HrefPass(s[7..], mount)
    ensures var out := HrefPass(s, mount);
            !LeftAlone(s[7..], mount[1..]) ==> out[7..] == mount[1..] + "/" + HrefPass(s[7..], mount)
  {
    var y := HrefPass(s[7..], mount);
    assert s[..6] == HREF;
    if LeftAlone(s[7..], mount[1..]) {
      assert HrefPass(s, mount) == HREF + [] + "/" + y;
      assert HREF + [] + "/" + y == HREF + "/" + y;
    } else {
      assert mount == "/" + mount[1..];
      assert HREF + mount + "/" + y == HREF + "/" + (mount[1..] + "/" + y);
    }
  }

  lemma PrefixBeforeQuote(p: string, s: string)
    requires '"' !in p && |s| > 5 && s[5] == '"'
    ensures p <= s <==> |p| <= 5 && p <= s[..5]
  {
  }

  /** A start without a quote is the same before and after. */
  lemma {:induction false} HrefKeepsStart(p: string, s: string, mount: string)
    requires PlainMount(mount) && '"' !in p
    ensures p <= HrefPass(s, mount) <==> p <= s
  {
    var out := HrefPass(s, mount);
    if p != [] && s != [] {
      if AtHref(s) {
        HrefAt(s, mount);
        assert s[5] == HREF[5] == '"' && out[5] == out[..6][5];
        PrefixBeforeQuote(p, s);
        PrefixBeforeQuote(p, out);
        assert out[..5] == out[..6][..5] && s[..5] == s[..6][..5];
      } else {
        HrefKeepsStart(p[1..], s[1..], mount);
        PrefixStep(p, s);
        PrefixStep(p, out);
        assert out[1..] == HrefPass(s[1..], mount);
      }
    }
  }

  lemma NotAtHref(p: string, s: string)
    requires p != [] && ':' !in p && p[|p| - 1] == '/'
    ensures !AtHref(p + s)
  {
    var t := p + s;
    if |p| > 4 {
      assert t[4] == p[4] && p[4] in p;
      assert HREF[4] == ':';
    } else {
      assert t[|p| - 1] == '/';
      assert HREF[|p| - 1] != '/';
    }
  }

  /** Every link is followed by a slash or the mount. */
  ghost predicate AllLinked(s: string, already: string) {
    s != [] ==> (AtHref(s) ==> LeftAlone(s[7..], already)) && AllLinked(s[1..], already)
  }

  lemma {:induction false} AllLinkedAnywhere(s: string, already: string, i: nat)
    requires AllLinked(s, already) && i < |s| && AtHref(s[i..])
    ensures LeftAlone(s[i + 7..], already)
  {
    if i == 0 {
      assert s[0..] == s;
    } else {
      assert s[1..][i - 1..] == s[i..];
      AllLinkedAnywhere(s[1..], already, i - 1);
      assert s[1..][i - 1 + 7..] == s[i + 7..];
    }
  }

  /** Text without a colon, or a link's own letters, starts no other link. */
  lemma HrefHasOneStart(s: string, k: nat)
    requires AtHref(s) && 0 < k < 7
    ensures !AtHref(s[k..])
  {
    assert s[k..][0] == s[k];
    assert k < 6 ==> s[k] == HREF[k];
    assert HREF[0] == 'h';
  }

  lemma AllLinkedBehind(s: string, already: string)
    requires AtHref(s) && LeftAlone(s[7..], already) && AllLinked(s[7..], already)
    ensures AllLinked(s, already)
  {
    AllLinkedFrom(s, already, 7);
  }

  lemma {:induction false} AllLinkedFrom(s: string, already: string, k: nat)
    requires AtHref(s) && k <= 7 && LeftAlone(s[7..], already) && AllLinked(s[7..], already)
    ensures AllLinked(s[7 - k..], already)
  {
    if k > 0 {
      AllLinkedFrom(s, already, k - 1);
      assert s[7 - k..][1..] == s[7 - (k - 1)..];
      if k < 7 {
        HrefHasOneStart(s, 7 - k);
      } else {
        assert s[0..] == s;
      }
    }
  }

  lemma {:induction false} AllLinkedPath(p: string, s: string, already: string)
    requires ':' !in p && (p != [] ==> p[|p| - 1] == '/') && AllLinked(s, already)
    ensures AllLinked(p + s, already)
  {
    if p == [] {
      assert p + s == s;
    } else {
      NotAtHref(p, s);
      assert (p + s)[1..] == p[1..] + s;
      AllLinkedPath(p[1..], s, already);
    }
  }

  lemma {:induction false} HrefPassLinks(s: string, mount: string)
    requires PlainMount(mount)
    ensures AllLinked(HrefPass(s, mount), mount[1..])
    decreases |s|
  {
    var already, out := mount[1..], HrefPass(s, mount);
    if s != [] {
      if AtHref(s) {
        var rest := s[7..];
        HrefAt(s, mount);
        HrefPassLinks(rest, mount);
        var y := HrefPass(rest, mount);
        if LeftAlone(rest, already) {
          HrefKeepsStart("/", rest, mount);
          HrefKeepsStart(already, rest, mount);
        } else {
          AllLinkedPath(already + "/", y, already);
          assert already <= out[7..];
        }
        AllLinkedBehind(out, already);
      } else {
        HrefPassLinks(s[1..], mount);
        assert out[1..] == HrefPass(s[1..], mount);
        NoNewHref(s, mount);
      }
    }
  }

  /** A place that is no link does not become one. */
  lemma NoNewHref(s: string, mount: string)
    requires PlainMount(mount) && s != [] && !AtHref(s)
    ensures !AtHref(HrefPass(s, mount))
  {
    var out := HrefPass(s, mount);
    if AtHref(out) {
      HrefSpelled(s, out, mount, 0);
    }
  }

  /** If the pass shows the letters of a link from k on, the text had them. */
  lemma {:induction false} HrefSpelled(s: string, out: string, mount: string, k: nat)
    requires PlainMount(mount) && out == HrefPass(s, mount) && s != [] && !AtHref(s)
    requires k <= 6 && |out| >= 7 - k
    requires (HREF + "/")[k..] <= out
    ensures (HREF + "/")[k..] <= s
    decreases 6 - k
  {
    var tail := (HREF + "/")[k..];
    assert out[1..] == HrefPass(s[1..], mount) && out[0] == s[0];
    PrefixStep(tail, out);
    PrefixStep(tail, s);
    assert tail[1..] == (HREF + "/")[k + 1..];
    if k < 6 {
      assert s[1..] != [];
      assert tail[1] == (HREF + "/")[k + 1] != 'h';
      HrefSpelled(s[1..], out[1..], mount, k + 1);
    }
  }

  /** A text in which every link is as it should be is left alone. */
  lemma {:induction false} HrefPassKeeps(s: string, mount: string)
    requires PlainMount(mount) && AllLinked(s, mount[1..])
    ensures HrefPass(s, mount) == s
    decreases |s|
  {
    if s != [] {
      if AtHref(s) {
        AllLinkedDrop(s, mount[1..], 7);
        HrefPassKeeps(s[7..], mount);
        assert s == HREF + [] + "/" + s[7..];
      } else {
        HrefPassKeeps(s[1..], mount);
      }
    }
  }

  lemma {:induction false} AllLinkedDrop(s: string, already: string, k: nat)
    requires AllLinked(s, already) && k <= |s|
    ensures AllLinked(s[k..], already)
  {
    if k > 0 {
      AllLinkedDrop(s[1..], already, k - 1);
      assert s[1..][k - 1..] == s[k..];
    } else {
      assert s[0..] == s;
    }
  }

  lemma InsertBeforeSlash(rest: string, y: string, mount: string, inserted: bool)
    requires mount != [] && OnlyInserts(rest, y, mount, mount)
    ensures OnlyInserts(HREF + ("/" + rest), HREF + (if inserted then mount + ("/" + y) else "/" + y), mount, mount)
  {
    InsertsCopied("/", rest, y, mount, mount);
    if inserted {
      var b := mount + ("/" + y);
      assert b[|mount|..] == "/" + y;
      InsertsCopied(HREF, "/" + rest, b, mount, mount);
    } else {
      InsertsCopied(HREF, "/" + rest, "/" + y, mount, mount);
    }
  }

  lemma HrefPassLinked(s: string, mount: string)
    requires mount != [] && AtHref(s)
    ensures s == HREF + ("/" + s[7..])
    ensures var y := HrefPass(s[7..], mount);
            HrefPass(s, mount) == HREF + (if !LeftAlone(s[7..], mount[1..]) then mount + ("/" + y) else "/" + y)
  {
    var y := HrefPass(s[7..], mount);
    var m := if LeftAlone(s[7..], mount[1..]) then [] else mount;
    ConcatAssociates(HREF + m, "/", y);
    ConcatAssociates(HREF, m, "/" + y);
    assert [] + ("/" + y) == "/" + y;
  }

  lemma {:induction false} HrefOnlyInserts(s: string, mount: string)
    requires mount != []
    ensures OnlyInserts(s, HrefPass(s, mount), mount, mount)
    decreases |s|
  {
    if s != [] {
      if AtHref(s) {
        var rest := s[7..];
        var y := HrefPass(rest, mount);
        HrefOnlyInserts(rest, mount);
        InsertBeforeSlash(rest, y, mount, !LeftAlone(rest, mount[1..]));
        HrefPassLinked(s, mount);
      } else {
        HrefOnlyInserts(s[1..], mount);
        HrefPassSkips(s, mount);
        assert ([s[0]] + HrefPass(s[1..], mount))[1..] == HrefPass(s[1..], mount);
      }
    }
  }

  /**
    For every script and every well-formed id: afterwards each `href:"/` is followed by a slash or
    the mount, a second rewriting changes nothing, and only mounts were put in.
  */
  lemma RewriteJsHrefsIsComplete(body: string, id: string)
    requires IsId(id)
    ensures var out := HrefPass(body, Prefix(id));
            && (forall i :: 0 <= i < |out| && AtHref(out[i..]) ==> LeftAlone(out[i + 7..], Prefix(id)[1..]))
            && HrefPass(out, Prefix(id)) == out
            && OnlyInserts(body, out, Prefix(id), Prefix(id))
  {
    var mount := Prefix(id);
    var out := HrefPass(body, mount);
    PrefixIsPlain(id);
    HrefPassLinks(body, mount);
    forall i | 0 <= i < |out| && AtHref(out[i..])
      ensures LeftAlone(out[i + 7..], mount[1..])
    {
      AllLinkedAnywhere(out, mount[1..], i);
    }
    HrefPassKeeps(out, mount);
    HrefOnlyInserts(body, mount);
  }
}
