/** The two rewritings of a proxied script, one after the other (`lib/suite-proxy.ts`). */
module SuiteScripts {
  import opened Text
  import opened SuiteIds
  import opened SuiteRewrite
  import opened SuiteHrefs

  // ---------- roots that start no link ----------

  /** What a rule puts in and moves is a path: no colon, and a root in which no link starts. */
  ghost predicate PathRule(r: Rule) {
    && SoundRule(r) && r.root[0] == '/' && r.root[1] != '/'
    && 'h' !in r.root && ':' !in r.root && ':' !in r.insert
  }

  ghost predicate PathRules(rules: seq<Rule>) {
    forall i :: 0 <= i < |rules| ==> PathRule(rules[i])
  }

  ghost predicate PathRoot(root: string) {
    PlainRoot(root) && root[0] == '/' && root[1] != '/' && 'h' !in root && ':' !in root
  }

  lemma DirectoriesArePaths()
    ensures PathRoot("/_next/") && PathRoot("/static/") && PathRoot("/assets/")
  {
  }

  lemma OthersArePaths()
    ensures PathRoot("/favicon") && PathRoot("/icon-") && PathRoot("/api/")
  {
  }

  lemma RootsArePaths()
    ensures forall i :: 0 <= i < |Roots()| ==> PathRoot(Roots()[i])
  {
    DirectoriesArePaths();
    OthersArePaths();
    assert |Roots()| == 6;
  }

  lemma RulesArePaths(id: string)
    requires IsId(id)
    ensures PathRules(RulesForAll(Prefix(id), Roots()))
  {
    var mount, roots := Prefix(id), Roots();
    var rules := RulesForAll(mount, roots);
    RootsArePaths();
    RootsArePlain();
    MountIsPlain(id);
    PrefixIsPlain(id);
    AllRulesAreSound(mount, roots);
    forall i | 0 <= i < |rules|
      ensures PathRule(rules[i])
    {
      RootOfRule(mount, roots, rules[i]);
      var k :| 0 <= k < |roots| && roots[k] == rules[i].root;
      assert PathRoot(roots[k]) && SoundRule(rules[i]);
    }
  }

  // ---------- moving roots keeps links linked ----------

  lemma {:induction false} AllLinkedNoH(p: string, s: string, already: string)
    requires 'h' !in p && AllLinked(s, already)
    ensures AllLinked(p + s, already)
  {
    if p == [] {
      assert p + s == s;
    } else {
      var t := p + s;
      assert t[0] == p[0] && p[0] in p && t[1..] == p[1..] + s;
      assert HREF[0] == 'h';
      AllLinkedNoH(p[1..], s, already);
    }
  }

  /** What a rule puts in place of a quoted root brings no link. */
  lemma MovedIsLinked(r: Rule, y: string, already: string)
    requires PathRule(r) && AllLinked(y, already)
    ensures AllLinked([r.quote] + Next(r) + y, already)
  {
    var path, tail := r.insert + "/", r.root[1..];
    AllLinkedNoH(tail, y, already);
    AllLinkedPath(path, tail + y, already);
    assert r.root == "/" + tail;
    assert Next(r) + y == path + (tail + y);
    AllLinkedNoH([r.quote], Next(r) + y, already);
    assert [r.quote] + Next(r) + y == [r.quote] + (Next(r) + y);
  }

  lemma RuleMissesLink(rest: string, r: Rule, already: string)
    requires PathRule(r) && already != [] && already[0] == 'o' && LeftAlone(rest, already)
    ensures !Fires(r, "\"" + ("/" + rest))
  {
    var t := "\"" + ("/" + rest);
    assert Token(r)[2] == r.root[1] && t[2] == rest[0];
    assert rest[0] == '/' || rest[0] == 'o';
  }

  lemma NothingFiresAtLink(rest: string, rules: seq<Rule>, already: string)
    requires PathRules(rules) && already != [] && already[0] == 'o' && LeftAlone(rest, already)
    ensures Firing(rules, "\"" + ("/" + rest)) == |rules|
  {
    forall k | 0 <= k < |rules|
      ensures !Fires(rules[k], "\"" + ("/" + rest))
    {
      RuleMissesLink(rest, rules[k], already);
    }
  }

  lemma LinkParts(s: string)
    requires AtHref(s)
    ensures s == "href:" + ("\"" + ("/" + s[7..])) && HREF == "href:" + "\""
  {
  }

  lemma PassCopiesQuote(rest: string, rules: seq<Rule>, already: string)
    requires PathRules(rules) && SoundRules(rules) && already != [] && already[0] == 'o' && LeftAlone(rest, already)
    ensures Pass("\"" + ("/" + rest), rules) == "\"" + ("/" + Pass(rest, rules))
  {
    var t := "\"" + ("/" + rest);
    NothingFiresAtLink(rest, rules, already);
    assert t[1..] == "/" + rest;
    PassCopies("/", rest, rules);
  }

  lemma PathsAreSound(rules: seq<Rule>)
    requires PathRules(rules)
    ensures SoundRules(rules)
  {
    assert forall i :: 0 <= i < |rules| ==> PathRule(rules[i]);
  }

  /** A link is copied together with its slash. */
  lemma PassCopiesLink(s: string, rules: seq<Rule>, already: string)
    requires PathRules(rules) && already != [] && already[0] == 'o'
    requires AtHref(s) && LeftAlone(s[7..], already)
    ensures Pass(s, rules) == HREF + ("/" + Pass(s[7..], rules))
  {
    PathsAreSound(rules);
    LinkParts(s);
    PassCopies("href:", "\"" + ("/" + s[7..]), rules);
    PassCopiesQuote(s[7..], rules, already);
    ConcatAssociates("href:", "\"", "/" + Pass(s[7..], rules));
  }

  /** A quote that a slash follows after the pass had one behind it before. */
  lemma SlashBehindQuote(t: string, rules: seq<Rule>)
    requires PathRules(rules) && |Pass(t, rules)| > 1 && Pass(t, rules)[1] == '/'
    ensures |t| > 1 && t[0] == Pass(t, rules)[0] && t[1] == '/'
  {
    PathsAreSound(rules);
    var k, out := Firing(rules, t), Pass(t, rules);
    if k < |rules| {
      assert PathRule(rules[k]);
      assert Token(rules[k])[1] == '/';
    } else {
      assert out[1..] == Pass(t[1..], rules) && out[1..][0] == '/';
      assert "/" <= out[1..];
      PassKeepsStart("/", t[1..], rules);
    }
  }

  /** A place that is no link does not become one. */
  lemma NoNewLink(s: string, rules: seq<Rule>)
    requires PathRules(rules) && !AtHref(s)
    ensures !AtHref(Pass(s, rules))
  {
    PathsAreSound(rules);
    var out, head := Pass(s, rules), "href:";
    if AtHref(out) {
      assert HREF == head + "\"" && HREF[..5] == head && head <= out;
      PassKeepsStart(head, s, rules);
      var t := s[5..];
      assert s == head + t;
      PassCopies(head, t, rules);
      assert out[5..] == Pass(t, rules);
      assert out[5] == HREF[5] && out[5..][1] == '/';
      SlashBehindQuote(t, rules);
    }
  }

  /** Moving roots unlinks no link and makes none. */
  lemma {:induction false} PassLinks(s: string, rules: seq<Rule>, already: string)
    requires PathRules(rules) && already != [] && already[0] == 'o' && Quoteless(already)
    requires AllLinked(s, already)
    ensures AllLinked(Pass(s, rules), already)
    decreases |s|
  {
    if s != [] {
      PathsAreSound(rules);
      var k := Firing(rules, s);
      if k < |rules| {
        var behind := s[1 + |rules[k].root|..];
        AllLinkedDrop(s, already, 1 + |rules[k].root|);
        PassLinks(behind, rules, already);
        assert Token(rules[k])[0] == s[0] && PathRule(rules[k]);
        MovedIsLinked(rules[k], Pass(behind, rules), already);
      } else if AtHref(s) {
        LinkStaysLinked(s, rules, already);
      } else {
        PassLinks(s[1..], rules, already);
        NoNewLink(s, rules);
        assert Pass(s, rules)[1..] == Pass(s[1..], rules);
      }
    }
  }

  lemma {:induction false} LinkStaysLinked(s: string, rules: seq<Rule>, already: string)
    requires PathRules(rules) && already != [] && already[0] == 'o' && Quoteless(already)
    requires AllLinked(s, already) && AtHref(s)
    ensures AllLinked(Pass(s, rules), already)
    decreases |s|, 0
  {
    PathsAreSound(rules);
    var rest := s[7..];
    var y := Pass(rest, rules);
    var out := HREF + ("/" + y);
    PassCopiesLink(s, rules, already);
    AllLinkedDrop(s, already, 7);
    PassLinks(rest, rules, already);
    PassKeepsStart("/", rest, rules);
    PassKeepsStart(already, rest, rules);
    assert out[7..] == y && out[6] == '/' && HREF <= out;
    AllLinkedBehind(out, already);
  }

  // ---------- the pipeline ----------

  /** `body.includes('href:"/')` */
  predicate HasLink(body: string) {
    Includes(body, HREF + "/")
  }

  lemma {:induction false} NoLinkIsLinked(body: string, already: string)
    requires !HasLink(body)
    ensures AllLinked(body, already)
  {
    if body != [] {
      assert AtHref(body) ==> HREF + "/" <= body;
      NoLinkIsLinked(body[1..], already);
    }
  }

  /** What the two rewritings make of a script. */
  function Script(body: string, mount: string): string
    requires mount != []
  {
    RewrittenRoots(HrefPass(body, mount), mount)
  }

  /** The script branch of `rewriteEmbedBody`, up to style addresses. */
  method RewriteScript(body: string, id: string) returns (out: string)
    requires IsId(id)
    ensures out == Script(body, Prefix(id))
  {
    var mount := Prefix(id);
    PrefixIsPlain(id);
    out := body;
    if HasLink(body) {
      out := RewriteJsHrefs(body, mount);
    } else {
      NoLinkIsLinked(body, mount[1..]);
      HrefPassKeeps(body, mount);
    }
    NeedsRootRewriteIff(out, id);
    if NeedsRootRewrite(out) {
      out := RewriteRoots(out, id);
    }
  }

  lemma ScriptIsLinked(body: string, id: string)
    requires IsId(id)
    ensures AllLinked(Script(body, Prefix(id)), Prefix(id)[1..])
  {
    var mount := Prefix(id);
    PrefixIsPlain(id);
    MountIsPlain(id);
    RulesArePaths(id);
    HrefPassLinks(body, mount);
    PassLinks(HrefPass(body, mount), RulesForAll(mount, Roots()), mount[1..]);
  }

  /**
    For every script and every well-formed id, both rewritings together: every link stays followed by a
    slash or the mount, no quoted root is left, and neither rewriting would change the result again.
  */
  lemma ScriptIsComplete(body: string, id: string)
    requires IsId(id)
    ensures var out := Script(body, Prefix(id));
            && (forall i :: 0 <= i < |out| && AtHref(out[i..]) ==> LeftAlone(out[i + 7..], Prefix(id)[1..]))
            && (forall i, q :: 0 <= i < |Roots()| && IsQuote(q) ==> !Occurs([q] + Roots()[i], out))
            && HrefPass(out, Prefix(id)) == out
            && RewrittenRoots(out, Prefix(id)) == out
            && Script(out, Prefix(id)) == out
  {
    var mount := Prefix(id);
    var out := Script(body, mount);
    PrefixIsPlain(id);
    ScriptIsLinked(body, id);
    forall i | 0 <= i < |out| && AtHref(out[i..])
      ensures LeftAlone(out[i + 7..], mount[1..])
    {
      AllLinkedAnywhere(out, mount[1..], i);
    }
    HrefPassKeeps(out, mount);
    RewriteRootsIsComplete(HrefPass(body, mount), id);
  }
}
