/** Where the paths of a proxied page go, and what the proxy reads of an address (`lib/suite-proxy.ts`). */
module SuiteMoves {
  import opened Text
  import opened SuiteIds
  import opened SuiteRewrite
  import opened SuiteHrefs
  import opened SuiteRouting

  // ---------- quoted roots ----------

  predicate IsStaticRoot(root: string) {
    root == "/_next/" || root == "/static/" || root == "/assets/" || root == "/favicon" || root == "/icon-"
  }

  predicate IsRoot(root: string) {
    IsStaticRoot(root) || root == "/api/"
  }

  /** Static files go below the mount with "/r" behind it, the interface right below the mount. */
  function MovedTo(id: string, root: string): string {
    if root == "/api/" then "/ora/" + id + root else "/ora/" + id + "/r" + root
  }

  lemma RootsAre(root: string)
    ensures root in Roots() <==> IsRoot(root)
  {
    assert Roots() == ["/_next/", "/static/", "/assets/", "/favicon", "/icon-", "/api/"];
  }

  lemma RootShape(root: string)
    requires IsRoot(root)
    ensures |root| > 2 && (root[1] == 'a' ==> root == "/assets/" || root == "/api/")
    ensures root[1] == '_' || root[1] == 's' || root[1] == 'a' || root[1] == 'f' || root[1] == 'i'
    ensures root[1] == '_' ==> root == "/_next/"
    ensures root[1] == 's' ==> root == "/static/"
    ensures root[1] == 'f' ==> root == "/favicon"
    ensures root[1] == 'i' ==> root == "/icon-"
  {
  }

  /** At one place of a text there is at most one root. */
  lemma RootsApart(a: string, b: string, s: string)
    requires IsRoot(a) && IsRoot(b) && a <= s && b <= s
    ensures a == b
  {
    RootShape(a);
    RootShape(b);
    assert a[1] == s[1] == b[1] && a[2] == s[2] == b[2];
    assert "/assets/"[2] == 's' && "/api/"[2] == 'p';
  }

  lemma StaticIff(root: string)
    requires IsRoot(root)
    ensures IsStatic(root) <==> IsStaticRoot(root)
  {
    assert STATIC_ROOTS[0] == "/_next/" && STATIC_ROOTS[1] == "/static/" && STATIC_ROOTS[2] == "/assets/";
    assert STATIC_ROOTS[3] == "/favicon" && STATIC_ROOTS[4] == "/icon-";
    if IsStatic(root) {
      var i :| 0 <= i < |STATIC_ROOTS| && STATIC_ROOTS[i] <= root;
      assert IsStaticRoot(STATIC_ROOTS[i]);
      RootsApart(STATIC_ROOTS[i], root, root);
    }
  }

  lemma {:induction false} InsertOfRule(mount: string, roots: seq<string>, r: Rule)
    requires r in RulesForAll(mount, roots)
    ensures r.insert == if IsStatic(r.root) then mount + "/r" else mount
  {
    if r !in RulesFor(mount, roots[|roots| - 1]) {
      InsertOfRule(mount, roots[..|roots| - 1], r);
    }
  }

  lemma RuleMoves(id: string, r: Rule)
    requires r in RulesForAll(Prefix(id), Roots())
    ensures IsRoot(r.root) && IsQuote(r.quote) && Next(r) == MovedTo(id, r.root)
  {
    RootOfRule(Prefix(id), Roots(), r);
    InsertOfRule(Prefix(id), Roots(), r);
    RootsAre(r.root);
    StaticIff(r.root);
  }

  lemma RuleFires(id: string, q: char, root: string, s: string) returns (k: nat)
    requires IsQuote(q) && IsRoot(root) && [q] + root <= s
    ensures k < |RulesForAll(Prefix(id), Roots())| && Fires(RulesForAll(Prefix(id), Roots())[k], s)
  {
    RootsAre(root);
    var roots, rules := Roots(), RulesForAll(Prefix(id), Roots());
    var i :| 0 <= i < |roots| && roots[i] == root;
    RuleOfRoot(Prefix(id), roots, i, q);
    var r :| r in rules && r.quote == q && r.root == root;
    k :| 0 <= k < |rules| && rules[k] == r;
  }

  lemma FiringIs(id: string, q: char, root: string, s: string)
    requires IsQuote(q) && IsRoot(root) && [q] + root <= s
    ensures var rules := RulesForAll(Prefix(id), Roots());
            Firing(rules, s) < |rules| && Next(rules[Firing(rules, s)]) == MovedTo(id, root)
            && rules[Firing(rules, s)].root == root
  {
    var rules := RulesForAll(Prefix(id), Roots());
    var any := RuleFires(id, q, root, s);
    var r := rules[Firing(rules, s)];
    RuleMoves(id, r);
    assert Token(r)[1..] == r.root <= s[1..] && ([q] + root)[1..] == root <= s[1..];
    RootsApart(r.root, root, s[1..]);
  }

  /** A root behind a quote is moved. */
  lemma QuotedRootIsMoved(id: string, q: char, root: string, rest: string)
    requires IsId(id) && IsQuote(q) && IsRoot(root)
    ensures RewrittenRoots([q] + root + rest, Prefix(id))
         == [q] + MovedTo(id, root) + RewrittenRoots(rest, Prefix(id))
  {
    var s := [q] + root + rest;
    FiringIs(id, q, root, s);
    PassFired(s, RulesForAll(Prefix(id), Roots()));
    assert s[1 + |root|..] == rest && s[0] == q;
  }

  /** Everything else is copied. */
  lemma OthersAreCopied(id: string, s: string)
    requires IsId(id) && s != []
    requires forall q, root :: IsQuote(q) && IsRoot(root) ==> !([q] + root <= s)
    ensures RewrittenRoots(s, Prefix(id)) == [s[0]] + RewrittenRoots(s[1..], Prefix(id))
  {
    var rules := RulesForAll(Prefix(id), Roots());
    if Firing(rules, s) < |rules| {
      FiringIsQuotedRoot(id, s);
    }
  }

  lemma FiringIsQuotedRoot(id: string, s: string)
    requires Firing(RulesForAll(Prefix(id), Roots()), s) < |RulesForAll(Prefix(id), Roots())|
    ensures exists q, root :: IsQuote(q) && IsRoot(root) && [q] + root <= s
  {
    var rules := RulesForAll(Prefix(id), Roots());
    var r := rules[Firing(rules, s)];
    RuleMoves(id, r);
    assert [r.quote] + r.root <= s;
  }

  // ---------- links in scripts ----------

  /** A link gets the mount, unless it has it or leads to another host. */
  lemma LinkGetsMount(id: string, rest: string)
    requires IsId(id)
    ensures HrefPass("href:\"/" + rest, Prefix(id)) ==
            if "/" <= rest || "ora/" + id <= rest then "href:\"/" + HrefPass(rest, Prefix(id))
            else "href:\"/ora/" + id + "/" + HrefPass(rest, Prefix(id))
  {
    var mount, s := Prefix(id), "href:\"/" + rest;
    assert mount[1..] == "ora/" + id;
    assert s[7..] == rest && AtHref(s);
    assert HREF + [] + "/" == "href:\"/";
    assert HREF + mount + "/" == "href:\"/ora/" + id + "/";
  }

  // ---------- addresses ----------

  /** The query is kept, a fragment is not; the bare mount leads to the root of the app. */
  lemma AddressIsRead(id: string, p: string, query: string, fragment: string)
    requires IsId(id) && (p == "" || AppPath(p)) && (query == "" || query[0] == '?')
    requires fragment == "" || (fragment[0] == '#' && '?' !in fragment)
    ensures ParseSuiteProxyUrl("/ora/" + id + p + fragment + query)
         == Some(Target(id, if p == "" then "/" else p, query, p == ""))
  {
    var path := "/ora/" + id + p;
    var raw := path + fragment + query;
    assert '?' !in id && '#' !in id && '/' !in id;
    assert '?' !in path + fragment && '#' !in path;
    CutBefore(path + fragment, '?', query);
    FirstOfSplit(path, '#', fragment);
    MatchesMount(id, p);
  }

  lemma CutBefore(a: string, c: char, b: string)
    requires c !in a && (b == "" || b[0] == c)
    ensures IndexOf(a + b, c) == |a| && (a + b)[..|a|] == a && (a + b)[|a|..] == b
  {
    if b == "" {
      IndexOfNone(a, c);
      assert a + b == a;
    } else {
      IndexOfFirst(a, c, b[1..]);
      assert a + b == a + [c] + b[1..];
    }
  }

  lemma FirstOfSplit(a: string, c: char, b: string)
    requires c !in a && (b == "" || b[0] == c)
    ensures Split(a + b, c)[0] == a
  {
    SplitWhole(a, c);
    if b == "" {
      assert a + b == a;
    } else {
      assert a + b == a + [c] + b[1..];
      SplitAt(a, c, b[1..]);
    }
  }

  lemma MatchesMount(id: string, p: string)
    requires IsId(id) && (p == "" || AppPath(p))
    ensures MatchProxyPath("/ora/" + id + p) == Some((id, p))
  {
    var path := "/ora/" + id + p;
    assert path[5..] == id + p && '/' !in id;
    CutBefore(id, '/', p);
  }

  /** The "/r" of static files is taken off again, and nothing else is. */
  lemma BumpIsTakenOff(p: string)
    ensures StripAssetBump("/r") == "/" && StripAssetBump("/r/" + p) == "/" + p
    ensures p != "/r" && !("/r/" <= p) ==> StripAssetBump(p) == p
  {
    assert ("/r/" + p)[2..] == "/" + p;
  }

  /** What the proxy takes for an address of an app begins with a mount. */
  lemma OnlyMountsAreRead(raw: string)
    requires ParseSuiteProxyUrl(raw).Some?
    ensures var t := ParseSuiteProxyUrl(raw).value; IsId(t.id) && "/ora/" + t.id <= raw
  {
    var path := Split(raw[..IndexOf(raw, '?')], '#')[0];
    FirstIsPrefix(raw[..IndexOf(raw, '?')], '#');
    var tail := path[5..];
    var id := tail[..IndexOf(tail, '/')];
    assert path == "/ora/" + tail;
    assert "/ora/" + id <= path;
  }

  lemma {:induction false} FirstIsPrefix(s: string, c: char)
    ensures Split(s, c)[0] <= s
  {
    if s != [] {
      FirstIsPrefix(s[1..], c);
    }
  }
}
