/** The rewriting of quoted root paths in proxied pages (`lib/suite-proxy.ts`). */
module SuiteRewrite {
  import opened Text
  import opened SuiteIds

  const STATIC_ROOTS: seq<string> := ["/_next/", "/static/", "/assets/", "/favicon", "/icon-"]
  const API_ROOT: string := "/api/"

  function Prefix(id: string): string {
    "/ora/" + id
  }

  predicate IsStatic(path: string) {
    exists i :: 0 <= i < |STATIC_ROOTS| && STATIC_ROOTS[i] <= path
  }

  function AssetPath(mount: string, path: string): string {
    if IsStatic(path) then mount + "/r" + path else mount + path
  }

  // ---------- split and join on a token ----------

  /** `split(token)` */
  function SplitOn(s: string, token: string): (parts: seq<string>)
    requires token != []
    ensures |parts| > 0
    decreases |s|
  {
    if s == [] then [[]]
    else if token <= s then [[]] + SplitOn(s[|token|..], token)
    else
      var rest := SplitOn(s[1..], token);
      [[s[0]] + rest[0]] + rest[1..]
  }

  /** Every occurrence of the token, from left to right, becomes the replacement. */
  function Replace(s: string, token: string, sub: string): string
    requires token != []
    decreases |s|
  {
    if s == [] then []
    else if token <= s then sub + Replace(s[|token|..], token, sub)
    else [s[0]] + Replace(s[1..], token, sub)
  }

  lemma {:induction false} JoinOfSplitOn(s: string, token: string, sub: string)
    requires token != []
    ensures Join(SplitOn(s, token), sub) == Replace(s, token, sub)
    decreases |s|
  {
    if s == [] {
    } else if token <= s {
      var rest := SplitOn(s[|token|..], token);
      JoinOfSplitOn(s[|token|..], token, sub);
      assert ([[]] + rest)[1..] == rest;
      assert [] + sub + Join(rest, sub) == sub + Join(rest, sub);
    } else {
      var rest := SplitOn(s[1..], token);
      JoinOfSplitOn(s[1..], token, sub);
      JoinFirst(s[0], rest, sub);
    }
  }

  /** The token stands somewhere in the text. */
  ghost predicate Occurs(token: string, s: string) {
    exists i :: 0 <= i <= |s| && token <= s[i..]
  }

  /** `includes(token)` */
  predicate Includes(s: string, token: string)
    decreases |s|
  {
    token <= s || (s != [] && Includes(s[1..], token))
  }

  lemma {:induction false} IncludesOccurs(s: string, token: string)
    ensures Includes(s, token) <==> Occurs(token, s)
  {
    if token <= s {
      assert s[0..] == s;
    } else if s != [] {
      IncludesOccurs(s[1..], token);
      if Occurs(token, s[1..]) {
        var i :| 0 <= i <= |s[1..]| && token <= s[1..][i..];
        assert s[1..][i..] == s[i + 1..];
      }
      if Occurs(token, s) {
        var i :| 0 <= i <= |s| && token <= s[i..];
        assert s[0..] == s;
        assert s[1..][i - 1..] == s[i..];
      }
    }
  }

  lemma {:induction false} ReplaceNothing(s: string, token: string, sub: string)
    requires token != [] && !Includes(s, token)
    ensures Replace(s, token, sub) == s
    decreases |s|
  {
    if s != [] {
      ReplaceNothing(s[1..], token, sub);
    }
  }

  lemma {:induction false} ReplaceBySame(s: string, token: string)
    requires token != []
    ensures Replace(s, token, token) == s
    decreases |s|
  {
    if s != [] {
      if token <= s {
        ReplaceBySame(s[|token|..], token);
        assert s == token + s[|token|..];
      } else {
        ReplaceBySame(s[1..], token);
      }
    }
  }

  method SpliceOnce(body: string, token: string, replacement: string) returns (r: string)
    requires token != []
    ensures r == Replace(body, token, replacement)
  {
    if !Includes(body, token) || token == replacement {
      if token == replacement {
        ReplaceBySame(body, token);
      } else {
        ReplaceNothing(body, token, replacement);
      }
      return body;
    }
    JoinOfSplitOn(body, token, replacement);
    r := Join(SplitOn(body, token), replacement);
  }

  // ---------- one pass with several rules ----------

  /** Between this quote and this root, a path is to be inserted. */
  datatype Rule = Rule(quote: char, root: string, insert: string)

  function Next(r: Rule): string {
    r.insert + r.root
  }

  predicate IsQuote(c: char) {
    c == '"' || c == '\''
  }

  ghost predicate Quoteless(s: string) {
    '"' !in s && '\'' !in s
  }

  /** Roots hold no quote and are not reached by what any root is moved to. */
  ghost predicate SoundRule(r: Rule) {
    && IsQuote(r.quote) && Quoteless(r.root) && Quoteless(r.insert)
    && |r.root| > 1 && r.root[1] != 'o' && |r.insert| > 1 && r.insert[1] == 'o'
  }

  ghost predicate SoundRules(rules: seq<Rule>) {
    forall i :: 0 <= i < |rules| ==> SoundRule(rules[i])
  }

  function Token(r: Rule): string {
    [r.quote] + r.root
  }

  predicate Fires(r: Rule, s: string) {
    Token(r) <= s
  }

  /** The first rule that fires at the start of the text. */
  function Firing(rules: seq<Rule>, s: string): (k: nat)
    ensures k <= |rules| && (k < |rules| ==> Fires(rules[k], s))
    ensures forall j :: 0 <= j < k ==> !Fires(rules[j], s)
  {
    if rules == [] || Fires(rules[0], s) then 0 else 1 + Firing(rules[1..], s)
  }

  /** All rules at once, in one scan from left to right. */
  function Pass(s: string, rules: seq<Rule>): string
    decreases |s|
  {
    if s == [] then []
    else
      var k := Firing(rules, s);
      if k < |rules| then [s[0]] + Next(rules[k]) + Pass(s[1 + |rules[k].root|..], rules)
      else [s[0]] + Pass(s[1..], rules)
  }

  lemma FiringNeedsQuote(rules: seq<Rule>, s: string)
    requires SoundRules(rules)
    ensures Firing(rules, s) < |rules| ==> IsQuote(s[0])
  {
    var k := Firing(rules, s);
    if k < |rules| {
      assert SoundRule(rules[k]) && Token(rules[k])[0] == s[0];
    }
  }

  /** Text without quotes is copied. */
  lemma {:induction false} PassCopies(p: string, s: string, rules: seq<Rule>)
    requires Quoteless(p) && SoundRules(rules)
    ensures Pass(p + s, rules) == p + Pass(s, rules)
  {
    if p == [] {
      assert p + s == s;
    } else {
      var t := p + s;
      assert t[1..] == p[1..] + s;
      assert t[0] == p[0] && p[0] in p;
      FiringNeedsQuote(rules, t);
      PassCopies(p[1..], s, rules);
    }
  }

  lemma {:induction false} ReplaceCopies(p: string, s: string, token: string, sub: string)
    requires token != [] && token[0] !in p
    ensures Replace(p + s, token, sub) == p + Replace(s, token, sub)
  {
    if p == [] {
      assert p + s == s;
    } else {
      var t := p + s;
      assert t[0] == p[0] && t[1..] == p[1..] + s;
      ReplaceCopies(p[1..], s, token, sub);
    }
  }

  /** Quoteless starts are the same before and after a pass. */
  lemma {:induction false} PassKeepsStart(p: string, s: string, rules: seq<Rule>)
    requires Quoteless(p) && SoundRules(rules)
    ensures p <= Pass(s, rules) <==> p <= s
    decreases |p|
  {
    if p != [] && s != [] {
      var k := Firing(rules, s);
      var out := Pass(s, rules);
      assert out[0] == s[0];
      if k < |rules| {
        assert SoundRule(rules[k]);
        assert Token(rules[k])[0] == s[0];
        assert p[0] in p;
      } else {
        PassKeepsStart(p[1..], s[1..], rules);
        assert out[1..] == Pass(s[1..], rules);
        PrefixStep(p, out);
        PrefixStep(p, s);
      }
    }
  }

  lemma PrefixStep(p: string, s: string)
    requires p != [] && s != []
    ensures p <= s <==> p[0] == s[0] && p[1..] <= s[1..]
  {
    if p[0] == s[0] && p[1..] <= s[1..] {
      assert s == [s[0]] + s[1..];
      assert p == [p[0]] + p[1..];
    }
  }

  lemma NextIsSound(r: Rule)
    requires SoundRule(r)
    ensures Quoteless(Next(r)) && |Next(r)| > 1 && Next(r)[1] == 'o'
  {
  }

  lemma FiringSnoc(rules: seq<Rule>, r: Rule, s: string)
    ensures var k := Firing(rules, s);
            Firing(rules + [r], s) == if k < |rules| then k else if Fires(r, s) then |rules| else |rules| + 1
  {
    var k, n := Firing(rules, s), Firing(rules + [r], s);
    assert forall j :: 0 <= j < |rules| ==> (rules + [r])[j] == rules[j];
    assert (rules + [r])[|rules|] == r;
  }

  /** What a rule's quote is followed by after a pass in which no earlier rule fired there. */
  lemma FiresAfterPass(s: string, rules: seq<Rule>, r: Rule)
    requires SoundRules(rules) && SoundRule(r) && s != []
    ensures var k := Firing(rules, s);
            && (k < |rules| ==> !Fires(r, Pass(s, rules)))
            && (k == |rules| ==> (Fires(r, Pass(s, rules)) <==> Fires(r, s)))
  {
    var k, out, token := Firing(rules, s), Pass(s, rules), [r.quote] + r.root;
    assert token[1..] == r.root;
    PrefixStep(token, s);
    PrefixStep(token, out);
    if k < |rules| {
      NextIsSound(rules[k]);
      assert out[2] == Next(rules[k])[1];
      assert token[2] == r.root[1];
    } else {
      assert out[1..] == Pass(s[1..], rules);
      PassKeepsStart(r.root, s[1..], rules);
    }
  }

  lemma ReplaceAfterFired(x: char, n: string, y: string, token: string, sub: string)
    requires token != [] && token[0] !in n && !(token <= [x] + n + y)
    ensures Replace([x] + n + y, token, sub) == [x] + n + Replace(y, token, sub)
  {
    var out := [x] + n + y;
    assert out[1..] == n + y;
    ReplaceCopies(n, y, token, sub);
    ConcatAssociates([x], n, Replace(y, token, sub));
  }

  lemma ReplaceAtToken(y: string, token: string, sub: string)
    requires token != []
    ensures Replace(token + y, token, sub) == sub + Replace(y, token, sub)
  {
    assert (token + y)[|token|..] == y;
  }

  lemma PassAtToken(s: string, rules: seq<Rule>, r: Rule)
    requires SoundRules(rules) && SoundRule(r) && Firing(rules, s) == |rules| && Fires(r, s)
    ensures Pass(s, rules) == [r.quote] + r.root + Pass(s[1 + |r.root|..], rules)
  {
    var rest := s[1 + |r.root|..];
    assert s == [r.quote] + r.root + rest;
    assert s[1..] == r.root + rest;
    PassCopies(r.root, rest, rules);
    ConcatAssociates([r.quote], r.root, Pass(rest, rules));
  }

  function Moved(r: Rule): string {
    [r.quote] + Next(r)
  }

  /** What is left of the text behind the root of the rule that fires. */
  function Behind(s: string, r: Rule): string
    requires Fires(r, s)
  {
    s[1 + |r.root|..]
  }

  lemma PassFired(s: string, rules: seq<Rule>)
    requires s != [] && Firing(rules, s) < |rules|
    ensures var r := rules[Firing(rules, s)]; Pass(s, rules) == [s[0]] + Next(r) + Pass(Behind(s, r), rules)
  {
  }

  lemma PassCopied(s: string, rules: seq<Rule>)
    requires s != [] && Firing(rules, s) == |rules|
    ensures Pass(s, rules) == [s[0]] + Pass(s[1..], rules)
  {
  }

  lemma ExtendsFired(s: string, rules: seq<Rule>, r: Rule)
    requires SoundRules(rules) && SoundRule(r) && s != [] && Firing(rules, s) < |rules|
    requires var rest := Behind(s, rules[Firing(rules, s)]);
             Replace(Pass(rest, rules), Token(r), Moved(r)) == Pass(rest, rules + [r])
    ensures Replace(Pass(s, rules), Token(r), Moved(r)) == Pass(s, rules + [r])
  {
    var f := rules[Firing(rules, s)];
    FiresAfterPass(s, rules, r);
    FiringSnoc(rules, r, s);
    NextIsSound(f);
    PassFired(s, rules);
    PassFired(s, rules + [r]);
    ReplaceAfterFired(s[0], Next(f), Pass(Behind(s, f), rules), Token(r), Moved(r));
  }

  lemma ExtendsHere(s: string, rules: seq<Rule>, r: Rule)
    requires SoundRules(rules) && SoundRule(r) && s != [] && Firing(rules, s) == |rules| && Fires(r, s)
    requires Replace(Pass(Behind(s, r), rules), Token(r), Moved(r)) == Pass(Behind(s, r), rules + [r])
    ensures Replace(Pass(s, rules), Token(r), Moved(r)) == Pass(s, rules + [r])
  {
    FiringSnoc(rules, r, s);
    PassAtToken(s, rules, r);
    PassFired(s, rules + [r]);
    ReplaceAtToken(Pass(Behind(s, r), rules), Token(r), Moved(r));
  }

  lemma ExtendsCopied(s: string, rules: seq<Rule>, r: Rule)
    requires SoundRules(rules) && SoundRule(r) && s != [] && Firing(rules, s) == |rules| && !Fires(r, s)
    requires Replace(Pass(s[1..], rules), Token(r), Moved(r)) == Pass(s[1..], rules + [r])
    ensures Replace(Pass(s, rules), Token(r), Moved(r)) == Pass(s, rules + [r])
  {
    FiresAfterPass(s, rules, r);
    FiringSnoc(rules, r, s);
    PassCopied(s, rules);
    PassCopied(s, rules + [r]);
    var out := Pass(s, rules);
    assert out[1..] == Pass(s[1..], rules);
  }

  /** One more splice after a pass is the pass with one more rule. */
  lemma {:induction false} ReplaceExtendsPass(s: string, rules: seq<Rule>, r: Rule)
    requires SoundRules(rules) && SoundRule(r)
    ensures Replace(Pass(s, rules), Token(r), Moved(r)) == Pass(s, rules + [r])
    decreases |s|
  {
    if s != [] {
      var k := Firing(rules, s);
      if k < |rules| {
        ReplaceExtendsPass(Behind(s, rules[k]), rules, r);
        ExtendsFired(s, rules, r);
      } else if Fires(r, s) {
        ReplaceExtendsPass(Behind(s, r), rules, r);
        ExtendsHere(s, rules, r);
      } else {
        ReplaceExtendsPass(s[1..], rules, r);
        ExtendsCopied(s, rules, r);
      }
    }
  }

  lemma {:induction false} IncludesCopied(p: string, s: string, token: string)
    requires token != [] && token[0] !in p
    ensures Includes(p + s, token) <==> Includes(s, token)
  {
    if p == [] {
      assert p + s == s;
    } else {
      assert (p + s)[0] == p[0] && (p + s)[1..] == p[1..] + s;
      IncludesCopied(p[1..], s, token);
    }
  }

  lemma NoneLeftFired(x: char, n: string, y: string, token: string)
    requires token != [] && token[0] !in n && !(token <= [x] + n + y) && !Includes(y, token)
    ensures !Includes([x] + n + y, token)
  {
    var out := [x] + n + y;
    assert out[1..] == n + y;
    IncludesCopied(n, y, token);
  }

  /** After a pass no rule's quoted root is left. */
  lemma {:induction false} NoneLeft(s: string, rules: seq<Rule>, r: Rule)
    requires SoundRules(rules) && r in rules
    ensures !Includes(Pass(s, rules), Token(r))
    decreases |s|
  {
    if s != [] {
      var k := Firing(rules, s);
      FiresAfterPass(s, rules, r);
      if k < |rules| {
        NextIsSound(rules[k]);
        NoneLeft(Behind(s, rules[k]), rules, r);
        PassFired(s, rules);
        NoneLeftFired(s[0], Next(rules[k]), Pass(Behind(s, rules[k]), rules), Token(r));
      } else {
        NoneLeft(s[1..], rules, r);
        PassCopied(s, rules);
        assert ([s[0]] + Pass(s[1..], rules))[1..] == Pass(s[1..], rules);
      }
    }
  }

  lemma {:induction false} IncludesLonger(s: string, x: char, token: string)
    requires Includes(s, [x] + token)
    ensures Includes(s, token)
  {
    if [x] + token <= s {
      PrefixStep([x] + token, s);
      assert ([x] + token)[1..] == token;
    } else {
      IncludesLonger(s[1..], x, token);
    }
  }

  ghost predicate NothingFires(s: string, rules: seq<Rule>) {
    forall i :: 0 <= i < |rules| ==> !Includes(s, Token(rules[i]))
  }

  /** A text in which no rule's token occurs is left alone, and only such a text. */
  lemma {:induction false} PassKeepsIff(s: string, rules: seq<Rule>)
    requires SoundRules(rules)
    ensures Pass(s, rules) == s <==> NothingFires(s, rules)
  {
    if NothingFires(s, rules) {
      PassKeeps(s, rules);
    } else {
      var i :| 0 <= i < |rules| && Includes(s, Token(rules[i]));
      NoneLeft(s, rules, rules[i]);
    }
  }

  lemma {:induction false} PassKeeps(s: string, rules: seq<Rule>)
    requires NothingFires(s, rules)
    ensures Pass(s, rules) == s
    decreases |s|
  {
    if s != [] {
      var k := Firing(rules, s);
      assert k < |rules| ==> Includes(s, Token(rules[k]));
      PassKeeps(s[1..], rules);
    }
  }

  // ---------- only insertions ----------

  /** `b` is `a` with copies of the two paths put in. */
  ghost predicate OnlyInserts(a: string, b: string, m: string, n: string)
    decreases |b|
  {
    || (a == [] && b == [])
    || (a != [] && b != [] && a[0] == b[0] && OnlyInserts(a[1..], b[1..], m, n))
    || (m != [] && m <= b && OnlyInserts(a, b[|m|..], m, n))
    || (n != [] && n <= b && OnlyInserts(a, b[|n|..], m, n))
  }

  lemma {:induction false} InsertsCopied(p: string, a: string, b: string, m: string, n: string)
    requires OnlyInserts(a, b, m, n)
    ensures OnlyInserts(p + a, p + b, m, n)
  {
    if p == [] {
      assert p + a == a && p + b == b;
    } else {
      InsertsCopied(p[1..], a, b, m, n);
      assert (p + a)[1..] == p[1..] + a && (p + b)[1..] == p[1..] + b;
    }
  }

  lemma InsertStep(x: char, a: string, ins: string, b: string, m: string, n: string)
    requires OnlyInserts(a, b, m, n) && ins != [] && (ins == m || ins == n)
    ensures OnlyInserts([x] + a, [x] + (ins + b), m, n)
  {
    assert (ins + b)[|ins|..] == b;
    assert ([x] + a)[1..] == a && ([x] + (ins + b))[1..] == ins + b;
  }

  lemma InsertsFired(x: char, root: string, rest: string, ins: string, out: string, m: string, n: string)
    requires OnlyInserts(rest, out, m, n) && ins != [] && (ins == m || ins == n)
    ensures OnlyInserts([x] + root + rest, [x] + (ins + root) + out, m, n)
  {
    InsertsCopied(root, rest, out, m, n);
    InsertStep(x, root + rest, ins, root + out, m, n);
    ConcatAssociates([x], root, rest);
    assert [x] + (ins + root) + out == [x] + (ins + (root + out));
  }

  lemma {:induction false} PassOnlyInserts(s: string, rules: seq<Rule>, m: string, n: string)
    requires m != [] && n != []
    requires forall i :: 0 <= i < |rules| ==> rules[i].insert == m || rules[i].insert == n
    ensures OnlyInserts(s, Pass(s, rules), m, n)
    decreases |s|
  {
    if s != [] {
      var k := Firing(rules, s);
      if k < |rules| {
        var r := rules[k];
        var rest := Behind(s, r);
        PassOnlyInserts(rest, rules, m, n);
        PassFired(s, rules);
        assert s == [s[0]] + r.root + rest;
        InsertsFired(s[0], r.root, rest, r.insert, Pass(rest, rules), m, n);
      } else {
        PassOnlyInserts(s[1..], rules, m, n);
        PassCopied(s, rules);
        assert ([s[0]] + Pass(s[1..], rules))[1..] == Pass(s[1..], rules);
      }
    }
  }

  // ---------- rewriteRoots ----------

  function RulesFor(mount: string, root: string): seq<Rule> {
    var ins := if IsStatic(root) then mount + "/r" else mount;
    [Rule('"', root, ins), Rule('\'', root, ins)]
  }

  function RulesForAll(mount: string, roots: seq<string>): seq<Rule> {
    if roots == [] then []
    else RulesForAll(mount, roots[..|roots| - 1]) + RulesFor(mount, roots[|roots| - 1])
  }

  function Roots(): seq<string> {
    STATIC_ROOTS + [API_ROOT]
  }

  /** A root as the page may hold it: no quote, and no "o" behind the slash. */
  ghost predicate PlainRoot(root: string) {
    Quoteless(root) && |root| > 1 && root[1] != 'o'
  }

  lemma RootsArePlain()
    ensures forall i :: 0 <= i < |Roots()| ==> PlainRoot(Roots()[i])
  {
    var roots := Roots();
    assert |roots| == 6;
    assert PlainRoot("/_next/") && PlainRoot("/static/") && PlainRoot("/assets/");
    assert PlainRoot("/favicon") && PlainRoot("/icon-") && PlainRoot("/api/");
  }

  lemma MountIsPlain(id: string)
    requires IsId(id)
    ensures Quoteless(Prefix(id)) && |Prefix(id)| > 1 && Prefix(id)[1] == 'o'
  {
  }

  lemma RulesAreSound(mount: string, root: string)
    requires Quoteless(mount) && |mount| > 1 && mount[1] == 'o' && PlainRoot(root)
    ensures SoundRules(RulesFor(mount, root))
  {
  }

  lemma {:induction false} AllRulesAreSound(mount: string, roots: seq<string>)
    requires Quoteless(mount) && |mount| > 1 && mount[1] == 'o'
    requires forall i :: 0 <= i < |roots| ==> PlainRoot(roots[i])
    ensures SoundRules(RulesForAll(mount, roots))
  {
    if roots != [] {
      AllRulesAreSound(mount, roots[..|roots| - 1]);
      RulesAreSound(mount, roots[|roots| - 1]);
    }
  }

  function RewrittenRoots(body: string, mount: string): string {
    Pass(body, RulesForAll(mount, Roots()))
  }

  /** The escaped quote ends in a plain one, whose root has already been moved. */
  lemma NoEscapedRoot(body: string, rules: seq<Rule>, rule: Rule)
    requires SoundRules(rules) && rule in rules && rule.quote == '"'
    ensures !Includes(Pass(body, rules), "\\\"" + rule.root)
  {
    var r, token := Pass(body, rules), "\"" + rule.root;
    NoneLeft(body, rules, rule);
    assert Token(rule) == token;
    assert "\\\"" + rule.root == ['\\'] + token;
    if Includes(r, ['\\'] + token) {
      IncludesLonger(r, '\\', token);
    }
  }

  /** The three splices for one root. */
  method SpliceRoot(out: string, root: string, mount: string, ghost body: string, ghost rules: seq<Rule>)
    returns (r: string)
    requires SoundRules(rules) && SoundRules(RulesFor(mount, root)) && out == Pass(body, rules)
    ensures r == Pass(body, rules + RulesFor(mount, root))
  {
    var next := AssetPath(mount, root);
    ghost var rs := RulesFor(mount, root);
    assert Next(rs[0]) == next && Next(rs[1]) == next;
    assert Token(rs[0]) == "\"" + root && Moved(rs[0]) == "\"" + next;
    assert Token(rs[1]) == "'" + root && Moved(rs[1]) == "'" + next;
    r := SpliceOnce(out, "\"" + root, "\"" + next);
    ReplaceExtendsPass(body, rules, rs[0]);
    assert SoundRules(rules + [rs[0]]);
    r := SpliceOnce(r, "'" + root, "'" + next);
    ReplaceExtendsPass(body, rules + [rs[0]], rs[1]);
    assert rules + [rs[0]] + [rs[1]] == rules + rs;
    NoEscapedRoot(body, rules + rs, rs[0]);
    ReplaceNothing(r, "\\\"" + root, "\\\"" + next);
    r := SpliceOnce(r, "\\\"" + root, "\\\"" + next);
  }

  /** The loop over the roots. */
  method SpliceRoots(body: string, mount: string, roots: seq<string>) returns (out: string)
    requires Quoteless(mount) && |mount| > 1 && mount[1] == 'o'
    requires forall i :: 0 <= i < |roots| ==> PlainRoot(roots[i])
    ensures out == Pass(body, RulesForAll(mount, roots))
  {
    out := body;
    PassKeeps(body, []);
    assert RulesForAll(mount, roots[..0]) == [];
    for n := 0 to |roots|
      invariant out == Pass(body, RulesForAll(mount, roots[..n]))
    {
      AllRulesAreSound(mount, roots[..n]);
      RulesAreSound(mount, roots[n]);
      assert roots[..n + 1][..n] == roots[..n];
      out := SpliceRoot(out, roots[n], mount, body, RulesForAll(mount, roots[..n]));
    }
    assert roots[..|roots|] == roots;
  }

  method RewriteRoots(body: string, id: string) returns (out: string)
    requires IsId(id)
    ensures out == RewrittenRoots(body, Prefix(id))
  {
    RootsArePlain();
    MountIsPlain(id);
    out := SpliceRoots(body, Prefix(id), Roots());
  }

  lemma {:induction false} RuleOfRoot(mount: string, roots: seq<string>, i: nat, q: char)
    requires i < |roots| && IsQuote(q)
    ensures exists r :: r in RulesForAll(mount, roots) && r.quote == q && r.root == roots[i]
  {
    if i < |roots| - 1 {
      RuleOfRoot(mount, roots[..|roots| - 1], i, q);
      var r :| r in RulesForAll(mount, roots[..|roots| - 1]) && r.quote == q && r.root == roots[i];
      assert r in RulesForAll(mount, roots);
    } else {
      var rs := RulesFor(mount, roots[i]);
      assert rs[0] in RulesForAll(mount, roots) && rs[1] in RulesForAll(mount, roots);
    }
  }

  lemma {:induction false} RootOfRule(mount: string, roots: seq<string>, r: Rule)
    requires r in RulesForAll(mount, roots)
    ensures IsQuote(r.quote) && r.root in roots && (r.insert == mount || r.insert == mount + "/r")
  {
    if r !in RulesFor(mount, roots[|roots| - 1]) {
      RootOfRule(mount, roots[..|roots| - 1], r);
    }
  }

  /**
    For every page and every well-formed id: no quoted root is left, a second rewriting changes
    nothing, and the only difference is that the mount, with or without "/r", was put in.
  */
  lemma RewriteRootsIsComplete(body: string, id: string)
    requires IsId(id)
    ensures var out := RewrittenRoots(body, Prefix(id));
            && (forall i, q :: 0 <= i < |Roots()| && IsQuote(q) ==> !Occurs([q] + Roots()[i], out))
            && RewrittenRoots(out, Prefix(id)) == out
            && OnlyInserts(body, out, Prefix(id), Prefix(id) + "/r")
  {
    var mount, roots := Prefix(id), Roots();
    var rules := RulesForAll(mount, roots);
    var out := RewrittenRoots(body, mount);
    RootsArePlain();
    MountIsPlain(id);
    AllRulesAreSound(mount, roots);
    forall i, q | 0 <= i < |roots| && IsQuote(q)
      ensures !Occurs([q] + roots[i], out)
    {
      RuleOfRoot(mount, roots, i, q);
      var r :| r in rules && r.quote == q && r.root == roots[i];
      NoneLeft(body, rules, r);
      IncludesOccurs(out, Token(r));
    }
    forall k | 0 <= k < |rules|
      ensures !Includes(out, Token(rules[k]))
      ensures rules[k].insert == mount || rules[k].insert == mount + "/r"
    {
      NoneLeft(body, rules, rules[k]);
      RootOfRule(mount, roots, rules[k]);
    }
    PassKeeps(out, rules);
    PassOnlyInserts(body, rules, mount, mount + "/r");
  }

  /** `needsRootRewrite`: some root stands behind a quote, escaped or not. */
  predicate NeedsRootRewrite(body: string) {
    exists i :: 0 <= i < |Roots()| &&
      (Includes(body, "\"" + Roots()[i]) || Includes(body, "'" + Roots()[i]) || Includes(body, "\\\"" + Roots()[i]))
  }

  /** Some root stands behind a quote. */
  ghost predicate SomeRoot(body: string) {
    exists i, q :: 0 <= i < |Roots()| && IsQuote(q) && Includes(body, [q] + Roots()[i])
  }

  lemma EscapedIsQuoted(body: string)
    ensures NeedsRootRewrite(body) <==> SomeRoot(body)
  {
    var roots := Roots();
    if NeedsRootRewrite(body) {
      var i :| 0 <= i < |roots| &&
        (Includes(body, "\"" + roots[i]) || Includes(body, "'" + roots[i]) || Includes(body, "\\\"" + roots[i]));
      if Includes(body, "\\\"" + roots[i]) {
        assert "\\\"" + roots[i] == ['\\'] + ("\"" + roots[i]);
        IncludesLonger(body, '\\', "\"" + roots[i]);
      }
      var q := if Includes(body, "\"" + roots[i]) then '"' else '\'';
      assert Includes(body, [q] + Roots()[i]);
    }
  }

  lemma SomeRootFires(body: string, mount: string)
    ensures SomeRoot(body) <==> !NothingFires(body, RulesForAll(mount, Roots()))
  {
    var rules := RulesForAll(mount, Roots());
    if SomeRoot(body) {
      var i, q :| 0 <= i < |Roots()| && IsQuote(q) && Includes(body, [q] + Roots()[i]);
      RuleOfRoot(mount, Roots(), i, q);
      var r :| r in rules && r.quote == q && r.root == Roots()[i];
      var k :| 0 <= k < |rules| && rules[k] == r;
      assert Includes(body, Token(rules[k]));
    }
    if !NothingFires(body, rules) {
      var k :| 0 <= k < |rules| && Includes(body, Token(rules[k]));
      RootOfRule(mount, Roots(), rules[k]);
      var i :| 0 <= i < |Roots()| && Roots()[i] == rules[k].root;
      assert Includes(body, [rules[k].quote] + Roots()[i]);
    }
  }

  /** The check that guards the rewriting answers exactly whether it would change the page. */
  lemma NeedsRootRewriteIff(body: string, id: string)
    requires IsId(id)
    ensures NeedsRootRewrite(body) <==> RewrittenRoots(body, Prefix(id)) != body
  {
    RootsArePlain();
    MountIsPlain(id);
    AllRulesAreSound(Prefix(id), Roots());
    PassKeepsIff(body, RulesForAll(Prefix(id), Roots()));
    EscapedIsQuoted(body);
    SomeRootFires(body, Prefix(id));
  }
}
