/** The way of a rewritten path through the proxy and back (`lib/suite-proxy.ts`). */
module SuiteRouting {
  import opened Text
  import opened SuiteIds
  import opened SuiteRewrite

  datatype Target = Target(id: string, pathname: string, search: string, bare: bool)

  function StripAssetBump(pathname: string): string {
    if pathname == "/r" then "/"
    else if "/r/" <= pathname then pathname[2..]
    else pathname
  }

  predicate IsLineEnd(c: char) {
    c == '\n' || c == '\r' || c == '\U{2028}' || c == '\U{2029}'
  }

  predicate OneLine(s: string) {
    forall i :: 0 <= i < |s| ==> !IsLineEnd(s[i])
  }

  /** `^/ora/ID(/.*)?$`: the id and what follows it. */
  function MatchProxyPath(path: string): Option<(string, string)> {
    if !("/ora/" <= path) then None
    else
      var tail := path[5..];
      var slash := IndexOf(tail, '/');
      if IsId(tail[..slash]) && OneLine(tail[slash..]) then Some((tail[..slash], tail[slash..])) else None
  }

  function ParseSuiteProxyUrl(raw: string): Option<Target> {
    var queryAt := IndexOf(raw, '?');
    var path := Split(raw[..queryAt], '#')[0];
    var m := MatchProxyPath(path);
    if m.None? then None
    else
      var (id, extra) := m.value;
      Some(Target(id, if extra != "" then extra else "/", raw[queryAt..], extra == ""))
  }

  // ---------- paths that go out come back ----------

  /** A path of the app: absolute, on one line, without query or fragment. */
  ghost predicate AppPath(p: string) {
    p != "" && p[0] == '/' && '?' !in p && '#' !in p && OneLine(p)
  }

  /** The proxy finds the id and the path that were put together. */
  lemma ParseOfMounted(id: string, p: string)
    requires IsId(id) && AppPath(p)
    ensures ParseSuiteProxyUrl(Prefix(id) + p) == Some(Target(id, p, "", false))
  {
    var raw := Prefix(id) + p;
    assert '?' !in id && '#' !in id && '/' !in id;
    assert '?' !in raw && '#' !in raw;
    IndexOfNone(raw, '?');
    assert raw[..|raw|] == raw && raw[|raw|..] == "";
    SplitWhole(raw, '#');
    var tail := raw[5..];
    assert tail == id + ['/'] + p[1..];
    IndexOfFirst(id, '/', p[1..]);
    assert tail[..|id|] == id && tail[|id|..] == p;
  }

  lemma BumpedIsAppPath(p: string)
    requires AppPath(p)
    ensures AppPath("/r" + p)
  {
    forall i | 0 <= i < |"/r" + p|
      ensures !IsLineEnd(("/r" + p)[i])
    {
      assert i >= 2 ==> ("/r" + p)[i] == p[i - 2];
    }
  }

  /** Static roots start with a letter or an underscore behind the slash, never with "r". */
  lemma StaticIsNotBumped(p: string)
    requires IsStatic(p)
    ensures p != "/r" && !("/r/" <= p)
  {
    var i :| 0 <= i < |STATIC_ROOTS| && STATIC_ROOTS[i] <= p;
    assert STATIC_ROOTS[i] in STATIC_ROOTS;
    assert |STATIC_ROOTS[i]| > 1 && STATIC_ROOTS[i][1] != 'r';
  }

  lemma StaticRoutedBack(id: string, p: string)
    requires IsId(id) && AppPath(p) && IsStatic(p)
    ensures ParseSuiteProxyUrl(AssetPath(Prefix(id), p)) == Some(Target(id, "/r" + p, "", false))
    ensures StripAssetBump("/r" + p) == p
  {
    BumpedIsAppPath(p);
    ParseOfMounted(id, "/r" + p);
    ConcatAssociates(Prefix(id), "/r", p);
    assert ("/r" + p)[2..] == p;
    StaticIsNotBumped(p);
  }

  /**
    A rewritten path reaches the app it belongs to, and the app sees the path it wrote, exactly when the
    path is static or does not itself start with the "/r" that marks static paths.
  */
  lemma RoutedBackIff(id: string, p: string)
    requires IsId(id) && AppPath(p)
    ensures var t := ParseSuiteProxyUrl(AssetPath(Prefix(id), p));
            && t.Some? && t.value.id == id && t.value.search == "" && !t.value.bare
            && (StripAssetBump(t.value.pathname) == p <==> IsStatic(p) || !(p == "/r" || "/r/" <= p))
  {
    if IsStatic(p) {
      StaticRoutedBack(id, p);
    } else {
      ParseOfMounted(id, p);
    }
  }

  /** Such a path: the app wrote "/r/x" and is asked for "/x". */
  lemma BumpedPathIsLost(id: string)
    requires IsId(id)
    ensures var t := ParseSuiteProxyUrl(AssetPath(Prefix(id), "/r/x"));
            t.Some? && t.value.id == id && StripAssetBump(t.value.pathname) == "/x"
  {
    var p := "/r/x";
    assert AppPath(p);
    if IsStatic(p) {
      StaticIsNotBumped(p);
    } else {
      ParseOfMounted(id, p);
    }
    assert p[2..] == "/x";
  }
}
