/** Parent, name, breadcrumbs and rename target of a guest path (`lib/guest-files.ts`). */
module GuestPathParts {
  import opened Text
  import opened GuestPaths

  /** `lastIndexOf(c)` */
  function LastIndexOf(s: string, c: char): (i: int)
    ensures -1 <= i < |s|
  {
    if s == [] then -1
    else if s[|s| - 1] == c then |s| - 1
    else LastIndexOf(s[..|s| - 1], c)
  }

  /** The parent of the resolved path; the root has none. */
  function Parent(path: string): Answer<Option<string>> {
    var r := Resolve(path, "");
    if r.Err? then Err(r.error)
    else if r.value == "/" then Ok(None)
    else
      var idx := LastIndexOf(r.value, '/');
      Ok(Some(if idx <= 0 then "/" else r.value[..idx]))
  }

  function FileName(path: string): Answer<string> {
    var r := Resolve(path, "");
    if r.Err? then Err(r.error)
    else if r.value == "/" then Ok("/")
    else Ok(r.value[LastIndexOf(r.value, '/') + 1..])
  }

  predicate BadName(name: string) {
    name == "" || '/' in name || '\\' in name || name == "." || name == ".."
  }

  function RenameDest(from: string, newName: string): Answer<string> {
    var name := Trim(newName);
    if BadName(name) then Err(InvalidName)
    else
      var parent := Parent(from);
      if parent.Err? then Err(parent.error)
      else if parent.value.None? then Err(InvalidPath)
      else Resolve(parent.value.value, name)
  }

  datatype Crumb = Crumb(name: string, path: string)

  function CrumbsFrom(acc: string, parts: seq<string>): (c: seq<Crumb>)
    ensures |c| == |parts|
    decreases |parts|
  {
    if parts == [] then []
    else
      var next := acc + "/" + parts[0];
      [Crumb(parts[0], next)] + CrumbsFrom(next, parts[1..])
  }

  function Crumbs(path: string): Answer<seq<Crumb>> {
    var r := Resolve(path, "");
    if r.Err? then Err(r.error)
    else Ok([Crumb("/", "/")] + CrumbsFrom("", NonEmpty(Split(r.value, '/'))))
  }

  method GuestPathCrumbs(path: string) returns (r: Answer<seq<Crumb>>)
    ensures r == Crumbs(path)
  {
    var resolved := ResolveGuestPath(path, "");
    if resolved.Err? {
      return Err(resolved.error);
    }
    var crumbs := [Crumb("/", "/")];
    var parts := NonEmpty(Split(resolved.value, '/'));
    if resolved.value == "/" {
      RootHasNoParts();
      assert crumbs + CrumbsFrom("", []) == crumbs;
      return Ok(crumbs);
    }
    var acc := "";
    assert parts[0..] == parts;
    for n := 0 to |parts|
      invariant crumbs + CrumbsFrom(acc, parts[n..]) == [Crumb("/", "/")] + CrumbsFrom("", parts)
    {
      assert parts[n..][1..] == parts[n + 1..];
      acc := acc + "/" + parts[n];
      ConcatAssociates(crumbs, [Crumb(parts[n], acc)], CrumbsFrom(acc, parts[n + 1..]));
      crumbs := crumbs + [Crumb(parts[n], acc)];
    }
    assert parts[|parts|..] == [];
    assert crumbs + [] == crumbs;
    r := Ok(crumbs);
  }

  lemma RootHasNoParts()
    ensures NonEmpty(Split("/", '/')) == []
  {
    assert "/" == [] + ['/'] + [];
    SplitAt([], '/', []);
    NonEmptyConcat([[]], [[]]);
    var one: seq<string> := [[]];
    assert one[1..] == [];
  }

  // ---------- the last segment ----------

  lemma {:induction false} LastIndexOfAt(a: string, c: char, b: string)
    requires c !in b
    ensures LastIndexOf(a + [c] + b, c) == |a|
  {
    var s := a + [c] + b;
    if b != [] {
      assert s[..|s| - 1] == a + [c] + b[..|b| - 1];
      LastIndexOfAt(a, c, b[..|b| - 1]);
    }
  }

  lemma {:induction false} JoinLast(parts: seq<string>, last: string)
    requires parts != []
    ensures Join(parts + [last], "/") == Join(parts, "/") + "/" + last
  {
    var all := parts + [last];
    assert all[1..] == parts[1..] + [last];
    if |parts| == 1 {
      assert parts[1..] + [last] == [last];
    } else {
      JoinLast(parts[1..], last);
      var rest := Join(parts[1..], "/");
      assert parts[0] + "/" + (rest + "/" + last) == parts[0] + "/" + rest + "/" + last;
    }
  }

  /** What stands before the last segment: nothing under the root, otherwise the parent's path. */
  function Before(parts: seq<string>): string {
    if parts == [] then "" else PathOf(parts)
  }

  lemma PathSplits(parts: seq<string>, last: string)
    ensures PathOf(parts + [last]) == Before(parts) + ['/'] + last
  {
    if parts == [] {
      assert [] + [last] == [last];
    } else {
      JoinLast(parts, last);
    }
  }

  lemma PathOfIsRootIff(parts: seq<string>)
    requires AllProper(parts)
    ensures PathOf(parts) == "/" <==> parts == []
  {
    if parts != [] {
      var n := |parts| - 1;
      assert parts == parts[..n] + [parts[n]];
      PathSplits(parts[..n], parts[n]);
      assert Proper(parts[n]);
      assert |PathOf(parts)| > 1;
    }
  }

  /** Parent and name of a path made of proper segments. */
  lemma PartsOfPath(parts: seq<string>, last: string)
    requires AllProper(parts + [last]) && |PathOf(parts + [last])| <= MAX_PATH
    ensures Parent(PathOf(parts + [last])) == Ok(Some(PathOf(parts)))
    ensures FileName(PathOf(parts + [last])) == Ok(last)
  {
    var all := parts + [last];
    var path := PathOf(all);
    assert all[|parts|] == last && Proper(last);
    SegmentsOfPath(all);
    PathOfIsRootIff(all);
    PathSplits(parts, last);
    LastIndexOfAt(Before(parts), '/', last);
    assert path[..|Before(parts)|] == Before(parts);
    assert path[|Before(parts)| + 1..] == last;
    assert PathOf([]) == "/";
  }

  /** Parent and name depend on the resolved path alone. */
  lemma ResolvedDecides(p: string, q: string)
    requires Resolve(p, "") == Resolve(q, "")
    ensures Parent(p) == Parent(q) && FileName(p) == FileName(q)
  {
  }

  lemma ShorterInit(init: seq<string>, last: string)
    ensures |PathOf(init)| <= |PathOf(init + [last])|
  {
    PathSplits(init, last);
    assert |PathOf([])| == 1;
  }

  lemma NonRootSegments(path: string) returns (init: seq<string>, last: string)
    requires Resolve(path, "").Ok? && Resolve(path, "").value != "/"
    ensures AllProper(init + [last]) && Resolve(path, "") == Ok(PathOf(init + [last]))
    ensures |PathOf(init + [last])| <= MAX_PATH
  {
    var parts := ResolvedParts(OrRoot(path));
    PathOfIsRootIff(parts);
    init, last := parts[..|parts| - 1], parts[|parts| - 1];
    assert parts == init + [last];
  }

  lemma NonRootParts(path: string) returns (init: seq<string>, last: string)
    requires Resolve(path, "").Ok? && Resolve(path, "").value != "/"
    ensures AllProper(init + [last]) && Resolve(path, "") == Ok(PathOf(init + [last]))
    ensures |PathOf(init + [last])| <= MAX_PATH
    ensures Parent(path) == Ok(Some(PathOf(init))) && FileName(path) == Ok(last)
    ensures AllProper(init) && Proper(last) && |PathOf(init)| <= MAX_PATH
  {
    init, last := NonRootSegments(path);
    var all := init + [last];
    assert all[|init|] == last && all[..|init|] == init;
    PartsOfPath(init, last);
    ShorterInit(init, last);
    ResolveKeeps(PathOf(all));
    ResolvedDecides(path, PathOf(all));
  }

  // ---------- parent and name rebuild the path ----------

  lemma StripOfPath(parts: seq<string>)
    requires AllProper(parts)
    ensures StripSlashes(PathOf(parts)) == Before(parts)
  {
    if parts == [] {
      assert PathOf(parts) == "/";
      assert "/"[..0] == "";
      assert StripSlashes("/") == StripSlashes("");
    } else {
      var n := |parts| - 1;
      var last := parts[n];
      assert parts == parts[..n] + [last];
      PathSplits(parts[..n], last);
      assert Proper(last);
      var path := PathOf(parts);
      assert path[|path| - 1] == last[|last| - 1] && last[|last| - 1] in last;
    }
  }

  /** Resolving a proper name in a directory puts it behind the directory's segments. */
  lemma ResolveChild(parts: seq<string>, name: string)
    requires AllProper(parts) && Proper(name)
    ensures var path := PathOf(parts + [name]);
            Resolve(PathOf(parts), name) == if |path| > MAX_PATH then Err(PathTooLong) else Ok(path)
  {
    var all := parts + [name];
    StripOfPath(parts);
    PathSplits(parts, name);
    assert name[0] in name;
    assert Joined(PathOf(parts), name) == PathOf(all);
    SegmentsOfPath(all);
  }

  /** Away from the root, parent and name of a path resolve to that path again. */
  lemma ParentAndNameRebuild(path: string)
    requires Resolve(path, "").Ok? && Resolve(path, "").value != "/"
    ensures Parent(path).Ok? && Parent(path).value.Some? && FileName(path).Ok?
    ensures Resolve(Parent(path).value.value, FileName(path).value) == Resolve(path, "")
  {
    var init, last := NonRootParts(path);
    ResolveChild(init, last);
  }

  // ---------- renaming ----------

  lemma GoodName(name: string)
    requires !BadName(name) && NUL !in name
    ensures Proper(name)
  {
  }

  /** A rename stays in the directory and gives the trimmed name. */
  lemma RenameKeepsParent(from: string, newName: string)
    requires RenameDest(from, newName).Ok?
    ensures var dest := RenameDest(from, newName).value;
            && Parent(dest) == Parent(from)
            && FileName(dest) == Ok(Trim(newName))
  {
    var name := Trim(newName);
    var init, _ := NonRootParts(from);
    assert name[0] in name;
    assert NUL !in name by { NameInJoined(PathOf(init), name); }
    GoodName(name);
    ResolveChild(init, name);
    PartsOfPath(init, name);
  }

  lemma NameInJoined(dir: string, name: string)
    requires Resolve(dir, name).Ok? && name != "" && name[0] != '/'
    ensures NUL !in name
  {
    var j := Joined(dir, name);
    assert j[|j| - |name|..] == name;
  }

  /** A rename is refused for a bad name, for the root, for NUL in the name and for too long a result. */
  lemma RenameFailsIff(from: string, newName: string)
    requires Resolve(from, "").Ok?
    ensures var name, dir := Trim(newName), Parent(from).value;
            RenameDest(from, newName).Err? <==>
              || BadName(name) || dir.None? || NUL in name
              || |if dir.value == "/" then "/" + name else dir.value + "/" + name| > MAX_PATH
  {
    var name := Trim(newName);
    if !BadName(name) && Resolve(from, "").value != "/" {
      var init, _ := NonRootParts(from);
      assert name[0] in name;
      if NUL in name {
        var j := Joined(PathOf(init), name);
        assert j[|j| - |name|..] == name;
      } else {
        GoodName(name);
        ResolveChild(init, name);
        PathSplits(init, name);
        PathOfIsRootIff(init);
      }
    }
  }

  // ---------- breadcrumbs ----------

  lemma {:induction false} NonEmptyKeeps(parts: seq<string>)
    requires AllProper(parts)
    ensures NonEmpty(parts) == parts
  {
    if parts != [] {
      assert Proper(parts[0]);
      NonEmptyKeeps(parts[1..]);
    }
  }

  lemma PartsOfResolved(parts: seq<string>)
    requires AllProper(parts)
    ensures NonEmpty(Split(PathOf(parts), '/')) == parts
  {
    if parts == [] {
      RootHasNoParts();
      assert PathOf(parts) == "/";
    } else {
      assert PathOf(parts) == [] + ['/'] + Join(parts, "/");
      SplitAt([], '/', Join(parts, "/"));
      SplitOfJoin(parts, '/');
      NonEmptyKeeps(parts);
      assert ([[]] + parts)[1..] == parts;
    }
  }

  /** Appending a segment to the accumulated text gives the next path. */
  lemma CrumbStep(done: seq<string>, part: string)
    ensures Before(done) + "/" + part == PathOf(done + [part]) == Before(done + [part])
  {
    PathSplits(done, part);
  }

  lemma CrumbsUnfold(done: seq<string>, parts: seq<string>)
    requires parts != []
    ensures var next := done + [parts[0]];
            CrumbsFrom(Before(done), parts) == [CrumbOf(next)] + CrumbsFrom(Before(next), parts[1..])
  {
    CrumbStep(done, parts[0]);
  }

  lemma Regroup(done: seq<string>, parts: seq<string>, k: nat)
    requires 0 < k < |parts|
    ensures (done + [parts[0]]) + parts[1..][..k] == done + parts[..k + 1]
  {
  }

  /** The segments of each path that is passed, the first ones `done` already. */
  ghost function Passed(done: seq<string>, parts: seq<string>): (r: seq<seq<string>>)
    ensures |r| == |parts|
    decreases |parts|
  {
    if parts == [] then [] else [done + [parts[0]]] + Passed(done + [parts[0]], parts[1..])
  }

  lemma {:induction false} PassedAt(done: seq<string>, parts: seq<string>, k: nat)
    requires k < |parts|
    ensures Passed(done, parts)[k] == done + parts[..k + 1]
    decreases k
  {
    if k == 0 {
      assert parts[..1] == [parts[0]];
    } else {
      PassedAt(done + [parts[0]], parts[1..], k - 1);
      Regroup(done, parts, k);
    }
  }

  lemma {:induction false} CrumbsArePassed(done: seq<string>, parts: seq<string>, k: nat)
    requires k < |parts|
    ensures CrumbsFrom(Before(done), parts)[k] == CrumbOf(Passed(done, parts)[k])
    decreases k
  {
    CrumbsUnfold(done, parts);
    if k > 0 {
      CrumbsArePassed(done + [parts[0]], parts[1..], k - 1);
    }
  }

  /** The breadcrumb that stands for these segments. */
  ghost function CrumbOf(parts: seq<string>): Crumb {
    Crumb(if parts == [] then "/" else parts[|parts| - 1], PathOf(parts))
  }

  /** The breadcrumb at place `k` stands for the first `k` segments. */
  lemma CrumbIs(path: string, parts: seq<string>, k: nat)
    requires Resolve(path, "") == Ok(PathOf(parts)) && AllProper(parts) && k <= |parts|
    ensures Crumbs(path).Ok? && |Crumbs(path).value| == |parts| + 1
    ensures Crumbs(path).value[k] == CrumbOf(parts[..k])
  {
    PartsOfResolved(parts);
    if k > 0 {
      CrumbsArePassed([], parts, k - 1);
      PassedAt([], parts, k - 1);
      assert [] + parts[..k] == parts[..k];
    } else {
      assert PathOf(parts[..0]) == "/";
    }
  }

  /** `next` stands for an entry of the directory `prev` stands for. */
  ghost predicate Leads(prev: Crumb, next: Crumb) {
    Parent(next.path) == Ok(Some(prev.path)) && FileName(next.path) == Ok(next.name)
  }

  lemma CrumbLeads(parts: seq<string>, k: nat)
    requires AllProper(parts) && 0 < k <= |parts| && |PathOf(parts)| <= MAX_PATH
    ensures Leads(CrumbOf(parts[..k - 1]), CrumbOf(parts[..k]))
  {
    var init, last := parts[..k - 1], parts[k - 1];
    assert parts[..k] == init + [last];
    ShorterPath(parts, k);
    PartsOfPath(init, last);
  }

  lemma CrumbPairLeads(path: string, parts: seq<string>, k: nat)
    requires Resolve(path, "") == Ok(PathOf(parts)) && AllProper(parts) && |PathOf(parts)| <= MAX_PATH
    requires 0 < k <= |parts|
    ensures Crumbs(path).Ok? && |Crumbs(path).value| == |parts| + 1
    ensures Leads(Crumbs(path).value[k - 1], Crumbs(path).value[k])
  {
    CrumbIs(path, parts, k);
    CrumbIs(path, parts, k - 1);
    CrumbLeads(parts, k);
  }

  lemma CrumbEnds(path: string, parts: seq<string>)
    requires Resolve(path, "") == Ok(PathOf(parts)) && AllProper(parts)
    ensures Crumbs(path).Ok? && |Crumbs(path).value| == |parts| + 1
    ensures Crumbs(path).value[0] == Crumb("/", "/") && Crumbs(path).value[|parts|].path == PathOf(parts)
  {
    CrumbIs(path, parts, 0);
    CrumbIs(path, parts, |parts|);
    assert parts[..|parts|] == parts;
  }

  /**
    The breadcrumbs lead from the root to the path: each is the parent of the next, bears the name of
    the path it stands for, and the last is the path itself.
  */
  lemma CrumbsLeadToPath(path: string)
    requires Resolve(path, "").Ok?
    ensures Crumbs(path).Ok?
    ensures var c := Crumbs(path).value;
            && c != [] && c[0] == Crumb("/", "/")
            && c[|c| - 1].path == Resolve(path, "").value
            && forall k :: 0 < k < |c| ==> Leads(c[k - 1], c[k])
  {
    var parts := ResolvedParts(OrRoot(path));
    CrumbEnds(path, parts);
    forall k | 0 < k <= |parts|
      ensures Leads(Crumbs(path).value[k - 1], Crumbs(path).value[k])
    {
      CrumbPairLeads(path, parts, k);
    }
  }

  lemma {:induction false} ShorterPath(parts: seq<string>, k: nat)
    requires k <= |parts|
    ensures |PathOf(parts[..k])| <= |PathOf(parts)|
    decreases |parts| - k
  {
    if k < |parts| {
      ShorterPath(parts, k + 1);
      assert parts[..k + 1] == parts[..k] + [parts[k]];
      ShorterInit(parts[..k], parts[k]);
    } else {
      assert parts[..k] == parts;
    }
  }
}
