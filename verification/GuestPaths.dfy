/** Guest file paths of `lib/guest-files.ts`: a resolver that walks the segments with a stack. */
module GuestPaths {
  import opened Text

  const MAX_PATH: nat := 4096
  const NUL: char := '\0'

  datatype Error = InvalidPath | PathTooLong | InvalidName

  type Answer<T> = Result<T, Error>

  // ---------- segments ----------

  /** `replace(/\\/g, "/")` */
  function Slashed(s: string): string {
    seq(|s|, i requires 0 <= i < |s| => if s[i] == '\\' then '/' else s[i])
  }

  function Segments(s: string): seq<string> {
    Split(Slashed(s), '/')
  }

  /** One segment on the stack of those kept; `None` when ".." finds the stack empty. */
  function Push(parts: seq<string>, seg: string): Option<seq<string>> {
    if seg == "" || seg == "." then Some(parts)
    else if seg == ".." then (if parts == [] then None else Some(parts[..|parts| - 1]))
    else Some(parts + [seg])
  }

  function Walk(parts: seq<string>, segs: seq<string>): Option<seq<string>>
    decreases |segs|
  {
    if segs == [] then Some(parts)
    else
      var next := Push(parts, segs[0]);
      if next.None? then None else Walk(next.value, segs[1..])
  }

  function PathOf(parts: seq<string>): string {
    "/" + Join(parts, "/")
  }

  // ---------- resolving ----------

  function StripSlashes(s: string): (r: string)
    ensures r <= s
  {
    if s != [] && s[|s| - 1] == '/' then StripSlashes(s[..|s| - 1]) else s
  }

  function OrRoot(cwd: string): string {
    if cwd == "" then "/" else cwd
  }

  function Joined(cwd: string, name: string): string {
    if name == "" then OrRoot(cwd)
    else if name[0] == '/' then name
    else StripSlashes(OrRoot(cwd)) + "/" + name
  }

  function ResolveJoined(joined: string): Answer<string> {
    var parts := Walk([], Segments(joined));
    if NUL in joined || parts.None? then Err(InvalidPath)
    else if |PathOf(parts.value)| > MAX_PATH then Err(PathTooLong)
    else Ok(PathOf(parts.value))
  }

  /** `resolveGuestPath(cwd, name)`; a missing name is the empty one. */
  function Resolve(cwd: string, name: string): Answer<string> {
    ResolveJoined(Joined(cwd, name))
  }

  method ResolveGuestPath(cwd: string, name: string) returns (r: Answer<string>)
    ensures r == Resolve(cwd, name)
  {
    var joined := Joined(cwd, name);
    if NUL in joined {
      return Err(InvalidPath);
    }
    var parts: seq<string> := [];
    var segs := Segments(joined);
    assert segs[0..] == segs;
    for n := 0 to |segs|
      invariant Walk(parts, segs[n..]) == Walk([], segs)
    {
      assert segs[n..][1..] == segs[n + 1..];
      var seg := segs[n];
      if seg == "" || seg == "." {
        continue;
      }
      if seg == ".." {
        if parts == [] {
          return Err(InvalidPath);
        }
        parts := parts[..|parts| - 1];
        continue;
      }
      parts := parts + [seg];
    }
    var path := PathOf(parts);
    if |path| > MAX_PATH {
      return Err(PathTooLong);
    }
    r := Ok(path);
  }

  // ---------- canonical paths ----------

  /** A segment that names something. */
  predicate Proper(seg: string) {
    seg != "" && seg != "." && seg != ".." && '/' !in seg && '\\' !in seg && NUL !in seg
  }

  ghost predicate AllProper(parts: seq<string>) {
    forall i :: 0 <= i < |parts| ==> Proper(parts[i])
  }

  ghost predicate Canonical(path: string) {
    |path| <= MAX_PATH && exists parts :: AllProper(parts) && path == PathOf(parts)
  }

  lemma {:induction false} WalkConcat(parts: seq<string>, a: seq<string>, b: seq<string>)
    ensures var mid := Walk(parts, a); Walk(parts, a + b) == if mid.None? then None else Walk(mid.value, b)
    decreases |a|
  {
    if a == [] {
      assert a + b == b;
    } else {
      assert (a + b)[1..] == a[1..] + b;
      var next := Push(parts, a[0]);
      if next.Some? {
        WalkConcat(next.value, a[1..], b);
      }
    }
  }

  lemma {:induction false} WalkProper(parts: seq<string>, more: seq<string>)
    requires AllProper(more)
    ensures Walk(parts, more) == Some(parts + more)
    decreases |more|
  {
    if more == [] {
      assert parts + [] == parts;
    } else {
      WalkProper(parts + [more[0]], more[1..]);
      assert parts + [more[0]] + more[1..] == parts + more;
    }
  }

  /** The stack only ever holds proper segments. */
  lemma {:induction false} WalkKeepsProper(parts: seq<string>, segs: seq<string>)
    requires AllProper(parts)
    requires forall i :: 0 <= i < |segs| ==> '/' !in segs[i] && '\\' !in segs[i] && NUL !in segs[i]
    ensures Walk(parts, segs).Some? ==> AllProper(Walk(parts, segs).value)
    decreases |segs|
  {
    if segs != [] {
      var next := Push(parts, segs[0]);
      if next.Some? {
        WalkKeepsProper(next.value, segs[1..]);
      }
    }
  }

  lemma WalkedIsProper(s: string)
    requires NUL !in s
    ensures Walk([], Segments(s)).Some? ==> AllProper(Walk([], Segments(s)).value)
  {
    SplitPartsLackSeparator(Slashed(s), '/');
    SplitLacks(Slashed(s), '/', '\\');
    SplitLacks(Slashed(s), '/', NUL);
    WalkKeepsProper([], Segments(s));
  }

  /** What a resolved path is made of. */
  lemma ResolvedParts(joined: string) returns (parts: seq<string>)
    requires ResolveJoined(joined).Ok?
    ensures AllProper(parts) && ResolveJoined(joined) == Ok(PathOf(parts)) && |PathOf(parts)| <= MAX_PATH
    ensures Walk([], Segments(joined)) == Some(parts)
  {
    WalkedIsProper(joined);
    parts := Walk([], Segments(joined)).value;
  }

  /** Every result is an absolute path without empty, "." or ".." segments, of bounded length. */
  lemma ResolvedIsCanonical(cwd: string, name: string)
    ensures Resolve(cwd, name).Ok? ==> Canonical(Resolve(cwd, name).value)
  {
    if Resolve(cwd, name).Ok? {
      var _ := ResolvedParts(Joined(cwd, name));
    }
  }

  lemma {:induction false} JoinLacks(parts: seq<string>, x: char)
    requires x != '/' && forall i :: 0 <= i < |parts| ==> x !in parts[i]
    ensures x !in Join(parts, "/")
  {
    if |parts| > 1 {
      JoinLacks(parts[1..], x);
    }
  }

  lemma SlashedKeeps(s: string)
    requires '\\' !in s
    ensures Slashed(s) == s
  {
  }

  lemma SegmentsOfPath(parts: seq<string>)
    requires AllProper(parts)
    ensures Walk([], Segments(PathOf(parts))) == Some(parts) && NUL !in PathOf(parts)
  {
    var path := PathOf(parts);
    JoinLacks(parts, '\\');
    JoinLacks(parts, NUL);
    SlashedKeeps(path);
    assert path == [] + ['/'] + Join(parts, "/");
    SplitAt([], '/', Join(parts, "/"));
    if parts == [] {
      assert Segments(path) == [[]] + [[]];
      WalkOne([]);
      WalkConcat([], [[]], [[]]);
    } else {
      SplitOfJoin(parts, '/');
      assert ([[]] + parts)[1..] == parts;
      WalkProper([], parts);
      assert [] + parts == parts;
    }
  }

  /** Canonical paths resolve to themselves. */
  lemma ResolveKeeps(path: string)
    requires Canonical(path)
    ensures Resolve(path, "") == Ok(path)
  {
    var parts :| AllProper(parts) && path == PathOf(parts);
    SegmentsOfPath(parts);
  }

  /** Resolving is idempotent. */
  lemma ResolveIdempotent(cwd: string, name: string)
    requires Resolve(cwd, name).Ok?
    ensures Resolve(Resolve(cwd, name).value, "") == Resolve(cwd, name)
  {
    ResolvedIsCanonical(cwd, name);
    ResolveKeeps(Resolve(cwd, name).value);
  }

  // ---------- exactly when resolving fails ----------

  /** At some segment ".." the names before it have all been taken back. */
  ghost predicate ClimbsOut(segs: seq<string>) {
    exists k :: 0 <= k < |segs| && segs[k] == ".." && Walk([], segs[..k]) == Some([])
  }

  lemma {:induction false} WalkFailsIff(segs: seq<string>)
    ensures Walk([], segs).None? <==> ClimbsOut(segs)
    decreases |segs|
  {
    if segs != [] {
      var n := |segs| - 1;
      var early, last := segs[..n], segs[n];
      WalkFailsIff(early);
      WalkConcat([], early, [last]);
      assert segs == early + [last];
      WalkOne(last);
      if ClimbsOut(early) {
        var k :| 0 <= k < |early| && early[k] == ".." && Walk([], early[..k]) == Some([]);
        assert segs[k] == ".." && segs[..k] == early[..k];
      }
      if ClimbsOut(segs) {
        var k :| 0 <= k < |segs| && segs[k] == ".." && Walk([], segs[..k]) == Some([]);
        if k < n {
          assert early[k] == ".." && early[..k] == segs[..k];
        }
      }
    }
  }

  lemma WalkOne(seg: string)
    ensures forall parts :: Walk(parts, [seg]) == Push(parts, seg)
  {
    assert [seg][1..] == [];
  }

  /** Resolving fails on NUL, on ".." at the root, on too long a result, and on nothing else. */
  lemma ResolveFailsIff(cwd: string, name: string)
    ensures var joined := Joined(cwd, name);
            && (Resolve(cwd, name) == Err(InvalidPath) <==> NUL in joined || ClimbsOut(Segments(joined)))
            && (Resolve(cwd, name) == Err(PathTooLong) <==>
                  NUL !in joined && !ClimbsOut(Segments(joined))
                  && |PathOf(Walk([], Segments(joined)).GetOr([]))| > MAX_PATH)
  {
    WalkFailsIff(Segments(Joined(cwd, name)));
  }

  // ---------- resolving in two steps ----------

  lemma {:induction false} SlashedConcat(a: string, b: string)
    ensures Slashed(a + b) == Slashed(a) + Slashed(b)
  {
  }

  lemma SegmentsConcat(a: string, b: string)
    ensures Segments(a + "/" + b) == Segments(a) + Segments(b)
  {
    SlashedConcat(a + "/", b);
    SlashedConcat(a, "/");
    assert Slashed("/") == ['/'];
    SplitAt(Slashed(a), '/', Slashed(b));
  }

  lemma {:induction false} WalkStripped(s: string)
    ensures Walk([], Segments(StripSlashes(s))) == Walk([], Segments(s))
  {
    if s != [] && s[|s| - 1] == '/' {
      var t := s[..|s| - 1];
      WalkStripped(t);
      assert s == t + "/" + [];
      SegmentsConcat(t, []);
      WalkConcat([], Segments(t), Segments([]));
      WalkOne([]);
    }
  }

  /** A relative name may be resolved against the directory or against its resolved form. */
  lemma ResolveInSteps(cwd: string, name: string)
    requires Resolve(cwd, "").Ok? && name != "" && name[0] != '/'
    ensures Resolve(Resolve(cwd, "").value, name) == Resolve(cwd, name)
  {
    var dir := Resolve(cwd, "").value;
    var parts := ResolvedParts(OrRoot(cwd));
    SegmentsOfPath(parts);
    WalkStripped(dir);
    WalkStripped(OrRoot(cwd));
    SegmentsConcat(StripSlashes(dir), name);
    SegmentsConcat(StripSlashes(OrRoot(cwd)), name);
    WalkConcat([], Segments(StripSlashes(dir)), Segments(name));
    WalkConcat([], Segments(StripSlashes(OrRoot(cwd))), Segments(name));
    StrippedLacks(OrRoot(cwd));
    StrippedLacks(dir);
  }

  lemma StrippedLacks(s: string)
    requires NUL !in s
    ensures NUL !in StripSlashes(s)
  {
  }
}
