/** The laws of "..", of backslashes and of absolute names in guest paths (`lib/guest-files.ts`). */
module GuestPathLaws {
  import opened Text
  import opened GuestPaths
  import opened GuestPathParts

  /** ".." leads to the parent. */
  lemma DotDotIsParent(path: string)
    requires Resolve(path, "").Ok? && Resolve(path, "").value != "/"
    ensures Parent(path).Ok? && Parent(path).value.Some?
    ensures Resolve(Resolve(path, "").value, "..") == Ok(Parent(path).value.value)
  {
    var init, last := NonRootParts(path);
    var parts := init + [last];
    StripOfPath(parts);
    SegmentsConcat(Before(parts), "..");
    DotDotIsOneSegment();
    SegmentsOfPath(parts);
    WalkConcat([], Segments(PathOf(parts)), [".."]);
    WalkOne("..");
    assert Push(parts, "..") == Some(init);
    assert NUL !in PathOf(parts) + "/" + "..";
  }

  lemma DotDotIsOneSegment()
    ensures Segments("..") == [".."]
  {
    SlashedKeeps("..");
    SplitWhole("..", '/');
  }

  /** The root has no "..". */
  lemma NoDotDotAtRoot()
    ensures Resolve("/", "..") == Err(InvalidPath)
  {
    assert StripSlashes("/") == StripSlashes("/"[..0]) == "";
    SegmentsConcat("", "..");
    DotDotIsOneSegment();
    assert Segments("") == [""];
    WalkConcat([], [""], [".."]);
    WalkOne("");
    WalkOne("..");
  }

  lemma NameSegment(x: string)
    requires Proper(x)
    ensures Segments(x) == [x] && x != [] && x[0] != '/'
  {
    SlashedKeeps(x);
    SplitWhole(x, '/');
    assert x[0] in x;
  }

  lemma Regrouped(dir: string, x: string, rest: string)
    ensures dir + "/" + (x + "/" + ".." + "/" + rest) == dir + "/" + x + "/" + ".." + "/" + rest
  {
  }

  lemma WalkBack(dir: string, x: string, rest: string)
    requires Proper(x)
    ensures Walk([], Segments(dir + "/" + x + "/" + ".." + "/" + rest)) == Walk([], Segments(dir + "/" + rest))
  {
    SegmentsConcat(dir + "/" + x + "/" + "..", rest);
    SegmentsConcat(dir + "/" + x, "..");
    SegmentsConcat(dir, x);
    SegmentsConcat(dir, rest);
    NameSegment(x);
    DotDotIsOneSegment();
    var d := Segments(dir);
    WalkConcat([], d + [x] + [".."], Segments(rest));
    WalkConcat([], d + [x], [".."]);
    WalkConcat([], d, [x]);
    WalkConcat([], d, Segments(rest));
    WalkOne(x);
    WalkOne("..");
    if Walk([], d).Some? {
      var parts := Walk([], d).value;
      assert (parts + [x])[..|parts|] == parts;
    }
  }

  /** A name and a step back cancel. */
  lemma StepBack(cwd: string, x: string, rest: string)
    requires Proper(x) && rest != "" && rest[0] != '/'
    ensures Resolve(cwd, x + "/" + ".." + "/" + rest) == Resolve(cwd, rest)
  {
    var dir := StripSlashes(OrRoot(cwd));
    NameSegment(x);
    Regrouped(dir, x, rest);
    WalkBack(dir, x, rest);
  }

  lemma SameSegments(a: string, b: string)
    ensures Segments(a + "\\" + b) == Segments(a + "/" + b)
  {
    assert Slashed(a + "\\" + b) == Slashed(a + "/" + b);
  }

  /** A backslash separates like a slash. */
  lemma BackslashIsSlash(cwd: string, x: string, y: string)
    requires x != ""
    ensures Resolve(cwd, x + "\\" + y) == Resolve(cwd, x + "/" + y)
  {
    var dir := StripSlashes(OrRoot(cwd));
    if x[0] == '/' {
      SameSegments(x, y);
    } else {
      assert dir + "/" + (x + "\\" + y) == dir + "/" + x + "\\" + y;
      assert dir + "/" + (x + "/" + y) == dir + "/" + x + "/" + y;
      SameSegments(dir + "/" + x, y);
    }
  }

  /** An absolute name stands for itself, wherever it is resolved. */
  lemma AbsoluteIgnoresDirectory(cwd: string, name: string)
    requires name != "" && name[0] == '/'
    ensures Resolve(cwd, name) == Resolve(name, "")
  {
  }
}
