/** The archive-and-clean-up loop both the ECR and the service-detail tasks end
    with: `for f in files: zf.write(f, f.name); os.remove(f)`. The disk is the
    set of paths that exist; every listed file exists when the loop starts. */
module Archive {
  import opened Wrappers
  import opened Events

  predicate Distinct<T(==)>(xs: seq<T>) {
    forall i, j | 0 <= i < j < |xs| :: xs[i] != xs[j]
  }

  lemma DistinctCons(x: FilePath, xs: seq<FilePath>)
    requires Distinct(xs) && x !in xs
    ensures Distinct([x] + xs)
  {
    var all := [x] + xs;
    forall i, j | 0 <= i < j < |all| ensures all[i] != all[j] {
      assert all[j] == xs[j - 1];
      if i > 0 {
        assert all[i] == xs[i - 1];
      }
    }
  }

  /** The archive member names: each file's name without its directory. */
  function Names(files: seq<FilePath>): (r: seq<string>)
    ensures |r| == |files| && forall i | 0 <= i < |files| :: r[i] == files[i].name
  {
    if files == [] then [] else Names(files[..|files| - 1]) + [files[|files| - 1].name]
  }

  /** The files in order of first occurrence, each once. */
  function Dedup(xs: seq<FilePath>): (r: seq<FilePath>)
    ensures Distinct(r)
    ensures forall x :: x in r <==> x in xs
  {
    if xs == [] then []
    else
      var d := Dedup(xs[..|xs| - 1]);
      var x := xs[|xs| - 1];
      assert forall y :: y in xs <==> y in xs[..|xs| - 1] || y == x;
      if x in d then d else d + [x]
  }

  lemma {:induction false} DedupOfDistinct(xs: seq<FilePath>)
    requires Distinct(xs)
    ensures Dedup(xs) == xs
  {
    if xs != [] {
      DedupOfDistinct(xs[..|xs| - 1]);
      assert xs[..|xs| - 1] + [xs[|xs| - 1]] == xs;
    }
  }

  /** The `FileNotFoundError` text `zf.write` raises for a path that is gone. */
  function MissingFileMessage(f: FilePath): string {
    "[Errno 2] No such file or directory: '" + PathText(f) + "'"
  }

  /** The loop as written. Each file is archived and then removed, so a path
      listed twice is already gone the second time: `zf.write` raises and the
      rest of the loop does not run. The loop completes exactly when no path is
      listed twice; otherwise it stops at the first repeat, with the files
      before it archived and removed and the rest still on disk. */
  method ZipAndRemoveAsWritten(files: seq<FilePath>) returns (members: seq<string>, remaining: set<FilePath>, raised: Option<string>)
    ensures raised.None? <==> Distinct(files)
    ensures raised.None? ==> members == Names(files) && remaining == {}
    ensures raised.Some? ==> exists k | 0 < k < |files| ::
      && Distinct(files[..k]) && files[k] in files[..k]
      && members == Names(files[..k])
      && remaining == (set f | f in files) - (set f | f in files[..k])
      && raised == Some(MissingFileMessage(files[k]))
  {
    remaining := set f | f in files;
    members := [];
    raised := None;
    var i := 0;
    while i < |files|
      invariant 0 <= i <= |files|
      invariant Distinct(files[..i])
      invariant remaining == (set f | f in files) - (set f | f in files[..i])
      invariant members == Names(files[..i])
    {
      var f := files[i];
      if f !in remaining {
        assert f in files[..i];
        raised := Some(MissingFileMessage(f));
        return;
      }
      members := members + [f.name];
      remaining := remaining - {f};
      assert files[..i + 1] == files[..i] + [f];
      i := i + 1;
    }
    assert files[..i] == files;
  }

  /** The loop as intended: a path already archived and removed is not archived
      again. Every listed file ends up in the archive exactly once, in order of
      first mention, and none is left on disk. */
  method ZipAndRemove(files: seq<FilePath>) returns (members: seq<string>, remaining: set<FilePath>)
    ensures members == Names(Dedup(files))
    ensures remaining == {}
  {
    remaining := set f | f in files;
    members := [];
    var i := 0;
    while i < |files|
      invariant 0 <= i <= |files|
      invariant remaining == (set f | f in files) - (set f | f in files[..i])
      invariant members == Names(Dedup(files[..i]))
    {
      var f := files[i];
      assert files[..i + 1] == files[..i] + [f];
      assert files[..i + 1][..i] == files[..i];
      if f in remaining {
        members := members + [f.name];
        remaining := remaining - {f};
      }
      i := i + 1;
    }
    assert files[..i] == files;
  }

  /** Where the loop as written completes, the intended loop archives the same
      members. */
  lemma ZipAndRemoveAgrees(files: seq<FilePath>)
    requires Distinct(files)
    ensures Names(Dedup(files)) == Names(files)
  {
    DedupOfDistinct(files);
  }
}
