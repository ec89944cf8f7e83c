/** The multi-file scripts (update-colors.js, apply-colors.py) run over a fixed list of page
    files; each file is read, rewritten and written back inside its own try block, so a file
    whose read or write throws is reported and the run goes on with the next one. The file
    system is a parameter: for every file, the text a read returns (if it succeeds) and whether
    a write would succeed. */
module FileRuns {
  import opened Strings

  datatype FileAccess = FileAccess(read: Option<string>, writeOk: bool)

  /** The grand total of a run: the sum of what each file contributes. */
  function Total(files: seq<FileAccess>, contribution: FileAccess -> nat): nat
    decreases |files|
  {
    if files == [] then 0
    else
      var n := |files| - 1;
      Total(files[..n], contribution) + contribution(files[n])
  }

  /** The grand total over two lists of files is the sum of their totals. */
  lemma {:induction false} TotalConcat(a: seq<FileAccess>, b: seq<FileAccess>, contribution: FileAccess -> nat)
    ensures Total(a + b, contribution) == Total(a, contribution) + Total(b, contribution)
    decreases |b|
  {
    if b == [] {
      assert a + b == a;
    } else {
      var n := |b| - 1;
      assert (a + b)[..|a + b| - 1] == a + b[..n];
      TotalConcat(a, b[..n], contribution);
    }
  }

  /** A file that contributes nothing can be dropped from the list without changing the total. */
  lemma DroppingSilentFile(files: seq<FileAccess>, i: int, contribution: FileAccess -> nat)
    requires 0 <= i < |files| && contribution(files[i]) == 0
    ensures Total(files, contribution) == Total(files[..i] + files[i + 1..], contribution)
  {
    var a, f, b := files[..i], [files[i]], files[i + 1..];
    assert Total(f, contribution) == 0 by {
      assert f[..0] == [];
    }
    assert files == a + (f + b);
    TotalConcat(a, f + b, contribution);
    TotalConcat(f, b, contribution);
    TotalConcat(a, b, contribution);
  }
}
