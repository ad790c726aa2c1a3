/**
 * The file processor: moving files to the recycle bin, to a backup folder
 * or to another folder, deleting them, summing their sizes and sorting
 * existing from missing paths. The disk is a map from the paths that exist
 * to their sizes; the foreign calls that act on it (send2trash,
 * shutil.move, shutil.copy2, os.remove) fail on the paths in `refused`.
 */
module FileProcessing {
  import opened Basics
  import opened PathNames
  import opened Grouping

  datatype Result<T> = Success(value: T) | Failure(error: string)

  /** The file system as the processor sees it. */
  class Disk {
    /** The paths that exist, with their sizes. */
    var files: map<string, int>
    /** The paths on which the foreign call raises. */
    const refused: set<string>

    constructor(files: map<string, int>, refused: set<string>)
      ensures this.files == files && this.refused == refused
    {
      this.files := files;
      this.refused := refused;
    }
  }

  /** What is done to each existing path. */
  datatype Action = Discard | MoveTo(folder: string) | CopyTo(folder: string)

  /** pathlib's `folder / name`. */
  function Join(folder: string, name: string): string
  {
    folder + "/" + name
  }

  /**
   * The `k`-th name tried for a file called `name` in `folder`: the name
   * itself first, then `stem_k` followed by the suffix.
   */
  function Candidate(folder: string, name: string, k: nat): string
  {
    if k == 0 then Join(folder, name) else Join(folder, Stem(name) + "_" + Decimal(k) + Suffix(name))
  }

  /** Different counters give different names. */
  lemma CandidateInjective(folder: string, name: string, j: nat, k: nat)
    requires j != k
    ensures Candidate(folder, name, j) != Candidate(folder, name, k)
  {
    if j == 0 {
      NumberedLonger(folder, name, k);
    } else if k == 0 {
      NumberedLonger(folder, name, j);
    } else {
      NumberedDiffer(folder, name, j, k);
    }
  }

  /** A numbered name is longer than the name itself. */
  lemma NumberedLonger(folder: string, name: string, k: nat)
    requires k > 0
    ensures |Candidate(folder, name, k)| > |Candidate(folder, name, 0)|
  {
    StemSuffix(name);
  }

  lemma NumberedDiffer(folder: string, name: string, j: nat, k: nat)
    requires 0 < j && 0 < k && j != k
    ensures Candidate(folder, name, j) != Candidate(folder, name, k)
  {
    if Decimal(j) == Decimal(k) {
      DecimalInjective(j, k);
    }
    Framed(folder + "/", Stem(name) + "_", Decimal(j), Decimal(k), Suffix(name));
  }

  /** Two strings framed alike are equal only when the framed parts are. */
  lemma Framed(a: string, b: string, x: string, y: string, c: string)
    requires x != y
    ensures a + (b + x + c) != a + (b + y + c)
  {
    var u, v := a + (b + x + c), a + (b + y + c);
    if |x| == |y| {
      var i :| 0 <= i < |x| && x[i] != y[i];
      assert u[|a| + |b| + i] == x[i];
      assert v[|a| + |b| + i] == y[i];
    } else {
      assert |u| != |v|;
    }
  }

  /** The names tried before the `k`-th. */
  function Below(folder: string, name: string, k: nat): set<string>
  {
    if k == 0 then {} else Below(folder, name, k - 1) + {Candidate(folder, name, k - 1)}
  }

  lemma {:induction false} BelowMembers(folder: string, name: string, k: nat)
    ensures Candidate(folder, name, k) !in Below(folder, name, k)
  {
    if k > 0 {
      BelowMembers(folder, name, k - 1);
      CandidateInjective(folder, name, k - 1, k);
      BelowExcludes(folder, name, k - 1, k);
    }
  }

  /** A name tried before the `k`-th is not a name from `m` on, for `m >= k`. */
  lemma {:induction false} BelowExcludes(folder: string, name: string, k: nat, m: nat)
    requires k <= m
    ensures Candidate(folder, name, m) !in Below(folder, name, k)
  {
    if k > 0 {
      BelowExcludes(folder, name, k - 1, m);
      CandidateInjective(folder, name, k - 1, m);
    }
  }

  /** Trying a name that exists leaves fewer existing names untried. */
  lemma BelowShrinks(files: set<string>, folder: string, name: string, k: nat)
    requires Candidate(folder, name, k) in files
    ensures |files - Below(folder, name, k + 1)| < |files - Below(folder, name, k)|
  {
    var c := Candidate(folder, name, k);
    BelowExcludes(folder, name, k, k);
    assert files - Below(folder, name, k + 1) == (files - Below(folder, name, k)) - {c};
  }

  /** The least counter from `k` on whose name does not exist. */
  function FirstFree(files: set<string>, folder: string, name: string, k: nat): (r: nat)
    ensures k <= r && Candidate(folder, name, r) !in files
    ensures forall j :: k <= j < r ==> Candidate(folder, name, j) in files
    decreases |files - Below(folder, name, k)|
  {
    if Candidate(folder, name, k) !in files then k
    else
      BelowShrinks(files, folder, name, k);
      FirstFree(files, folder, name, k + 1)
  }

  /**
   * Where a file at `path` lands in `folder`: the first name for its own
   * name that does not exist; every name tried before it exists.
   */
  function Target(files: map<string, int>, folder: string, path: string): (t: string)
    ensures t !in files
    ensures exists k: nat :: (t == Candidate(folder, BaseName(path), k)
      && forall j :: 0 <= j < k ==> Candidate(folder, BaseName(path), j) in files)
  {
    var name := BaseName(path);
    var k := FirstFree(files.Keys, folder, name, 0);
    Candidate(folder, name, k)
  }

  /** `backup_folder or self.backup_folder`, where None and "" are both falsy. */
  function BackupFolder(arg: Option<string>, field: Option<string>): (r: Option<string>)
    ensures r.Some? <==> (arg.Some? && arg.value != "") || (field.Some? && field.value != "")
    ensures arg.Some? && arg.value != "" ==> r == arg
    ensures r.Some? ==> r.value != ""
  {
    if arg.Some? && arg.value != "" then arg
    else if field.Some? && field.value != "" then field
    else None
  }

  /**
   * One path: a missing path or one the foreign call refuses leaves the
   * disk as it was and is not counted; otherwise the action is applied.
   */
  function Apply(files: map<string, int>, refused: set<string>, a: Action, p: string): (r: (map<string, int>, bool))
  {
    if p !in files || p in refused then (files, false)
    else match a
      case Discard => (files - {p}, true)
      case MoveTo(folder) => ((files - {p})[Target(files, folder, p) := files[p]], true)
      case CopyTo(folder) => (files[Target(files, folder, p) := files[p]], true)
  }

  /** The per-file loop: the disk after every path in turn, and the number counted. */
  function ApplyAll(files: map<string, int>, refused: set<string>, a: Action, paths: seq<string>): (r: (map<string, int>, nat))
    ensures r.1 <= |paths|
  {
    if paths == [] then (files, 0)
    else
      var before := ApplyAll(files, refused, a, paths[..|paths| - 1]);
      var step := Apply(before.0, refused, a, paths[|paths| - 1]);
      (step.0, before.1 + if step.1 then 1 else 0)
  }

  /** The per-file loop over one more path applies the action to it. */
  lemma ApplyAllStep(files: map<string, int>, refused: set<string>, a: Action, paths: seq<string>, k: nat)
    requires k < |paths|
    ensures var before := ApplyAll(files, refused, a, paths[..k]);
      var step := Apply(before.0, refused, a, paths[k]);
      ApplyAll(files, refused, a, paths[..k + 1]) == (step.0, before.1 + if step.1 then 1 else 0)
  {
    assert paths[..k + 1][..k] == paths[..k];
  }

  /**
   * Moving or copying a path puts it under a name that did not exist, with
   * its size; a move frees the source and a copy keeps it; nothing else
   * changes.
   */
  lemma Placed(files: map<string, int>, refused: set<string>, a: Action, p: string)
    requires !a.Discard? && p in files && p !in refused
    ensures var t := Target(files, a.folder, p);
      var r := Apply(files, refused, a, p);
      && r.1 && t != p && t !in files && t in r.0 && r.0[t] == files[p]
      && (a.MoveTo? ==> p !in r.0) && (a.CopyTo? ==> p in r.0 && r.0[p] == files[p])
      && forall q :: q in files && q != p ==> q in r.0 && r.0[q] == files[q]
  {
  }

  /**
   * After one file is moved or copied, the next file's name is chosen
   * against a disk where the first target exists, so two files of the same
   * call land on different names.
   */
  lemma SuccessiveTargets(files: map<string, int>, refused: set<string>, a: Action, p: string, q: string)
    requires !a.Discard? && p in files && p !in refused
    ensures Target(Apply(files, refused, a, p).0, a.folder, q) != Target(files, a.folder, p)
  {
    Placed(files, refused, a, p);
  }

  /** `p in files and p not refused`: the paths a removal handles. */
  function Removable(files: map<string, int>, refused: set<string>): string -> bool
  {
    p => p in files && p !in refused
  }

  /** No path occurs twice. */
  predicate Distinct(paths: seq<string>)
  {
    forall i, j :: 0 <= i < j < |paths| ==> paths[i] != paths[j]
  }

  /** The last path of a sequence without repetition is not among the others. */
  lemma DistinctLast(paths: seq<string>)
    requires paths != [] && Distinct(paths)
    ensures Distinct(paths[..|paths| - 1]) && paths[|paths| - 1] !in paths[..|paths| - 1]
  {
    var n := |paths| - 1;
    forall i | 0 <= i < n ensures paths[..n][i] != paths[n] {
      assert paths[..n][i] == paths[i];
    }
  }

  /**
   * With no path repeated, removal removes exactly the paths that exist
   * and are not refused ...
   */
  lemma {:induction false} DiscardRemoves(files: map<string, int>, refused: set<string>, paths: seq<string>)
    requires Distinct(paths)
    ensures var r := ApplyAll(files, refused, Discard, paths).0;
      && (forall q :: q in r <==> q in files && (q !in paths || q in refused))
      && (forall q :: q in r ==> r[q] == files[q])
  {
    if paths != [] {
      var n := |paths| - 1;
      var init, x := paths[..n], paths[n];
      DistinctLast(paths);
      DiscardRemoves(files, refused, init);
      assert paths == init + [x];
      var before := ApplyAll(files, refused, Discard, init).0;
      assert x in before <==> x in files;
    }
  }

  /** ... and counts exactly those. */
  lemma {:induction false} DiscardCount(files: map<string, int>, refused: set<string>, paths: seq<string>)
    requires Distinct(paths)
    ensures ApplyAll(files, refused, Discard, paths).1 == |Where(paths, Removable(files, refused))|
  {
    if paths != [] {
      var n := |paths| - 1;
      var init, x := paths[..n], paths[n];
      DistinctLast(paths);
      DiscardCount(files, refused, init);
      DiscardRemoves(files, refused, init);
      assert paths == init + [x];
      WhereSnoc(init, x, Removable(files, refused));
    }
  }

  /** `os.path.exists`. */
  function Exists(files: map<string, int>): string -> bool
  {
    p => p in files
  }

  function Missing(files: map<string, int>): string -> bool
  {
    p => p !in files
  }

  /** The sum of the sizes of the paths that exist, each occurrence counted. */
  function TotalSize(files: map<string, int>, paths: seq<string>): int
  {
    if paths == [] then 0
    else TotalSize(files, paths[..|paths| - 1]) + (if paths[|paths| - 1] in files then files[paths[|paths| - 1]] else 0)
  }

  /** The total splits over a concatenation. */
  lemma {:induction false} TotalSizeAppend(files: map<string, int>, a: seq<string>, b: seq<string>)
    ensures TotalSize(files, a + b) == TotalSize(files, a) + TotalSize(files, b)
  {
    if b != [] {
      var n := |b| - 1;
      assert (a + b)[..|a + b| - 1] == a + b[..n];
      assert (a + b)[|a + b| - 1] == b[n];
      TotalSizeAppend(files, a, b[..n]);
    } else {
      assert a + b == a;
    }
  }

  /** Missing paths add nothing: the total is that of the existing paths validation returns. */
  lemma {:induction false} TotalSizeOfExisting(files: map<string, int>, paths: seq<string>)
    ensures TotalSize(files, paths) == TotalSize(files, Where(paths, Exists(files)))
  {
    if paths != [] {
      var n := |paths| - 1;
      assert paths == paths[..n] + [paths[n]];
      TotalSizeOfExisting(files, paths[..n]);
      WhereSnoc(paths[..n], paths[n], Exists(files));
      TotalSizeAppend(files, Where(paths[..n], Exists(files)), [paths[n]]);
      assert [paths[n]][..0] == [];
    }
  }

  /** Sizes are never negative, so neither is the total. */
  lemma {:induction false} TotalSizeNonNegative(files: map<string, int>, paths: seq<string>)
    requires forall p :: p in files ==> files[p] >= 0
    ensures TotalSize(files, paths) >= 0
  {
    if paths != [] {
      TotalSizeNonNegative(files, paths[..|paths| - 1]);
    }
  }

  /**
   * Validation splits the paths into the existing and the missing, each in
   * input order: nothing is lost, nothing added, nothing in both.
   */
  lemma ValidatePartition(files: map<string, int>, paths: seq<string>)
    ensures multiset(Where(paths, Exists(files))) + multiset(Where(paths, Missing(files))) == multiset(paths)
    ensures forall p :: p in Where(paths, Exists(files)) ==> p in paths && p in files
    ensures forall p :: p in Where(paths, Missing(files)) ==> p in paths && p !in files
  {
    ValidateCounts(files, paths);
    WhereMembers(paths, Exists(files));
    WhereMembers(paths, Missing(files));
  }

  lemma {:induction false} ValidateCounts(files: map<string, int>, paths: seq<string>)
    ensures multiset(Where(paths, Exists(files))) + multiset(Where(paths, Missing(files))) == multiset(paths)
  {
    if paths != [] {
      var n := |paths| - 1;
      ValidateCounts(files, paths[..n]);
      assert paths == paths[..n] + [paths[n]];
      WhereSnoc(paths[..n], paths[n], Exists(files));
      WhereSnoc(paths[..n], paths[n], Missing(files));
    }
  }

  class FileProcessor {
    const backupFolder: Option<string>

    constructor(backupFolder: Option<string>)
      ensures this.backupFolder == backupFolder
    {
      this.backupFolder := backupFolder;
    }

    /**
     * The naming loop of `move_to_backup` and `copy_to_folder`: counters
     * from 1 on are tried until a name does not exist.
     */
    static method FreeName(disk: Disk, folder: string, name: string) returns (target: string)
      ensures target == Candidate(folder, name, FirstFree(disk.files.Keys, folder, name, 0))
    {
      var counter := 1;
      target := Join(folder, name);
      while target in disk.files
        invariant 1 <= counter && target == Candidate(folder, name, counter - 1)
        invariant FirstFree(disk.files.Keys, folder, name, 0) == FirstFree(disk.files.Keys, folder, name, counter - 1)
        decreases |disk.files.Keys - Below(folder, name, counter - 1)|
      {
        BelowShrinks(disk.files.Keys, folder, name, counter - 1);
        target := Join(folder, Stem(name) + "_" + Decimal(counter) + Suffix(name));
        counter := counter + 1;
      }
    }

    /** The body of the per-file loop, inside its `try`. */
    static method ApplyOne(disk: Disk, a: Action, p: string) returns (ok: bool)
      modifies disk
      ensures (disk.files, ok) == Apply(old(disk.files), disk.refused, a, p)
    {
      ok := false;
      if p in disk.files {
        match a {
          case Discard =>
            if p !in disk.refused {
              disk.files := disk.files - {p};
              ok := true;
            }
          case MoveTo(folder) =>
            var target := FreeName(disk, folder, BaseName(p));
            if p !in disk.refused {
              disk.files := (disk.files - {p})[target := disk.files[p]];
              ok := true;
            }
          case CopyTo(folder) =>
            var target := FreeName(disk, folder, BaseName(p));
            if p !in disk.refused {
              disk.files := disk.files[target := disk.files[p]];
              ok := true;
            }
        }
      }
    }

    /** The per-file loop with its success counter. */
    static method ApplyEach(disk: Disk, a: Action, paths: seq<string>) returns (count: nat)
      modifies disk
      ensures (disk.files, count) == ApplyAll(old(disk.files), disk.refused, a, paths)
    {
      count := 0;
      for k := 0 to |paths|
        invariant (disk.files, count) == ApplyAll(old(disk.files), disk.refused, a, paths[..k])
      {
        ApplyAllStep(old(disk.files), disk.refused, a, paths, k);
        var ok := ApplyOne(disk, a, paths[k]);
        if ok {
          count := count + 1;
        }
      }
      assert paths[..|paths|] == paths;
    }

    /** `move_to_trash`: the number of paths sent to the recycle bin. */
    method MoveToTrash(disk: Disk, paths: seq<string>) returns (count: nat)
      modifies disk
      ensures (disk.files, count) == ApplyAll(old(disk.files), disk.refused, Discard, paths)
    {
      count := ApplyEach(disk, Discard, paths);
    }

    /**
     * `move_to_backup`: the folder given, else the processor's own; with
     * neither, a ValueError and no change; otherwise the number of paths
     * moved there.
     */
    method MoveToBackup(disk: Disk, paths: seq<string>, folder: Option<string>) returns (r: Result<nat>)
      modifies disk
      ensures BackupFolder(folder, backupFolder).None? ==> r.Failure? && disk.files == old(disk.files)
      ensures BackupFolder(folder, backupFolder).Some? ==>
        var out := ApplyAll(old(disk.files), disk.refused, MoveTo(BackupFolder(folder, backupFolder).value), paths);
        r == Success(out.1) && disk.files == out.0
    {
      var target := BackupFolder(folder, backupFolder);
      if target.None? {
        return Failure("no backup folder");
      }
      var count := ApplyEach(disk, MoveTo(target.value), paths);
      r := Success(count);
    }

    /** `delete_permanently`: the number of paths removed. */
    method DeletePermanently(disk: Disk, paths: seq<string>) returns (count: nat)
      modifies disk
      ensures (disk.files, count) == ApplyAll(old(disk.files), disk.refused, Discard, paths)
    {
      count := ApplyEach(disk, Discard, paths);
    }

    /** `copy_to_folder`: the number of paths copied; sources stay. */
    method CopyToFolder(disk: Disk, paths: seq<string>, folder: string) returns (count: nat)
      modifies disk
      ensures (disk.files, count) == ApplyAll(old(disk.files), disk.refused, CopyTo(folder), paths)
    {
      count := ApplyEach(disk, CopyTo(folder), paths);
    }

    /** `get_total_size`. */
    method GetTotalSize(disk: Disk, paths: seq<string>) returns (total: int)
      ensures total == TotalSize(disk.files, paths)
    {
      total := 0;
      for k := 0 to |paths|
        invariant total == TotalSize(disk.files, paths[..k])
      {
        assert paths[..k + 1][..k] == paths[..k];
        if paths[k] in disk.files {
          total := total + disk.files[paths[k]];
        }
      }
      assert paths[..|paths|] == paths;
    }

    /** `validate_files`: the existing and the missing paths, each in input order. */
    method ValidateFiles(disk: Disk, paths: seq<string>) returns (existing: seq<string>, missing: seq<string>)
      ensures existing == Where(paths, Exists(disk.files))
      ensures missing == Where(paths, Missing(disk.files))
    {
      existing, missing := [], [];
      for k := 0 to |paths|
        invariant existing == Where(paths[..k], Exists(disk.files))
        invariant missing == Where(paths[..k], Missing(disk.files))
      {
        WhereStep(paths, k, Exists(disk.files));
        WhereStep(paths, k, Missing(disk.files));
        if paths[k] in disk.files {
          existing := existing + [paths[k]];
        } else {
          missing := missing + [paths[k]];
        }
      }
      assert paths[..|paths|] == paths;
    }
  }
}
