/**
 * The two file-selection stages of the text duplicate detector
 * (src/detector/text_duplicate_detector.py): the three-layer pre-filter that
 * keeps files sharing a 5% size bucket and an extension (and, for more than
 * 100 of them, a nearby modification time), and the selection that trims a
 * large candidate set to the files most likely to have duplicates.
 */
module TextSelection {
  import opened Basics
  import opened Grouping
  import opened PathNames
  import opened TextScanner

  /** Files above this many survivors of the first two layers go through the time layer. */
  const TimeLayerThreshold: int := 100

  /** The half-width of the window of neighbours the time layer looks at. */
  const NeighbourReach: int := 5

  /** One day in seconds: the largest modification-time gap that still counts as nearby (exclusive). */
  const NearbySeconds: real := 86400.0

  /** The selection stops taking repeated-size groups once it holds this many files. */
  const PriorityCap: int := 300

  /** The selection is topped up with unique-size files to this many. */
  const SelectionTarget: int := 200

  // ---------------------------------------------------------------------
  // Pre-filter keys
  // ---------------------------------------------------------------------

  /**
   * The 5% size bucket `int(size / (size * 0.05 + 1))` of a positive size,
   * -1 otherwise (the pre-filter never asks for it then). Every bucket is
   * below 20.
   */
  function SizeBucket(size: int): (b: int)
    ensures size > 0 ==> 0 <= b <= 19
    ensures size <= 0 ==> b == -1
  {
    if size > 0 then
      assert size as real / (size as real * 0.05 + 1.0) < 20.0 by {
        assert size as real < 20.0 * (size as real * 0.05 + 1.0);
      }
      TruncToInt(size as real / (size as real * 0.05 + 1.0))
    else -1
  }

  /** Every file of 380 bytes or more lands in the same bucket, 19. */
  lemma SizeBucketCollapse(size: int)
    requires size >= 380
    ensures SizeBucket(size) == 19
  {
    var den := size as real * 0.05 + 1.0;
    assert 19.0 * den <= size as real;
    assert size as real / den >= 19.0;
  }

  /** Larger positive sizes never get smaller buckets. */
  lemma SizeBucketMonotone(s1: int, s2: int)
    requires 0 < s1 <= s2
    ensures SizeBucket(s1) <= SizeBucket(s2)
  {
    var x, y := s1 as real, s2 as real;
    var a, b := x * 0.05 + 1.0, y * 0.05 + 1.0;
    assert x * b <= y * a;
    CrossDiv(x, a, y, b);
    TruncMonotone(x / a, y / b);
  }

  predicate Positive(f: TextFileInfo)
  {
    f.size > 0
  }

  function BucketOf(f: TextFileInfo): int
  {
    SizeBucket(f.size)
  }

  function ExtensionOf(f: TextFileInfo): string
  {
    Lower(f.extension)
  }

  function MtimeOf(f: TextFileInfo): real
  {
    f.mtime
  }

  predicate Several(g: seq<TextFileInfo>)
  {
    |g| > 1
  }

  /** The files that share x's size bucket and extension, x included when its size is positive. */
  function SameClass(b: int, e: string): TextFileInfo -> bool
  {
    (y: TextFileInfo) => Positive(y) && BucketOf(y) == b && ExtensionOf(y) == e
  }

  // ---------------------------------------------------------------------
  // Pre-filter, layers one and two
  // ---------------------------------------------------------------------

  /** The extension groups of one size group that hold two or more files, concatenated. */
  function RepeatedExtensions(g: seq<TextFileInfo>): seq<TextFileInfo>
  {
    Flatten(Where(GroupBy(g, ExtensionOf), Several))
  }

  function ClassLayer(gs: seq<seq<TextFileInfo>>): seq<seq<TextFileInfo>>
  {
    seq(|gs|, i requires 0 <= i < |gs| => if Several(gs[i]) then RepeatedExtensions(gs[i]) else [])
  }

  /** The survivors of the size and extension layers, in the order the loops append them. */
  function ByClass(files: seq<TextFileInfo>): seq<TextFileInfo>
  {
    Flatten(ClassLayer(GroupBy(Where(files, Positive), BucketOf)))
  }

  /** The extension loop of one size group: keep each extension group with two or more files. */
  method KeepRepeatedExtensions(g: seq<TextFileInfo>) returns (kept: seq<TextFileInfo>)
    ensures kept == RepeatedExtensions(g)
  {
    var extGroups := BucketBy(g, ExtensionOf);
    kept := [];
    for m := 0 to |extGroups|
      invariant kept == Flatten(Where(extGroups[..m], Several))
    {
      FlattenWherePrefix(extGroups, m, Several);
      if |extGroups[m]| > 1 {
        kept := kept + extGroups[m];
      }
    }
    assert extGroups[..|extGroups|] == extGroups;
  }

  // ---------------------------------------------------------------------
  // Pre-filter, layer three
  // ---------------------------------------------------------------------

  function Gap(a: real, b: real): (d: real)
    ensures d >= 0.0 && (d == a - b || d == b - a)
  {
    if a >= b then a - b else b - a
  }

  /** Two files were modified less than a day apart. */
  predicate Close(x: TextFileInfo, y: TextFileInfo)
  {
    Gap(MtimeOf(x), MtimeOf(y)) < NearbySeconds
  }

  /** Some other file at most five places from position i is close to it in time. */
  predicate HasNearby(s: seq<TextFileInfo>, i: int)
    requires 0 <= i < |s|
  {
    exists j :: Max(0, i - NeighbourReach) <= j < Min(|s|, i + NeighbourReach + 1) && j != i && Close(s[i], s[j])
  }

  /** The files among the first n that have a nearby neighbour, in order. */
  function Nearby(s: seq<TextFileInfo>, n: nat): (r: seq<TextFileInfo>)
    requires n <= |s|
    ensures |r| <= n
  {
    if n == 0 then []
    else Nearby(s, n - 1) + (if HasNearby(s, n - 1) then [s[n - 1]] else [])
  }

  /** `_pre_filter_files`: the class layers, then the time layer when more than 100 files survive them. */
  function PreFiltered(files: seq<TextFileInfo>): seq<TextFileInfo>
  {
    var c := ByClass(files);
    if |c| > TimeLayerThreshold then Nearby(SortByKey(c, MtimeOf), |c|) else c
  }

  /** The neighbour scan of the time layer over the mtime-sorted survivors. */
  method KeepNearby(sorted: seq<TextFileInfo>) returns (kept: seq<TextFileInfo>)
    ensures kept == Nearby(sorted, |sorted|)
  {
    kept := [];
    for i := 0 to |sorted|
      invariant kept == Nearby(sorted, i)
    {
      var hasNearby := false;
      var lo, hi := Max(0, i - NeighbourReach), Min(|sorted|, i + NeighbourReach + 1);
      for j := lo to hi
        invariant !hasNearby
        invariant forall k :: lo <= k < j && k != i ==> !Close(sorted[i], sorted[k])
      {
        if i != j {
          var timeDiff := Gap(sorted[i].mtime, sorted[j].mtime);
          if timeDiff < NearbySeconds {
            hasNearby := true;
            break;
          }
        }
      }
      assert hasNearby == HasNearby(sorted, i);
      if hasNearby {
        kept := kept + [sorted[i]];
      }
    }
  }

  /** The size and extension layers of `_pre_filter_files`. */
  method FilterByClass(files: seq<TextFileInfo>) returns (filtered: seq<TextFileInfo>)
    ensures filtered == ByClass(files)
  {
    var sizeGroups := BucketWhere(files, Positive, BucketOf);
    ghost var layer := ClassLayer(sizeGroups);
    filtered := [];
    for k := 0 to |sizeGroups|
      invariant filtered == Flatten(layer[..k])
    {
      var kept := [];
      if |sizeGroups[k]| > 1 {
        kept := KeepRepeatedExtensions(sizeGroups[k]);
      }
      assert kept == layer[k];
      FlattenPrefix(layer, k);
      filtered := filtered + kept;
    }
    assert layer[..|sizeGroups|] == layer;
  }

  /** `_pre_filter_files`. */
  method PreFilterFiles(files: seq<TextFileInfo>) returns (filtered: seq<TextFileInfo>)
    ensures filtered == PreFiltered(files)
  {
    filtered := FilterByClass(files);
    if |filtered| > TimeLayerThreshold {
      var sorted := SortByKey(filtered, MtimeOf);
      filtered := KeepNearby(sorted);
    }
  }

  // ---------------------------------------------------------------------
  // What the pre-filter keeps
  // ---------------------------------------------------------------------

  /** Three nested selections are the one selection by the conjoined test. */
  lemma ClassGroup(files: seq<TextFileInfo>, b: int, e: string)
    ensures WithKey(WithKey(Where(files, Positive), BucketOf, b), ExtensionOf, e) == Where(files, SameClass(b, e))
  {
    var p, q, r := Positive, HasKey(BucketOf, b), HasKey(ExtensionOf, e);
    WhereWhere(files, p, q);
    WhereWhere(files, Both(p, q), r);
    WhereSame(files, Both(Both(p, q), r), SameClass(b, e));
  }

  /** A file that survives the size and extension layers has a positive size and a peer of its class. */
  lemma ByClassSound(files: seq<TextFileInfo>, x: TextFileInfo)
    requires x in ByClass(files)
    ensures x in files && Positive(x) && |Where(files, SameClass(BucketOf(x), ExtensionOf(x)))| >= 2
  {
    var pos := Where(files, Positive);
    var gs := GroupBy(pos, BucketOf);
    var layer := ClassLayer(gs);
    FlattenMember(layer, x);
    var i :| 0 <= i < |layer| && x in layer[i];
    var g := gs[i];
    assert Several(g) && x in RepeatedExtensions(g);
    var egs := Where(GroupBy(g, ExtensionOf), Several);
    FlattenMember(egs, x);
    var j :| 0 <= j < |egs| && x in egs[j];
    WhereMembers(GroupBy(g, ExtensionOf), Several);
    GroupOf(g, ExtensionOf, egs[j], x);
    WithKeyMembers(g, ExtensionOf, ExtensionOf(x));
    GroupOf(pos, BucketOf, g, x);
    WithKeyMembers(pos, BucketOf, BucketOf(x));
    WhereMembers(files, Positive);
    ClassGroup(files, BucketOf(x), ExtensionOf(x));
  }

  /** A file with a positive size and a peer of its class survives the size and extension layers. */
  lemma ByClassComplete(files: seq<TextFileInfo>, x: TextFileInfo)
    requires x in files && Positive(x) && |Where(files, SameClass(BucketOf(x), ExtensionOf(x)))| >= 2
    ensures x in ByClass(files)
  {
    var pos := Where(files, Positive);
    var gs := GroupBy(pos, BucketOf);
    var layer := ClassLayer(gs);
    WhereMembers(files, Positive);
    GroupFor(pos, BucketOf, x);
    var g := WithKey(pos, BucketOf, BucketOf(x));
    var i :| 0 <= i < |gs| && gs[i] == g;
    GroupFor(g, ExtensionOf, x);
    var eg := WithKey(g, ExtensionOf, ExtensionOf(x));
    ClassGroup(files, BucketOf(x), ExtensionOf(x));
    assert Several(g);
    var egs := Where(GroupBy(g, ExtensionOf), Several);
    var j :| 0 <= j < |GroupBy(g, ExtensionOf)| && GroupBy(g, ExtensionOf)[j] == eg;
    WhereMembers(GroupBy(g, ExtensionOf), Several);
    assert eg in egs;
    FlattenMember(egs, x);
    assert x in layer[i];
    FlattenMember(layer, x);
  }

  /**
   * A file survives the size and extension layers exactly when its size is
   * positive and at least two files (itself included) share its size bucket
   * and its extension.
   */
  lemma ByClassMembers(files: seq<TextFileInfo>, x: TextFileInfo)
    ensures x in ByClass(files) <==>
      x in files && Positive(x) && |Where(files, SameClass(BucketOf(x), ExtensionOf(x)))| >= 2
  {
    if x in ByClass(files) {
      ByClassSound(files, x);
    }
    if x in files && Positive(x) && |Where(files, SameClass(BucketOf(x), ExtensionOf(x)))| >= 2 {
      ByClassComplete(files, x);
    }
  }

  /** The kept files are the files of the first n that have a nearby neighbour. */
  lemma {:induction false} NearbyMembers(s: seq<TextFileInfo>, n: nat, x: TextFileInfo)
    requires n <= |s|
    ensures x in Nearby(s, n) <==> exists i :: 0 <= i < n && s[i] == x && HasNearby(s, i)
  {
    if n > 0 {
      NearbyMembers(s, n - 1, x);
    }
  }

  /**
   * Every file the pre-filter keeps survives the class layers, so its size
   * is positive and another file shares its size bucket and extension; when
   * more than 100 files survive those layers, each kept file also has, in
   * modification-time order, a file at most five places away modified less
   * than a day apart from it, and every such file is kept.
   */
  lemma PreFilteredMembers(files: seq<TextFileInfo>, x: TextFileInfo)
    ensures x in PreFiltered(files) ==> x in ByClass(files)
    ensures x in PreFiltered(files) ==>
      x in files && Positive(x) && |Where(files, SameClass(BucketOf(x), ExtensionOf(x)))| >= 2
    ensures |ByClass(files)| <= TimeLayerThreshold ==> PreFiltered(files) == ByClass(files)
    ensures |ByClass(files)| > TimeLayerThreshold ==>
      var sorted := SortByKey(ByClass(files), MtimeOf);
      && SortedByKey(sorted, MtimeOf)
      && multiset(sorted) == multiset(ByClass(files))
      && (x in PreFiltered(files) <==> exists i :: 0 <= i < |sorted| && sorted[i] == x && HasNearby(sorted, i))
  {
    var c := ByClass(files);
    ByClassMembers(files, x);
    if |c| > TimeLayerThreshold {
      var sorted := SortByKey(c, MtimeOf);
      SortByKeySorted(c, MtimeOf);
      NearbyMembers(sorted, |sorted|, x);
      assert x in sorted <==> x in multiset(sorted);
    }
  }

  /** Files of zero size never survive the pre-filter. */
  lemma PreFilteredPositive(files: seq<TextFileInfo>)
    ensures forall x :: x in PreFiltered(files) ==> x.size > 0
  {
    forall x | x in PreFiltered(files) ensures x.size > 0 {
      PreFilteredMembers(files, x);
    }
  }

  // ---------------------------------------------------------------------
  // Smart selection
  // ---------------------------------------------------------------------

  function SizeOf(f: TextFileInfo): int
  {
    f.size
  }

  /** The key of `sorted(..., key=len, reverse=True)`: larger groups first, ties in input order. */
  function LargerGroupFirst(g: seq<TextFileInfo>): real
  {
    -(|g| as real)
  }

  /** The key of `sort(key=size, reverse=True)`: larger files first, ties in input order. */
  function LargerFileFirst(f: TextFileInfo): real
  {
    -(f.size as real)
  }

  predicate Single(g: seq<TextFileInfo>)
  {
    |g| == 1
  }

  /** The files of the repeated-size groups among the first m groups. */
  function Upto(gs: seq<seq<TextFileInfo>>, m: nat): seq<TextFileInfo>
    requires m <= |gs|
  {
    Flatten(Where(gs[..m], Several))
  }

  /** The number of groups the priority loop takes, counting on from m. */
  function StopFrom(gs: seq<seq<TextFileInfo>>, m: nat): (stop: nat)
    requires m <= |gs|
    ensures m <= stop <= |gs|
    decreases |gs| - m
  {
    if m == |gs| || |Upto(gs, m)| >= PriorityCap then m else StopFrom(gs, m + 1)
  }

  /** The size groups, larger first. */
  function Ordered(files: seq<TextFileInfo>): seq<seq<TextFileInfo>>
  {
    SortByKey(GroupBy(files, SizeOf), LargerGroupFirst)
  }

  /** `priority_files` after its loop. */
  function Priority(files: seq<TextFileInfo>): seq<TextFileInfo>
  {
    var gs := Ordered(files);
    Upto(gs, StopFrom(gs, 0))
  }

  /** The files whose size no other file has, larger first. */
  function Singles(files: seq<TextFileInfo>): seq<TextFileInfo>
  {
    SortByKey(Flatten(Where(GroupBy(files, SizeOf), Single)), LargerFileFirst)
  }

  /** `_smart_file_selection`. */
  function Selection(files: seq<TextFileInfo>): seq<TextFileInfo>
  {
    var p := Priority(files);
    if |p| < SelectionTarget then
      var singles := Singles(files);
      p + singles[..Min(SelectionTarget - |p|, |singles|)]
    else p
  }

  /**
   * The priority loop stops at the first group count m at which the
   * repeated-size groups taken so far hold 300 files or more, or after the
   * last group: every earlier count holds fewer.
   */
  lemma {:induction false} StopFromSpec(gs: seq<seq<TextFileInfo>>, m: nat)
    requires m <= |gs|
    requires forall m' :: 0 <= m' < m ==> |Upto(gs, m')| < PriorityCap
    ensures m <= StopFrom(gs, m) <= |gs|
    ensures StopFrom(gs, m) == |gs| || |Upto(gs, StopFrom(gs, m))| >= PriorityCap
    ensures forall m' :: 0 <= m' < StopFrom(gs, m) ==> |Upto(gs, m')| < PriorityCap
    decreases |gs| - m
  {
    if m < |gs| && |Upto(gs, m)| < PriorityCap {
      StopFromSpec(gs, m + 1);
    }
  }

  /** `_smart_file_selection`. */
  method SmartFileSelection(files: seq<TextFileInfo>) returns (selected: seq<TextFileInfo>)
    ensures selected == Selection(files)
  {
    var sizeGroups := BucketBy(files, SizeOf);
    var ordered := SortByKey(sizeGroups, LargerGroupFirst);
    var priority := PriorityFiles(ordered);
    if |priority| < SelectionTarget {
      var singleFiles := SingleFiles(sizeGroups);
      singleFiles := SortByKey(singleFiles, LargerFileFirst);
      priority := priority + singleFiles[..Min(SelectionTarget - |priority|, |singleFiles|)];
    }
    selected := priority;
  }

  /** The priority loop: repeated-size groups in the order given, until 300 files or more are taken. */
  method PriorityFiles(ordered: seq<seq<TextFileInfo>>) returns (priority: seq<TextFileInfo>)
    ensures priority == Upto(ordered, StopFrom(ordered, 0))
  {
    priority := [];
    for k := 0 to |ordered|
      invariant priority == Upto(ordered, k) && |priority| < PriorityCap
      invariant StopFrom(ordered, 0) == StopFrom(ordered, k)
    {
      FlattenWherePrefix(ordered, k, Several);
      if |ordered[k]| > 1 {
        priority := priority + ordered[k];
        if |priority| >= PriorityCap {
          assert StopFrom(ordered, k + 1) == k + 1;
          return;
        }
      }
    }
  }

  /** The singles loop: the files of the one-file size groups, in group order. */
  method SingleFiles(sizeGroups: seq<seq<TextFileInfo>>) returns (singleFiles: seq<TextFileInfo>)
    ensures singleFiles == Flatten(Where(sizeGroups, Single))
  {
    singleFiles := [];
    for m := 0 to |sizeGroups|
      invariant singleFiles == Flatten(Where(sizeGroups[..m], Single))
    {
      FlattenWherePrefix(sizeGroups, m, Single);
      if |sizeGroups[m]| == 1 {
        singleFiles := singleFiles + sizeGroups[m];
      }
    }
    assert sizeGroups[..|sizeGroups|] == sizeGroups;
  }

  /** A file of a repeated-size group among the first m ordered groups shares its size with another file. */
  lemma UptoMembers(files: seq<TextFileInfo>, m: nat, x: TextFileInfo)
    requires m <= |Ordered(files)| && x in Upto(Ordered(files), m)
    ensures x in files && |WithKey(files, SizeOf, x.size)| >= 2
  {
    var gs := GroupBy(files, SizeOf);
    var ordered := Ordered(files);
    var taken := Where(ordered[..m], Several);
    FlattenMember(taken, x);
    var i :| 0 <= i < |taken| && x in taken[i];
    WhereMembers(ordered[..m], Several);
    assert taken[i] in multiset(ordered);
    GroupOf(files, SizeOf, taken[i], x);
    WithKeyMembers(files, SizeOf, x.size);
  }

  /** A file among the singles is the only file of its size. */
  lemma SinglesMembers(files: seq<TextFileInfo>, x: TextFileInfo)
    requires x in Singles(files)
    ensures x in files && WithKey(files, SizeOf, x.size) == [x]
  {
    var gs := GroupBy(files, SizeOf);
    var ones := Where(gs, Single);
    assert x in Flatten(ones) by {
      assert x in multiset(Singles(files));
    }
    var i :| 0 <= i < |ones| && x in ones[i] by {
      FlattenMember(ones, x);
    }
    var g := ones[i];
    assert g in gs && |g| == 1 by {
      WhereMembers(gs, Single);
    }
    Singleton(g, x);
    assert x in files && WithKey(files, SizeOf, x.size) == [x] by {
      GroupOf(files, SizeOf, g, x);
      WithKeyMembers(files, SizeOf, x.size);
    }
  }

  /**
   * The selection is the priority files followed by singles: each priority
   * file shares its size with another input file; when there are fewer
   * than 200 priority files they are topped up to at most 200 with the
   * largest files whose size no other file has, in decreasing size, and
   * otherwise the priority files are the whole result.
   */
  lemma SelectionSpec(files: seq<TextFileInfo>)
    ensures var p, r := Priority(files), Selection(files);
      && p <= r
      && (forall x :: x in p ==> x in files && |WithKey(files, SizeOf, x.size)| >= 2)
      && (forall x :: x in r[|p|..] ==> x in files && WithKey(files, SizeOf, x.size) == [x])
      && SortedByKey(r[|p|..], LargerFileFirst)
      && (|p| >= SelectionTarget ==> r == p)
      && (|p| < SelectionTarget ==> |r| == Min(SelectionTarget, |p| + |Singles(files)|))
  {
    var p, r := Priority(files), Selection(files);
    assert forall x :: x in p ==> x in files && |WithKey(files, SizeOf, x.size)| >= 2 by {
      forall x | x in p ensures x in files && |WithKey(files, SizeOf, x.size)| >= 2 {
        UptoMembers(files, StopFrom(Ordered(files), 0), x);
      }
    }
    var singles := Singles(files);
    assert SortedByKey(singles, LargerFileFirst) by {
      SortByKeySorted(Flatten(Where(GroupBy(files, SizeOf), Single)), LargerFileFirst);
    }
    if |p| < SelectionTarget {
      var tail := singles[..Min(SelectionTarget - |p|, |singles|)];
      assert r[|p|..] == tail;
      assert forall x :: x in tail ==> x in files && WithKey(files, SizeOf, x.size) == [x] by {
        forall x | x in tail ensures x in files && WithKey(files, SizeOf, x.size) == [x] {
          assert x in singles;
          SinglesMembers(files, x);
        }
      }
    }
  }

  /**
   * The priority part is the repeated-size groups, larger groups first, up
   * to the first one that brings it to 300 files or more, or all of them.
   */
  lemma PriorityStops(files: seq<TextFileInfo>)
    ensures var gs := Ordered(files); var m := StopFrom(gs, 0);
      && Priority(files) == Upto(gs, m)
      && (m == |gs| || |Priority(files)| >= PriorityCap)
      && (forall m' :: 0 <= m' < m ==> |Upto(gs, m')| < PriorityCap)
  {
    StopFromSpec(Ordered(files), 0);
  }

  /** Every selected file is one of the input files. */
  lemma SelectionFromInput(files: seq<TextFileInfo>)
    ensures forall x :: x in Selection(files) ==> x in files
  {
    forall x | x in Selection(files) ensures x in files {
      SelectionMember(files, x);
    }
  }

  /** One selected file is an input file: either a priority file or a single. */
  lemma SelectionMember(files: seq<TextFileInfo>, x: TextFileInfo)
    requires x in Selection(files)
    ensures x in files
  {
    var p := Priority(files);
    if x in p {
      UptoMembers(files, StopFrom(Ordered(files), 0), x);
    } else {
      var singles := Singles(files);
      var tail := singles[..Min(SelectionTarget - |p|, |singles|)];
      assert Selection(files) == p + tail;
      assert x in tail;
      assert x in singles by {
        var k :| 0 <= k < |tail| && tail[k] == x;
        assert singles[k] == x;
      }
      SinglesMembers(files, x);
    }
  }
}
