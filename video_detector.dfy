/**
 * The video duplicate detector (src/detector/duplicate_detector.py):
 * duration-then-size prescreening, the per-frame perceptual-hash similarity,
 * the greedy grouping that annotates its groups with similarities, the
 * exact-hash grouping and the orchestration with its progress reports.
 * Decoding frames, hashing them and hashing file contents are outside the
 * model; their outcomes are parameters.
 */
module VideoDetector {
  import opened Basics
  import opened Grouping
  import Greedy
  import opened VideoScanner

  /** One row of an 8x8 perceptual hash. */
  type Row = r: seq<bool> | |r| == 8 witness [false, false, false, false, false, false, false, false]

  /**
   * The feature of a video: the 8-row hashes of the sampled frames stacked
   * row-wise, so k frames give 8k rows of 8 bits.
   */
  type Feature = seq<Row>

  /** The number of positions where two equally long bit strings differ. */
  function CountDiff(a: seq<bool>, b: seq<bool>): (d: nat)
    requires |a| == |b|
    ensures d <= |a|
    ensures d == 0 <==> a == b
  {
    if a == [] then 0
    else
      var n := |a| - 1;
      assert a == a[..n] + [a[n]] && b == b[..n] + [b[n]];
      CountDiff(a[..n], b[..n]) + (if a[n] != b[n] then 1 else 0)
  }

  /** `np.sum(feature1 != feature2)`: the differing bits over all rows. */
  function Diff(f1: Feature, f2: Feature): (d: nat)
    requires |f1| == |f2|
    ensures d <= 8 * |f1|
    ensures d == 0 <==> f1 == f2
  {
    if f1 == [] then 0
    else
      var n := |f1| - 1;
      assert f1 == f1[..n] + [f1[n]] && f2 == f2[..n] + [f2[n]];
      Diff(f1[..n], f2[..n]) + CountDiff(f1[n], f2[n])
  }

  /**
   * `calculate_similarity`: 0 when the shapes differ; otherwise
   * `max(0, (1 - d / rows) * 100)` with `d` the differing bits. The divisor
   * is the number of rows, not of bits. Two empty features divide 0 by 0,
   * which gives NaN and then 0 through `max`.
   */
  function Similarity(f1: Feature, f2: Feature): (r: real)
    ensures 0.0 <= r <= 100.0
    ensures |f1| != |f2| ==> r == 0.0
  {
    if |f1| != |f2| || |f1| == 0 then 0.0
    else Percent(Diff(f1, f2) as real, |f1| as real)
  }

  /** `max(0.0, (1 - d / rows) * 100)`. */
  function Percent(d: real, rows: real): (r: real)
    requires rows > 0.0
    ensures 0.0 <= r
    ensures 0.0 <= d ==> r <= 100.0
    ensures d == 0.0 ==> r == 100.0
  {
    var s := (1.0 - d / rows) * 100.0;
    if s > 0.0 then s else 0.0
  }

  lemma PercentZero(d: real, rows: real)
    requires rows > 0.0
    ensures Percent(d, rows) == 0.0 <==> d >= rows
  {
    QuotientAtLeast(d, rows, 1.0);
  }

  /** The number of differing bits a pair of `rows`-row features may have and still reach threshold t. */
  function Budget(t: real, rows: real): real
  {
    (1.0 - t / 100.0) * rows
  }

  lemma PercentAtLeast(d: real, rows: real, t: real)
    requires rows > 0.0 && 0.0 < t
    ensures Percent(d, rows) >= t <==> d <= Budget(t, rows)
  {
    var q := d / rows;
    assert (1.0 - q) * 100.0 >= t <==> q <= 1.0 - t / 100.0;
    QuotientAtMost(d, rows, 1.0 - t / 100.0);
  }

  lemma {:induction false} CountDiffSymmetric(a: seq<bool>, b: seq<bool>)
    requires |a| == |b|
    ensures CountDiff(a, b) == CountDiff(b, a)
  {
    if a != [] {
      CountDiffSymmetric(a[..|a| - 1], b[..|b| - 1]);
    }
  }

  lemma {:induction false} DiffSymmetric(f1: Feature, f2: Feature)
    requires |f1| == |f2|
    ensures Diff(f1, f2) == Diff(f2, f1)
  {
    if f1 != [] {
      var n := |f1| - 1;
      DiffSymmetric(f1[..n], f2[..n]);
      CountDiffSymmetric(f1[n], f2[n]);
    }
  }

  /** Similarity does not depend on the order of its arguments. */
  lemma SimilaritySymmetric(f1: Feature, f2: Feature)
    ensures Similarity(f1, f2) == Similarity(f2, f1)
  {
    if |f1| == |f2| {
      DiffSymmetric(f1, f2);
    }
  }

  /** Non-empty features are 100% similar exactly when they are equal. */
  lemma SimilarityFull(f1: Feature, f2: Feature)
    requires |f1| == |f2| > 0
    ensures Similarity(f1, f2) == 100.0 <==> f1 == f2
  {
  }

  /**
   * With the row count as divisor, `rows` differing bits already drive the
   * similarity to 0 although a feature of k frames has 64k bits and 8k rows:
   * one bit in eight differing is total dissimilarity.
   */
  lemma SimilarityZero(f1: Feature, f2: Feature)
    requires |f1| == |f2| > 0
    ensures Similarity(f1, f2) == 0.0 <==> Diff(f1, f2) >= |f1|
  {
    PercentZero(Diff(f1, f2) as real, |f1| as real);
  }

  /**
   * The threshold test on similarity, as a bound on differing bits: a pair
   * reaches threshold t in (0, 100] exactly when at most (1 - t/100) * rows
   * bits differ.
   */
  lemma SimilarityAtLeast(f1: Feature, f2: Feature, t: real)
    requires |f1| == |f2| > 0 && 0.0 < t <= 100.0
    ensures Similarity(f1, f2) >= t <==> Diff(f1, f2) as real <= Budget(t, |f1| as real)
  {
    var d, rows := Diff(f1, f2) as real, |f1| as real;
    assert Similarity(f1, f2) == Percent(d, rows);
    PercentAtLeast(d, rows, t);
  }

  /** Complementary bit strings differ everywhere. */
  lemma {:induction false} CountDiffComplement(a: seq<bool>, b: seq<bool>)
    requires |a| == |b|
    requires forall i :: 0 <= i < |a| ==> a[i] != b[i]
    ensures CountDiff(a, b) == |a|
  {
    if a != [] {
      CountDiffComplement(a[..|a| - 1], b[..|b| - 1]);
    }
  }

  /**
   * The zero clamp is reachable: for complementary features the raw value
   * `(1 - 8 * rows / rows) * 100` is -700, and the result is 0.
   */
  lemma {:induction false} ComplementDissimilar(f1: Feature, f2: Feature)
    requires |f1| == |f2| > 0
    requires forall i, j :: 0 <= i < |f1| && 0 <= j < 8 ==> f1[i][j] != f2[i][j]
    ensures Diff(f1, f2) == 8 * |f1|
    ensures (1.0 - Diff(f1, f2) as real / |f1| as real) * 100.0 == -700.0
    ensures Similarity(f1, f2) == 0.0
  {
    ComplementDiff(f1, f2);
    var rows := |f1| as real;
    assert (8 * |f1|) as real == 8.0 * rows;
    QuotientAtLeast(8.0 * rows, rows, 8.0);
    QuotientAtMost(8.0 * rows, rows, 8.0);
  }

  lemma {:induction false} ComplementDiff(f1: Feature, f2: Feature)
    requires |f1| == |f2|
    requires forall i, j :: 0 <= i < |f1| && 0 <= j < 8 ==> f1[i][j] != f2[i][j]
    ensures Diff(f1, f2) == 8 * |f1|
  {
    if f1 != [] {
      var n := |f1| - 1;
      ComplementDiff(f1[..n], f2[..n]);
      CountDiffComplement(f1[n], f2[n]);
    }
  }

  /**
   * The duration bucket `int(d / (0.05 * d + 1))` for a positive duration,
   * -1 otherwise. The bucket is below 20 for every duration.
   */
  function DurationKey(d: real): (k: int)
    ensures d > 0.0 ==> 0 <= k <= 19
    ensures d <= 0.0 ==> k == -1
  {
    if d > 0.0 then
      assert d / (d * 0.05 + 1.0) < 20.0 by {
        assert d < 20.0 * (d * 0.05 + 1.0);
      }
      TruncToInt(d / (d * 0.05 + 1.0))
    else -1
  }

  /** Every duration of 380 seconds or more lands in the same bucket, 19. */
  lemma DurationKeyCollapse(d: real)
    requires d >= 380.0
    ensures DurationKey(d) == 19
  {
    var den := d * 0.05 + 1.0;
    assert 19.0 * den <= d;
    assert d / den >= 19.0;
  }

  /** Longer positive durations never get smaller buckets. */
  lemma DurationKeyMonotone(d1: real, d2: real)
    requires 0.0 < d1 <= d2
    ensures DurationKey(d1) <= DurationKey(d2)
  {
    var a, b := d1 * 0.05 + 1.0, d2 * 0.05 + 1.0;
    assert d1 * b <= d2 * a;
    CrossDiv(d1, a, d2, b);
    TruncMonotone(d1 / a, d2 / b);
  }

  /**
   * The size bucket `int(s / (0.1 * s + 1024))` for a positive size, -1
   * otherwise. The bucket is below 10 for every size.
   */
  function SizeKey(s: int): (k: int)
    ensures s > 0 ==> 0 <= k <= 9
    ensures s <= 0 ==> k == -1
  {
    if s > 0 then
      assert s as real / (s as real * 0.1 + 1024.0) < 10.0 by {
        assert s as real < 10.0 * (s as real * 0.1 + 1024.0);
      }
      TruncToInt(s as real / (s as real * 0.1 + 1024.0))
    else -1
  }

  /** Every file of 92160 bytes (90 KiB) or more lands in the same bucket, 9. */
  lemma SizeKeyCollapse(s: int)
    requires s >= 92160
    ensures SizeKey(s) == 9
  {
    var den := s as real * 0.1 + 1024.0;
    assert 9.0 * den <= s as real;
    assert s as real / den >= 9.0;
  }

  /** Larger positive sizes never get smaller buckets. */
  lemma SizeKeyMonotone(s1: int, s2: int)
    requires 0 < s1 <= s2
    ensures SizeKey(s1) <= SizeKey(s2)
  {
    var x, y := s1 as real, s2 as real;
    var a, b := x * 0.1 + 1024.0, y * 0.1 + 1024.0;
    assert x * b <= y * a;
    CrossDiv(x, a, y, b);
    TruncMonotone(x / a, y / b);
  }

  function DurationKeyOf(f: VideoFile): int
  {
    DurationKey(f.duration)
  }

  function SizeKeyOf(f: VideoFile): int
  {
    SizeKey(f.size)
  }

  /** A duration group is kept whole when it has fewer than two files, else split by size bucket. */
  function Refine(g: seq<VideoFile>): seq<seq<VideoFile>>
  {
    if |g| < 2 then [g] else GroupBy(g, SizeKeyOf)
  }

  function Refinements(gs: seq<seq<VideoFile>>): seq<seq<seq<VideoFile>>>
  {
    seq(|gs|, i requires 0 <= i < |gs| => Refine(gs[i]))
  }

  /** The candidate groups of `metadata_prescreening`. */
  function CandidateGroups(files: seq<VideoFile>): seq<seq<VideoFile>>
  {
    Flatten(Refinements(GroupBy(files, DurationKeyOf)))
  }

  /**
   * `metadata_prescreening`: bucket by duration key; keep a bucket with
   * fewer than two files as it is, and split the others by size key,
   * everything in first-occurrence order.
   */
  method MetadataPrescreening(files: seq<VideoFile>) returns (candidateGroups: seq<seq<VideoFile>>)
    ensures candidateGroups == CandidateGroups(files)
  {
    var durationGroups := BucketBy(files, DurationKeyOf);
    ghost var parts := Refinements(durationGroups);
    candidateGroups := [];
    for k := 0 to |durationGroups|
      invariant candidateGroups == Flatten(parts[..k])
    {
      var durationGroup := durationGroups[k];
      var part;
      if |durationGroup| < 2 {
        part := [durationGroup];
      } else {
        part := BucketBy(durationGroup, SizeKeyOf);
      }
      assert part == parts[k];
      FlattenPrefix(parts, k);
      candidateGroups := candidateGroups + part;
    }
    assert parts[..|durationGroups|] == parts;
  }

  lemma {:induction false} FlattenRefinements(gs: seq<seq<VideoFile>>)
    ensures multiset(Flatten(Flatten(Refinements(gs)))) == multiset(Flatten(gs))
  {
    if gs != [] {
      var n := |gs| - 1;
      assert Refinements(gs) == Refinements(gs[..n]) + [Refine(gs[n])];
      FlattenOne(Refinements(gs[..n]), Refine(gs[n]));
      FlattenAppend(Flatten(Refinements(gs[..n])), Refine(gs[n]));
      FlattenRefinements(gs[..n]);
      if |gs[n]| < 2 {
        assert Flatten([gs[n]]) == gs[n] by {
          FlattenOne([], gs[n]);
        }
      } else {
        GroupByPermutes(gs[n], SizeKeyOf);
      }
    }
  }

  /**
   * Prescreening partitions its input: the candidate groups together hold
   * every file exactly as often as the input does, duration singletons included.
   */
  lemma PrescreeningPartition(files: seq<VideoFile>)
    ensures multiset(Flatten(CandidateGroups(files))) == multiset(files)
  {
    FlattenRefinements(GroupBy(files, DurationKeyOf));
    GroupByPermutes(files, DurationKeyOf);
  }

  /** Every candidate group is non-empty and its files share both the duration and the size bucket. */
  lemma PrescreeningKeys(files: seq<VideoFile>)
    ensures forall g :: g in CandidateGroups(files) ==> g != [] && SharedKeys(files, g)
  {
    var dgs := GroupBy(files, DurationKeyOf);
    var parts := Refinements(dgs);
    forall g | g in CandidateGroups(files) ensures g != [] && SharedKeys(files, g) {
      FlattenMember(parts, g);
      var i :| 0 <= i < |parts| && g in parts[i];
      RefinedKeys(files, i, g);
    }
  }

  /** The files of g come from `files` and share g[0]'s duration and size buckets. */
  ghost predicate SharedKeys(files: seq<VideoFile>, g: seq<VideoFile>)
    requires g != []
  {
    forall x :: x in g ==> x in files && DurationKeyOf(x) == DurationKeyOf(g[0]) && SizeKeyOf(x) == SizeKeyOf(g[0])
  }

  lemma RefinedKeys(files: seq<VideoFile>, i: nat, g: seq<VideoFile>)
    requires i < |GroupBy(files, DurationKeyOf)| && g in Refine(GroupBy(files, DurationKeyOf)[i])
    ensures g != [] && SharedKeys(files, g)
  {
    var dgs := GroupBy(files, DurationKeyOf);
    var d := dgs[i];
    GroupByShape(files, DurationKeyOf);
    WithKeyMembers(files, DurationKeyOf, DurationKeyOf(d[0]));
    if |d| >= 2 {
      GroupByShape(d, SizeKeyOf);
      var j :| 0 <= j < |Refine(d)| && Refine(d)[j] == g;
      WithKeyMembers(d, SizeKeyOf, SizeKeyOf(g[0]));
    }
  }

  /** A `features` entry: a video's feature and its record. */
  datatype Candidate = Candidate(feature: Feature, info: VideoFile)

  /** The closeness test of `find_similar_videos`, on indices into the entries. */
  function Close(entries: seq<Candidate>, threshold: real): (nat, nat) -> bool
  {
    (i: nat, j: nat) =>
      i < |entries| && j < |entries| && Similarity(entries[i].feature, entries[j].feature) >= threshold
  }

  /** The index groups the greedy loop of `find_similar_videos` forms. */
  function SimilarVideoGroups(entries: seq<Candidate>, threshold: real): seq<seq<nat>>
  {
    Greedy.Groups(|entries|, Close(entries, threshold))
  }

  /**
   * Each similar group has two or more entries, the anchor before every
   * member, each member at least `threshold` similar to the anchor (not
   * necessarily to the other members), and no entry is in two groups.
   */
  lemma SimilarVideoGroupsSpec(entries: seq<Candidate>, threshold: real)
    ensures var ig := SimilarVideoGroups(entries, threshold);
      && (forall p :: 0 <= p < |ig| ==> |ig[p]| >= 2)
      && (forall p, r :: 0 <= p < |ig| && 1 <= r < |ig[p]| ==>
            ig[p][0] < ig[p][r] < |entries| && Similarity(entries[ig[p][0]].feature, entries[ig[p][r]].feature) >= threshold)
      && (forall p, q, x :: 0 <= p < q < |ig| && x in ig[p] ==> x !in ig[q])
  {
    var n := |entries|;
    var close := Close(entries, threshold);
    Greedy.GroupsSpec(n, close);
    var ig := SimilarVideoGroups(entries, threshold);
    forall p, r | 0 <= p < |ig| && 1 <= r < |ig[p]|
      ensures ig[p][0] < ig[p][r] < n && Similarity(entries[ig[p][0]].feature, entries[ig[p][r]].feature) >= threshold
    {
      assert Greedy.GroupOK(n, close, ig[p]);
      assert close(ig[p][0], ig[p][r]);
    }
  }

  /** `c` carries the same scanned fields as `f` (a dictionary copy does). */
  predicate CopyOf(c: VideoFile, f: VideoFile)
  {
    && c.path == f.path && c.name == f.name && c.size == f.size && c.mtime == f.mtime
    && c.extension == f.extension && c.width == f.width && c.height == f.height
    && c.duration == f.duration && c.fps == f.fps && c.frameCount == f.frameCount
  }

  ghost predicate IsAnchor(ig: seq<seq<nat>>, k: nat)
  {
    exists p :: 0 <= p < |ig| && ig[p] != [] && ig[p][0] == k
  }

  function InfoSet(entries: seq<Candidate>): set<VideoFile>
  {
    set i | 0 <= i < |entries| :: entries[i].info
  }

  /**
   * `find_similar_videos` over the entries of `features` in key order. A
   * group's anchor is the entry's own record, whose `similarity` is set to
   * 100 in place once the group has a second member; every other member is
   * a fresh copy carrying its similarity to the anchor. Records that anchor
   * no group keep their similarity.
   */
  method FindSimilarVideos(entries: seq<Candidate>, threshold: real) returns (groups: seq<seq<VideoFile>>)
    requires forall i, j :: 0 <= i < j < |entries| ==> entries[i].info != entries[j].info
    modifies InfoSet(entries)
    ensures Greedy.InRange(SimilarVideoGroups(entries, threshold), |entries|)
    ensures Built(groups, entries, SimilarVideoGroups(entries, threshold))
    ensures fresh(CopySet(groups))
    ensures forall k :: 0 <= k < |entries| ==>
      entries[k].info.similarity ==
      if IsAnchor(SimilarVideoGroups(entries, threshold), k) then Some(100.0) else old(entries[k].info.similarity)
  {
    var n := |entries|;
    ghost var initial := seq(n, k requires 0 <= k < n reads InfoSet(entries) => entries[k].info.similarity);
    groups := [];
    var processed: set<nat> := {};
    ghost var ig: seq<seq<nat>> := [];
    for i := 0 to n
      invariant Visited(entries, threshold, i, ig, processed)
      invariant Built(groups, entries, ig)
      invariant fresh(CopySet(groups))
      invariant Marked(entries, ig, initial)
    {
      groups, processed, ig := VisitAnchor(entries, threshold, i, groups, processed, ig, initial);
    }
  }

  /** One step of the outer loop: anchor i, if untaken, collects its matches and keeps them as a group when there are any. */
  method VisitAnchor(entries: seq<Candidate>, threshold: real, i: nat, groups: seq<seq<VideoFile>>, processed: set<nat>,
                     ghost ig: seq<seq<nat>>, ghost initial: seq<Option<real>>)
    returns (groups': seq<seq<VideoFile>>, processed': set<nat>, ghost ig': seq<seq<nat>>)
    requires forall i, j :: 0 <= i < j < |entries| ==> entries[i].info != entries[j].info
    requires i < |entries| && Visited(entries, threshold, i, ig, processed)
    requires Built(groups, entries, ig) && Marked(entries, ig, initial)
    requires InfoSet(entries) !! CopySet(groups)
    modifies InfoSet(entries)
    ensures Visited(entries, threshold, i + 1, ig', processed')
    ensures Built(groups', entries, ig') && Marked(entries, ig', initial)
    ensures fresh(CopySet(groups') - CopySet(groups))
  {
    groups', processed', ig' := groups, processed, ig;
    if i in processed {
      VisitedSkip(entries, threshold, i, ig, processed);
      return;
    }
    var current;
    ghost var members, copies;
    current, processed', members, copies := CollectVideoMatches(entries, threshold, i, processed);
    VisitedStep(entries, threshold, i, ig, processed, processed', members);
    if |current| > 1 {
      ghost var g := [i] + members;
      assert current[1..] == copies;
      assert entries[i].info in InfoSet(entries);
      AnchorOutside(groups, entries, ig, processed, i);
      MarkAnchor(entries, i, current, copies, members, groups, ig, initial);
      CopySetSnoc(groups, current, copies);
      groups' := groups + [current];
      ig' := ig + [g];
    }
  }

  /**
   * `current_group[0]['similarity'] = 100.0` on a group that has a second
   * member: only the anchor's record changes.
   */
  method MarkAnchor(entries: seq<Candidate>, i: nat, current: seq<VideoFile>, ghost copies: seq<VideoFile>,
                    ghost members: seq<nat>, ghost groups: seq<seq<VideoFile>>, ghost ig: seq<seq<nat>>,
                    ghost initial: seq<Option<real>>)
    requires forall i, j :: 0 <= i < j < |entries| ==> entries[i].info != entries[j].info
    requires i < |entries| && current == [entries[i].info] + copies && entries[i].info !in Elems(copies)
    requires Annotated(copies, entries, i, members) && |members| >= 1
    requires Built(groups, entries, ig) && entries[i].info !in Objects(groups)
    requires Marked(entries, ig, initial)
    modifies current[0]
    ensures Built(groups + [current], entries, ig + [[i] + members])
    ensures Marked(entries, ig + [[i] + members], initial)
  {
    current[0].similarity := Some(100.0);
    assert Annotated(copies, entries, i, members);
    assert current[1..] == copies;
    assert Anchors(current, entries, [i] + members);
    BuiltSnoc(groups, entries, ig, current, [i] + members);
    IsAnchorSnoc(ig, [i] + members);
    forall k | 0 <= k < |entries|
      ensures entries[k].info.similarity == if IsAnchor(ig + [[i] + members], k) then Some(100.0) else initial[k]
    {
      if k != i {
        assert entries[k].info != entries[i].info;
      }
    }
  }

  /** The records after the anchor of each group: the copies. */
  function CopySet(groups: seq<seq<VideoFile>>): set<VideoFile>
  {
    set p, r | 0 <= p < |groups| && 1 <= r < |groups[p]| :: groups[p][r]
  }

  function Elems(xs: seq<VideoFile>): set<VideoFile>
  {
    set x | x in xs
  }

  lemma CopySetSnoc(groups: seq<seq<VideoFile>>, current: seq<VideoFile>, copies: seq<VideoFile>)
    requires current != [] && current[1..] == copies
    ensures CopySet(groups + [current]) == CopySet(groups) + Elems(copies)
  {
    var gs := groups + [current];
    forall o | o in CopySet(gs) ensures o in CopySet(groups) + Elems(copies) {
      var p, r :| 0 <= p < |gs| && 1 <= r < |gs[p]| && gs[p][r] == o;
      if p < |groups| {
        assert groups[p][r] == o;
      } else {
        assert copies[r - 1] == o;
      }
    }
    forall o | o in CopySet(groups) + Elems(copies) ensures o in CopySet(gs) {
      if o in CopySet(groups) {
        var p, r :| 0 <= p < |groups| && 1 <= r < |groups[p]| && groups[p][r] == o;
        assert gs[p][r] == o;
      } else {
        var r :| 0 <= r < |copies| && copies[r] == o;
        assert gs[|groups|][r + 1] == o;
      }
    }
  }

  /** All records in the groups. */
  function Objects(groups: seq<seq<VideoFile>>): set<VideoFile>
  {
    set p, r | 0 <= p < |groups| && 0 <= r < |groups[p]| :: groups[p][r]
  }

  /** The returned groups so far, one per index group. */
  ghost predicate Built(groups: seq<seq<VideoFile>>, entries: seq<Candidate>, ig: seq<seq<nat>>)
    reads Objects(groups)
  {
    && |groups| == |ig|
    && forall p :: 0 <= p < |groups| ==> Anchors(groups[p], entries, ig[p])
  }

  lemma BuiltSnoc(groups: seq<seq<VideoFile>>, entries: seq<Candidate>, ig: seq<seq<nat>>, group: seq<VideoFile>, g: seq<nat>)
    requires Built(groups, entries, ig) && Anchors(group, entries, g)
    ensures Built(groups + [group], entries, ig + [g])
  {
    forall p | 0 <= p < |groups| ensures Anchors((groups + [group])[p], entries, (ig + [g])[p]) {
      assert (groups + [group])[p] == groups[p];
    }
  }

  /** Anchors get 100, every other record keeps the similarity it had (`initial`). */
  ghost predicate Marked(entries: seq<Candidate>, ig: seq<seq<nat>>, initial: seq<Option<real>>)
    reads InfoSet(entries)
  {
    && |initial| == |entries|
    && forall k :: 0 <= k < |entries| ==>
      entries[k].info.similarity == if IsAnchor(ig, k) then Some(100.0) else initial[k]
  }

  /** A new anchor's record is in none of the earlier groups: it was not taken, and copies are new objects. */
  lemma AnchorOutside(groups: seq<seq<VideoFile>>, entries: seq<Candidate>, ig: seq<seq<nat>>, processed: set<nat>, i: nat)
    requires forall i, j :: 0 <= i < j < |entries| ==> entries[i].info != entries[j].info
    requires Built(groups, entries, ig) && i < |entries| && i !in processed
    requires forall p, r :: 0 <= p < |ig| && 0 <= r < |ig[p]| ==> ig[p][r] in processed
    requires entries[i].info !in CopySet(groups)
    ensures entries[i].info !in Objects(groups)
  {
    forall p, r | 0 <= p < |groups| && 0 <= r < |groups[p]| ensures groups[p][r] != entries[i].info {
      if r == 0 {
        assert ig[p][0] in processed;
      } else {
        assert groups[p][r] in CopySet(groups);
      }
    }
  }

  /** The state of the outer loop after it has visited the anchors before i. */
  ghost predicate Visited(entries: seq<Candidate>, threshold: real, i: nat, ig: seq<seq<nat>>, processed: set<nat>)
  {
    && i <= |entries|
    && Greedy.Run(|entries|, Close(entries, threshold), i) == Greedy.State(ig, processed)
    && Greedy.InRange(ig, |entries|)
    && (forall p, r :: 0 <= p < |ig| && 0 <= r < |ig[p]| ==> ig[p][r] in processed)
  }

  lemma VisitedSkip(entries: seq<Candidate>, threshold: real, i: nat, ig: seq<seq<nat>>, processed: set<nat>)
    requires Visited(entries, threshold, i, ig, processed) && i < |entries| && i in processed
    ensures Visited(entries, threshold, i + 1, ig, processed)
  {
    Greedy.RunSnoc(|entries|, Close(entries, threshold), i);
  }

  lemma VisitedStep(entries: seq<Candidate>, threshold: real, i: nat, ig: seq<seq<nat>>, processed0: set<nat>,
                    processed: set<nat>, members: seq<nat>)
    requires Visited(entries, threshold, i, ig, processed0) && i < |entries| && i !in processed0
    requires Scanned(entries, threshold, i, |entries|, processed0, processed, members)
    ensures |members| >= 1 ==> Visited(entries, threshold, i + 1, ig + [[i] + members], processed)
    ensures |members| == 0 ==> Visited(entries, threshold, i + 1, ig, processed)
  {
    var n, close := |entries|, Close(entries, threshold);
    Greedy.RunSnoc(n, close, i);
    Greedy.GroupsInRange(n, close, i + 1);
    Greedy.RunTaken(n, close, i + 1);
  }

  lemma IsAnchorSnoc(ig: seq<seq<nat>>, g: seq<nat>)
    requires g != []
    ensures forall k :: IsAnchor(ig + [g], k) <==> IsAnchor(ig, k) || k == g[0]
  {
    forall k | IsAnchor(ig + [g], k) && !IsAnchor(ig, k) ensures k == g[0] {
      var p :| 0 <= p < |ig + [g]| && (ig + [g])[p] != [] && (ig + [g])[p][0] == k;
      if p < |ig| {
        assert IsAnchor(ig, k);
      }
    }
    forall k | IsAnchor(ig, k) ensures IsAnchor(ig + [g], k) {
      var p :| 0 <= p < |ig| && ig[p] != [] && ig[p][0] == k;
      assert (ig + [g])[p] == ig[p];
    }
    assert (ig + [g])[|ig|] == g;
  }

  /** A returned group: the anchor's own record first, then the annotated copies of the members. */
  ghost predicate Anchors(group: seq<VideoFile>, entries: seq<Candidate>, g: seq<nat>)
    reads group
  {
    && |group| == |g| >= 1 && g[0] < |entries| && group[0] == entries[g[0]].info
    && Annotated(group[1..], entries, g[0], g[1..])
  }

  /** Each copy matches its member's record and carries the member's similarity to anchor i. */
  ghost predicate Annotated(copies: seq<VideoFile>, entries: seq<Candidate>, i: nat, members: seq<nat>)
    reads copies
  {
    && |copies| == |members| && i < |entries| && Greedy.IndicesBelow(members, |entries|)
    && forall r :: 0 <= r < |members| ==>
      CopyOf(copies[r], entries[members[r]].info)
      && copies[r].similarity == Some(Similarity(entries[i].feature, entries[members[r]].feature))
  }

  /** The state of the inner loop after it has looked at the entries before j. */
  ghost predicate Scanned(entries: seq<Candidate>, threshold: real, i: nat, j: nat, taken: set<nat>,
                          processed: set<nat>, members: seq<nat>)
  {
    && i < j <= |entries|
    && members == Greedy.Candidates(i, i + 1, j, taken, Close(entries, threshold))
    && processed == taken + {i} + Greedy.Elements(members)
    && Greedy.IndicesBelow(members, j)
  }

  /** One step of the inner loop: entry j joins exactly when it is untaken and similar enough. */
  lemma ScannedStep(entries: seq<Candidate>, threshold: real, i: nat, j: nat, taken: set<nat>,
                    processed: set<nat>, members: seq<nat>)
    requires Scanned(entries, threshold, i, j, taken, processed, members) && j < |entries|
    ensures j !in processed && Similarity(entries[i].feature, entries[j].feature) >= threshold ==>
      Scanned(entries, threshold, i, j + 1, taken, processed + {j}, members + [j])
    ensures !(j !in processed && Similarity(entries[i].feature, entries[j].feature) >= threshold) ==>
      Scanned(entries, threshold, i, j + 1, taken, processed, members)
  {
    var close := Close(entries, threshold);
    Greedy.CandidatesSnoc(i, i + 1, j, taken, close);
    Greedy.CandidatesRange(i, i + 1, j, taken, close);
    Greedy.ElementsSnoc(members, j);
  }

  /**
   * The inner loop of `find_similar_videos` for anchor i: marks the anchor
   * taken, then adds a copy of every later untaken entry at least
   * `threshold` similar to it, with that similarity, and marks it taken.
   */
  method CollectVideoMatches(entries: seq<Candidate>, threshold: real, i: nat, taken: set<nat>)
    returns (current: seq<VideoFile>, processed: set<nat>, ghost members: seq<nat>, ghost copies: seq<VideoFile>)
    requires i < |entries|
    ensures Scanned(entries, threshold, i, |entries|, taken, processed, members)
    ensures current == [entries[i].info] + copies
    ensures fresh(Elems(copies))
    ensures Annotated(copies, entries, i, members)
  {
    var n := |entries|;
    current := [entries[i].info];
    members, copies := [], [];
    processed := taken + {i};
    for j := i + 1 to n
      invariant Scanned(entries, threshold, i, j, taken, processed, members)
      invariant current == [entries[i].info] + copies
      invariant fresh(Elems(copies))
      invariant Annotated(copies, entries, i, members)
    {
      current, processed, members, copies := ScanOne(entries, threshold, i, taken, j, current, processed, members, copies);
    }
  }

  /** One step of the inner loop: a copy of entry j joins when j is untaken and similar enough. */
  method ScanOne(entries: seq<Candidate>, threshold: real, i: nat, taken: set<nat>, j: nat,
                 current: seq<VideoFile>, processed: set<nat>, ghost members: seq<nat>, ghost copies: seq<VideoFile>)
    returns (current': seq<VideoFile>, processed': set<nat>, ghost members': seq<nat>, ghost copies': seq<VideoFile>)
    requires j < |entries|
    requires Scanned(entries, threshold, i, j, taken, processed, members)
    requires current == [entries[i].info] + copies
    requires Annotated(copies, entries, i, members)
    ensures Scanned(entries, threshold, i, j + 1, taken, processed', members')
    ensures current' == [entries[i].info] + copies'
    ensures fresh(Elems(copies') - Elems(copies))
    ensures Annotated(copies', entries, i, members')
  {
    ScannedStep(entries, threshold, i, j, taken, processed, members);
    current', processed', members', copies' := current, processed, members, copies;
    if j in processed {
      return;
    }
    var similarity := Similarity(entries[i].feature, entries[j].feature);
    if similarity >= threshold {
      var info := new VideoFile.Copy(entries[j].info, similarity);
      AnnotatedSnoc(copies, entries, i, members, info, j);
      current' := current + [info];
      processed' := processed + {j};
      assert Elems(copies + [info]) == Elems(copies) + {info};
      members', copies' := members + [j], copies + [info];
    }
  }

  lemma AnnotatedSnoc(copies: seq<VideoFile>, entries: seq<Candidate>, i: nat, members: seq<nat>, c: VideoFile, j: nat)
    requires Annotated(copies, entries, i, members) && j < |entries|
    requires CopyOf(c, entries[j].info) && c.similarity == Some(Similarity(entries[i].feature, entries[j].feature))
    ensures Annotated(copies + [c], entries, i, members + [j])
  {
    assert forall r :: 0 <= r < |members| ==> (copies + [c])[r] == copies[r] && (members + [j])[r] == members[r];
  }
  /** The file-content hash of a record (`calculate_file_hash`, "" when the file cannot be read). */
  function FileHash(hashOf: string -> string): VideoFile -> string
  {
    (f: VideoFile) => hashOf(f.path)
  }

  function Hashed(hashOf: string -> string): VideoFile -> bool
  {
    (f: VideoFile) => hashOf(f.path) != ""
  }

  function Repeated(g: seq<VideoFile>): bool
  {
    |g| > 1
  }

  /** The groups `find_exact_duplicates` returns: hash buckets of the hashed files with more than one file. */
  function ExactGroups(files: seq<VideoFile>, hashOf: string -> string): seq<seq<VideoFile>>
  {
    Where(GroupBy(Where(files, Hashed(hashOf)), FileHash(hashOf)), Repeated)
  }

  ghost predicate InSome(gs: seq<seq<VideoFile>>, f: VideoFile)
  {
    exists p :: 0 <= p < |gs| && f in gs[p]
  }

  /**
   * Every exact group holds two or more of the files, all with one
   * non-empty hash; and any two files sharing a non-empty hash are grouped.
   */
  lemma ExactGroupsSpec(files: seq<VideoFile>, hashOf: string -> string)
    ensures forall g :: g in ExactGroups(files, hashOf) ==> |g| >= 2 && forall x :: x in g ==>
      x in files && hashOf(x.path) != "" && hashOf(x.path) == hashOf(g[0].path)
    ensures forall i, j :: 0 <= i < j < |files| && hashOf(files[i].path) == hashOf(files[j].path) != "" ==>
      InSome(ExactGroups(files, hashOf), files[i]) && InSome(ExactGroups(files, hashOf), files[j])
  {
    var hashed := Where(files, Hashed(hashOf));
    var key := FileHash(hashOf);
    var gs := GroupBy(hashed, key);
    WhereMembers(files, Hashed(hashOf));
    WhereMembers(gs, Repeated);
    GroupByShape(hashed, key);
    forall g | g in ExactGroups(files, hashOf)
      ensures |g| >= 2 && forall x :: x in g ==> x in files && hashOf(x.path) != "" && hashOf(x.path) == hashOf(g[0].path)
    {
      WithKeyMembers(hashed, key, key(g[0]));
    }
    forall i, j | 0 <= i < j < |files| && hashOf(files[i].path) == hashOf(files[j].path) != ""
      ensures InSome(ExactGroups(files, hashOf), files[i]) && InSome(ExactGroups(files, hashOf), files[j])
    {
      ExactGrouped(files, hashOf, i, j);
    }
  }

  lemma ExactGrouped(files: seq<VideoFile>, hashOf: string -> string, i: nat, j: nat)
    requires i < j < |files| && hashOf(files[i].path) == hashOf(files[j].path) != ""
    ensures InSome(ExactGroups(files, hashOf), files[i]) && InSome(ExactGroups(files, hashOf), files[j])
  {
    var hashed := Where(files, Hashed(hashOf));
    var key := FileHash(hashOf);
    var h := hashOf(files[i].path);
    var gs := GroupBy(hashed, key);
    var ks := Keys(hashed, key);
    WhereMembers(files, Hashed(hashOf));
    assert files[i] in hashed;
    var a :| 0 <= a < |hashed| && hashed[a] == files[i];
    var b :| 0 <= b < |hashed| && hashed[b] == files[j];
    assert key(hashed[a]) == h && key(hashed[b]) == h;
    var c :| 0 <= c < |ks| && ks[c] == h;
    var g := gs[c];
    assert g == WithKey(hashed, key, h);
    WithKeyContains(hashed, key, a);
    WithKeyContains(hashed, key, b);
    WhereTwice(files, Hashed(hashOf), HasKey(key, h), i, j);
    assert Repeated(g);
    WhereMembers(gs, Repeated);
    var d :| 0 <= d < |ExactGroups(files, hashOf)| && ExactGroups(files, hashOf)[d] == g;
  }

  /**
   * `find_exact_duplicates`: bucket the files with a non-empty hash by
   * hash, and return the buckets with more than one file after setting
   * every member's similarity to 100 in place.
   */
  method FindExactDuplicates(files: seq<VideoFile>, hashOf: string -> string) returns (exact: seq<seq<VideoFile>>)
    modifies Elems(files)
    ensures exact == ExactGroups(files, hashOf)
    ensures forall f :: f in files ==> f.similarity == if InSome(exact, f) then Some(100.0) else old(f.similarity)
  {
    var hashGroups := BucketWhere(files, Hashed(hashOf), FileHash(hashOf));
    ExactMembers(files, hashOf);
    exact := [];
    for k := 0 to |hashGroups|
      invariant exact == Where(hashGroups[..k], Repeated)
      invariant forall f :: f in files ==> f.similarity == if InSome(exact, f) then Some(100.0) else old(f.similarity)
    {
      WhereStep(hashGroups, k, Repeated);
      var group := hashGroups[k];
      if |group| > 1 {
        MarkExact(files, group);
        InSomeSnoc(exact, group);
        exact := exact + [group];
      }
    }
    assert hashGroups[..|hashGroups|] == hashGroups;
  }

  /** `for video in group: video.similarity = 100.0`. */
  method MarkExact(files: seq<VideoFile>, group: seq<VideoFile>)
    requires forall x :: x in group ==> x in files
    modifies Elems(files)
    ensures forall f :: f in files ==> f.similarity == if f in group then Some(100.0) else old(f.similarity)
  {
    for r := 0 to |group|
      invariant forall f :: f in files ==> f.similarity == if f in group[..r] then Some(100.0) else old(f.similarity)
    {
      assert group[r] in files;
      group[r].similarity := Some(100.0);
      assert group[..r + 1] == group[..r] + [group[r]];
    }
    assert group[..|group|] == group;
  }

  lemma ExactMembers(files: seq<VideoFile>, hashOf: string -> string)
    ensures var gs := GroupBy(Where(files, Hashed(hashOf)), FileHash(hashOf));
      forall k, x :: 0 <= k < |gs| && x in gs[k] ==> x in files
  {
    var hashed := Where(files, Hashed(hashOf));
    var gs := GroupBy(hashed, FileHash(hashOf));
    WhereMembers(files, Hashed(hashOf));
    GroupByShape(hashed, FileHash(hashOf));
    forall k, x | 0 <= k < |gs| && x in gs[k] ensures x in files {
      WithKeyMembers(hashed, FileHash(hashOf), FileHash(hashOf)(gs[k][0]));
    }
  }

  lemma InSomeSnoc(gs: seq<seq<VideoFile>>, g: seq<VideoFile>)
    ensures forall f :: InSome(gs + [g], f) <==> InSome(gs, f) || f in g
  {
    forall f | InSome(gs + [g], f) ensures InSome(gs, f) || f in g {
      var p :| 0 <= p < |gs + [g]| && f in (gs + [g])[p];
      if p < |gs| {
        assert (gs + [g])[p] == gs[p];
      }
    }
    forall f | InSome(gs, f) ensures InSome(gs + [g], f) {
      var p :| 0 <= p < |gs| && f in gs[p];
      assert (gs + [g])[p] == gs[p];
    }
    assert (gs + [g])[|gs|] == g;
  }
  /** The position of the entry stored under `path` in a `features` dictionary, or -1. */
  function IndexOfPath(entries: seq<Candidate>, path: string): (k: int)
    ensures -1 <= k < |entries|
    ensures k >= 0 ==> entries[k].info.path == path
    ensures k < 0 ==> forall i :: 0 <= i < |entries| ==> entries[i].info.path != path
  {
    if entries == [] then -1
    else if entries[|entries| - 1].info.path == path then |entries| - 1
    else IndexOfPath(entries[..|entries| - 1], path)
  }

  /** `features[path] = ...`: replace the entry under the same path in place, or add a new key at the end. */
  function Store(entries: seq<Candidate>, c: Candidate): seq<Candidate>
  {
    var k := IndexOfPath(entries, c.info.path);
    if k >= 0 then entries[k := c] else entries + [c]
  }

  /** A dictionary keyed by path holds each path once. */
  ghost predicate Keyed(entries: seq<Candidate>)
  {
    forall i, j :: 0 <= i < j < |entries| ==> entries[i].info.path != entries[j].info.path
  }

  /** A record whose features `find_duplicates` stores: not yet grouped, and extraction succeeded. */
  ghost predicate Eligible(f: VideoFile, skip: set<string>, extract: string -> Option<Feature>)
  {
    f.path !in skip && extract(f.path).Some?
  }

  /** The `features` dictionary `find_duplicates` builds from a candidate group. */
  function Features(group: seq<VideoFile>, skip: set<string>, extract: string -> Option<Feature>): seq<Candidate>
  {
    if group == [] then []
    else
      var n := |group| - 1;
      var prior := Features(group[..n], skip, extract);
      var f := group[n];
      if f.path !in skip && extract(f.path).Some? then Store(prior, Candidate(extract(f.path).value, f)) else prior
  }

  /** The keys of a `features` dictionary. */
  function StoredPaths(entries: seq<Candidate>): set<string>
  {
    set i | 0 <= i < |entries| :: entries[i].info.path
  }

  /** Storing keeps the paths distinct, and adds the new key to the keys. */
  lemma StoreKeys(entries: seq<Candidate>, c: Candidate)
    requires Keyed(entries)
    ensures Keyed(Store(entries, c))
    ensures StoredPaths(Store(entries, c)) == StoredPaths(entries) + {c.info.path}
  {
    var r := Store(entries, c);
    var k := IndexOfPath(entries, c.info.path);
    if k >= 0 {
      assert r[k] == c;
      forall p | p in StoredPaths(entries) ensures p in StoredPaths(r) {
        var i :| 0 <= i < |entries| && entries[i].info.path == p;
        if i != k {
          assert r[i] == entries[i];
        }
      }
      forall p | p in StoredPaths(r) ensures p in StoredPaths(entries) {
        var i :| 0 <= i < |r| && r[i].info.path == p;
        if i != k {
          assert r[i] == entries[i];
        }
      }
    } else {
      assert r[|entries|] == c;
      forall p | p in StoredPaths(entries) ensures p in StoredPaths(r) {
        var i :| 0 <= i < |entries| && entries[i].info.path == p;
        assert r[i] == entries[i];
      }
      forall p | p in StoredPaths(r) ensures p in StoredPaths(entries) + {c.info.path} {
        var i :| 0 <= i < |r| && r[i].info.path == p;
        if i < |entries| {
          assert r[i] == entries[i];
        }
      }
    }
  }

  /** Storing brings in nothing but the new entry. */
  lemma StoreMembers(entries: seq<Candidate>, c: Candidate)
    ensures forall i :: 0 <= i < |Store(entries, c)| ==> Store(entries, c)[i] == c || Store(entries, c)[i] in entries
  {
  }

  /** Every entry is an eligible record of the group, stored with its extracted feature. */
  ghost predicate Extracted(entries: seq<Candidate>, group: seq<VideoFile>, skip: set<string>, extract: string -> Option<Feature>)
  {
    forall i :: 0 <= i < |entries| ==>
      entries[i].info in group && Eligible(entries[i].info, skip, extract)
      && extract(entries[i].info.path) == Some(entries[i].feature)
  }

  /** Every eligible record of the group has its path among the keys. */
  ghost predicate Covered(entries: seq<Candidate>, group: seq<VideoFile>, skip: set<string>, extract: string -> Option<Feature>)
  {
    forall m :: 0 <= m < |group| && Eligible(group[m], skip, extract) ==> group[m].path in StoredPaths(entries)
  }

  /**
   * The dictionary holds each path once; every entry is an eligible record
   * of the group with its extracted feature; and every eligible record's
   * path is a key.
   */
  lemma {:induction false} FeaturesSpec(group: seq<VideoFile>, skip: set<string>, extract: string -> Option<Feature>)
    ensures Keyed(Features(group, skip, extract))
    ensures Extracted(Features(group, skip, extract), group, skip, extract)
    ensures Covered(Features(group, skip, extract), group, skip, extract)
  {
    if group != [] {
      var n := |group| - 1;
      FeaturesSpec(group[..n], skip, extract);
      FeaturesStep(group, skip, extract);
    }
  }

  lemma FeaturesStep(group: seq<VideoFile>, skip: set<string>, extract: string -> Option<Feature>)
    requires group != []
    requires var prior := Features(group[..|group| - 1], skip, extract);
      Keyed(prior) && Extracted(prior, group[..|group| - 1], skip, extract) && Covered(prior, group[..|group| - 1], skip, extract)
    ensures Keyed(Features(group, skip, extract))
    ensures Extracted(Features(group, skip, extract), group, skip, extract)
    ensures Covered(Features(group, skip, extract), group, skip, extract)
  {
    var n := |group| - 1;
    var prior := Features(group[..n], skip, extract);
    var f := group[n];
    var entries := Features(group, skip, extract);
    if Eligible(f, skip, extract) {
      var c := Candidate(extract(f.path).value, f);
      assert entries == Store(prior, c);
      StoreKeys(prior, c);
      StoreMembers(prior, c);
      ExtractedStep(prior, entries, group, skip, extract);
    } else {
      assert entries == prior;
      ExtractedStep(prior, entries, group, skip, extract);
    }
    CoveredStep(prior, entries, group, skip, extract);
  }

  lemma ExtractedStep(prior: seq<Candidate>, entries: seq<Candidate>, group: seq<VideoFile>, skip: set<string>,
                      extract: string -> Option<Feature>)
    requires group != [] && Extracted(prior, group[..|group| - 1], skip, extract)
    requires forall i :: 0 <= i < |entries| ==>
      || entries[i] in prior
      || (entries[i].info == group[|group| - 1] && Eligible(entries[i].info, skip, extract)
          && extract(entries[i].info.path) == Some(entries[i].feature))
    ensures Extracted(entries, group, skip, extract)
  {
    var n := |group| - 1;
    forall i | 0 <= i < |entries|
      ensures entries[i].info in group && Eligible(entries[i].info, skip, extract)
      && extract(entries[i].info.path) == Some(entries[i].feature)
    {
      if entries[i] in prior {
        var j :| 0 <= j < |prior| && prior[j] == entries[i];
        assert prior[j].info in group[..n];
      }
    }
  }

  lemma CoveredStep(prior: seq<Candidate>, entries: seq<Candidate>, group: seq<VideoFile>, skip: set<string>,
                    extract: string -> Option<Feature>)
    requires group != [] && Covered(prior, group[..|group| - 1], skip, extract)
    requires StoredPaths(prior) <= StoredPaths(entries)
    requires Eligible(group[|group| - 1], skip, extract) ==> group[|group| - 1].path in StoredPaths(entries)
    ensures Covered(entries, group, skip, extract)
  {
    var n := |group| - 1;
    forall m | 0 <= m < |group| && Eligible(group[m], skip, extract) ensures group[m].path in StoredPaths(entries) {
      if m < n {
        assert group[..n][m] == group[m];
      }
    }
  }

  /** The progress `60 + int(current / total * 30)` reported after each file of the feature extraction. */
  function ExtractionProgress(current: nat, total: nat): (p: int)
    requires total > 0
    ensures current <= total ==> 60 <= p <= 90
    ensures current == 0 ==> p == 60
  {
    var x := (current as real / total as real) * 30.0;
    assert current <= total ==> x <= 30.0 by {
      if current <= total {
        QuotientAtMost(current as real, total as real, 1.0);
      }
    }
    60 + TruncToInt(x)
  }

  /** Extraction progress never goes down. */
  lemma ExtractionProgressMonotone(c1: nat, c2: nat, total: nat)
    requires total > 0 && c1 <= c2
    ensures ExtractionProgress(c1, total) <= ExtractionProgress(c2, total)
  {
    var t := total as real;
    CrossDiv(c1 as real, t, c2 as real, t);
    TruncMonotone((c1 as real / t) * 30.0, (c2 as real / t) * 30.0);
  }

  /**
   * The inner loop of `find_duplicates` over one candidate group: store the
   * features of the records not yet grouped and report progress after each
   * record, `current` records having been counted before.
   */
  method ExtractFeatures(group: seq<VideoFile>, skip: set<string>, extract: string -> Option<Feature>,
                         current: nat, total: nat)
    returns (entries: seq<Candidate>, reported: seq<int>)
    requires total > 0
    ensures entries == Features(group, skip, extract)
    ensures |reported| == |group|
    ensures forall t :: 0 <= t < |group| ==> reported[t] == ExtractionProgress(current + t + 1, total)
  {
    entries := [];
    reported := [];
    for i := 0 to |group|
      invariant entries == Features(group[..i], skip, extract)
      invariant |reported| == i
      invariant forall t :: 0 <= t < i ==> reported[t] == ExtractionProgress(current + t + 1, total)
    {
      entries := ExtractOne(group, skip, extract, i, entries);
      reported := reported + [ExtractionProgress(current + i + 1, total)];
    }
    assert group[..|group|] == group;
  }

  /** One record of the extraction loop: its features are stored unless it is already grouped or extraction fails. */
  method ExtractOne(group: seq<VideoFile>, skip: set<string>, extract: string -> Option<Feature>, i: nat,
                    entries: seq<Candidate>)
    returns (entries': seq<Candidate>)
    requires i < |group| && entries == Features(group[..i], skip, extract)
    ensures entries' == Features(group[..i + 1], skip, extract)
  {
    assert group[..i + 1][..i] == group[..i];
    entries' := entries;
    var f := group[i];
    if f.path !in skip {
      var feature := extract(f.path);
      if feature.Some? {
        entries' := Store(entries, Candidate(feature.value, f));
      }
    }
  }

  /** `sum(len(g) for g in candidate_groups if len(g) > 1)`. */
  function CandidateCount(gs: seq<seq<VideoFile>>): nat
  {
    if gs == [] then 0
    else
      var n := |gs| - 1;
      CandidateCount(gs[..n]) + (if |gs[n]| > 1 then |gs[n]| else 0)
  }

  /** The files counted before a group plus that group's files are among all the counted files. */
  lemma {:induction false} CandidateCountPrefix(gs: seq<seq<VideoFile>>, k: nat)
    requires k < |gs|
    decreases |gs| - k
    ensures CandidateCount(gs[..k + 1]) == CandidateCount(gs[..k]) + (if |gs[k]| > 1 then |gs[k]| else 0)
    ensures CandidateCount(gs[..k + 1]) <= CandidateCount(gs)
  {
    assert gs[..k + 1][..k] == gs[..k];
    if k + 1 < |gs| {
      CandidateCountPrefix(gs, k + 1);
    } else {
      assert gs[..k + 1] == gs;
    }
  }
  /** Every record of a candidate group is one of the input records. */
  lemma CandidateMembers(files: seq<VideoFile>, k: nat, x: VideoFile)
    requires k < |CandidateGroups(files)| && x in CandidateGroups(files)[k]
    ensures x in files
  {
    FlattenMember(CandidateGroups(files), x);
    PrescreeningPartition(files);
    assert x in multiset(Flatten(CandidateGroups(files)));
  }

  /** Every path in the groups. */
  function GroupPaths(groups: seq<seq<VideoFile>>): set<string>
  {
    set p, r | 0 <= p < |groups| && 0 <= r < |groups[p]| :: groups[p][r].path
  }

  lemma GroupPathsAppend(a: seq<seq<VideoFile>>, b: seq<seq<VideoFile>>)
    ensures GroupPaths(a + b) == GroupPaths(a) + GroupPaths(b)
  {
    var ab := a + b;
    forall x | x in GroupPaths(ab) ensures x in GroupPaths(a) + GroupPaths(b) {
      var p, r :| 0 <= p < |ab| && 0 <= r < |ab[p]| && ab[p][r].path == x;
      if p < |a| {
        assert a[p][r].path == x;
      } else {
        assert b[p - |a|][r].path == x;
      }
    }
    forall x | x in GroupPaths(a) + GroupPaths(b) ensures x in GroupPaths(ab) {
      if x in GroupPaths(a) {
        var p, r :| 0 <= p < |a| && 0 <= r < |a[p]| && a[p][r].path == x;
        assert ab[p][r].path == x;
      } else {
        var p, r :| 0 <= p < |b| && 0 <= r < |b[p]| && b[p][r].path == x;
        assert ab[|a| + p][r].path == x;
      }
    }
  }

  lemma CopySetAppend(a: seq<seq<VideoFile>>, b: seq<seq<VideoFile>>)
    ensures CopySet(a + b) == CopySet(a) + CopySet(b)
  {
    var ab := a + b;
    forall o | o in CopySet(ab) ensures o in CopySet(a) + CopySet(b) {
      var p, r :| 0 <= p < |ab| && 1 <= r < |ab[p]| && ab[p][r] == o;
      if p < |a| {
        assert a[p][r] == o;
      } else {
        assert b[p - |a|][r] == o;
      }
    }
    forall o | o in CopySet(a) + CopySet(b) ensures o in CopySet(ab) {
      if o in CopySet(a) {
        var p, r :| 0 <= p < |a| && 1 <= r < |a[p]| && a[p][r] == o;
        assert ab[p][r] == o;
      } else {
        var p, r :| 0 <= p < |b| && 1 <= r < |b[p]| && b[p][r] == o;
        assert ab[|a| + p][r] == o;
      }
    }
  }

  /** No file path occurs twice across all the groups. */
  ghost predicate DistinctPaths(groups: seq<seq<VideoFile>>)
  {
    forall p, r, q, t ::
      (0 <= p < |groups| && 0 <= r < |groups[p]| && 0 <= q < |groups| && 0 <= t < |groups[q]| && (p != q || r != t))
      ==> groups[p][r].path != groups[q][t].path
  }

  /** `c` copies one of the records. */
  ghost predicate CopiedFrom(c: VideoFile, files: seq<VideoFile>)
  {
    exists f :: f in files && CopyOf(c, f)
  }

  /**
   * What `find_duplicates` promises of the groups it returns: two or more
   * records each; the first is one of the input records, marked 100; every
   * other is a copy of an input record carrying a similarity of at least the
   * threshold; and no file path is reported twice.
   */
  ghost predicate Reported(groups: seq<seq<VideoFile>>, files: seq<VideoFile>, threshold: real)
    reads Objects(groups)
  {
    && (forall p :: 0 <= p < |groups| ==>
          |groups[p]| >= 2 && groups[p][0] in files && groups[p][0].similarity == Some(100.0))
    && (forall p, r :: 0 <= p < |groups| && 1 <= r < |groups[p]| ==>
          CopiedFrom(groups[p][r], files)
          && groups[p][r].similarity.Some? && groups[p][r].similarity.value >= threshold)
    && DistinctPaths(groups)
  }

  /** Record `r` of group `p` carries the path of the entry the index group names. */
  lemma BuiltPath(groups: seq<seq<VideoFile>>, entries: seq<Candidate>, ig: seq<seq<nat>>, p: nat, r: nat)
    requires Built(groups, entries, ig) && p < |groups| && r < |groups[p]|
    ensures r < |ig[p]| && ig[p][r] < |entries| && groups[p][r].path == entries[ig[p][r]].info.path
  {
    assert Anchors(groups[p], entries, ig[p]);
    if r > 0 {
      assert groups[p][1..][r - 1] == groups[p][r];
    }
  }

  /** The groups `find_similar_videos` returns, over a path-keyed dictionary of input records, are reported correctly. */
  lemma SimilarReported(similar: seq<seq<VideoFile>>, entries: seq<Candidate>, threshold: real, files: seq<VideoFile>)
    requires Keyed(entries) && forall i :: 0 <= i < |entries| ==> entries[i].info in files
    requires Built(similar, entries, SimilarVideoGroups(entries, threshold))
    requires forall k :: 0 <= k < |entries| && IsAnchor(SimilarVideoGroups(entries, threshold), k) ==>
      entries[k].info.similarity == Some(100.0)
    ensures Reported(similar, files, threshold)
    ensures GroupPaths(similar) <= StoredPaths(entries)
  {
    var ig := SimilarVideoGroups(entries, threshold);
    SimilarAnchors(similar, entries, threshold, files);
    SimilarCopies(similar, entries, threshold, files);
    SimilarDistinct(similar, entries, threshold);
    forall x | x in GroupPaths(similar) ensures x in StoredPaths(entries) {
      var p, r :| 0 <= p < |similar| && 0 <= r < |similar[p]| && similar[p][r].path == x;
      BuiltPath(similar, entries, ig, p, r);
    }
  }

  lemma SimilarAnchors(similar: seq<seq<VideoFile>>, entries: seq<Candidate>, threshold: real, files: seq<VideoFile>)
    requires forall i :: 0 <= i < |entries| ==> entries[i].info in files
    requires Built(similar, entries, SimilarVideoGroups(entries, threshold))
    requires forall k :: 0 <= k < |entries| && IsAnchor(SimilarVideoGroups(entries, threshold), k) ==>
      entries[k].info.similarity == Some(100.0)
    ensures forall p :: 0 <= p < |similar| ==>
      |similar[p]| >= 2 && similar[p][0] in files && similar[p][0].similarity == Some(100.0)
  {
    var ig := SimilarVideoGroups(entries, threshold);
    SimilarVideoGroupsSpec(entries, threshold);
    forall p | 0 <= p < |similar|
      ensures |similar[p]| >= 2 && similar[p][0] in files && similar[p][0].similarity == Some(100.0)
    {
      assert Anchors(similar[p], entries, ig[p]);
      assert IsAnchor(ig, ig[p][0]);
    }
  }

  lemma SimilarCopies(similar: seq<seq<VideoFile>>, entries: seq<Candidate>, threshold: real, files: seq<VideoFile>)
    requires forall i :: 0 <= i < |entries| ==> entries[i].info in files
    requires Built(similar, entries, SimilarVideoGroups(entries, threshold))
    ensures forall p, r :: 0 <= p < |similar| && 1 <= r < |similar[p]| ==>
      CopiedFrom(similar[p][r], files)
      && similar[p][r].similarity.Some? && similar[p][r].similarity.value >= threshold
  {
    var ig := SimilarVideoGroups(entries, threshold);
    SimilarVideoGroupsSpec(entries, threshold);
    forall p, r | 0 <= p < |similar| && 1 <= r < |similar[p]|
      ensures CopiedFrom(similar[p][r], files)
      && similar[p][r].similarity.Some? && similar[p][r].similarity.value >= threshold
    {
      assert Anchors(similar[p], entries, ig[p]);
      assert similar[p][1..][r - 1] == similar[p][r];
      assert CopyOf(similar[p][r], entries[ig[p][r]].info);
    }
  }

  lemma SimilarDistinct(similar: seq<seq<VideoFile>>, entries: seq<Candidate>, threshold: real)
    requires Keyed(entries)
    requires Built(similar, entries, SimilarVideoGroups(entries, threshold))
    ensures DistinctPaths(similar)
  {
    var ig := SimilarVideoGroups(entries, threshold);
    SimilarIndicesDistinct(entries, threshold);
    forall p, r, q, t | 0 <= p < |similar| && 0 <= r < |similar[p]| && 0 <= q < |similar| && 0 <= t < |similar[q]|
      && (p != q || r != t)
      ensures similar[p][r].path != similar[q][t].path
    {
      BuiltPath(similar, entries, ig, p, r);
      BuiltPath(similar, entries, ig, q, t);
    }
  }

  /** No entry index occurs twice across the similar index groups. */
  lemma SimilarIndicesDistinct(entries: seq<Candidate>, threshold: real)
    ensures var ig := SimilarVideoGroups(entries, threshold);
      forall p, r, q, t ::
        (0 <= p < |ig| && 0 <= r < |ig[p]| && 0 <= q < |ig| && 0 <= t < |ig[q]| && (p != q || r != t))
        ==> ig[p][r] != ig[q][t]
  {
    var ig := SimilarVideoGroups(entries, threshold);
    var n, close := |entries|, Close(entries, threshold);
    Greedy.GroupsSpec(n, close);
    forall p, r, q, t | 0 <= p < |ig| && 0 <= r < |ig[p]| && 0 <= q < |ig| && 0 <= t < |ig[q]| && (p != q || r != t)
      ensures ig[p][r] != ig[q][t]
    {
      if p == q {
        assert Greedy.GroupOK(n, close, ig[p]);
      } else if p < q {
        assert ig[p][r] in ig[p] && ig[q][t] in ig[q];
      } else {
        assert ig[q][t] in ig[q] && ig[p][r] in ig[p];
      }
    }
  }

  /**
   * No two records of `group` with different paths, both left out of
   * `grouped` and both with extracted features, are similar enough to be
   * grouped.
   */
  ghost predicate Maximal(group: seq<VideoFile>, grouped: set<string>, threshold: real,
                          extract: string -> Option<Feature>)
  {
    forall a, b :: 0 <= a < |group| && 0 <= b < |group| ==> Apart(group[a], group[b], grouped, threshold, extract)
  }

  /** Two records with different paths, both ungrouped and with features, are less than `threshold` similar. */
  ghost predicate Apart(x: VideoFile, y: VideoFile, grouped: set<string>, threshold: real,
                        extract: string -> Option<Feature>)
  {
    (x.path != y.path && x.path !in grouped && y.path !in grouped && extract(x.path).Some? && extract(y.path).Some?) ==>
      Similarity(extract(x.path).value, extract(y.path).value) < threshold
  }

  /** Leaving out more paths keeps a group maximal. */
  lemma MaximalGrows(group: seq<VideoFile>, a: set<string>, b: set<string>, threshold: real,
                     extract: string -> Option<Feature>)
    requires Maximal(group, a, threshold, extract) && a <= b
    ensures Maximal(group, b, threshold, extract)
  {
  }

  /** A group of fewer than two records holds no two paths. */
  lemma MaximalSmall(group: seq<VideoFile>, grouped: set<string>, threshold: real, extract: string -> Option<Feature>)
    requires |group| < 2
    ensures Maximal(group, grouped, threshold, extract)
  {
  }

  /** The record of an index some group holds is in the returned groups. */
  lemma IndexGrouped(similar: seq<seq<VideoFile>>, entries: seq<Candidate>, ig: seq<seq<nat>>, i: nat)
    requires Built(similar, entries, ig) && Greedy.InGroups(ig, i)
    ensures i < |entries| && entries[i].info.path in GroupPaths(similar)
  {
    Greedy.InGroupsIndex(ig, i);
    var p :| 0 <= p < |ig| && i in ig[p];
    var r :| 0 <= r < |ig[p]| && ig[p][r] == i;
    BuiltPath(similar, entries, ig, p, r);
  }

  /** The entry a stored record's path is kept under, with that record's extracted feature. */
  lemma StoredEntry(group: seq<VideoFile>, skip: set<string>, extract: string -> Option<Feature>, x: VideoFile)
    returns (i: nat)
    requires x in group && x.path !in skip && extract(x.path).Some?
    ensures i < |Features(group, skip, extract)|
    ensures Features(group, skip, extract)[i].info.path == x.path
    ensures Features(group, skip, extract)[i].feature == extract(x.path).value
  {
    var entries := Features(group, skip, extract);
    FeaturesSpec(group, skip, extract);
    var m :| 0 <= m < |group| && group[m] == x;
    assert x.path in StoredPaths(entries);
    i :| 0 <= i < |entries| && entries[i].info.path == x.path;
  }

  /**
   * The greedy groups of a candidate group's features leave no two similar
   * records out: of any two stored records similar enough, one is grouped.
   */
  lemma SimilarMaximal(similar: seq<seq<VideoFile>>, group: seq<VideoFile>, skip: set<string>, threshold: real,
                       extract: string -> Option<Feature>)
    requires Built(similar, Features(group, skip, extract), SimilarVideoGroups(Features(group, skip, extract), threshold))
    ensures Maximal(group, skip + GroupPaths(similar), threshold, extract)
  {
    var grouped := skip + GroupPaths(similar);
    forall a, b | 0 <= a < |group| && 0 <= b < |group| ensures Apart(group[a], group[b], grouped, threshold, extract) {
      ApartStored(similar, group, skip, threshold, extract, group[a], group[b]);
    }
  }

  /** The greedy groups leave no close pair of entries both out: one of the two is grouped. */
  lemma CloseGrouped(similar: seq<seq<VideoFile>>, entries: seq<Candidate>, threshold: real, a: nat, b: nat)
    requires Built(similar, entries, SimilarVideoGroups(entries, threshold))
    requires a < b < |entries| && Similarity(entries[a].feature, entries[b].feature) >= threshold
    ensures entries[a].info.path in GroupPaths(similar) || entries[b].info.path in GroupPaths(similar)
  {
    var ig := SimilarVideoGroups(entries, threshold);
    var n, close := |entries|, Close(entries, threshold);
    Greedy.GroupsSpec(n, close);
    assert close(a, b);
    if Greedy.InGroups(ig, a) {
      IndexGrouped(similar, entries, ig, a);
    } else {
      assert exists p {:trigger b in ig[p]} :: 0 <= p < |ig| && b in ig[p] && ig[p][0] < a;
      Greedy.InGroupsIndex(ig, b);
      IndexGrouped(similar, entries, ig, b);
    }
  }

  /** Two records of a candidate group both left out of its similar groups are apart. */
  lemma ApartStored(similar: seq<seq<VideoFile>>, group: seq<VideoFile>, skip: set<string>, threshold: real,
                    extract: string -> Option<Feature>, x: VideoFile, y: VideoFile)
    requires Built(similar, Features(group, skip, extract), SimilarVideoGroups(Features(group, skip, extract), threshold))
    requires x in group && y in group
    ensures Apart(x, y, skip + GroupPaths(similar), threshold, extract)
  {
    var entries := Features(group, skip, extract);
    var grouped := skip + GroupPaths(similar);
    if x.path != y.path && x.path !in grouped && y.path !in grouped && extract(x.path).Some? && extract(y.path).Some? {
      var i := StoredEntry(group, skip, extract, x);
      var j := StoredEntry(group, skip, extract, y);
      SimilaritySymmetric(entries[i].feature, entries[j].feature);
      if Similarity(entries[i].feature, entries[j].feature) >= threshold {
        if i < j {
          CloseGrouped(similar, entries, threshold, i, j);
        } else {
          CloseGrouped(similar, entries, threshold, j, i);
        }
        assert false;
      }
    }
  }

  /** Every record outside `anchors` still has its similarity from `initial`. */
  ghost predicate Kept(files: seq<VideoFile>, anchors: set<VideoFile>, initial: seq<Option<real>>)
    reads Elems(files)
  {
    && |initial| == |files|
    && forall i :: 0 <= i < |files| && files[i] !in anchors ==> files[i].similarity == initial[i]
  }

  /** The anchor records of the groups: the ones `find_similar_videos` marks 100 in place. */
  function AnchorSet(groups: seq<seq<VideoFile>>): set<VideoFile>
  {
    set p | 0 <= p < |groups| && groups[p] != [] :: groups[p][0]
  }

  lemma AnchorSetAppend(a: seq<seq<VideoFile>>, b: seq<seq<VideoFile>>)
    ensures AnchorSet(a + b) == AnchorSet(a) + AnchorSet(b)
  {
    var ab := a + b;
    assert forall p :: 0 <= p < |a| ==> ab[p] == a[p];
    assert forall p :: |a| <= p < |ab| ==> ab[p] == b[p - |a|];
    forall f | f in AnchorSet(b) ensures f in AnchorSet(ab) {
      var p :| 0 <= p < |b| && b[p] != [] && b[p][0] == f;
      assert ab[|a| + p] == b[p];
    }
  }

  /** The record of an anchor index heads a returned group. */
  lemma AnchorInSet(similar: seq<seq<VideoFile>>, entries: seq<Candidate>, ig: seq<seq<nat>>, k: nat)
    requires Built(similar, entries, ig) && IsAnchor(ig, k)
    ensures k < |entries| && entries[k].info in AnchorSet(similar)
  {
    var p :| 0 <= p < |ig| && ig[p] != [] && ig[p][0] == k;
    assert Anchors(similar[p], entries, ig[p]);
  }

  /** Appending reported groups whose paths are new keeps the promise. */
  lemma ReportedAppend(a: seq<seq<VideoFile>>, b: seq<seq<VideoFile>>, files: seq<VideoFile>, threshold: real)
    requires Reported(a, files, threshold) && Reported(b, files, threshold)
    requires GroupPaths(a) !! GroupPaths(b)
    ensures Reported(a + b, files, threshold)
  {
    var ab := a + b;
    assert forall p :: 0 <= p < |a| ==> ab[p] == a[p];
    assert forall p :: |a| <= p < |ab| ==> ab[p] == b[p - |a|];
    forall p, r, q, t | 0 <= p < |ab| && 0 <= r < |ab[p]| && 0 <= q < |ab| && 0 <= t < |ab[q]| && (p != q || r != t)
      ensures ab[p][r].path != ab[q][t].path
    {
      if p < |a| && |a| <= q {
        assert ab[p][r].path in GroupPaths(a);
        assert ab[q][t].path in GroupPaths(b);
      } else if q < |a| && |a| <= p {
        assert ab[q][t].path in GroupPaths(a);
        assert ab[p][r].path in GroupPaths(b);
      }
    }
  }

  ghost predicate Rising(s: seq<int>)
  {
    forall a, b :: 0 <= a < b < |s| ==> s[a] <= s[b]
  }

  /** The progress values reported after each of the first `count` of `total` counted records. */
  function Ticks(count: nat, total: nat): (r: seq<int>)
    requires count <= total
    ensures |r| == count
  {
    if count == 0 then [] else Ticks(count - 1, total) + [ExtractionProgress(count, total)]
  }

  lemma {:induction false} TicksAt(count: nat, total: nat)
    requires count <= total
    ensures forall t :: 0 <= t < count ==> Ticks(count, total)[t] == ExtractionProgress(t + 1, total)
  {
    if count > 0 {
      TicksAt(count - 1, total);
    }
  }

  /** Reporting the values of the next records extends the ticks. */
  lemma {:induction false} TicksExtend(current: nat, reported: seq<int>, total: nat)
    requires current + |reported| <= total
    requires forall t :: 0 <= t < |reported| ==> reported[t] == ExtractionProgress(current + t + 1, total)
    ensures Ticks(current, total) + reported == Ticks(current + |reported|, total)
  {
    if reported != [] {
      var n := |reported| - 1;
      TicksExtend(current, reported[..n], total);
      assert reported == reported[..n] + [reported[n]];
    }
  }

  /** The whole report of a non-empty input: 40, 60, the ticks of all counted records, 100. */
  lemma TicksReport(total: nat)
    ensures Reports([40, 60] + Ticks(total, total) + [100], total)
  {
    var s := [40, 60] + Ticks(total, total) + [100];
    TicksAt(total, total);
    forall a | 2 <= a < 2 + total ensures 60 <= s[a] <= 90 {
      ExtractionProgressMonotone(0, a - 1, total);
    }
    forall a, b | 0 <= a < b < |s| ensures s[a] <= s[b] {
      if 2 <= a && b < 2 + total {
        ExtractionProgressMonotone(a - 1, b - 1, total);
      }
    }
  }

  /** The progress `find_duplicates` reports on a non-empty input: 40, 60, one value per counted record, then 100, never going down. */
  ghost predicate Reports(progress: seq<int>, count: nat)
  {
    && |progress| == 3 + count
    && progress[0] == 40 && progress[1] == 60 && progress[|progress| - 1] == 100
    && Rising(progress)
    && forall a :: 0 <= a < |progress| ==> 40 <= progress[a] <= 100
  }

  /**
   * The state of the candidate-group loop of `find_duplicates` after the
   * first k groups: the groups so far are reported correctly, their paths
   * are the processed ones, each visited candidate group is maximal, and
   * every record that anchors no group keeps its initial similarity.
   */
  ghost predicate Looped(files: seq<VideoFile>, threshold: real, extract: string -> Option<Feature>,
                         candidateGroups: seq<seq<VideoFile>>, k: nat, duplicates: seq<seq<VideoFile>>,
                         processedFiles: set<string>, initial: seq<Option<real>>)
    reads Elems(files), Objects(duplicates)
    requires k <= |candidateGroups|
  {
    && Reported(duplicates, files, threshold)
    && processedFiles == GroupPaths(duplicates)
    && (forall j :: 0 <= j < k ==> Maximal(candidateGroups[j], GroupPaths(duplicates), threshold, extract))
    && Kept(files, AnchorSet(duplicates), initial)
  }

  /** Before the first candidate group nothing is grouped and every record has its initial similarity. */
  lemma LoopedEmpty(files: seq<VideoFile>, threshold: real, extract: string -> Option<Feature>,
                    candidateGroups: seq<seq<VideoFile>>, initial: seq<Option<real>>)
    requires |initial| == |files| && forall i :: 0 <= i < |files| ==> initial[i] == files[i].similarity
    ensures Looped(files, threshold, extract, candidateGroups, 0, [], {}, initial)
  {
    assert GroupPaths([]) == {} && AnchorSet([]) == {};
  }

  /**
   * `find_duplicates`: prescreen by metadata, then per candidate group with
   * two or more records extract the features of the records not yet
   * grouped and, when two or more were stored, group them by similarity.
   * Feature extraction is the oracle `extract`, keyed by path; the
   * reported progress values are returned in order.
   */
  method FindDuplicates(files: seq<VideoFile>, threshold: real, extract: string -> Option<Feature>)
    returns (duplicates: seq<seq<VideoFile>>, progress: seq<int>)
    modifies Elems(files)
    ensures files == [] ==> duplicates == [] && progress == []
    ensures files != [] ==> Reports(progress, CandidateCount(CandidateGroups(files)))
    ensures Reported(duplicates, files, threshold)
    ensures fresh(CopySet(duplicates))
    ensures forall k :: 0 <= k < |CandidateGroups(files)| ==>
      Maximal(CandidateGroups(files)[k], GroupPaths(duplicates), threshold, extract)
    ensures forall i :: 0 <= i < |files| && files[i] !in AnchorSet(duplicates) ==>
      files[i].similarity == old(files[i].similarity)
  {
    if files == [] {
      return [], [];
    }
    progress := [40];
    var candidateGroups := MetadataPrescreening(files);
    progress := progress + [60];
    ghost var initial := seq(|files|, i requires 0 <= i < |files| reads Elems(files) => files[i].similarity);
    duplicates, progress := CompareCandidateGroups(files, threshold, extract, candidateGroups, progress, initial);
    progress := progress + [100];
    TicksReport(CandidateCount(candidateGroups));
  }

  /**
   * The loop of `find_duplicates` over the candidate groups, with the
   * progress reported so far (40 and 60); `initial` holds the records'
   * similarities on entry.
   */
  method CompareCandidateGroups(files: seq<VideoFile>, threshold: real, extract: string -> Option<Feature>,
                                candidateGroups: seq<seq<VideoFile>>, progress: seq<int>,
                                ghost initial: seq<Option<real>>)
    returns (duplicates: seq<seq<VideoFile>>, progress': seq<int>)
    requires candidateGroups == CandidateGroups(files) && progress == [40, 60]
    requires |initial| == |files| && forall i :: 0 <= i < |files| ==> initial[i] == files[i].similarity
    modifies Elems(files)
    ensures progress' == [40, 60] + Ticks(CandidateCount(candidateGroups), CandidateCount(candidateGroups))
    ensures fresh(CopySet(duplicates))
    ensures Looped(files, threshold, extract, candidateGroups, |candidateGroups|, duplicates, GroupPaths(duplicates), initial)
  {
    duplicates := [];
    progress' := progress;
    var processedFiles: set<string> := {};
    var total := CandidateCount(candidateGroups);
    var current: nat := 0;
    LoopedEmpty(files, threshold, extract, candidateGroups, initial);
    for k := 0 to |candidateGroups|
      invariant current == CandidateCount(candidateGroups[..k])
      invariant current <= total && progress' == [40, 60] + Ticks(current, total)
      invariant fresh(CopySet(duplicates))
      invariant Looped(files, threshold, extract, candidateGroups, k, duplicates, processedFiles, initial)
    {
      duplicates, processedFiles, current, progress' :=
        VisitCandidateGroup(files, threshold, extract, candidateGroups, k, duplicates, processedFiles, current, progress',
                            initial);
    }
    assert candidateGroups[..|candidateGroups|] == candidateGroups;
  }

  /** One step of the candidate-group loop of `find_duplicates`: groups of fewer than two records are passed over. */
  method VisitCandidateGroup(files: seq<VideoFile>, threshold: real, extract: string -> Option<Feature>,
                             candidateGroups: seq<seq<VideoFile>>, k: nat, duplicates: seq<seq<VideoFile>>,
                             processedFiles: set<string>, current: nat, progress: seq<int>,
                             ghost initial: seq<Option<real>>)
    returns (duplicates': seq<seq<VideoFile>>, processedFiles': set<string>, current': nat, progress': seq<int>)
    requires candidateGroups == CandidateGroups(files) && k < |candidateGroups|
    requires current == CandidateCount(candidateGroups[..k]) && current <= CandidateCount(candidateGroups)
    requires progress == [40, 60] + Ticks(current, CandidateCount(candidateGroups))
    requires Looped(files, threshold, extract, candidateGroups, k, duplicates, processedFiles, initial)
    modifies Elems(files)
    ensures current' == CandidateCount(candidateGroups[..k + 1]) && current' <= CandidateCount(candidateGroups)
    ensures progress' == [40, 60] + Ticks(current', CandidateCount(candidateGroups))
    ensures fresh(CopySet(duplicates') - CopySet(duplicates))
    ensures Looped(files, threshold, extract, candidateGroups, k + 1, duplicates', processedFiles', initial)
  {
    var total := CandidateCount(candidateGroups);
    CandidateCountPrefix(candidateGroups, k);
    duplicates', processedFiles', current', progress' := duplicates, processedFiles, current, progress;
    var group := candidateGroups[k];
    if |group| < 2 {
      MaximalSmall(group, GroupPaths(duplicates), threshold, extract);
      return;
    }
    forall x | x in group ensures x in files {
      CandidateMembers(files, k, x);
    }
    var similar;
    similar, progress' :=
      HandleGroup(files, threshold, extract, group, processedFiles, current, total, progress, duplicates, initial);
    current' := current + |group|;
    CopySetAppend(duplicates, similar);
    GroupPathsAppend(duplicates, similar);
    AnchorSetAppend(duplicates, similar);
    duplicates' := duplicates + similar;
    processedFiles' := processedFiles + GroupPaths(similar);
    forall j | 0 <= j < k ensures Maximal(candidateGroups[j], GroupPaths(duplicates'), threshold, extract) {
      MaximalGrows(candidateGroups[j], GroupPaths(duplicates), GroupPaths(duplicates'), threshold, extract);
    }
  }

  /**
   * The `len(features) > 1` step of `find_duplicates`: group the stored
   * entries, none of whose paths is grouped yet, and append the groups;
   * fewer than two entries give no group.
   */
  method GroupSimilar(files: seq<VideoFile>, threshold: real, entries: seq<Candidate>,
                      ghost duplicates: seq<seq<VideoFile>>, ghost processed: set<string>,
                      ghost initial: seq<Option<real>>)
    returns (similar: seq<seq<VideoFile>>)
    requires Keyed(entries)
    requires forall i :: 0 <= i < |entries| ==> entries[i].info in files && entries[i].info.path !in processed
    requires Reported(duplicates, files, threshold) && GroupPaths(duplicates) <= processed
    requires Kept(files, AnchorSet(duplicates), initial)
    modifies InfoSet(entries)
    ensures Reported(duplicates + similar, files, threshold)
    ensures GroupPaths(similar) !! processed
    ensures fresh(CopySet(similar))
    ensures Built(similar, entries, SimilarVideoGroups(entries, threshold))
    ensures forall f :: f in InfoSet(entries) && f !in AnchorSet(similar) ==> f.similarity == old(f.similarity)
    ensures Kept(files, AnchorSet(duplicates) + AnchorSet(similar), initial)
  {
    if |entries| <= 1 {
      Greedy.GroupsOfFewerThanTwo(|entries|, Close(entries, threshold));
      assert duplicates + [] == duplicates;
      assert AnchorSet(duplicates) + AnchorSet([]) == AnchorSet(duplicates);
      return [];
    }
    assert forall o :: o in Objects(duplicates) ==> o.path in GroupPaths(duplicates);
    similar := FindSimilarVideos(entries, threshold);
    forall f | f in InfoSet(entries) && f !in AnchorSet(similar) ensures f.similarity == old(f.similarity) {
      var k :| 0 <= k < |entries| && entries[k].info == f;
      if IsAnchor(SimilarVideoGroups(entries, threshold), k) {
        AnchorInSet(similar, entries, SimilarVideoGroups(entries, threshold), k);
      }
    }
    SimilarReported(similar, entries, threshold, files);
    ReportedAppend(duplicates, similar, files, threshold);
  }

  /**
   * The body of the candidate-group loop of `find_duplicates` for a group
   * of two or more records: store features, extend the reported progress
   * by one value per record, and group the stored entries when there are
   * two or more.
   */
  method HandleGroup(files: seq<VideoFile>, threshold: real, extract: string -> Option<Feature>, group: seq<VideoFile>,
                     processed: set<string>, current: nat, total: nat, progress: seq<int>,
                     ghost duplicates: seq<seq<VideoFile>>, ghost initial: seq<Option<real>>)
    returns (similar: seq<seq<VideoFile>>, progress': seq<int>)
    requires |group| >= 2 && forall x :: x in group ==> x in files
    requires current + |group| <= total && progress == [40, 60] + Ticks(current, total)
    requires Reported(duplicates, files, threshold) && GroupPaths(duplicates) <= processed
    requires Kept(files, AnchorSet(duplicates), initial)
    modifies Elems(files)
    ensures progress' == [40, 60] + Ticks(current + |group|, total)
    ensures Reported(duplicates + similar, files, threshold)
    ensures GroupPaths(similar) !! processed
    ensures fresh(CopySet(similar))
    ensures Built(similar, Features(group, processed, extract),
                  SimilarVideoGroups(Features(group, processed, extract), threshold))
    ensures Maximal(group, processed + GroupPaths(similar), threshold, extract)
    ensures Kept(files, AnchorSet(duplicates) + AnchorSet(similar), initial)
  {
    var entries, reported := ExtractFeatures(group, processed, extract, current, total);
    progress' := progress + reported;
    assert progress' == [40, 60] + Ticks(current + |group|, total) by {
      TicksExtend(current, reported, total);
    }
    assert Keyed(entries) && forall i :: 0 <= i < |entries| ==> entries[i].info in files && entries[i].info.path !in processed
    by {
      FeaturesSpec(group, processed, extract);
    }
    similar := GroupSimilar(files, threshold, entries, duplicates, processed, initial);
    SimilarMaximal(similar, group, processed, threshold, extract);
  }
}
