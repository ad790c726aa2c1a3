/**
 * The batch stage of the text duplicate detector
 * (src/detector/text_duplicate_detector.py): `_fast_pre_screening`, which
 * extracts the lightweight features of one batch and lists the candidate
 * pairs the quick check lets through, `_batch_similarity_check`, which runs
 * batches of 50 under a cap on comparisons, and `find_similar_texts`, which
 * puts the pre-filter in front of them.
 */
module TextBatches {
  import opened Basics
  import opened TextScanner
  import opened TextSimilarity
  import opened TextGroups
  import TextFeatures
  import TextSelection

  /** `config['batch_size']`. */
  const BatchSize: int := 50

  /** `config['max_comparisons']`. */
  const MaxComparisons: int := 10000

  /** Above this many pre-filtered files only the smart selection is batched. */
  const SelectionThreshold: int := 500

  /** The most candidate pairs one batch can produce: 50 * 49 / 2. */
  const MostPairsPerBatch: int := 1225

  /**
   * What the detector reads from outside: the decoded text of a path under
   * an encoding, the word splitter, the MD5 digest, the normalised content
   * that the detailed similarity compares, and the matcher ratio.
   */
  datatype Oracles = Oracles(
    read: (string, Option<string>) -> Option<string>,
    words: string -> seq<string>,
    digest: string -> string,
    content: (string, Option<string>) -> Option<string>,
    ratio: (string, string) -> real)

  /** `_calculate_detailed_similarity` under the given oracles. */
  function SimilarityOf(o: Oracles): (TextEntry, TextEntry) -> real
  {
    (a: TextEntry, b: TextEntry) => DetailedSimilarity(a, b, o.content, o.ratio)
  }

  // ---------------------------------------------------------------------
  // Feature extraction of one batch
  // ---------------------------------------------------------------------

  /** `_preprocess_text_lazy` yields a record for f: its path is set and its text can be read. */
  predicate Readable(f: TextFileInfo, read: (string, Option<string>) -> Option<string>)
    reads f
  {
    f.path != [] && read(f.path, f.encoding).Some?
  }

  /** The paths of the readable files among the first n, in order. */
  function ReadablePaths(files: seq<TextFileInfo>, n: nat, read: (string, Option<string>) -> Option<string>): seq<string>
    requires n <= |files|
    reads files
  {
    if n == 0 then []
    else ReadablePaths(files, n - 1, read) + if Readable(files[n - 1], read) then [files[n - 1].path] else []
  }

  /** The paths of a list of records, in order. */
  function PathList(es: seq<TextEntry>): seq<string>
  {
    if es == [] then [] else PathList(es[..|es| - 1]) + [es[|es| - 1].path]
  }

  lemma PathListSnoc(es: seq<TextEntry>, e: TextEntry)
    ensures PathList(es + [e]) == PathList(es) + [e.path]
  {
    assert (es + [e])[..|es|] == es;
  }

  /**
   * `e` is the record `_preprocess_text_lazy` makes of `f`: a copy of its
   * fields with the lightweight features of its decoded text attached.
   */
  ghost predicate FeaturedFrom(f: TextFileInfo, o: Oracles, e: TextEntry)
    reads f
  {
    && Readable(f, o.read)
    && e.features.Some? && e == TextFeatures.Snapshot(f).(features := e.features)
    && TextFeatures.FeaturesOfText(o.read(f.path, f.encoding).value, o.words, o.digest, e.features.value)
  }

  /**
   * `entries` holds, in order, a featured copy of exactly the readable ones
   * among the first n files; `origin` says which file each came from.
   */
  ghost predicate Preprocessed(files: seq<TextFileInfo>, n: nat, o: Oracles,
                               entries: seq<TextEntry>, origin: seq<int>)
    requires n <= |files|
    reads files
  {
    && |origin| == |entries|
    && Picked(files, n, o.read, origin)
    && Featured(files, o, entries, origin)
  }

  /** `origin` lists, in increasing order, exactly the readable ones among the first n files. */
  ghost predicate Picked(files: seq<TextFileInfo>, n: nat, read: (string, Option<string>) -> Option<string>, origin: seq<int>)
    requires n <= |files|
    reads files
  {
    && (forall k :: 0 <= k < |origin| ==> 0 <= origin[k] < n)
    && (forall k, l :: 0 <= k < l < |origin| ==> origin[k] < origin[l])
    && (forall i :: 0 <= i < n ==> (i in origin <==> Readable(files[i], read)))
  }

  lemma PickedKeep(files: seq<TextFileInfo>, i: nat, read: (string, Option<string>) -> Option<string>, origin: seq<int>)
    requires i < |files| && Picked(files, i, read, origin) && Readable(files[i], read)
    ensures Picked(files, i + 1, read, origin + [i])
  {
    var origin' := origin + [i];
    forall i' | 0 <= i' < i + 1 ensures i' in origin' <==> Readable(files[i'], read) {
      if i' < i {
        assert i' in origin' <==> i' in origin;
      }
    }
  }

  /** Each record in `entries` is featured from the file `origin` names for it. */
  ghost predicate Featured(files: seq<TextFileInfo>, o: Oracles, entries: seq<TextEntry>, origin: seq<int>)
    reads files
  {
    && (forall k :: 0 <= k < |origin| ==> 0 <= origin[k] < |files|)
    && forall k {:trigger FeaturedFrom(files[origin[k]], o, entries[k])} ::
      0 <= k < |origin| && k < |entries| && 0 <= origin[k] < |files| ==> FeaturedFrom(files[origin[k]], o, entries[k])
  }

  lemma FeaturedSnoc(files: seq<TextFileInfo>, o: Oracles, entries: seq<TextEntry>, origin: seq<int>,
                     i: nat, e: TextEntry)
    requires |origin| == |entries| && Featured(files, o, entries, origin)
    requires i < |files| && FeaturedFrom(files[i], o, e)
    ensures Featured(files, o, entries + [e], origin + [i])
  {
    var origin', entries' := origin + [i], entries + [e];
    forall k | 0 <= k < |origin'|
      ensures 0 <= origin'[k] < |files|
    {
      if k < |origin| {
        assert origin'[k] == origin[k];
      }
    }
    forall k | 0 <= k < |origin'| && k < |entries'| && 0 <= origin'[k] < |files|
      ensures FeaturedFrom(files[origin'[k]], o, entries'[k])
    {
      if k < |origin| {
        assert entries'[k] == entries[k] && origin'[k] == origin[k];
        assert FeaturedFrom(files[origin[k]], o, entries[k]);
      } else {
        assert entries'[k] == e && origin'[k] == i;
      }
    }
  }

  lemma PreprocessedKeep(files: seq<TextFileInfo>, i: nat, o: Oracles,
                         entries: seq<TextEntry>, origin: seq<int>, e: TextEntry)
    requires i < |files| && Preprocessed(files, i, o, entries, origin)
    requires Readable(files[i], o.read) && Featured(files, o, entries + [e], origin + [i])
    ensures Preprocessed(files, i + 1, o, entries + [e], origin + [i])
  {
    PickedKeep(files, i, o.read, origin);
  }

  lemma PreprocessedSkip(files: seq<TextFileInfo>, i: nat, o: Oracles,
                         entries: seq<TextEntry>, origin: seq<int>)
    requires i < |files| && Preprocessed(files, i, o, entries, origin)
    requires !Readable(files[i], o.read)
    ensures Preprocessed(files, i + 1, o, entries, origin)
  {
  }

  /** The feature loop of `_fast_pre_screening`: keep each record `_preprocess_text_lazy` returns. */
  method PreprocessBatch(files: seq<TextFileInfo>, o: Oracles) returns (entries: seq<TextEntry>, ghost origin: seq<int>)
    ensures PathList(entries) == ReadablePaths(files, |files|, o.read)
    ensures Preprocessed(files, |files|, o, entries, origin)
  {
    entries, origin := [], [];
    for i := 0 to |files|
      invariant PathList(entries) == ReadablePaths(files, i, o.read)
      invariant Preprocessed(files, i, o, entries, origin)
    {
      entries, origin := PreprocessOne(files, o, i, entries, origin);
    }
  }

  /** One turn of the feature loop: the record for `files[i]`, kept when `_preprocess_text_lazy` returns one. */
  method PreprocessOne(files: seq<TextFileInfo>, o: Oracles, i: nat, entries: seq<TextEntry>, ghost origin: seq<int>)
    returns (entries': seq<TextEntry>, ghost origin': seq<int>)
    requires i < |files| && Preprocessed(files, i, o, entries, origin)
    requires PathList(entries) == ReadablePaths(files, i, o.read)
    ensures PathList(entries') == ReadablePaths(files, i + 1, o.read)
    ensures Preprocessed(files, i + 1, o, entries', origin')
  {
    var features, _, _ := TextFeatures.PreprocessTextLazy(files[i], o.read, o.words, o.digest);
    if features.Some? {
      assert PathList(entries + [features.value]) == ReadablePaths(files, i + 1, o.read) by {
        PathListSnoc(entries, features.value);
      }
      FeaturedSnoc(files, o, entries, origin, i, features.value);
      PreprocessedKeep(files, i, o, entries, origin, features.value);
      entries', origin' := entries + [features.value], origin + [i];
    } else {
      PreprocessedSkip(files, i, o, entries, origin);
      entries', origin' := entries, origin;
    }
  }

  /** Every copy keeps its file's path and size. */
  lemma PreprocessedFields(files: seq<TextFileInfo>, o: Oracles,
                           entries: seq<TextEntry>, origin: seq<int>, k: int)
    requires Preprocessed(files, |files|, o, entries, origin) && 0 <= k < |entries|
    ensures entries[k].path == files[origin[k]].path && entries[k].size == files[origin[k]].size
    ensures |entries| <= |files|
  {
    assert FeaturedFrom(files[origin[k]], o, entries[k]);
    var s := TextFeatures.Snapshot(files[origin[k]]);
    assert entries[k] == s.(features := entries[k].features);
    Increasing(origin, |files|);
  }

  /** A strictly increasing sequence of indices below n has at most n elements. */
  lemma {:induction false} Increasing(origin: seq<int>, n: nat)
    requires forall k :: 0 <= k < |origin| ==> 0 <= origin[k] < n
    requires forall k, l :: 0 <= k < l < |origin| ==> origin[k] < origin[l]
    ensures |origin| <= n
  {
    if origin != [] {
      var m := |origin| - 1;
      assert 0 <= origin[m] < n;
      Increasing(origin[..m], origin[m]);
      assert |origin[..m]| == m;
    }
  }

  // ---------------------------------------------------------------------
  // Candidate pairs of one batch
  // ---------------------------------------------------------------------

  /**
   * The quick check, `_quick_similarity_check`: Some(accepts) or None when
   * it raises. The pair layer below takes it as a parameter; the batches
   * pass `QuickSimilarityCheck`.
   */
  type QuickCheck = (TextEntry, TextEntry) -> Option<bool>

  /** The pair (i, j) when the quick check accepts it. */
  function Candidate(es: seq<TextEntry>, i: int, j: int, quick: QuickCheck): seq<(TextEntry, TextEntry)>
    requires 0 <= i < |es| && 0 <= j < |es|
  {
    if quick(es[i], es[j]) == Some(true) then [(es[i], es[j])] else []
  }

  /** The accepted pairs (i, j) with i < j < bound. */
  function Row(es: seq<TextEntry>, i: int, bound: int, quick: QuickCheck): (r: seq<(TextEntry, TextEntry)>)
    requires 0 <= i < bound <= |es|
    ensures |r| <= bound - i - 1
    decreases bound
  {
    if bound == i + 1 then [] else Row(es, i, bound - 1, quick) + Candidate(es, i, bound - 1, quick)
  }

  /** The accepted pairs of the first n rows. */
  function Upper(es: seq<TextEntry>, n: int, quick: QuickCheck): seq<(TextEntry, TextEntry)>
    requires 0 <= n <= |es|
  {
    if n == 0 then [] else Upper(es, n - 1, quick) + Row(es, n - 1, |es|, quick)
  }

  /** `candidate_pairs`: every accepted pair, row by row. */
  function Candidates(es: seq<TextEntry>, quick: QuickCheck): seq<(TextEntry, TextEntry)>
  {
    Upper(es, |es|, quick)
  }

  /** The quick check does not raise on any pair (i, j) with i < j. */
  ghost predicate Defined(es: seq<TextEntry>, quick: QuickCheck)
  {
    forall i, j :: 0 <= i < j < |es| ==> quick(es[i], es[j]).Some?
  }

  /** The quick check did not raise on the first n rows. */
  ghost predicate DefinedUpto(es: seq<TextEntry>, n: int, quick: QuickCheck)
  {
    forall i, j :: 0 <= i < n && i < j < |es| ==> quick(es[i], es[j]).Some?
  }

  /** The quick check did not raise on the pairs (i, j') with i < j' < j. */
  ghost predicate RowDefined(es: seq<TextEntry>, i: int, j: int, quick: QuickCheck)
  {
    forall j' :: i < j' < j && 0 <= i < |es| && j' < |es| ==> quick(es[i], es[j']).Some?
  }

  lemma DefinedUptoStep(es: seq<TextEntry>, i: int, quick: QuickCheck)
    requires 0 <= i < |es| && DefinedUpto(es, i, quick) && RowDefined(es, i, |es|, quick)
    ensures DefinedUpto(es, i + 1, quick)
  {
  }

  lemma AppendEmpty<T>(a: seq<T>, b: seq<T>)
    requires b == []
    ensures a + b == a
  {
  }

  /**
   * The inner comparison loop of `_fast_pre_screening` for row i: the pairs
   * (i, j) with i < j in order; a pair the quick check raises on ends the
   * screening (None), an accepted pair is listed.
   */
  method ScreenRow(es: seq<TextEntry>, i: int, quick: QuickCheck) returns (row: Option<seq<(TextEntry, TextEntry)>>)
    requires 0 <= i < |es|
    ensures row.None? <==> !RowDefined(es, i, |es|, quick)
    ensures row.Some? ==> row.value == Row(es, i, |es|, quick)
  {
    var found := [];
    for j := i + 1 to |es|
      invariant found == Row(es, i, j, quick)
      invariant RowDefined(es, i, j, quick)
    {
      var accepted := quick(es[i], es[j]);
      if accepted.None? {
        return None;
      }
      if accepted.value {
        found := found + [(es[i], es[j])];
      }
    }
    return Some(found);
  }

  /**
   * The comparison loop of `_fast_pre_screening`: every pair (i, j) with
   * i < j in row order; a pair the quick check raises on ends the screening
   * (None), an accepted pair is listed.
   */
  method ScreenPairs(es: seq<TextEntry>, quick: QuickCheck) returns (pairs: Option<seq<(TextEntry, TextEntry)>>)
    ensures pairs.None? <==> !Defined(es, quick)
    ensures pairs.Some? ==> pairs.value == Candidates(es, quick)
  {
    var found := [];
    for i := 0 to |es|
      invariant found == Upper(es, i, quick)
      invariant DefinedUpto(es, i, quick)
    {
      var row := ScreenRow(es, i, quick);
      if row.None? {
        return None;
      }
      found := found + row.value;
      DefinedUptoStep(es, i, quick);
    }
    return Some(found);
  }

  /** `_fast_pre_screening`. None stands for the exception the quick check raises on a pair. */
  method FastPreScreening(files: seq<TextFileInfo>, o: Oracles)
    returns (pairs: Option<seq<(TextEntry, TextEntry)>>, ghost entries: seq<TextEntry>, ghost origin: seq<int>)
    ensures PathList(entries) == ReadablePaths(files, |files|, o.read)
    ensures Preprocessed(files, |files|, o, entries, origin)
    ensures pairs.None? <==> !Defined(entries, QuickSimilarityCheck)
    ensures pairs.Some? ==> pairs.value == Candidates(entries, QuickSimilarityCheck)
    ensures pairs.Some? ==> PairPaths(pairs.value) <= FilePaths(files)
  {
    var filesWithFeatures;
    filesWithFeatures, origin := PreprocessBatch(files, o);
    pairs := ScreenPairs(filesWithFeatures, QuickSimilarityCheck);
    entries := filesWithFeatures;
    assert pairs.Some? ==> PairPaths(pairs.value) <= FilePaths(files) by {
      CandidatePaths(entries, QuickSimilarityCheck);
      EntryPaths(files, o, entries, origin);
    }
  }

  lemma {:induction false} RowMembers(es: seq<TextEntry>, i: int, bound: int, quick: QuickCheck, p: (TextEntry, TextEntry))
    requires 0 <= i < bound <= |es|
    ensures p in Row(es, i, bound, quick) <==>
      exists j :: i < j < bound && p == (es[i], es[j]) && quick(es[i], es[j]) == Some(true)
  {
    if bound > i + 1 {
      var k := bound - 1;
      RowMembers(es, i, k, quick, p);
      assert Row(es, i, bound, quick) == Row(es, i, k, quick) + Candidate(es, i, k, quick);
      if p in Candidate(es, i, k, quick) {
        assert i < k < bound && p == (es[i], es[k]) && quick(es[i], es[k]) == Some(true);
      }
    }
  }

  /** Every pair among the first n rows is (es[i], es[j]) for some i < n, i < j, on which the quick check answers true. */
  lemma {:induction false} UpperSound(es: seq<TextEntry>, n: int, quick: QuickCheck, p: (TextEntry, TextEntry))
    returns (i: int, j: int)
    requires 0 <= n <= |es| && p in Upper(es, n, quick)
    ensures 0 <= i < n && i < j < |es| && p == (es[i], es[j]) && quick(es[i], es[j]) == Some(true)
  {
    var earlier := UpperSplit(es, n, quick, p);
    if earlier {
      i, j := UpperSound(es, n - 1, quick, p);
    } else {
      i := n - 1;
      j := RowSound(es, n - 1, |es|, quick, p);
    }
  }

  /** A pair among the first n rows lies among the first n - 1 rows or in row n - 1. */
  lemma UpperSplit(es: seq<TextEntry>, n: int, quick: QuickCheck, p: (TextEntry, TextEntry)) returns (earlier: bool)
    requires 0 <= n <= |es| && p in Upper(es, n, quick)
    ensures 0 < n
    ensures earlier ==> p in Upper(es, n - 1, quick)
    ensures !earlier ==> p in Row(es, n - 1, |es|, quick)
  {
    earlier := p in Upper(es, n - 1, quick);
  }

  /** Every pair of row i below bound is (es[i], es[j]) for some i < j < bound on which the quick check answers true. */
  lemma {:induction false} RowSound(es: seq<TextEntry>, i: int, bound: int, quick: QuickCheck, p: (TextEntry, TextEntry))
    returns (j: int)
    requires 0 <= i < bound <= |es| && p in Row(es, i, bound, quick)
    ensures i < j < bound && p == (es[i], es[j]) && quick(es[i], es[j]) == Some(true)
  {
    var k := bound - 1;
    if p in Row(es, i, k, quick) {
      j := RowSound(es, i, k, quick, p);
    } else {
      j := k;
    }
  }

  lemma {:induction false} UpperComplete(es: seq<TextEntry>, n: int, quick: QuickCheck, i: int, j: int)
    requires 0 <= i < n <= |es| && i < j < |es| && quick(es[i], es[j]) == Some(true)
    ensures (es[i], es[j]) in Upper(es, n, quick)
  {
    if i == n - 1 {
      RowComplete(es, i, |es|, quick, j);
      UpperGrows(es, n, quick, (es[i], es[j]));
    } else {
      UpperComplete(es, n - 1, quick, i, j);
      UpperGrows(es, n, quick, (es[i], es[j]));
    }
  }

  /** Row n - 1 and the rows before it are among the first n rows. */
  lemma UpperGrows(es: seq<TextEntry>, n: int, quick: QuickCheck, p: (TextEntry, TextEntry))
    requires 0 < n <= |es|
    ensures p in Upper(es, n - 1, quick) ==> p in Upper(es, n, quick)
    ensures p in Row(es, n - 1, |es|, quick) ==> p in Upper(es, n, quick)
  {
  }

  /** An accepted pair (i, j) with i < j < bound is in row i below bound. */
  lemma {:induction false} RowComplete(es: seq<TextEntry>, i: int, bound: int, quick: QuickCheck, j: int)
    requires 0 <= i < j < bound <= |es| && quick(es[i], es[j]) == Some(true)
    ensures (es[i], es[j]) in Row(es, i, bound, quick)
  {
    if j < bound - 1 {
      RowComplete(es, i, bound - 1, quick, j);
    }
  }

  /**
   * A pair is a candidate exactly when it is (es[i], es[j]) for some i < j
   * on which the quick check answers true.
   */
  lemma CandidatesMembers(es: seq<TextEntry>, quick: QuickCheck, p: (TextEntry, TextEntry))
    ensures p in Candidates(es, quick) <==>
      exists i, j :: 0 <= i < j < |es| && p == (es[i], es[j]) && quick(es[i], es[j]) == Some(true)
  {
    if p in Candidates(es, quick) {
      var i, j := UpperSound(es, |es|, quick, p);
    }
    if exists i, j :: 0 <= i < j < |es| && p == (es[i], es[j]) && quick(es[i], es[j]) == Some(true) {
      var i, j :| 0 <= i < j < |es| && p == (es[i], es[j]) && quick(es[i], es[j]) == Some(true);
      UpperComplete(es, |es|, quick, i, j);
    }
  }

  lemma {:induction false} UpperCount(es: seq<TextEntry>, n: int, quick: QuickCheck)
    requires 0 <= n <= |es|
    ensures 2 * |Upper(es, n, quick)| <= n * (2 * |es| - n - 1)
  {
    if n > 0 {
      UpperCount(es, n - 1, quick);
      assert (n - 1) * (2 * |es| - n) + 2 * (|es| - n) == n * (2 * |es| - n - 1);
    }
  }

  /** A batch of n records yields at most n(n-1)/2 candidate pairs, 1225 for a batch of 50. */
  lemma CandidatesCount(es: seq<TextEntry>, quick: QuickCheck)
    ensures 2 * |Candidates(es, quick)| <= |es| * (|es| - 1)
    ensures |es| <= BatchSize ==> |Candidates(es, quick)| <= MostPairsPerBatch
  {
    UpperCount(es, |es|, quick);
    if |es| <= BatchSize {
      PairBound(|es|, |Candidates(es, quick)|);
    }
  }

  lemma PairBound(n: int, c: int)
    requires 0 <= n <= BatchSize && 2 * c <= n * (n - 1)
    ensures c <= MostPairsPerBatch
  {
    if n > 0 {
      assert (50 - n) * (n - 1) >= 0;
    }
  }

  /** Records that all have a positive size never make the quick check raise. */
  lemma PositiveDefined(es: seq<TextEntry>)
    requires forall k :: 0 <= k < |es| ==> es[k].size > 0
    ensures Defined(es, QuickSimilarityCheck)
  {
    forall i, j | 0 <= i < j < |es| ensures QuickSimilarityCheck(es[i], es[j]).Some? {
      QuickCheckDefined(es[i], es[j]);
    }
  }

  // ---------------------------------------------------------------------
  // Batches
  // ---------------------------------------------------------------------

  /** The b-th batch `files[b*50 : b*50 + 50]`. */
  function Batch(files: seq<TextFileInfo>, b: nat): (batch: seq<TextFileInfo>)
    ensures |batch| <= BatchSize
  {
    files[Min(50 * b, |files|)..Min(50 * b + 50, |files|)]
  }

  function FilePaths(files: seq<TextFileInfo>): set<string>
  {
    set f | f in files :: f.path
  }

  ghost predicate DistinctFilePaths(files: seq<TextFileInfo>)
  {
    forall i, j :: 0 <= i < j < |files| ==> files[i].path != files[j].path
  }

  /**
   * What a similar group carries: two or more records with distinct paths,
   * the first marked 100.0, every later one marked with a similarity at or
   * above the threshold, all as "similar".
   */
  ghost predicate Marked(g: seq<TextEntry>, threshold: real)
  {
    && |g| >= 2 && DistinctPaths(g)
    && g[0].similarity == Some(100.0) && g[0].matchType == Some("similar")
    && (forall r :: 1 <= r < |g| ==>
          g[r].similarity.Some? && g[r].similarity.value >= threshold && g[r].matchType == Some("similar"))
  }

  /** Both paths of every pair whose similarity reaches the threshold, with two different paths, are grouped. */
  ghost predicate Covered(pairs: seq<(TextEntry, TextEntry)>, similarity: (TextEntry, TextEntry) -> real,
                          threshold: real, groups: seq<seq<TextEntry>>)
  {
    forall k :: 0 <= k < |pairs| && similarity(pairs[k].0, pairs[k].1) >= threshold && pairs[k].0.path != pairs[k].1.path ==>
      pairs[k].0.path in GroupPaths(groups) && pairs[k].1.path in GroupPaths(groups)
  }

  /** Every path of a candidate pair is the path of a record of the batch. */
  lemma CandidatePaths(es: seq<TextEntry>, quick: QuickCheck)
    ensures PairPaths(Candidates(es, quick)) <= PathSet(es)
  {
    var cs := Candidates(es, quick);
    forall x | x in PairPaths(cs) ensures x in PathSet(es) {
      var j, e :| 0 <= j < |cs| && e in {cs[j].0, cs[j].1} && e.path == x;
      CandidatesMembers(es, quick, cs[j]);
      var a, b :| 0 <= a < b < |es| && cs[j] == (es[a], es[b]) && quick(es[a], es[b]) == Some(true);
      assert e == es[a] || e == es[b];
    }
  }

  /** The records of a batch carry paths of the batch's files. */
  lemma EntryPaths(files: seq<TextFileInfo>, o: Oracles,
                   entries: seq<TextEntry>, origin: seq<int>)
    requires Preprocessed(files, |files|, o, entries, origin)
    ensures PathSet(entries) <= FilePaths(files)
  {
    forall k | 0 <= k < |entries| ensures entries[k].path in FilePaths(files) {
      PreprocessedFields(files, o, entries, origin, k);
      assert files[origin[k]] in files;
    }
    PathsWithin(files, entries);
  }

  lemma PathsWithin(files: seq<TextFileInfo>, entries: seq<TextEntry>)
    requires forall k :: 0 <= k < |entries| ==> entries[k].path in FilePaths(files)
    ensures PathSet(entries) <= FilePaths(files)
  {
    forall x | x in PathSet(entries) ensures x in FilePaths(files) {
      var e :| e in entries && e.path == x;
      var k :| 0 <= k < |entries| && entries[k] == e;
    }
  }

  /**
   * The body of the `try` of `_batch_similarity_check` for one batch: the
   * pre-screening, and the detailed check when it listed candidate pairs.
   * `raised` stands for the exception the pre-screening raises, which skips
   * the batch.
   */
  method RunBatch(batch: seq<TextFileInfo>, o: Oracles, threshold: real)
    returns (raised: bool, pairs: seq<(TextEntry, TextEntry)>, batchGroups: seq<seq<TextEntry>>,
             ghost entries: seq<TextEntry>)
    ensures ExtractedFrom(batch, o, entries) && |entries| <= |batch|
    ensures raised <==> !Defined(entries, QuickSimilarityCheck)
    ensures pairs == if raised then [] else Candidates(entries, QuickSimilarityCheck)
    ensures raised ==> batchGroups == []
    ensures forall g :: g in batchGroups ==> Marked(g, threshold)
    ensures Separate(batchGroups)
    ensures GroupPaths(batchGroups) <= FilePaths(batch)
    ensures Covered(pairs, SimilarityOf(o), threshold, batchGroups)
  {
    var candidatePairs;
    ghost var origin;
    candidatePairs, entries, origin := FastPreScreening(batch, o);
    ExtractedOf(batch, o, entries, origin);
    if candidatePairs.None? {
      return true, [], [], entries;
    }
    raised, pairs := false, candidatePairs.value;
    batchGroups := GroupPairs(pairs, o, threshold);
  }

  /** The detailed check of one batch, run only when the pre-screening listed candidate pairs. */
  method GroupPairs(pairs: seq<(TextEntry, TextEntry)>, o: Oracles, threshold: real) returns (batchGroups: seq<seq<TextEntry>>)
    ensures pairs == [] ==> batchGroups == []
    ensures forall g :: g in batchGroups ==> Marked(g, threshold)
    ensures Separate(batchGroups)
    ensures GroupPaths(batchGroups) <= PairPaths(pairs)
    ensures Covered(pairs, SimilarityOf(o), threshold, batchGroups)
  {
    if pairs == [] {
      return [];
    }
    batchGroups := DetailedSimilarityCheck(pairs, SimilarityOf(o), threshold);
  }

  lemma GroupPathsAppend(a: seq<seq<TextEntry>>, b: seq<seq<TextEntry>>)
    ensures GroupPaths(a + b) == GroupPaths(a) + GroupPaths(b)
  {
    forall x | x in GroupPaths(a + b) ensures x in GroupPaths(a) + GroupPaths(b) {
      var g, e :| g in a + b && e in g && e.path == x;
    }
  }

  lemma PathSetWithin(groups: seq<seq<TextEntry>>, k: int)
    requires 0 <= k < |groups|
    ensures PathSet(groups[k]) <= GroupPaths(groups)
  {
  }

  /** Separate groups with disjoint path sets stay separate when concatenated. */
  lemma SeparateAppend(a: seq<seq<TextEntry>>, b: seq<seq<TextEntry>>)
    requires Separate(a) && Separate(b) && GroupPaths(a) !! GroupPaths(b)
    ensures Separate(a + b)
  {
    forall i, j | 0 <= i < j < |a + b| ensures PathSet((a + b)[i]) !! PathSet((a + b)[j]) {
      if j < |a| {
        assert (a + b)[i] == a[i] && (a + b)[j] == a[j];
      } else if i >= |a| {
        assert (a + b)[i] == b[i - |a|] && (a + b)[j] == b[j - |a|];
      } else {
        PathSetWithin(a, i);
        PathSetWithin(b, j - |a|);
        assert (a + b)[i] == a[i] && (a + b)[j] == b[j - |a|];
      }
    }
  }

  lemma CoveredGrows(pairs: seq<(TextEntry, TextEntry)>, similarity: (TextEntry, TextEntry) -> real,
                     threshold: real, a: seq<seq<TextEntry>>, b: seq<seq<TextEntry>>)
    requires Covered(pairs, similarity, threshold, a) || Covered(pairs, similarity, threshold, b)
    ensures Covered(pairs, similarity, threshold, a + b)
  {
    GroupPathsAppend(a, b);
  }

  /** Consecutive slices of a list with distinct paths have disjoint path sets. */
  lemma SlicePaths(files: seq<TextFileInfo>, start: int, end: int)
    requires 0 <= start <= end <= |files|
    ensures FilePaths(files[..end]) == FilePaths(files[..start]) + FilePaths(files[start..end])
    ensures DistinctFilePaths(files) ==> FilePaths(files[..start]) !! FilePaths(files[start..end])
  {
    assert files[..end] == files[..start] + files[start..end];
    if DistinctFilePaths(files) {
      forall x | x in FilePaths(files[..start]) ensures x !in FilePaths(files[start..end]) {
        var i :| 0 <= i < start && files[i].path == x;
        forall j | start <= j < end ensures files[j].path != x {
        }
      }
    }
  }

  /** `entries` are the featured records `_preprocess_text_lazy` makes of `batch`. */
  ghost predicate ExtractedFrom(batch: seq<TextFileInfo>, o: Oracles,
                                entries: seq<TextEntry>)
    reads batch
  {
    exists origin :: Preprocessed(batch, |batch|, o, entries, origin)
  }

  lemma ExtractedOf(batch: seq<TextFileInfo>, o: Oracles, entries: seq<TextEntry>, origin: seq<int>)
    requires Preprocessed(batch, |batch|, o, entries, origin)
    ensures ExtractedFrom(batch, o, entries) && |entries| <= |batch|
  {
    Increasing(origin, |batch|);
  }

  /**
   * Each of the batches screened so far had its files' records extracted,
   * and when its screening did not raise, both paths of each of its
   * candidate pairs that reaches the threshold are grouped.
   */
  ghost predicate Screened(files: seq<TextFileInfo>, o: Oracles, threshold: real,
                           batchEntries: seq<seq<TextEntry>>, groups: seq<seq<TextEntry>>)
    reads files
  {
    forall b :: 0 <= b < |batchEntries| ==>
      && ExtractedFrom(Batch(files, b), o, batchEntries[b])
      && (Defined(batchEntries[b], QuickSimilarityCheck) ==>
            Covered(Candidates(batchEntries[b], QuickSimilarityCheck), SimilarityOf(o), threshold, groups))
  }

  lemma ScreenedStep(files: seq<TextFileInfo>, o: Oracles, threshold: real,
                     batchEntries: seq<seq<TextEntry>>, groups: seq<seq<TextEntry>>,
                     entries: seq<TextEntry>, batchGroups: seq<seq<TextEntry>>)
    requires Screened(files, o, threshold, batchEntries, groups)
    requires ExtractedFrom(Batch(files, |batchEntries|), o, entries)
    requires Defined(entries, QuickSimilarityCheck) ==>
               Covered(Candidates(entries, QuickSimilarityCheck), SimilarityOf(o), threshold, batchGroups)
    ensures Screened(files, o, threshold, batchEntries + [entries], groups + batchGroups)
  {
    var all := batchEntries + [entries];
    forall b | 0 <= b < |all|
      ensures ExtractedFrom(Batch(files, b), o, all[b])
      ensures Defined(all[b], QuickSimilarityCheck) ==>
                Covered(Candidates(all[b], QuickSimilarityCheck), SimilarityOf(o), threshold, groups + batchGroups)
    {
      if b < |batchEntries| {
        assert all[b] == batchEntries[b];
        assert ExtractedFrom(Batch(files, b), o, batchEntries[b]);
        if Defined(all[b], QuickSimilarityCheck) {
          CoveredGrows(Candidates(all[b], QuickSimilarityCheck), SimilarityOf(o), threshold, groups, batchGroups);
        }
      } else {
        assert b == |batchEntries| && all[b] == entries;
        if Defined(entries, QuickSimilarityCheck) {
          CoveredGrows(Candidates(entries, QuickSimilarityCheck), SimilarityOf(o), threshold, groups, batchGroups);
        }
      }
    }
  }

  /** Appending the groups of the batch files[start..end] keeps the facts about the groups so far. */
  lemma GroupsStep(files: seq<TextFileInfo>, start: int, end: int, threshold: real,
                   groups: seq<seq<TextEntry>>, batchGroups: seq<seq<TextEntry>>)
    requires 0 <= start <= end <= |files|
    requires forall g :: g in groups ==> Marked(g, threshold)
    requires GroupPaths(groups) <= FilePaths(files[..start])
    requires DistinctFilePaths(files) ==> Separate(groups)
    requires forall g :: g in batchGroups ==> Marked(g, threshold)
    requires Separate(batchGroups)
    requires GroupPaths(batchGroups) <= FilePaths(files[start..end])
    ensures forall g :: g in groups + batchGroups ==> Marked(g, threshold)
    ensures GroupPaths(groups + batchGroups) <= FilePaths(files[..end])
    ensures DistinctFilePaths(files) ==> Separate(groups + batchGroups)
  {
    SlicePaths(files, start, end);
    GroupPathsAppend(groups, batchGroups);
    if DistinctFilePaths(files) {
      SeparateAppend(groups, batchGroups);
    }
  }

  /** The files `_batch_similarity_check` puts into batches. */
  function Batched(filtered: seq<TextFileInfo>): seq<TextFileInfo>
  {
    if |filtered| > SelectionThreshold then TextSelection.Selection(filtered) else filtered
  }

  /**
   * `_batch_similarity_check`: above 500 files only the smart selection is
   * batched; batches of 50 are screened in order until the comparisons
   * counted so far exceed 10000; a batch whose screening raises is skipped.
   * Every returned group is marked, its paths are paths of batched files,
   * the groups are separate when the batched files have distinct paths, and
   * both paths of every screened pair whose similarity reaches the threshold
   * are grouped. The batches stop early only past the comparison cap, and
   * the count stays below the cap plus one batch's worth of pairs.
   * `batchEntries` holds the featured records of each batch screened.
   */
  method BatchSimilarityCheck(filtered: seq<TextFileInfo>, o: Oracles, threshold: real)
    returns (groups: seq<seq<TextEntry>>, comparisons: int, ghost batchEntries: seq<seq<TextEntry>>)
    ensures forall g :: g in groups ==> Marked(g, threshold)
    ensures GroupPaths(groups) <= FilePaths(Batched(filtered))
    ensures DistinctFilePaths(Batched(filtered)) ==> Separate(groups)
    ensures Screened(Batched(filtered), o, threshold, batchEntries, groups)
    ensures 50 * |batchEntries| >= |Batched(filtered)| || comparisons > MaxComparisons
    ensures 0 <= comparisons <= MaxComparisons + MostPairsPerBatch
    ensures comparisons <= MostPairsPerBatch * |batchEntries|
  {
    var files := filtered;
    if |files| > SelectionThreshold {
      files := TextSelection.SmartFileSelection(files);
    }
    groups, comparisons, batchEntries := ScreenBatches(files, o, threshold);
  }

  /** The state of the batch loop after the batches before `start`. */
  ghost predicate Progress(files: seq<TextFileInfo>, o: Oracles, threshold: real, start: int,
                           groups: seq<seq<TextEntry>>, comparisons: int, batchEntries: seq<seq<TextEntry>>)
    reads files
  {
    && start == Min(50 * |batchEntries|, |files|)
    && 0 <= comparisons <= MaxComparisons + MostPairsPerBatch
    && comparisons <= MostPairsPerBatch * |batchEntries|
    && (forall g :: g in groups ==> Marked(g, threshold))
    && GroupPaths(groups) <= FilePaths(files[..start])
    && (DistinctFilePaths(files) ==> Separate(groups))
    && Screened(files, o, threshold, batchEntries, groups)
  }

  /**
   * One more batch, screened after the cap check passed, keeps the loop
   * state; a batch whose screening raised adds no pair and no group.
   */
  lemma ProgressStep(files: seq<TextFileInfo>, o: Oracles, threshold: real, start: int,
                     groups: seq<seq<TextEntry>>, comparisons: int, batchEntries: seq<seq<TextEntry>>,
                     pairs: seq<(TextEntry, TextEntry)>, batchGroups: seq<seq<TextEntry>>,
                     entries: seq<TextEntry>)
    requires Progress(files, o, threshold, start, groups, comparisons, batchEntries)
    requires start < |files| && comparisons <= MaxComparisons
    requires ExtractedFrom(files[start..Min(start + BatchSize, |files|)], o, entries)
    requires |entries| <= BatchSize
    requires pairs == if Defined(entries, QuickSimilarityCheck) then Candidates(entries, QuickSimilarityCheck) else []
    requires forall g :: g in batchGroups ==> Marked(g, threshold)
    requires Separate(batchGroups)
    requires GroupPaths(batchGroups) <= FilePaths(files[start..Min(start + BatchSize, |files|)])
    requires Covered(pairs, SimilarityOf(o), threshold, batchGroups)
    ensures Progress(files, o, threshold, Min(start + BatchSize, |files|),
                     groups + batchGroups, comparisons + |pairs|, batchEntries + [entries])
  {
    var end := Min(start + BatchSize, |files|);
    var groups' := groups + batchGroups;
    assert end == Min(50 * (|batchEntries| + 1), |files|);
    assert |pairs| <= MostPairsPerBatch by {
      CandidatesCount(entries, QuickSimilarityCheck);
    }
    assert comparisons + |pairs| <= MostPairsPerBatch * |batchEntries + [entries]|;
    assert && (forall g :: g in groups' ==> Marked(g, threshold))
           && GroupPaths(groups') <= FilePaths(files[..end])
           && (DistinctFilePaths(files) ==> Separate(groups')) by {
      GroupsStep(files, start, end, threshold, groups, batchGroups);
    }
    assert Screened(files, o, threshold, batchEntries + [entries], groups') by {
      BatchScreened(files, o, threshold, start, batchEntries, groups, entries, batchGroups);
    }
  }

  /** The batch starting at `start` is the next batch, so screening it extends the screened batches. */
  lemma BatchScreened(files: seq<TextFileInfo>, o: Oracles, threshold: real, start: int,
                      batchEntries: seq<seq<TextEntry>>, groups: seq<seq<TextEntry>>,
                      entries: seq<TextEntry>, batchGroups: seq<seq<TextEntry>>)
    requires start == Min(50 * |batchEntries|, |files|) && start < |files|
    requires Screened(files, o, threshold, batchEntries, groups)
    requires ExtractedFrom(files[start..Min(start + BatchSize, |files|)], o, entries)
    requires Defined(entries, QuickSimilarityCheck) ==>
               Covered(Candidates(entries, QuickSimilarityCheck), SimilarityOf(o), threshold, batchGroups)
    ensures Screened(files, o, threshold, batchEntries + [entries], groups + batchGroups)
  {
    BatchAt(files, |batchEntries|, start);
    ScreenedStep(files, o, threshold, batchEntries, groups, entries, batchGroups);
  }

  /** The b-th batch, when it is not past the end, starts at 50 * b. */
  lemma BatchAt(files: seq<TextFileInfo>, b: nat, start: int)
    requires start == Min(50 * b, |files|) && start < |files|
    ensures Batch(files, b) == files[start..Min(start + BatchSize, |files|)]
  {
    assert start == 50 * b;
  }

  /** The batch loop of `_batch_similarity_check` over the files it batches. */
  method ScreenBatches(files: seq<TextFileInfo>, o: Oracles, threshold: real)
    returns (groups: seq<seq<TextEntry>>, comparisons: int, ghost batchEntries: seq<seq<TextEntry>>)
    ensures forall g :: g in groups ==> Marked(g, threshold)
    ensures GroupPaths(groups) <= FilePaths(files)
    ensures DistinctFilePaths(files) ==> Separate(groups)
    ensures Screened(files, o, threshold, batchEntries, groups)
    ensures 50 * |batchEntries| >= |files| || comparisons > MaxComparisons
    ensures 0 <= comparisons <= MaxComparisons + MostPairsPerBatch
    ensures comparisons <= MostPairsPerBatch * |batchEntries|
  {
    groups, comparisons, batchEntries := [], 0, [];
    var start := 0;
    while start < |files|
      invariant Progress(files, o, threshold, start, groups, comparisons, batchEntries)
    {
      if comparisons > MaxComparisons {
        break;
      }
      start, groups, comparisons, batchEntries := ScreenOne(files, o, threshold, start, groups, comparisons, batchEntries);
    }
    assert files[..|files|] == files;
  }

  /** One pass of the batch loop: the batch from `start` is screened and its groups kept unless it raised. */
  method ScreenOne(files: seq<TextFileInfo>, o: Oracles, threshold: real, start: int,
                   groups: seq<seq<TextEntry>>, comparisons: int, ghost batchEntries: seq<seq<TextEntry>>)
    returns (end: int, groups': seq<seq<TextEntry>>, comparisons': int, ghost batchEntries': seq<seq<TextEntry>>)
    requires Progress(files, o, threshold, start, groups, comparisons, batchEntries)
    requires start < |files| && comparisons <= MaxComparisons
    ensures start < end && Progress(files, o, threshold, end, groups', comparisons', batchEntries')
  {
    end := Min(start + BatchSize, |files|);
    var raised, pairs, batchGroups, entries := RunBatch(files[start..end], o, threshold);
    ProgressStep(files, o, threshold, start, groups, comparisons, batchEntries, pairs, batchGroups, entries);
    groups', comparisons' := groups, comparisons;
    if !raised {
      comparisons' := comparisons + |pairs|;
      groups' := groups + batchGroups;
    } else {
      AppendEmpty(groups, batchGroups);
    }
    batchEntries' := batchEntries + [entries];
  }

  // ---------------------------------------------------------------------
  // The similar-text pipeline
  // ---------------------------------------------------------------------

  /** The smart selection only picks files it was given. */
  lemma BatchedFrom(filtered: seq<TextFileInfo>)
    ensures forall x :: x in Batched(filtered) ==> x in filtered
  {
    if |filtered| > SelectionThreshold {
      TextSelection.SelectionFromInput(filtered);
    }
  }

  /** Every file of the b-th batch is one of the files batched. */
  lemma BatchFrom(files: seq<TextFileInfo>, b: nat)
    ensures forall x :: x in Batch(files, b) ==> x in files
  {
    var lo, hi := Min(50 * b, |files|), Min(50 * b + 50, |files|);
    forall x | x in Batch(files, b) ensures x in files {
      var k :| 0 <= k < hi - lo && files[lo..hi][k] == x;
      assert files[lo + k] == x;
    }
  }

  /** Records extracted from files of positive size never make the quick check raise. */
  lemma ExtractedDefined(batch: seq<TextFileInfo>, o: Oracles,
                         entries: seq<TextEntry>)
    requires forall x :: x in batch ==> x.size > 0
    requires ExtractedFrom(batch, o, entries)
    ensures Defined(entries, QuickSimilarityCheck)
  {
    var origin :| Preprocessed(batch, |batch|, o, entries, origin);
    forall k | 0 <= k < |entries| ensures entries[k].size > 0 {
      PreprocessedFields(batch, o, entries, origin, k);
      assert batch[origin[k]] in batch;
    }
    PositiveDefined(entries);
  }

  /**
   * `find_similar_texts`: fewer than two files, or fewer than two left after
   * the pre-filter, give no group; otherwise the pre-filtered files go to
   * the batch check. Every group is marked and holds paths of pre-filtered
   * files only. Since pre-filtered files all have a positive size, no batch
   * raises: for every batch screened, both paths of each of its candidate
   * pairs whose similarity reaches the threshold are grouped. The batches
   * stop early only past the comparison cap, which takes at least nine
   * batches of at most 1225 pairs each, so up to 450 batched files are all
   * screened. `batchEntries` holds the featured records of each batch screened.
   */
  method FindSimilarTexts(files: seq<TextFileInfo>, o: Oracles, threshold: real)
    returns (groups: seq<seq<TextEntry>>, ghost batchEntries: seq<seq<TextEntry>>)
    ensures |files| < 2 || |TextSelection.PreFiltered(files)| < 2 ==> groups == [] && batchEntries == []
    ensures |files| >= 2 && |TextSelection.PreFiltered(files)| >= 2 ==>
      50 * |batchEntries| >= |Batched(TextSelection.PreFiltered(files))| || |batchEntries| > 8
    ensures forall g :: g in groups ==> Marked(g, threshold)
    ensures GroupPaths(groups) <= FilePaths(TextSelection.PreFiltered(files))
    ensures forall b :: 0 <= b < |batchEntries| ==>
      && ExtractedFrom(Batch(Batched(TextSelection.PreFiltered(files)), b), o, batchEntries[b])
      && Defined(batchEntries[b], QuickSimilarityCheck)
      && Covered(Candidates(batchEntries[b], QuickSimilarityCheck), SimilarityOf(o), threshold, groups)
  {
    groups, batchEntries := [], [];
    if |files| < 2 {
      return;
    }
    var filtered := TextSelection.PreFilterFiles(files);
    if |filtered| < 2 {
      return;
    }
    var comparisons;
    groups, comparisons, batchEntries := BatchSimilarityCheck(filtered, o, threshold);
    var batched := Batched(filtered);
    BatchedFrom(filtered);
    TextSelection.PreFilteredPositive(files);
    assert FilePaths(batched) <= FilePaths(filtered);
    forall b | 0 <= b < |batchEntries|
      ensures Defined(batchEntries[b], QuickSimilarityCheck)
    {
      BatchFrom(batched, b);
      ExtractedDefined(Batch(batched, b), o, batchEntries[b]);
    }
  }
}
