/**
 * The image detector (src/detector/image_duplicate_detector.py): the
 * similarity-to-bit-threshold conversion, metadata bucketing, the greedy
 * grouping on a pair of 64-bit perceptual hashes, and the path-keyed
 * feature cache. Decoding and hashing an image (PIL, imagehash) is an
 * oracle: for a path it yields the average hash and the perceptual hash as
 * 16 hex digits each, or fails.
 */
module ImageDetector {
  import opened Basics
  import opened Grouping
  import Greedy
  import opened ImageScanner

  /** `_calculate_hash_diff_threshold`: `int(64 * (1 - p / 100))` clamped to [0, 64]. */
  function HashDiffThreshold(similarityPercent: real): (r: int)
    ensures 0 <= r <= 64
  {
    Max(0, Min(64, TruncToInt(64.0 * (1.0 - similarityPercent / 100.0))))
  }

  /** Full similarity allows no differing bit, none allows all 64; 80% allows 12 bits (not 13). */
  lemma HashDiffThresholdPoints()
    ensures HashDiffThreshold(100.0) == 0
    ensures HashDiffThreshold(0.0) == 64
    ensures HashDiffThreshold(80.0) == 12
  {
    assert 64.0 * (1.0 - 80.0 / 100.0) == 12.8;
  }

  /** A higher similarity requirement never allows more differing bits. */
  lemma HashDiffThresholdAntitone(p1: real, p2: real)
    requires p1 <= p2
    ensures HashDiffThreshold(p2) <= HashDiffThreshold(p1)
  {
    TruncMonotone(64.0 * (1.0 - p2 / 100.0), 64.0 * (1.0 - p1 / 100.0));
  }

  /** The bucket key `(size // 1024, width // 100, height // 100)`; missing dimensions count as 0. */
  function MetadataKey(f: ImageInfo): (r: (int, int, int))
    ensures r.0 * 1024 <= f.size < r.0 * 1024 + 1024
    ensures r.1 * 100 <= f.Width() < r.1 * 100 + 100
    ensures r.2 * 100 <= f.Height() < r.2 * 100 + 100
  {
    // Python's // floors; for a positive divisor that is Dafny's /.
    (f.size / 1024, f.Width() / 100, f.Height() / 100)
  }

  function AtLeastTwo<T>(g: seq<T>): bool
  {
    |g| >= 2
  }

  /**
   * `metadata_prescreening`: bucket the images by metadata key in
   * first-occurrence order and keep the buckets of two or more.
   */
  method MetadataPrescreening(files: seq<ImageInfo>) returns (groups: seq<seq<ImageInfo>>)
    ensures groups == Where(GroupBy(files, MetadataKey), AtLeastTwo)
  {
    var buckets := BucketBy(files, MetadataKey);
    groups := [];
    for k := 0 to |buckets|
      invariant groups == Where(buckets[..k], AtLeastTwo)
    {
      WhereStep(buckets, k, AtLeastTwo);
      if |buckets[k]| >= 2 {
        groups := groups + [buckets[k]];
      }
    }
    assert buckets[..|buckets|] == buckets;
  }

  /**
   * The candidate groups have two or more images sharing one metadata key,
   * each holding every image with that key in input order; an image lies in some group exactly when another image shares its key.
   */
  lemma PrescreeningSpec(files: seq<ImageInfo>)
    ensures var gs := Where(GroupBy(files, MetadataKey), AtLeastTwo);
      && (forall p :: 0 <= p < |gs| ==> |gs[p]| >= 2 && gs[p] == WithKey(files, MetadataKey, MetadataKey(gs[p][0])))
      && (forall p, x :: 0 <= p < |gs| && x in gs[p] ==> MetadataKey(x) == MetadataKey(gs[p][0]))
      && (forall i :: 0 <= i < |files| ==>
            ((exists p :: 0 <= p < |gs| && files[i] in gs[p]) <==> |WithKey(files, MetadataKey, MetadataKey(files[i]))| >= 2))
  {
    var all := GroupBy(files, MetadataKey);
    var gs := Where(all, AtLeastTwo);
    GroupByShape(files, MetadataKey);
    WhereMembers(all, AtLeastTwo);
    forall p | 0 <= p < |gs| ensures |gs[p]| >= 2 && gs[p] in all {
      assert AtLeastTwo(gs[p]);
    }
    forall i | 0 <= i < |files|
      ensures (exists p :: 0 <= p < |gs| && files[i] in gs[p]) <==> |WithKey(files, MetadataKey, MetadataKey(files[i]))| >= 2
    {
      var x := files[i];
      var g := WithKey(files, MetadataKey, MetadataKey(x));
      WithKeyContains(files, MetadataKey, i);
      var ks := Keys(files, MetadataKey);
      var j :| 0 <= j < |ks| && ks[j] == MetadataKey(x);
      assert all[j] == g;
      if |g| >= 2 {
        assert AtLeastTwo(all[j]);
        var p :| 0 <= p < |gs| && gs[p] == g;
      }
      if exists p :: 0 <= p < |gs| && x in gs[p] {
        var p :| 0 <= p < |gs| && x in gs[p];
        assert gs[p] == all[j];
      }
    }
  }

  predicate IsHexDigit(c: char)
  {
    '0' <= c <= '9' || 'a' <= c <= 'f' || 'A' <= c <= 'F'
  }

  /** The value of a hex digit (0 for any other character). */
  function HexValue(c: char): (v: int)
    ensures 0 <= v < 16
  {
    if '0' <= c <= '9' then c as int - '0' as int
    else if 'a' <= c <= 'f' then c as int - 'a' as int + 10
    else if 'A' <= c <= 'F' then c as int - 'A' as int + 10
    else 0
  }

  /** The number of differing bits among the low `bits` bits of x and y. */
  function BitDiff(x: nat, y: nat, bits: nat): (d: nat)
    ensures d <= bits
  {
    if bits == 0 then 0
    else (if x % 2 != y % 2 then 1 else 0) + BitDiff(x / 2, y / 2, bits - 1)
  }

  /**
   * The Hamming distance between the bit strings two hex strings of equal
   * length spell (imagehash's `hex_to_hash` followed by `-`).
   */
  function Hamming(a: string, b: string): (d: nat)
    requires |a| == |b|
    ensures d <= 4 * |a|
  {
    if a == [] then 0
    else
      var n := |a| - 1;
      Hamming(a[..n], b[..n]) + BitDiff(HexValue(a[n]) as nat, HexValue(b[n]) as nat, 4)
  }

  lemma {:induction false} BitDiffSymmetric(x: nat, y: nat, bits: nat)
    ensures BitDiff(x, y, bits) == BitDiff(y, x, bits)
  {
    if bits > 0 { BitDiffSymmetric(x / 2, y / 2, bits - 1); }
  }

  lemma {:induction false} BitDiffSelf(x: nat, bits: nat)
    ensures BitDiff(x, x, bits) == 0
  {
    if bits > 0 { BitDiffSelf(x / 2, bits - 1); }
  }

  /** The distance is symmetric and a hash is at distance 0 from itself. */
  lemma {:induction false} HammingMetric(a: string, b: string)
    requires |a| == |b|
    ensures Hamming(a, b) == Hamming(b, a)
    ensures Hamming(a, a) == 0
  {
    if a != [] {
      var n := |a| - 1;
      HammingMetric(a[..n], b[..n]);
      BitDiffSymmetric(HexValue(a[n]) as nat, HexValue(b[n]) as nat, 4);
      BitDiffSelf(HexValue(a[n]) as nat, 4);
    }
  }

  /** A 16-digit hex string: the text of one 64-bit image hash. */
  predicate IsHash64(h: string)
  {
    |h| == 16 && forall k :: 0 <= k < |h| ==> IsHexDigit(h[k])
  }

  /** The cached feature: the average hash followed by the perceptual hash (`f"{ahash}{phash}"`). */
  function CombinedHash(ahash: string, phash: string): (r: string)
    ensures |r| == |ahash| + |phash|
    ensures r[..|ahash|] == ahash && r[|ahash|..] == phash
  {
    ahash + phash
  }

  predicate IsCombinedHash(h: string)
  {
    |h| == 32 && IsHash64(h[..16]) && IsHash64(h[16..])
  }

  /** Splitting a combined hash at 16 recovers both parts, and every combined hash is such a pair. */
  lemma CombinedHashRoundTrip(ahash: string, phash: string, h: string)
    requires IsHash64(ahash) && IsHash64(phash) && IsCombinedHash(h)
    ensures IsCombinedHash(CombinedHash(ahash, phash))
    ensures CombinedHash(ahash, phash)[..16] == ahash && CombinedHash(ahash, phash)[16..] == phash
    ensures CombinedHash(h[..16], h[16..]) == h
  {
    var c := CombinedHash(ahash, phash);
    assert c[..16] == ahash && c[16..] == phash;
  }

  /** The average of the two hash distances, as the detector compares it. */
  function AverageDiff(h1: string, h2: string): real
    requires IsCombinedHash(h1) && IsCombinedHash(h2)
  {
    (Hamming(h1[..16], h2[..16]) + Hamming(h1[16..], h2[16..])) as real / 2.0
  }

  /** Comparing the average with the threshold is comparing the sum with twice the threshold. */
  lemma AverageDiffWithin(h1: string, h2: string, threshold: int)
    requires IsCombinedHash(h1) && IsCombinedHash(h2)
    ensures AverageDiff(h1, h2) <= threshold as real <==>
      Hamming(h1[..16], h2[..16]) + Hamming(h1[16..], h2[16..]) <= 2 * threshold
  {
  }

  /** An image record with its combined hash. */
  datatype ImageFeature = ImageFeature(info: ImageInfo, hash: string)

  ghost predicate AllHashed(features: seq<ImageFeature>)
  {
    forall i :: 0 <= i < |features| ==> IsCombinedHash(features[i].hash)
  }

  /** The closeness test of `find_similar_images`, on indices into `features`. */
  function Close(features: seq<ImageFeature>, threshold: int): (nat, nat) -> bool
  {
    (i: nat, j: nat) =>
      i < |features| && j < |features|
      && IsCombinedHash(features[i].hash) && IsCombinedHash(features[j].hash)
      && AverageDiff(features[i].hash, features[j].hash) <= threshold as real
  }

  function Infos(features: seq<ImageFeature>): (r: seq<ImageInfo>)
    ensures |r| == |features|
  {
    seq(|features|, k requires 0 <= k < |features| => features[k].info)
  }

  /** The index groups the greedy loop forms over `features`. */
  function SimilarIndexGroups(features: seq<ImageFeature>, threshold: int): seq<seq<nat>>
  {
    Greedy.Groups(|features|, Close(features, threshold))
  }

  /** The image groups `find_similar_images` returns: the greedy index groups, as records. */
  function SimilarImages(features: seq<ImageFeature>, threshold: int): seq<seq<ImageInfo>>
  {
    Greedy.GroupsInRange(|features|, Close(features, threshold), |features|);
    Greedy.PickAll(Infos(features), SimilarIndexGroups(features, threshold))
  }

  /**
   * `find_similar_images`: anchors in input order, each collecting every
   * later unclaimed image whose average hash distance to it is within the
   * threshold; groups of two or more are returned. The records are not
   * modified (no similarity is attached, unlike the video detector).
   */
  method FindSimilarImages(features: seq<ImageFeature>, threshold: int) returns (groups: seq<seq<ImageInfo>>)
    requires AllHashed(features)
    ensures |features| < 2 ==> groups == []
    ensures groups == SimilarImages(features, threshold)
  {
    var n := |features|;
    ghost var close := Close(features, threshold);
    ghost var infos := Infos(features);
    if n < 2 {
      Greedy.GroupsOfFewerThanTwo(n, close);
      return [];
    }
    groups := [];
    var processed: set<nat> := {};
    ghost var ig: seq<seq<nat>> := [];
    for i := 0 to n
      invariant Greedy.Run(n, close, i) == Greedy.State(ig, processed)
      invariant Greedy.InRange(ig, n)
      invariant groups == Greedy.PickAll(infos, ig)
    {
      Greedy.RunSnoc(n, close, i);
      Greedy.GroupsInRange(n, close, i + 1);
      if i in processed {
        continue;
      }
      var current;
      ghost var members;
      current, processed, members := CollectMatches(features, threshold, i, processed);
      if |current| >= 2 {
        groups := groups + [current];
        Greedy.PickAllSnoc(infos, ig, [i] + members);
        ig := ig + [[i] + members];
      }
    }
  }

  /**
   * The inner loop of `find_similar_images` for anchor i: marks the anchor
   * taken, then scans the later images, adding and marking each untaken one
   * within the threshold.
   */
  method CollectMatches(features: seq<ImageFeature>, threshold: int, i: nat, taken: set<nat>)
    returns (current: seq<ImageInfo>, processed: set<nat>, ghost members: seq<nat>)
    requires AllHashed(features) && i < |features|
    ensures members == Greedy.Candidates(i, i + 1, |features|, taken, Close(features, threshold))
    ensures Greedy.IndicesBelow(members, |features|)
    ensures processed == taken + {i} + Greedy.Elements(members)
    ensures current == Greedy.Anchored(Infos(features), i, members)
    ensures var found := Greedy.Candidates(i, i + 1, |features|, taken, Close(features, threshold));
      current == Greedy.Anchored(Infos(features), i, found) && processed == taken + {i} + Greedy.Elements(found)
  {
    var n := |features|;
    ghost var close := Close(features, threshold);
    ghost var infos := Infos(features);
    current := [features[i].info];
    members := [];
    assert current == Greedy.Pick(infos, [i] + members);
    processed := taken + {i};
    for j := i + 1 to n
      invariant Matched(features, threshold, i, taken, j, current, processed, members)
    {
      current, processed, members := MatchOne(features, threshold, i, taken, j, current, processed, members);
    }
  }

  /** The state of the inner loop for anchor i after scanning the images before j. */
  ghost predicate Matched(features: seq<ImageFeature>, threshold: int, i: nat, taken: set<nat>, j: nat,
                          current: seq<ImageInfo>, processed: set<nat>, members: seq<nat>)
    requires i < |features|
  {
    && members == Greedy.Candidates(i, i + 1, j, taken, Close(features, threshold))
    && processed == taken + {i} + Greedy.Elements(members)
    && Greedy.IndicesBelow(members, j)
    && Greedy.IndicesBelow(members, |features|)
    && current == Greedy.Anchored(Infos(features), i, members)
  }

  /** One step of the inner loop: image j joins when untaken and within the threshold. */
  method MatchOne(features: seq<ImageFeature>, threshold: int, i: nat, taken: set<nat>, j: nat,
                  current: seq<ImageInfo>, processed: set<nat>, ghost members: seq<nat>)
    returns (current': seq<ImageInfo>, processed': set<nat>, ghost members': seq<nat>)
    requires AllHashed(features) && i < j < |features|
    requires Matched(features, threshold, i, taken, j, current, processed, members)
    ensures Matched(features, threshold, i, taken, j + 1, current', processed', members')
    ensures var found := Greedy.Candidates(i, i + 1, j + 1, taken, Close(features, threshold));
      current' == Greedy.Anchored(Infos(features), i, found) && processed' == taken + {i} + Greedy.Elements(found)
  {
    ghost var close := Close(features, threshold);
    Greedy.CandidatesSnoc(i, i + 1, j, taken, close);
    Greedy.ElementsBelow(members, j);
    current', processed', members' := current, processed, members;
    if j in processed {
      return;
    }
    var avgDiff := AverageDiff(features[i].hash, features[j].hash);
    assert close(i, j) <==> avgDiff <= threshold as real;
    if avgDiff <= threshold as real {
      current' := current + [features[j].info];
      processed' := processed + {j};
      Greedy.AnchoredSnoc(Infos(features), i, members, j);
      Greedy.ElementsSnoc(members, j);
      members' := members + [j];
    }
  }

  /** Each group of `find_similar_images` holds two or more of the given records. */
  lemma SimilarImagesMembers(features: seq<ImageFeature>, threshold: int)
    ensures forall g :: g in SimilarImages(features, threshold) ==>
      |g| >= 2 && forall x :: x in g ==> x in Infos(features)
  {
    var n := |features|;
    var close := Close(features, threshold);
    var ig := SimilarIndexGroups(features, threshold);
    Greedy.GroupsSpec(n, close);
    Greedy.GroupsInRange(n, close, n);
    var gs := SimilarImages(features, threshold);
    forall p | 0 <= p < |gs| ensures |gs[p]| >= 2 && forall x :: x in gs[p] ==> x in Infos(features) {
      assert Greedy.GroupOK(n, close, ig[p]);
      assert gs[p] == Greedy.Pick(Infos(features), ig[p]);
    }
  }

  /** A hashed image together with the index of the candidate group it came from. */
  datatype Extracted = Extracted(feature: ImageFeature, group: nat)

  function GroupOf(e: Extracted): nat { e.group }

  function FeatureOf(e: Extracted): ImageFeature { e.feature }

  /** The detector's configuration and its path-keyed feature cache. */
  class ImageDuplicateDetector {
    const similarityThreshold: real
    const maxWorkers: int
    const hashDiffThreshold: int
    var featureCache: map<string, string>

    /** Every cached feature is a combined hash. */
    ghost predicate Valid()
      reads this
    {
      forall p :: p in featureCache ==> IsCombinedHash(featureCache[p])
    }

    /** The bit threshold is derived from the similarity percentage; the cache starts empty. */
    constructor(similarityThreshold: real, maxWorkers: int)
      ensures this.similarityThreshold == similarityThreshold && this.maxWorkers == maxWorkers
      ensures hashDiffThreshold == HashDiffThreshold(similarityThreshold)
      ensures featureCache == map[] && Valid()
    {
      this.similarityThreshold := similarityThreshold;
      this.maxWorkers := maxWorkers;
      hashDiffThreshold := HashDiffThreshold(similarityThreshold);
      featureCache := map[];
    }

    /**
     * `_extract_image_hash`: a cached path returns its stored feature and
     * nothing is recomputed; otherwise the oracle's average and perceptual
     * hashes (None when decoding fails) are combined and cached.
     */
    method ExtractImageHash(info: ImageInfo, hashes: Option<(string, string)>) returns (r: Option<string>)
      requires Valid()
      requires hashes.Some? ==> IsHash64(hashes.value.0) && IsHash64(hashes.value.1)
      modifies this
      ensures Valid()
      ensures r.Some? ==> IsCombinedHash(r.value)
      ensures info.path in old(featureCache) ==>
        r == Some(old(featureCache)[info.path]) && featureCache == old(featureCache)
      ensures info.path !in old(featureCache) && hashes.None? ==>
        r.None? && featureCache == old(featureCache)
      ensures info.path !in old(featureCache) && hashes.Some? ==>
        && r == Some(CombinedHash(hashes.value.0, hashes.value.1))
        && featureCache == old(featureCache)[info.path := r.value]
    {
      if info.path in featureCache {
        return Some(featureCache[info.path]);
      }
      match hashes
      case None =>
        r := None;
      case Some((ahash, phash)) =>
        var combined := CombinedHash(ahash, phash);
        CombinedHashRoundTrip(ahash, phash, combined);
        featureCache := featureCache[info.path := combined];
        r := Some(combined);
    }

    /** `clear_cache`: the cache is emptied. */
    method ClearCache()
      modifies this
      ensures featureCache == map[] && Valid()
    {
      featureCache := map[];
    }

    /**
     * `find_duplicates`: prescreen by metadata, hash every image of every
     * candidate group (in submission order; `hashOf` is the decoding oracle),
     * collect the hashed images per candidate group and run the greedy
     * grouping on each group with two or more of them. Every duplicate group
     * holds two or more input images sharing one metadata key.
     */
    method FindDuplicates(files: seq<ImageInfo>, hashOf: string -> Option<(string, string)>)
      returns (duplicates: seq<seq<ImageInfo>>)
      requires Valid()
      requires forall p :: hashOf(p).Some? ==> IsHash64(hashOf(p).value.0) && IsHash64(hashOf(p).value.1)
      modifies this
      ensures Valid()
      ensures files == [] ==> duplicates == []
      ensures forall g :: g in duplicates ==> |g| >= 2 && SameKey(files, g)
    {
      if files == [] {
        return [];
      }
      var candidateGroups := MetadataPrescreening(files);
      PrescreeningSpec(files);
      assert forall c :: 0 <= c < |candidateGroups| ==> SameKey(files, candidateGroups[c]) by {
        forall c | 0 <= c < |candidateGroups| ensures SameKey(files, candidateGroups[c]) {
          WithKeyMembers(files, MetadataKey, MetadataKey(candidateGroups[c][0]));
        }
      }
      var toProcess := FilesToProcess(candidateGroups);
      if toProcess == [] {
        return [];
      }
      var extracted := ExtractAll(toProcess, hashOf, candidateGroups);
      duplicates := CompareGroups(extracted, files, candidateGroups, hashDiffThreshold);
    }

    /** Hashes every queued image in submission order, keeping the ones that produced a hash. */
    method ExtractAll(toProcess: seq<(ImageInfo, nat)>, hashOf: string -> Option<(string, string)>,
                      ghost candidateGroups: seq<seq<ImageInfo>>)
      returns (extracted: seq<Extracted>)
      requires Valid()
      requires forall p :: hashOf(p).Some? ==> IsHash64(hashOf(p).value.0) && IsHash64(hashOf(p).value.1)
      requires forall k :: 0 <= k < |toProcess| ==>
        toProcess[k].1 < |candidateGroups| && toProcess[k].0 in candidateGroups[toProcess[k].1]
      modifies this
      ensures Valid()
      ensures forall e :: e in extracted ==>
        e.group < |candidateGroups| && e.feature.info in candidateGroups[e.group] && IsCombinedHash(e.feature.hash)
    {
      extracted := [];
      for k := 0 to |toProcess|
        invariant Valid()
        invariant forall e :: e in extracted ==>
          e.group < |candidateGroups| && e.feature.info in candidateGroups[e.group] && IsCombinedHash(e.feature.hash)
      {
        var info := toProcess[k].0;
        var h := ExtractImageHash(info, hashOf(info.path));
        if h.Some? && h.value != "" {
          extracted := extracted + [Extracted(ImageFeature(info, h.value), toProcess[k].1)];
        }
      }
    }
  }

  /** All images of `g` are input images with the metadata key of the first. */
  ghost predicate SameKey(files: seq<ImageInfo>, g: seq<ImageInfo>)
  {
    forall x :: x in g ==> x in files && g != [] && MetadataKey(x) == MetadataKey(g[0])
  }

  /** The greedy groups of images drawn from one candidate group share its key. */
  lemma SimilarWithinCandidate(features: seq<ImageFeature>, threshold: int, files: seq<ImageInfo>, group: seq<ImageInfo>)
    requires SameKey(files, group)
    requires forall k :: 0 <= k < |features| ==> features[k].info in group
    ensures forall g :: g in SimilarImages(features, threshold) ==> |g| >= 2 && SameKey(files, g)
  {
    SimilarImagesMembers(features, threshold);
    forall g | g in SimilarImages(features, threshold) ensures SameKey(files, g) {
      assert g[0] in Infos(features);
      forall x | x in g ensures x in group {
        assert x in Infos(features);
      }
    }
  }

  /** Queues every image of every candidate group of two or more, with its group's index. */
  method FilesToProcess(candidateGroups: seq<seq<ImageInfo>>) returns (toProcess: seq<(ImageInfo, nat)>)
    ensures forall k :: 0 <= k < |toProcess| ==>
      toProcess[k].1 < |candidateGroups| && toProcess[k].0 in candidateGroups[toProcess[k].1]
  {
    toProcess := [];
    for c := 0 to |candidateGroups|
      invariant forall k :: 0 <= k < |toProcess| ==>
        toProcess[k].1 < c && toProcess[k].0 in candidateGroups[toProcess[k].1]
    {
      if |candidateGroups[c]| >= 2 {
        for m := 0 to |candidateGroups[c]|
          invariant forall k :: 0 <= k < |toProcess| ==>
            toProcess[k].1 <= c && toProcess[k].0 in candidateGroups[toProcess[k].1]
        {
          toProcess := toProcess + [(candidateGroups[c][m], c)];
        }
      }
    }
  }

  /**
   * Buckets the hashed images by candidate group (first-occurrence order)
   * and extends the result with the greedy groups of every bucket of two or more.
   */
  method CompareGroups(extracted: seq<Extracted>, ghost files: seq<ImageInfo>,
                       ghost candidateGroups: seq<seq<ImageInfo>>, threshold: int)
    returns (duplicates: seq<seq<ImageInfo>>)
    requires forall c :: 0 <= c < |candidateGroups| ==> SameKey(files, candidateGroups[c])
    requires forall e :: e in extracted ==>
      e.group < |candidateGroups| && e.feature.info in candidateGroups[e.group] && IsCombinedHash(e.feature.hash)
    ensures forall g :: g in duplicates ==> |g| >= 2 && SameKey(files, g)
  {
    var byGroup := BucketBy(extracted, GroupOf);
    GroupByShape(extracted, GroupOf);
    duplicates := [];
    for b := 0 to |byGroup|
      invariant forall g :: g in duplicates ==> |g| >= 2 && SameKey(files, g)
    {
      var bucket := byGroup[b];
      WithKeyMembers(extracted, GroupOf, GroupOf(bucket[0]));
      assert forall k :: 0 <= k < |bucket| ==> bucket[k] in extracted;
      var features := seq(|bucket|, k requires 0 <= k < |bucket| => bucket[k].feature);
      if |features| > 1 {
        var similar := FindSimilarImages(features, threshold);
        ghost var c := bucket[0].group;
        SimilarWithinCandidate(features, threshold, files, candidateGroups[c]);
        duplicates := duplicates + similar;
      }
    }
  }
}
