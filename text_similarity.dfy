/**
 * The pairwise scores of the text detector
 * (src/detector/text_duplicate_detector.py): the record copied into the
 * similar phase, the quick rejection test on sizes, names and lightweight
 * features, the name similarity, and the detailed similarity built from the
 * length gate and the sampled comparison of long texts. `SequenceMatcher.ratio`
 * and the read-and-normalise step are parameters.
 */
module TextSimilarity {
  import opened Basics
  import opened PathNames

  /** The lightweight features the quick test reads (`_extract_lightweight_features`). */
  datatype LightFeatures = LightFeatures(
    wordCount: int, lineCount: int, charCount: int,
    firstLinesHash: string, lastLinesHash: string,
    wordSample: set<string>, avgLineLength: real)

  /**
   * A record of the similar phase: the copy of a text record made by
   * `_preprocess_text_lazy`, with its lightweight features, and the
   * similarity and match type a group attaches to it.
   */
  datatype TextEntry = TextEntry(
    path: string, name: string, size: int, mtime: real, extension: string,
    encoding: Option<string>, lineCount: Option<int>, charCount: Option<int>,
    contentHash: Option<string>, features: Option<LightFeatures>,
    similarity: Option<real>, matchType: Option<string>)

  function RMin(a: real, b: real): real { if a <= b then a else b }

  function RMax(a: real, b: real): real { if a >= b then a else b }

  /** `name.rsplit('.', 1)[0] if '.' in name else name`. */
  function StripExtension(name: string): (r: string)
    ensures '.' in name ==> r == name[..RFind(name, '.')]
    ensures '.' !in name ==> r == name
  {
    var i := RFind(name, '.');
    if i >= 0 then name[..i] else name
  }

  /** `set(s)`. */
  function CharSet(s: string): set<char>
  {
    set c | c in s
  }

  /** The common part of two sets is no larger than their union, which a non-empty set makes non-empty. */
  lemma IntersectionWithinUnion<T>(a: set<T>, b: set<T>)
    ensures |a * b| <= |a + b|
    ensures a != {} ==> 0 < |a + b|
  {
    assert |a + b| == |a - b| + |b - a| + |a * b|;
    if a != {} {
      var x :| x in a;
      assert x in a + b;
    }
  }

  /** `len(a & b) / len(a | b)` for a non-empty `a`. */
  function Jaccard<T>(a: set<T>, b: set<T>): (r: real)
    requires a != {}
    ensures 0.0 <= r <= 1.0
    ensures r > 0.0 <==> a * b != {}
  {
    IntersectionWithinUnion(a, b);
    (|a * b| as real) / (|a + b| as real)
  }

  /**
   * `_quick_name_similarity`: the Jaccard index of the character sets of the
   * two names without their last extension; 0.0 when a name, or what is left
   * of it, is empty.
   */
  function QuickNameSimilarity(name1: string, name2: string): (r: real)
    ensures 0.0 <= r <= 1.0
    ensures r > 0.0 ==> CharSet(Lower(StripExtension(name1))) * CharSet(Lower(StripExtension(name2))) != {}
  {
    if name1 == "" || name2 == "" then 0.0
    else
      var set1 := CharSet(Lower(StripExtension(name1)));
      var set2 := CharSet(Lower(StripExtension(name2)));
      if set1 == {} || set2 == {} then 0.0 else Jaccard(set1, set2)
  }

  /** The name similarity does not depend on the order of its arguments. */
  lemma QuickNameSymmetric(name1: string, name2: string)
    ensures QuickNameSimilarity(name1, name2) == QuickNameSimilarity(name2, name1)
  {
    var set1 := CharSet(Lower(StripExtension(name1)));
    var set2 := CharSet(Lower(StripExtension(name2)));
    assert set1 * set2 == set2 * set1 && set1 + set2 == set2 + set1;
  }

  /** A name with at least one character before its last dot is fully similar to itself. */
  lemma QuickNameSelf(name: string)
    requires StripExtension(name) != ""
    ensures QuickNameSimilarity(name, name) == 1.0
  {
    var set1 := CharSet(Lower(StripExtension(name)));
    var c := Lower(StripExtension(name))[0];
    assert c in set1;
    assert set1 * set1 == set1 + set1;
  }

  /** Both sizes are positive: the only case in which `size_ratio` gets a value. */
  predicate Sized(a: TextEntry, b: TextEntry)
  {
    a.size > 0 && b.size > 0
  }

  /**
   * The name test of `_quick_similarity_check`: the lower-cased names differ
   * and their name similarity is below 0.3.
   */
  predicate NamesApart(a: TextEntry, b: TextEntry)
  {
    Lower(a.name) != Lower(b.name) && QuickNameSimilarity(Lower(a.name), Lower(b.name)) < 0.3
  }

  /**
   * The feature layer of `_quick_similarity_check`: false when the line counts
   * differ by more than 30%; true on equal first- or last-lines hashes or a
   * word-sample Jaccard index above one half; false otherwise, whatever the
   * average line lengths.
   */
  function FeaturesAgree(f1: LightFeatures, f2: LightFeatures): (r: bool)
    ensures r ==>
      || f1.firstLinesHash == f2.firstLinesHash
      || f1.lastLinesHash == f2.lastLinesHash
      || (f1.wordSample != {} && f2.wordSample != {} &&
          2 * |f1.wordSample * f2.wordSample| > |f1.wordSample + f2.wordSample|)
  {
    var l1, l2 := f1.lineCount, f2.lineCount;
    if l1 > 0 && l2 > 0 && 10 * Min(l1, l2) < 7 * Max(l1, l2) then false
    else if f1.firstLinesHash == f2.firstLinesHash || f1.lastLinesHash == f2.lastLinesHash then true
    else if f1.wordSample != {} && f2.wordSample != {} &&
            2 * |f1.wordSample * f2.wordSample| > |f1.wordSample + f2.wordSample| then true
    else if f1.avgLineLength > 0.0 && f2.avgLineLength > 0.0 &&
            2.0 * RMin(f1.avgLineLength, f2.avgLineLength) < RMax(f1.avgLineLength, f2.avgLineLength) then false
    else false
  }

  /**
   * `_quick_similarity_check`, with the exact ratios written by
   * cross-multiplication (`min/max < 0.8` is `5·min < 4·max`). None stands
   * for the `UnboundLocalError` raised when `size_ratio` is read although a
   * size is not positive. The result is true only through the feature layer
   * or, without features, sizes within 5%.
   */
  function QuickSimilarityCheck(a: TextEntry, b: TextEntry): (r: Option<bool>)
    ensures Sized(a, b) && 5 * Min(a.size, b.size) < 4 * Max(a.size, b.size) ==> r == Some(false)
    ensures r == Some(true) ==>
      if a.features.Some? && b.features.Some? then FeaturesAgree(a.features.value, b.features.value)
      else Sized(a, b) && 20 * Min(a.size, b.size) > 19 * Max(a.size, b.size)
    ensures r.None? ==> !Sized(a, b)
  {
    var sized := Sized(a, b);
    var lo, hi := Min(a.size, b.size), Max(a.size, b.size);
    if sized && 5 * lo < 4 * hi then Some(false)
    else if NamesApart(a, b) && !sized then None
    else if NamesApart(a, b) && 10 * lo < 9 * hi then Some(false)
    else if a.features.None? || b.features.None? then
      if !sized then None else Some(20 * lo > 19 * hi)
    else Some(FeaturesAgree(a.features.value, b.features.value))
  }

  /** With both sizes positive the check never raises. */
  lemma QuickCheckDefined(a: TextEntry, b: TextEntry)
    requires Sized(a, b)
    ensures QuickSimilarityCheck(a, b).Some?
  {
  }

  /** The name test does not depend on the order of the pair. */
  lemma NamesApartSymmetric(a: TextEntry, b: TextEntry)
    ensures NamesApart(a, b) == NamesApart(b, a)
  {
    QuickNameSymmetric(Lower(a.name), Lower(b.name));
  }

  /** Neither does the feature layer. */
  lemma FeaturesAgreeSymmetric(f1: LightFeatures, f2: LightFeatures)
    ensures FeaturesAgree(f1, f2) == FeaturesAgree(f2, f1)
  {
    var w1, w2 := f1.wordSample, f2.wordSample;
    assert w1 * w2 == w2 * w1 && w1 + w2 == w2 + w1;
  }

  /** The check gives the same answer, or raises, for both orders of a pair. */
  lemma QuickCheckSymmetric(a: TextEntry, b: TextEntry)
    ensures QuickSimilarityCheck(a, b) == QuickSimilarityCheck(b, a)
  {
    NamesApartSymmetric(a, b);
    if a.features.Some? && b.features.Some? {
      FeaturesAgreeSymmetric(a.features.value, b.features.value);
    }
  }

  /** The average line length never changes the outcome. */
  lemma AverageLineLengthIgnored(f1: LightFeatures, f2: LightFeatures, avg: real)
    ensures FeaturesAgree(f1.(avgLineLength := avg), f2) == FeaturesAgree(f1, f2)
  {
  }

  /** A pair of files of different names and sizes 1 and 0 makes the check raise. */
  lemma QuickCheckRaises()
    ensures var a := TextEntry("/d/a.txt", "a.txt", 1, 0.0, ".txt", None, None, None, None, None, None, None);
            var b := TextEntry("/d/zz.txt", "zz.txt", 0, 0.0, ".txt", None, None, None, None, None, None, None);
            QuickSimilarityCheck(a, b).None?
  {
    var a := TextEntry("/d/a.txt", "a.txt", 1, 0.0, ".txt", None, None, None, None, None, None, None);
    var b := TextEntry("/d/zz.txt", "zz.txt", 0, 0.0, ".txt", None, None, None, None, None, None, None);
    assert Lower("a.txt") == "a.txt" && Lower("zz.txt") == "zz.txt";
    RFindAt("a.txt", '.', 1);
    RFindAt("zz.txt", '.', 2);
    assert StripExtension("a.txt") == "a" && StripExtension("zz.txt") == "zz";
    assert Lower("a") == "a" && Lower("zz") == "zz";
    assert 'a' in CharSet("a");
    assert CharSet("a") * CharSet("zz") == {};
  }

  /** The characters compared at once by the sampled comparison. */
  const SampleChunk: nat := 500

  /** The step between the windows of the second text (`chunk_size // 2`). */
  const SampleStep: nat := 250

  /** `text[lo:lo + SampleChunk]`. */
  function Window(t: string, lo: nat): (r: string)
    requires lo <= |t|
    ensures |r| <= SampleChunk
  {
    t[lo..Min(lo + SampleChunk, |t|)]
  }

  /** `positions` of `_sample_based_similarity` for a first text of length n. */
  function SamplePositions(n: nat): (ps: seq<int>)
    ensures |ps| == 5 && forall i :: 0 <= i < 5 ==> 0 <= ps[i]
    ensures n > 0 ==> forall i :: 0 <= i < 5 ==> ps[i] < n
  {
    [0, n / 4, n / 2, 3 * n / 4, Max(0, n - SampleChunk)]
  }

  /**
   * The best ratio of `chunk` against the windows of `t` starting at `pos`,
   * `pos + SampleStep`, ..., with `best` the best so far.
   */
  function BestFrom(chunk: string, t: string, ratio: (string, string) -> real, best: real, pos: nat): real
    decreases |t| - pos
  {
    if pos >= |t| then best
    else BestFrom(chunk, t, ratio, RMax(best, ratio(chunk, Window(t, pos))), pos + SampleStep)
  }

  /** The best match of one chunk of the first text among the windows of the second. */
  function BestMatch(chunk: string, t: string, ratio: (string, string) -> real): real
  {
    BestFrom(chunk, t, ratio, 0.0, 0)
  }

  /** The best match is at least the starting value and every window's ratio. */
  lemma {:induction false} BestFromBounds(chunk: string, t: string, ratio: (string, string) -> real,
                                          best: real, pos: nat, k: nat)
    requires pos + k * SampleStep < |t|
    ensures BestFrom(chunk, t, ratio, best, pos) >= best
    ensures BestFrom(chunk, t, ratio, best, pos) >= ratio(chunk, Window(t, pos + k * SampleStep))
    decreases |t| - pos
  {
    var next := RMax(best, ratio(chunk, Window(t, pos)));
    if pos + SampleStep < |t| {
      if k == 0 {
        BestFromBounds(chunk, t, ratio, next, pos + SampleStep, 0);
      } else {
        BestFromBounds(chunk, t, ratio, next, pos + SampleStep, k - 1);
      }
    } else {
      assert k == 0;
    }
  }

  /** Ratios within [0, 1] keep the best match within [0, 1]. */
  lemma {:induction false} BestFromRange(chunk: string, t: string, ratio: (string, string) -> real,
                                         best: real, pos: nat)
    requires forall x, y :: 0.0 <= ratio(x, y) <= 1.0
    requires 0.0 <= best <= 1.0
    ensures 0.0 <= BestFrom(chunk, t, ratio, best, pos) <= 1.0
    decreases |t| - pos
  {
    if pos < |t| {
      BestFromRange(chunk, t, ratio, RMax(best, ratio(chunk, Window(t, pos))), pos + SampleStep);
    }
  }

  /** The best matches of the sampled chunks, for the positions that lie inside the first text. */
  function Scores(t1: string, t2: string, ratio: (string, string) -> real, ps: seq<int>): (s: seq<real>)
    ensures |s| <= |ps|
  {
    if ps == [] then []
    else
      var p := ps[|ps| - 1];
      Scores(t1, t2, ratio, ps[..|ps| - 1]) + (if 0 <= p < |t1| then [BestMatch(Window(t1, p), t2, ratio)] else [])
  }

  function Sum(s: seq<real>): real
  {
    if s == [] then 0.0 else Sum(s[..|s| - 1]) + s[|s| - 1]
  }

  /** `_sample_based_similarity`: the mean best match of the sampled chunks, as a percentage. */
  function SampleSimilarity(t1: string, t2: string, ratio: (string, string) -> real): real
  {
    var s := Scores(t1, t2, ratio, SamplePositions(|t1|));
    if s == [] then 0.0 else Sum(s) / (|s| as real) * 100.0
  }

  /** Every position of a non-empty first text is sampled: five chunks, nothing skipped. */
  lemma {:induction false} ScoresAll(t1: string, t2: string, ratio: (string, string) -> real, ps: seq<int>)
    requires forall i :: 0 <= i < |ps| ==> 0 <= ps[i] < |t1|
    ensures |Scores(t1, t2, ratio, ps)| == |ps|
  {
    if ps != [] {
      ScoresAll(t1, t2, ratio, ps[..|ps| - 1]);
    }
  }

  /** Ratios within [0, 1] keep every score within [0, 1]. */
  lemma {:induction false} ScoresRange(t1: string, t2: string, ratio: (string, string) -> real, ps: seq<int>)
    requires forall x, y :: 0.0 <= ratio(x, y) <= 1.0
    ensures 0.0 <= Sum(Scores(t1, t2, ratio, ps)) <= |Scores(t1, t2, ratio, ps)| as real
  {
    if ps != [] {
      var s0 := Scores(t1, t2, ratio, ps[..|ps| - 1]);
      ScoresRange(t1, t2, ratio, ps[..|ps| - 1]);
      var p := ps[|ps| - 1];
      if 0 <= p < |t1| {
        var b := BestMatch(Window(t1, p), t2, ratio);
        BestFromRange(Window(t1, p), t2, ratio, 0.0, 0);
        var s := s0 + [b];
        assert Scores(t1, t2, ratio, ps) == s;
        assert s[..|s| - 1] == s0;
      } else {
        assert Scores(t1, t2, ratio, ps) == s0;
      }
    }
  }

  /** Ratios within [0, 1] make the sampled similarity a percentage, over exactly five chunks of a non-empty text. */
  lemma SampleSimilarityRange(t1: string, t2: string, ratio: (string, string) -> real)
    requires forall x, y :: 0.0 <= ratio(x, y) <= 1.0
    ensures 0.0 <= SampleSimilarity(t1, t2, ratio) <= 100.0
    ensures |t1| > 0 ==> |Scores(t1, t2, ratio, SamplePositions(|t1|))| == 5
  {
    var s := Scores(t1, t2, ratio, SamplePositions(|t1|));
    ScoresRange(t1, t2, ratio, SamplePositions(|t1|));
    if s != [] {
      var n := |s| as real;
      assert 0.0 <= Sum(s) / n <= 1.0 by {
        QuotientAtMost(Sum(s), n, 1.0);
      }
    }
    if |t1| > 0 {
      ScoresAll(t1, t2, ratio, SamplePositions(|t1|));
    }
  }

  /**
   * `_sample_based_similarity` as the source runs it: five start positions,
   * each chunk compared with every half-overlapping window of the second text,
   * the best ratio of each chunk kept, and the mean taken as a percentage.
   */
  method SampleBasedSimilarity(t1: string, t2: string, ratio: (string, string) -> real) returns (r: real)
    ensures r == SampleSimilarity(t1, t2, ratio)
  {
    var positions := SamplePositions(|t1|);
    var sims: seq<real> := [];
    for k := 0 to |positions|
      invariant sims == Scores(t1, t2, ratio, positions[..k])
    {
      assert positions[..k + 1][..k] == positions[..k];
      var pos := positions[k];
      if pos >= |t1| {
        continue;
      }
      var chunk1 := Window(t1, pos);
      var best := 0.0;
      var pos2 := 0;
      while pos2 < |t2|
        invariant BestFrom(chunk1, t2, ratio, best, pos2) == BestMatch(chunk1, t2, ratio)
        decreases |t2| - pos2
      {
        var similarity := ratio(chunk1, Window(t2, pos2));
        best := RMax(best, similarity);
        pos2 := pos2 + SampleStep;
      }
      sims := sims + [best];
    }
    assert positions[..|positions|] == positions;
    if sims != [] {
      r := Sum(sims) / (|sims| as real) * 100.0;
    } else {
      r := 0.0;
    }
  }

  /** `max(0.0, min(100.0, s))`. */
  function Clamp(s: real): (r: real)
    ensures 0.0 <= r <= 100.0
    ensures 0.0 <= s <= 100.0 ==> r == s
  {
    RMax(0.0, RMin(100.0, s))
  }

  /**
   * `_fast_text_similarity`: 0.0 for an empty text or a length ratio below
   * 0.3; otherwise the sampled comparison when a text is longer than 1000
   * characters, the whole-text ratio as a percentage when not, clamped to
   * [0, 100].
   */
  function FastTextSimilarity(t1: string, t2: string, ratio: (string, string) -> real): (r: real)
    ensures 0.0 <= r <= 100.0
    ensures |t1| == 0 || |t2| == 0 ==> r == 0.0
    ensures 10 * Min(|t1|, |t2|) < 3 * Max(|t1|, |t2|) ==> r == 0.0
  {
    if |t1| == 0 || |t2| == 0 then 0.0
    else if 10 * Min(|t1|, |t2|) < 3 * Max(|t1|, |t2|) then 0.0
    else if |t1| > 1000 || |t2| > 1000 then Clamp(SampleSimilarity(t1, t2, ratio))
    else Clamp(ratio(t1, t2) * 100.0)
  }

  /** For short texts of comparable length the score is the whole-text ratio, as a percentage. */
  lemma FastTextShort(t1: string, t2: string, ratio: (string, string) -> real)
    requires 0 < |t1| <= 1000 && 0 < |t2| <= 1000
    requires 10 * Min(|t1|, |t2|) >= 3 * Max(|t1|, |t2|)
    requires 0.0 <= ratio(t1, t2) <= 1.0
    ensures FastTextSimilarity(t1, t2, ratio) == ratio(t1, t2) * 100.0
  {
  }

  /** A present, non-empty content hash shared by both records. */
  predicate SameContent(a: TextEntry, b: TextEntry)
  {
    a.contentHash.Some? && a.contentHash.value != "" && b.contentHash == a.contentHash
  }

  /**
   * `_calculate_detailed_similarity`: 100.0 for records sharing a non-empty
   * hash; otherwise 0.0 unless both normalised contents (`content` of a path
   * and an encoding; None when unreadable or too short) are non-empty, and
   * then the fast text similarity of the two.
   */
  function DetailedSimilarity(a: TextEntry, b: TextEntry, content: (string, Option<string>) -> Option<string>,
                              ratio: (string, string) -> real): (r: real)
    ensures 0.0 <= r <= 100.0
    ensures SameContent(a, b) ==> r == 100.0
    ensures !SameContent(a, b) && (content(a.path, a.encoding).None? || content(b.path, b.encoding).None?) ==> r == 0.0
  {
    if SameContent(a, b) then 100.0
    else
      var c1, c2 := content(a.path, a.encoding), content(b.path, b.encoding);
      if c1.None? || c1.value == "" || c2.None? || c2.value == "" then 0.0
      else FastTextSimilarity(c1.value, c2.value, ratio)
  }
}
