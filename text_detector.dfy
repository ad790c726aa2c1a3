/**
 * The detector object of src/detector/text_duplicate_detector.py: its
 * settings, the bounded hash cache behind `_calculate_file_hash_local`,
 * `_detect_encoding_fast`, the lazy `_ensure_file_details`,
 * `find_exact_duplicates`, which groups the caller's records by content
 * hash and marks them in place, and `find_duplicates`, which puts the
 * exact groups in front of the similar groups of the files left over.
 */
module TextDetector {
  import opened Basics
  import opened Grouping
  import opened TextScanner
  import opened TextSimilarity
  import TextGroups
  import TextSelection
  import TextBatches

  // ---------------------------------------------------------------------
  // The file system as the detector sees it
  // ---------------------------------------------------------------------

  /**
   * `stat` is `os.stat` (size and mtime, None when it raises); `head` the
   * first 1024 bytes of a file (None when opening raises); `decodes`
   * whether bytes decode under a codec; `chardet` the encoding guess and
   * its confidence; `digest(path, encoding, n)` the MD5 hex digest of the
   * first n characters of the file read with the encoding, None when
   * reading raises.
   */
  datatype FileSystem = FileSystem(
    stat: string -> Option<(int, real)>,
    head: string -> Option<seq<bv8>>,
    decodes: (seq<bv8>, string) -> bool,
    chardet: seq<bv8> -> (Option<string>, real),
    digest: (string, string, int) -> Option<string>)

  /** The codecs `_detect_encoding_fast` tries, in order. */
  const TriedEncodings: seq<string> := ["utf-8", "gbk", "gb2312", "latin-1"]

  /** At most this many characters are hashed. */
  const HashReadLimit: int := 100000

  /** The hash cache takes no new entry once it holds this many. */
  const CacheLimit: int := 1000

  /** Below this chardet confidence the guess is replaced by utf-8. */
  const MinConfidence: real := 0.5

  /** The answer of chardet for bytes no tried codec decodes. */
  function ChardetAnswer(guess: (Option<string>, real)): (r: Option<string>)
    ensures guess.1 < MinConfidence ==> r == Some("utf-8")
    ensures guess.1 >= MinConfidence ==> r == guess.0
  {
    if guess.1 < MinConfidence then Some("utf-8") else guess.0
  }

  /** The first of `codecs` that decodes `raw`, or chardet's answer when none does. */
  function FirstDecoding(fs: FileSystem, raw: seq<bv8>, codecs: seq<string>): Option<string>
  {
    if codecs == [] then ChardetAnswer(fs.chardet(raw))
    else if fs.decodes(raw, codecs[0]) then Some(codecs[0])
    else FirstDecoding(fs, raw, codecs[1..])
  }

  /** What `_detect_encoding_fast` answers for a path. */
  function GuessedEncoding(fs: FileSystem, path: string): Option<string>
  {
    match fs.head(path)
    case None => Some("utf-8")
    case Some(raw) => if raw == [] then Some("utf-8") else FirstDecoding(fs, raw, TriedEncodings)
  }

  /**
   * The answer is the first codec that decodes the bytes: every codec
   * before it fails. When none decodes, chardet decides.
   */
  lemma {:induction false} FirstDecodingSpec(fs: FileSystem, raw: seq<bv8>, codecs: seq<string>)
    ensures forall i :: 0 <= i < |codecs| && fs.decodes(raw, codecs[i]) && (forall j :: 0 <= j < i ==> !fs.decodes(raw, codecs[j])) ==>
      FirstDecoding(fs, raw, codecs) == Some(codecs[i])
    ensures (forall j :: 0 <= j < |codecs| ==> !fs.decodes(raw, codecs[j])) ==>
      FirstDecoding(fs, raw, codecs) == ChardetAnswer(fs.chardet(raw))
  {
    if codecs != [] {
      FirstDecodingSpec(fs, raw, codecs[1..]);
      forall i | 0 <= i < |codecs| && fs.decodes(raw, codecs[i]) && (forall j :: 0 <= j < i ==> !fs.decodes(raw, codecs[j]))
        ensures FirstDecoding(fs, raw, codecs) == Some(codecs[i])
      {
        if i > 0 {
          assert !fs.decodes(raw, codecs[0]);
          assert codecs[1..][i - 1] == codecs[i];
          forall j | 0 <= j < i - 1 ensures !fs.decodes(raw, codecs[1..][j]) {
            assert codecs[1..][j] == codecs[j + 1];
          }
        }
      }
      if forall j :: 0 <= j < |codecs| ==> !fs.decodes(raw, codecs[j]) {
        forall j | 0 <= j < |codecs| - 1 ensures !fs.decodes(raw, codecs[1..][j]) {
          assert codecs[1..][j] == codecs[j + 1];
        }
      }
    }
  }

  /**
   * When latin-1 decodes the bytes, as it does every byte string, the
   * answer is one of the four tried codecs and chardet is never asked.
   */
  lemma DetectedIsTried(fs: FileSystem, path: string)
    requires forall raw :: fs.decodes(raw, "latin-1")
    ensures GuessedEncoding(fs, path).Some? && GuessedEncoding(fs, path).value in TriedEncodings
  {
    var head := fs.head(path);
    if head.Some? && head.value != [] {
      var raw := head.value;
      var codecs := TriedEncodings;
      var i := if fs.decodes(raw, codecs[0]) then 0 else if fs.decodes(raw, codecs[1]) then 1
               else if fs.decodes(raw, codecs[2]) then 2 else 3;
      assert fs.decodes(raw, codecs[3]);
      FirstDecodingSpec(fs, raw, codecs);
      assert FirstDecoding(fs, raw, codecs) == Some(codecs[i]);
    }
  }

  /** `_detect_encoding_fast`: utf-8 for an unreadable or empty head, else the first codec that decodes it. */
  method DetectEncodingFast(fs: FileSystem, path: string) returns (r: Option<string>)
    ensures r == GuessedEncoding(fs, path)
  {
    var head := fs.head(path);
    if head.None? || head.value == [] {
      return Some("utf-8");
    }
    var raw := head.value;
    for k := 0 to |TriedEncodings|
      invariant FirstDecoding(fs, raw, TriedEncodings) == FirstDecoding(fs, raw, TriedEncodings[k..])
    {
      assert TriedEncodings[k..][1..] == TriedEncodings[k + 1..];
      if fs.decodes(raw, TriedEncodings[k]) {
        return Some(TriedEncodings[k]);
      }
    }
    return ChardetAnswer(fs.chardet(raw));
  }

  // ---------------------------------------------------------------------
  // The hash cache
  // ---------------------------------------------------------------------

  /** The cache key `f"{path}:{size}:{mtime}"`; size and mtime hold no ':', so the string determines the triple. */
  datatype CacheKey = CacheKey(path: string, size: int, mtime: real)

  type HashCache = map<CacheKey, string>

  /** A cached value is the digest of the key's file under some encoding: the key leaves the encoding out. */
  ghost predicate Computed(fs: FileSystem, key: CacheKey, hash: string)
  {
    exists encoding :: fs.digest(key.path, encoding, Min(key.size, HashReadLimit)) == Some(hash)
  }

  ghost predicate CacheValid(fs: FileSystem, cache: HashCache)
  {
    && |cache| <= CacheLimit
    && forall key :: key in cache ==> Computed(fs, key, cache[key])
  }

  /** What `_calculate_file_hash_local` returns when it starts from `cache`. */
  function CachedHash(fs: FileSystem, cache: HashCache, path: string, encoding: string): Option<string>
  {
    match fs.stat(path)
    case None => None
    case Some(st) =>
      var key := CacheKey(path, st.0, st.1);
      if key in cache then Some(cache[key]) else fs.digest(path, encoding, Min(st.0, HashReadLimit))
  }

  /** The cache after `_calculate_file_hash_local`: a new digest is stored only below 1000 entries. */
  function CacheAfter(fs: FileSystem, cache: HashCache, path: string, encoding: string): HashCache
  {
    match fs.stat(path)
    case None => cache
    case Some(st) =>
      var key := CacheKey(path, st.0, st.1);
      var hash := fs.digest(path, encoding, Min(st.0, HashReadLimit));
      if key in cache || hash.None? || |cache| >= CacheLimit then cache else cache[key := hash.value]
  }

  /**
   * A lookup keeps the cache within 1000 entries, each the digest of its
   * file, and what it returns is a digest of the file, possibly under the
   * encoding of an earlier call.
   */
  lemma CacheStaysValid(fs: FileSystem, cache: HashCache, path: string, encoding: string)
    requires CacheValid(fs, cache)
    ensures CacheValid(fs, CacheAfter(fs, cache, path, encoding))
    ensures CachedHash(fs, cache, path, encoding).Some? ==>
      var st := fs.stat(path).value;
      Computed(fs, CacheKey(path, st.0, st.1), CachedHash(fs, cache, path, encoding).value)
  {
    if fs.stat(path).Some? {
      var st := fs.stat(path).value;
      var key := CacheKey(path, st.0, st.1);
      var hash := fs.digest(path, encoding, Min(st.0, HashReadLimit));
      if key !in cache && hash.Some? {
        assert Computed(fs, key, hash.value);
      }
      if key !in cache && hash.Some? && |cache| < CacheLimit {
        var after := cache[key := hash.value];
        assert |after| == |cache| + 1;
        forall k | k in after ensures Computed(fs, k, after[k]) {
          if k != key {
            assert after[k] == cache[k];
          }
        }
      }
    }
  }

  /** A hit returns the stored digest and leaves the cache as it was: nothing is recomputed. */
  lemma CacheHit(fs: FileSystem, cache: HashCache, path: string, encoding: string)
    requires fs.stat(path).Some? && CacheKey(path, fs.stat(path).value.0, fs.stat(path).value.1) in cache
    ensures CachedHash(fs, cache, path, encoding) == Some(cache[CacheKey(path, fs.stat(path).value.0, fs.stat(path).value.1)])
    ensures CacheAfter(fs, cache, path, encoding) == cache
  {
  }

  /** A miss stores the new digest exactly when it exists and the cache has room. */
  lemma CacheMiss(fs: FileSystem, cache: HashCache, path: string, encoding: string)
    requires fs.stat(path).Some? && CacheKey(path, fs.stat(path).value.0, fs.stat(path).value.1) !in cache
    ensures CachedHash(fs, cache, path, encoding) == fs.digest(path, encoding, Min(fs.stat(path).value.0, HashReadLimit))
    ensures var key := CacheKey(path, fs.stat(path).value.0, fs.stat(path).value.1);
      var after := CacheAfter(fs, cache, path, encoding);
      (key in after <==> CachedHash(fs, cache, path, encoding).Some? && |cache| < CacheLimit) &&
      (forall k :: k != key ==> (k in after <==> k in cache))
  {
  }

  // ---------------------------------------------------------------------
  // The detector
  // ---------------------------------------------------------------------

  class TextDuplicateDetector {
    /** `similarity_threshold`, a percentage. */
    const threshold: real
    /** `max_workers`; the worker pool itself is not modelled. */
    const maxWorkers: int
    /** The files the detector reads. */
    const fs: FileSystem
    /** What the similar phase reads. */
    const oracles: TextBatches.Oracles
    /** `_hash_cache`. */
    var hashCache: HashCache

    ghost predicate Valid()
      reads this
    {
      CacheValid(fs, hashCache)
    }

    /**
     * `__init__`: without `max_workers`, three workers per CPU up to 16,
     * counting 4 CPUs when the count is 0; the hash cache starts empty.
     */
    constructor(threshold: real, maxWorkers: Option<int>, cpuCount: nat, fs: FileSystem, oracles: TextBatches.Oracles)
      ensures this.threshold == threshold && this.fs == fs && this.oracles == oracles
      ensures this.maxWorkers == if maxWorkers.Some? then maxWorkers.value
                                 else Min((if cpuCount == 0 then 4 else cpuCount) * 3, 16)
      ensures hashCache == map[] && Valid()
    {
      this.threshold := threshold;
      this.maxWorkers := if maxWorkers.Some? then maxWorkers.value
                         else Min((if cpuCount == 0 then 4 else cpuCount) * 3, 16);
      this.fs := fs;
      this.oracles := oracles;
      hashCache := map[];
    }

    /**
     * `_calculate_file_hash_local`: None when `os.stat` or the read raises;
     * a cached digest for the same path, size and mtime is returned as is;
     * otherwise the digest of the first min(size, 100000) characters, stored
     * while the cache holds fewer than 1000 entries.
     */
    method CalculateFileHashLocal(path: string, encoding: string) returns (r: Option<string>)
      requires Valid()
      modifies this
      ensures Valid()
      ensures r == CachedHash(fs, old(hashCache), path, encoding)
      ensures hashCache == CacheAfter(fs, old(hashCache), path, encoding)
    {
      CacheStaysValid(fs, hashCache, path, encoding);
      var st := fs.stat(path);
      if st.None? {
        return None;
      }
      var key := CacheKey(path, st.value.0, st.value.1);
      if key in hashCache {
        return Some(hashCache[key]);
      }
      r := fs.digest(path, encoding, Min(st.value.0, HashReadLimit));
      if r.None? {
        return;
      }
      if |hashCache| < CacheLimit {
        hashCache := hashCache[key := r.value];
      }
    }

    /**
     * `_ensure_file_details`: a record that already has a content hash
     * succeeds untouched; otherwise a missing encoding is detected (a falsy
     * answer fails), then the hash is looked up through the cache (None
     * fails). Only the encoding and the hash of the record change.
     */
    method EnsureFileDetails(info: TextFileInfo) returns (ok: bool)
      requires Valid()
      modifies this, info
      ensures Valid()
      ensures old(info.contentHash).Some? ==> ok && unchanged(info) && hashCache == old(hashCache)
      ensures ok <==> info.contentHash.Some?
      ensures info.lineCount == old(info.lineCount) && info.charCount == old(info.charCount)
      ensures info.similarity == old(info.similarity) && info.matchType == old(info.matchType)
      ensures old(info.contentHash).None? ==>
        info.encoding == (if old(info.encoding).Some? then old(info.encoding) else Usable(GuessedEncoding(fs, info.path)))
      ensures old(info.contentHash).None? && info.encoding.Some? ==>
        info.contentHash == CachedHash(fs, old(hashCache), info.path, info.encoding.value) &&
        hashCache == CacheAfter(fs, old(hashCache), info.path, info.encoding.value)
      ensures old(info.contentHash).None? && info.encoding.None? ==> info.contentHash.None? && hashCache == old(hashCache)
    {
      if info.contentHash.Some? {
        return true;
      }
      if info.encoding.None? {
        var encoding := DetectEncodingFast(fs, info.path);
        if encoding.None? || encoding.value == "" {
          return false;
        }
        info.encoding := encoding;
      }
      var hash := CalculateFileHashLocal(info.path, info.encoding.value);
      if hash.None? {
        return false;
      }
      info.contentHash := hash;
      return true;
    }

    /**
     * One step of the first loop of `find_exact_duplicates`: the hash a
     * record is kept under, "" when its details do not load. A hash the
     * record already had is kept as it is.
     */
    method LoadHash(info: TextFileInfo) returns (hash: string)
      requires Valid()
      modifies this, info
      ensures Valid()
      ensures old(info.contentHash).Some? ==> hash == old(info.contentHash).value && info.contentHash == old(info.contentHash)
      ensures hash != "" ==> info.contentHash == Some(hash)
      ensures info.lineCount == old(info.lineCount) && info.charCount == old(info.charCount)
      ensures info.similarity == old(info.similarity) && info.matchType == old(info.matchType)
    {
      var ok := EnsureFileDetails(info);
      hash := if ok then info.contentHash.value else "";
    }

    /**
     * The first loop of `find_exact_duplicates`: load the details of each
     * record in turn and keep it, with its hash, when loading succeeds
     * with a non-empty hash. `hashes` holds the hash kept for each record
     * ("" for one not kept). A record's hash, once set, never changes.
     */
    method ReadHashes(files: seq<TextFileInfo>) returns (keyed: seq<Keyed>, ghost hashes: seq<string>)
      requires Valid()
      modifies this, files
      ensures Valid()
      ensures |hashes| == |files| && keyed == Where(Zip(files, hashes), HasHash)
      ensures Recorded(files, hashes)
      ensures forall k :: 0 <= k < |files| && old(files[k].contentHash).Some? ==> hashes[k] == old(files[k].contentHash).value
      ensures forall f :: f in files ==>
        f.lineCount == old(f.lineCount) && f.charCount == old(f.charCount) &&
        f.similarity == old(f.similarity) && f.matchType == old(f.matchType)
    {
      keyed, hashes := [], [];
      ghost var initial := seq(|files|, j requires 0 <= j < |files| reads files => files[j].contentHash);
      ghost var rest := seq(|files|, j requires 0 <= j < |files| reads files => Rest(files[j]));
      for k := 0 to |files|
        invariant Valid() && ReadUpTo(files, k, keyed, hashes, initial, rest)
      {
        keyed, hashes := ReadOne(files, k, keyed, hashes, initial, rest);
      }
      assert files[..|files|] == files;
      forall f | f in files
        ensures f.lineCount == old(f.lineCount) && f.charCount == old(f.charCount)
        ensures f.similarity == old(f.similarity) && f.matchType == old(f.matchType)
      {
        var j :| 0 <= j < |files| && files[j] == f;
        assert Rest(f) == rest[j];
      }
    }

    /** One step of `ReadHashes`: the record at `k`. */
    method ReadOne(files: seq<TextFileInfo>, k: nat, keyed: seq<Keyed>, ghost hashes: seq<string>,
                   ghost initial: seq<Option<string>>, ghost rest: seq<(Option<int>, Option<int>, Option<real>, Option<string>)>)
      returns (keyed': seq<Keyed>, ghost hashes': seq<string>)
      requires Valid() && k < |files| && ReadUpTo(files, k, keyed, hashes, initial, rest)
      modifies this, files[k]
      ensures Valid() && ReadUpTo(files, k + 1, keyed', hashes', initial, rest)
    {
      var info := files[k];
      var hash := LoadHash(info);
      ZipSnoc(files, hashes, k, hash);
      WhereSnoc(Zip(files[..k], hashes), (hash, info), HasHash);
      hashes' := hashes + [hash];
      keyed' := if hash != "" then keyed + [(hash, info)] else keyed;
      assert |hashes'| == k + 1 && keyed' == Where(Zip(files[..k + 1], hashes'), HasHash);
      forall j | 0 <= j < |files|
        ensures j <= k && hashes'[j] != "" ==> files[j].contentHash == Some(hashes'[j])
        ensures j <= k && initial[j].Some? ==> hashes'[j] == initial[j].value
        ensures initial[j].Some? ==> files[j].contentHash == initial[j]
        ensures Rest(files[j]) == rest[j]
      {
        if j == k {
        } else if files[j] == info {
        } else {
        }
      }
    }

    /**
     * The second loop of `find_exact_duplicates`: each bucket with more
     * than one record is returned after its records are marked 100.0 and
     * "exact" in place.
     */
    method MarkExact(files: seq<TextFileInfo>, ghost hashes: seq<string>, buckets: seq<seq<Keyed>>)
      returns (exact: seq<seq<TextFileInfo>>)
      requires |hashes| == |files| && buckets == GroupBy(Where(Zip(files, hashes), HasHash), HashKey)
      modifies files
      ensures exact == ExactGroups(files, hashes)
      ensures forall f :: f in files ==>
        f.contentHash == old(f.contentHash) && f.lineCount == old(f.lineCount) && f.charCount == old(f.charCount)
      ensures forall f :: f in files ==>
        f.similarity == (if InSome(exact, f) then Some(100.0) else old(f.similarity)) &&
        f.matchType == (if InSome(exact, f) then Some("exact") else old(f.matchType))
    {
      BucketRecords(files, hashes);
      exact := [];
      for i := 0 to |buckets|
        invariant exact == RecordsOf(Where(buckets[..i], Repeated))
        invariant forall f :: f in files ==>
          f.contentHash == old(f.contentHash) && f.lineCount == old(f.lineCount) && f.charCount == old(f.charCount)
        invariant forall f :: f in files ==>
          f.similarity == (if InSome(exact, f) then Some(100.0) else old(f.similarity)) &&
          f.matchType == (if InSome(exact, f) then Some("exact") else old(f.matchType))
      {
        WhereStep(buckets, i, Repeated);
        var bucket := buckets[i];
        if |bucket| > 1 {
          var group := Records(bucket);
          assert forall r :: 0 <= r < |group| ==> group[r] == bucket[r].1 && bucket[r] in bucket;
          MarkGroup(group);
          InSomeSnoc(exact, group);
          RecordsOfSnoc(Where(buckets[..i], Repeated), bucket);
          forall f | f in files
            ensures f.contentHash == old(f.contentHash) && f.lineCount == old(f.lineCount) && f.charCount == old(f.charCount)
            ensures f.similarity == (if InSome(exact + [group], f) then Some(100.0) else old(f.similarity))
            ensures f.matchType == (if InSome(exact + [group], f) then Some("exact") else old(f.matchType))
          {
            if f in group {
            } else {
            }
          }
          exact := exact + [group];
        }
      }
      assert buckets[..|buckets|] == buckets;
    }

    /** Marks every record of one exact group 100.0 and "exact". */
    static method MarkGroup(group: seq<TextFileInfo>)
      modifies group
      ensures forall f :: f in group ==> f.similarity == Some(100.0) && f.matchType == Some("exact")
      ensures forall f :: f in group ==>
        f.contentHash == old(f.contentHash) && f.lineCount == old(f.lineCount) && f.charCount == old(f.charCount)
    {
      for r := 0 to |group|
        invariant forall f :: f in group ==>
          f.contentHash == old(f.contentHash) && f.lineCount == old(f.lineCount) && f.charCount == old(f.charCount)
        invariant forall f :: f in group[..r] ==> f.similarity == Some(100.0) && f.matchType == Some("exact")
      {
        group[r].similarity := Some(100.0);
        group[r].matchType := Some("exact");
        assert group[..r + 1] == group[..r] + [group[r]];
      }
      assert group[..|group|] == group;
    }

    /**
     * `find_exact_duplicates`: the records whose details load with a
     * non-empty content hash, bucketed by that hash in order of first
     * appearance; the buckets with more than one record are returned, each
     * record marked 100.0 and "exact" in place. No other field of a record
     * changes, except the encoding and hash loading fills in.
     */
    method FindExactDuplicates(files: seq<TextFileInfo>) returns (exact: seq<seq<TextFileInfo>>, ghost hashes: seq<string>)
      requires Valid()
      modifies this, files
      ensures Valid()
      ensures |hashes| == |files| && exact == ExactGroups(files, hashes)
      ensures Recorded(files, hashes)
      ensures forall k :: 0 <= k < |files| && old(files[k].contentHash).Some? ==> hashes[k] == old(files[k].contentHash).value
      ensures forall f :: f in files ==> f.lineCount == old(f.lineCount) && f.charCount == old(f.charCount)
      ensures forall f :: f in files ==>
        f.similarity == (if InSome(exact, f) then Some(100.0) else old(f.similarity)) &&
        f.matchType == (if InSome(exact, f) then Some("exact") else old(f.matchType))
      ensures forall g :: g in exact ==> ExactGroup(g) && forall x :: x in g ==> x in files
    {
      var keyed;
      keyed, hashes := ReadHashes(files);
      var buckets := BucketBy(keyed, HashKey);
      exact := MarkExact(files, hashes, buckets);
      ExactGroupsShare(files, hashes);
      forall g | g in exact ensures ExactGroup(g) {
        forall x | x in g ensures InSome(exact, x) {
          var p :| 0 <= p < |exact| && exact[p] == g;
        }
      }
    }

    /**
     * `find_duplicates`: no input gives no group. Otherwise the exact
     * groups come first, their records unchanged in identity; the records
     * whose path no exact group holds go, when there are at least two, to
     * the similar phase, whose groups of copies follow. No path of a similar
     * group is the path of a record in an exact group. For every batch the
     * similar phase screened, both paths of each candidate pair whose
     * similarity reaches the threshold are in similar groups, and the batches
     * stop short of the end only after at least nine of them. The records
     * of exact groups are marked 100.0 and "exact"; no other record's
     * similarity or match type changes.
     */
    method FindDuplicates(files: seq<TextFileInfo>)
      returns (duplicates: seq<seq<Member>>, ghost exact: seq<seq<TextFileInfo>>, ghost hashes: seq<string>,
               ghost similar: seq<seq<TextEntry>>, ghost batchEntries: seq<seq<TextEntry>>)
      requires Valid()
      modifies this, files
      ensures Valid()
      ensures files == [] ==> duplicates == []
      ensures duplicates == Originals(exact) + Copies(similar)
      ensures files != [] ==> |hashes| == |files| && exact == ExactGroups(files, hashes)
      ensures forall g :: g in exact ==> ExactGroup(g) && forall x :: x in g ==> x in files
      ensures var remaining := Where(files, Unprocessed(ExactPaths(exact)));
        && (|remaining| < 2 ==> similar == [] && batchEntries == [])
        && TextGroups.GroupPaths(similar) <= TextBatches.FilePaths(TextSelection.PreFiltered(remaining))
        && (forall b :: 0 <= b < |batchEntries| ==>
              && TextBatches.ExtractedFrom(TextBatches.Batch(TextBatches.Batched(TextSelection.PreFiltered(remaining)), b),
                                           oracles, batchEntries[b])
              && TextBatches.Covered(TextBatches.Candidates(batchEntries[b], QuickSimilarityCheck),
                                     TextBatches.SimilarityOf(oracles), threshold, similar))
        && (|remaining| >= 2 && |TextSelection.PreFiltered(remaining)| >= 2 ==>
              50 * |batchEntries| >= |TextBatches.Batched(TextSelection.PreFiltered(remaining))| || |batchEntries| > 8)
      ensures forall g :: g in similar ==> TextBatches.Marked(g, threshold)
      ensures TextGroups.GroupPaths(similar) !! ExactPaths(exact)
      ensures forall f :: f in files ==>
        f.similarity == (if InSome(exact, f) then Some(100.0) else old(f.similarity)) &&
        f.matchType == (if InSome(exact, f) then Some("exact") else old(f.matchType))
    {
      exact, hashes, similar, batchEntries := [], [], [], [];
      if files == [] {
        return [], exact, hashes, similar, batchEntries;
      }
      var exactGroups;
      exactGroups, hashes := FindExactDuplicates(files);
      exact := exactGroups;
      var processed := ProcessedPaths(exactGroups);
      var remaining := Where(files, Unprocessed(processed));
      if |remaining| < 2 {
        return Originals(exactGroups), exact, hashes, similar, batchEntries;
      }
      var similarGroups;
      similarGroups, batchEntries := TextBatches.FindSimilarTexts(remaining, oracles, threshold);
      similar := similarGroups;
      RemainingUnprocessed(files, processed);
      duplicates := Originals(exactGroups) + Copies(similarGroups);
    }

    /** The loop of `find_duplicates` that collects the paths of the exact groups. */
    static method ProcessedPaths(groups: seq<seq<TextFileInfo>>) returns (processed: set<string>)
      ensures processed == ExactPaths(groups)
    {
      processed := {};
      for i := 0 to |groups|
        invariant processed == ExactPaths(groups[..i])
      {
        var group := groups[i];
        var paths := processed;
        for r := 0 to |group|
          invariant paths == processed + TextBatches.FilePaths(group[..r])
        {
          paths := paths + {group[r].path};
          assert group[..r + 1] == group[..r] + [group[r]];
        }
        assert group[..|group|] == group;
        assert groups[..i + 1][..i] == groups[..i];
        processed := paths;
      }
      assert groups[..|groups|] == groups;
    }
  }

  /** A detected encoding the record keeps: None or "" is falsy and keeps nothing. */
  function Usable(encoding: Option<string>): (r: Option<string>)
    ensures r.Some? <==> encoding.Some? && encoding.value != ""
    ensures r.Some? ==> r == encoding
  {
    if encoding.Some? && encoding.value != "" then encoding else None
  }

  // ---------------------------------------------------------------------
  // Exact duplicates
  // ---------------------------------------------------------------------

  /** A record with the content hash `find_exact_duplicates` read for it ("" when it was not kept). */
  type Keyed = (string, TextFileInfo)

  /** The records of `files` paired with the hashes read for them, in input order. */
  function Zip(files: seq<TextFileInfo>, hashes: seq<string>): (z: seq<Keyed>)
    requires |hashes| == |files|
    ensures |z| == |files| && forall k :: 0 <= k < |z| ==> z[k] == (hashes[k], files[k])
  {
    seq(|files|, k requires 0 <= k < |files| => (hashes[k], files[k]))
  }

  function HashKey(p: Keyed): string
  {
    p.0
  }

  /** `if content_hash:`, a non-empty hash. */
  function HasHash(p: Keyed): bool
  {
    p.0 != ""
  }

  function Repeated(g: seq<Keyed>): bool
  {
    |g| > 1
  }

  /** The records of one bucket. */
  function Records(g: seq<Keyed>): (r: seq<TextFileInfo>)
    ensures |r| == |g| && forall j :: 0 <= j < |g| ==> r[j] == g[j].1
  {
    seq(|g|, j requires 0 <= j < |g| => g[j].1)
  }

  function RecordsOf(gs: seq<seq<Keyed>>): (r: seq<seq<TextFileInfo>>)
    ensures |r| == |gs| && forall i :: 0 <= i < |gs| ==> r[i] == Records(gs[i])
  {
    seq(|gs|, i requires 0 <= i < |gs| => Records(gs[i]))
  }

  lemma RecordsOfSnoc(gs: seq<seq<Keyed>>, g: seq<Keyed>)
    ensures RecordsOf(gs + [g]) == RecordsOf(gs) + [Records(g)]
  {
  }

  /** The hash buckets of `hash_groups` with more than one record. */
  function HashGroups(files: seq<TextFileInfo>, hashes: seq<string>): seq<seq<Keyed>>
    requires |hashes| == |files|
  {
    Where(GroupBy(Where(Zip(files, hashes), HasHash), HashKey), Repeated)
  }

  /** The groups `find_exact_duplicates` returns, given the hash read for each record. */
  function ExactGroups(files: seq<TextFileInfo>, hashes: seq<string>): seq<seq<TextFileInfo>>
    requires |hashes| == |files|
  {
    RecordsOf(HashGroups(files, hashes))
  }

  ghost predicate InSome(gs: seq<seq<TextFileInfo>>, f: TextFileInfo)
  {
    exists p :: 0 <= p < |gs| && f in gs[p]
  }

  lemma InSomeSnoc(gs: seq<seq<TextFileInfo>>, g: seq<TextFileInfo>)
    ensures forall f :: InSome(gs + [g], f) <==> InSome(gs, f) || f in g
  {
    forall f ensures InSome(gs + [g], f) <==> InSome(gs, f) || f in g {
      if InSome(gs, f) {
        var p :| 0 <= p < |gs| && f in gs[p];
        assert (gs + [g])[p] == gs[p];
      }
      if f in g {
        assert (gs + [g])[|gs|] == g;
      }
    }
  }

  /**
   * Every bucket returned holds two or more records read with one
   * non-empty hash, each an input record with the hash read for it;
   * different buckets have different hashes.
   */
  lemma HashGroupsSound(files: seq<TextFileInfo>, hashes: seq<string>)
    requires |hashes| == |files|
    ensures var hg := HashGroups(files, hashes);
      forall i :: 0 <= i < |hg| ==>
        && |hg[i]| >= 2 && hg[i][0].0 != ""
        && (forall p :: p in hg[i] ==> p.0 == hg[i][0].0 && p in Zip(files, hashes))
    ensures var hg := HashGroups(files, hashes);
      forall i, j :: 0 <= i < j < |hg| ==> hg[i][0].0 != hg[j][0].0
  {
    var hashed: seq<Keyed> := Where(Zip(files, hashes), HasHash);
    var gs: seq<seq<Keyed>> := GroupBy(hashed, HashKey);
    var hg: seq<seq<Keyed>> := HashGroups(files, hashes);
    WhereMembers(Zip(files, hashes), HasHash);
    WhereMembers(gs, Repeated);
    GroupByShape(hashed, HashKey);
    forall i | 0 <= i < |hg|
      ensures |hg[i]| >= 2 && hg[i][0].0 != ""
      ensures forall p :: p in hg[i] ==> p.0 == hg[i][0].0 && p in Zip(files, hashes)
    {
      var c :| 0 <= c < |gs| && gs[c] == hg[i];
      WithKeyMembers(hashed, HashKey, HashKey(hg[i][0]));
      GroupOf(hashed, HashKey, hg[i], hg[i][0]);
    }
    WhereOrder(gs, Repeated);
  }

  /** The kept elements keep their relative order: two later positions come from two later positions. */
  lemma {:induction false} WhereOrder<T>(s: seq<T>, p: T -> bool)
    ensures forall i, j :: 0 <= i < j < |Where(s, p)| ==>
      exists a, b :: 0 <= a < b < |s| && s[a] == Where(s, p)[i] && s[b] == Where(s, p)[j]
  {
    if s != [] {
      var n := |s| - 1;
      WhereOrder(s[..n], p);
      WhereStep(s, n, p);
      assert s[..n + 1] == s;
      var w, w0 := Where(s, p), Where(s[..n], p);
      assert w == w0 + (if p(s[n]) then [s[n]] else []);
      WhereMembers(s[..n], p);
      forall i, j | 0 <= i < j < |w|
        ensures exists a, b :: 0 <= a < b < |s| && s[a] == w[i] && s[b] == w[j]
      {
        assert w[i] == w0[i];
        if j < |w0| {
          var a, b :| 0 <= a < b < n && s[..n][a] == w0[i] && s[..n][b] == w0[j];
          assert s[a] == w[i] && s[b] == w[j];
          assert 0 <= a < b < |s|;
        } else {
          assert w[j] == s[n];
          var a :| 0 <= a < n && s[..n][a] == w0[i];
          assert s[a] == w[i] && s[n] == w[j] && 0 <= a < n < |s|;
        }
      }
      assert w == Where(s, p);
    } else {
      assert |Where(s, p)| == 0;
    }
  }

  /** Two records read with one non-empty hash share a returned bucket. */
  lemma HashGroupsComplete(files: seq<TextFileInfo>, hashes: seq<string>, k1: nat, k2: nat)
    requires |hashes| == |files| && k1 < k2 < |files| && hashes[k1] == hashes[k2] != ""
    ensures exists i :: 0 <= i < |HashGroups(files, hashes)| && (hashes[k1], files[k1]) in HashGroups(files, hashes)[i] &&
                        (hashes[k2], files[k2]) in HashGroups(files, hashes)[i]
  {
    var z := Zip(files, hashes);
    var hashed: seq<Keyed> := Where(z, HasHash);
    var h := hashes[k1];
    WhereMembers(z, HasHash);
    assert z[k1] in hashed && z[k2] in hashed;
    GroupFor(hashed, HashKey, z[k1]);
    var g := WithKey(hashed, HashKey, h);
    WithKeyMembers(hashed, HashKey, h);
    var b :| 0 <= b < |hashed| && hashed[b] == z[k2];
    WithKeyContains(hashed, HashKey, b);
    WhereTwice(z, HasHash, HasKey(HashKey, h), k1, k2);
    assert Repeated(g);
    var gs: seq<seq<Keyed>> := GroupBy(hashed, HashKey);
    var c :| 0 <= c < |gs| && gs[c] == g;
    WhereMembers(gs, Repeated);
    var d :| 0 <= d < |HashGroups(files, hashes)| && HashGroups(files, hashes)[d] == g;
  }

  /** What an exact group carries once `find_exact_duplicates` returns. */
  ghost predicate ExactGroup(g: seq<TextFileInfo>)
    reads g
  {
    && |g| >= 2 && g[0].contentHash.Some? && g[0].contentHash.value != ""
    && forall x :: x in g ==> x.contentHash == g[0].contentHash && x.similarity == Some(100.0) && x.matchType == Some("exact")
  }

  /** The hash recorded for a record is its content hash. */
  ghost predicate Recorded(files: seq<TextFileInfo>, hashes: seq<string>)
    reads files
  {
    forall k :: 0 <= k < |files| && k < |hashes| && hashes[k] != "" ==> files[k].contentHash == Some(hashes[k])
  }

  /** With the hashes recorded, each bucket's records share one non-empty content hash. */
  lemma ExactGroupsShare(files: seq<TextFileInfo>, hashes: seq<string>)
    requires |hashes| == |files| && Recorded(files, hashes)
    ensures forall g: seq<TextFileInfo> :: g in ExactGroups(files, hashes) ==>
      && |g| >= 2 && g[0].contentHash.Some? && g[0].contentHash.value != ""
      && forall x :: x in g ==> x in files && x.contentHash == g[0].contentHash
  {
    var hg: seq<seq<Keyed>> := HashGroups(files, hashes);
    var z: seq<Keyed> := Zip(files, hashes);
    HashGroupsSound(files, hashes);
    forall g: seq<TextFileInfo> | g in ExactGroups(files, hashes)
      ensures |g| >= 2 && g[0].contentHash.Some? && g[0].contentHash.value != ""
      ensures forall x :: x in g ==> x in files && x.contentHash == g[0].contentHash
    {
      var i :| 0 <= i < |hg| && ExactGroups(files, hashes)[i] == g;
      var h := hg[i][0].0;
      forall r | 0 <= r < |g| ensures g[r] in files && g[r].contentHash == Some(h) {
        assert hg[i][r] in hg[i];
        var k :| 0 <= k < |z| && z[k] == hg[i][r];
        assert g[r] == files[k] && hashes[k] == h;
      }
      assert g[0].contentHash == Some(h);
    }
  }

  lemma ZipSnoc(files: seq<TextFileInfo>, hashes: seq<string>, k: nat, hash: string)
    requires k < |files| && |hashes| == k
    ensures Zip(files[..k + 1], hashes + [hash]) == Zip(files[..k], hashes) + [(hash, files[k])]
  {
  }

  /** Every bucket holds input records. */
  lemma BucketRecords(files: seq<TextFileInfo>, hashes: seq<string>)
    requires |hashes| == |files|
    ensures var gs := GroupBy(Where(Zip(files, hashes), HasHash), HashKey);
      forall i, p :: 0 <= i < |gs| && p in gs[i] ==> p.1 in files
  {
    var z := Zip(files, hashes);
    var hashed: seq<Keyed> := Where(z, HasHash);
    var gs: seq<seq<Keyed>> := GroupBy(hashed, HashKey);
    WhereMembers(z, HasHash);
    forall i, p | 0 <= i < |gs| && p in gs[i] ensures p.1 in files {
      GroupOf(hashed, HashKey, gs[i], p);
      WithKeyMembers(hashed, HashKey, HashKey(p));
      var k :| 0 <= k < |z| && z[k] == p;
    }
  }

  /** The fields loading the details leaves alone. */
  function Rest(f: TextFileInfo): (Option<int>, Option<int>, Option<real>, Option<string>)
    reads f
  {
    (f.lineCount, f.charCount, f.similarity, f.matchType)
  }

  /** What `ReadHashes` knows after the first `k` records. */
  ghost predicate ReadUpTo(files: seq<TextFileInfo>, k: nat, keyed: seq<Keyed>, hashes: seq<string>,
                           initial: seq<Option<string>>, rest: seq<(Option<int>, Option<int>, Option<real>, Option<string>)>)
    reads files
  {
    && k <= |files| == |initial| == |rest|
    && |hashes| == k && keyed == Where(Zip(files[..k], hashes), HasHash)
    && (forall j :: 0 <= j < k && hashes[j] != "" ==> files[j].contentHash == Some(hashes[j]))
    && (forall j :: 0 <= j < k && initial[j].Some? ==> hashes[j] == initial[j].value)
    && (forall j :: 0 <= j < |files| && initial[j].Some? ==> files[j].contentHash == initial[j])
    && (forall j :: 0 <= j < |files| ==> Rest(files[j]) == rest[j])
  }

  /**
   * A member of a returned group: an exact group holds the input records
   * themselves, a similar group holds the copies the similar phase made.
   */
  datatype Member = Original(info: TextFileInfo) | Copy(entry: TextEntry)

  function Originals(gs: seq<seq<TextFileInfo>>): seq<seq<Member>>
  {
    seq(|gs|, i requires 0 <= i < |gs| => seq(|gs[i]|, j requires 0 <= j < |gs[i]| => Original(gs[i][j])))
  }

  function Copies(gs: seq<seq<TextEntry>>): seq<seq<Member>>
  {
    seq(|gs|, i requires 0 <= i < |gs| => seq(|gs[i]|, j requires 0 <= j < |gs[i]| => Copy(gs[i][j])))
  }

  /** The paths of the records of the exact groups, group by group. */
  function ExactPaths(gs: seq<seq<TextFileInfo>>): set<string>
  {
    if gs == [] then {} else ExactPaths(gs[..|gs| - 1]) + TextBatches.FilePaths(gs[|gs| - 1])
  }

  /** `f['path'] not in processed_paths`. */
  function Unprocessed(processed: set<string>): TextFileInfo -> bool
  {
    (f: TextFileInfo) => f.path !in processed
  }

  /** The similar phase sees no processed path. */
  lemma RemainingUnprocessed(files: seq<TextFileInfo>, processed: set<string>)
    ensures TextBatches.FilePaths(TextSelection.PreFiltered(Where(files, Unprocessed(processed)))) !! processed
  {
    var remaining := Where(files, Unprocessed(processed));
    WhereMembers(files, Unprocessed(processed));
    forall x | x in TextSelection.PreFiltered(remaining) ensures x.path !in processed {
      TextSelection.PreFilteredMembers(remaining, x);
      var i :| 0 <= i < |remaining| && remaining[i] == x;
    }
  }
}
