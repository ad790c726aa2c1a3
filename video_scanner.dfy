/**
 * The video scanner (src/scanner/video_scanner.py): the video-file test,
 * the metadata read through OpenCV, the record built for each file, and the
 * order-preserving size and duration filters. Walking a directory and
 * opening a capture are outside the model; their outcomes are parameters.
 */
module VideoScanner {
  import opened Basics
  import opened PathNames
  import opened Grouping

  const SupportedFormats: set<string> :=
    {".mp4", ".avi", ".mkv", ".mov", ".wmv", ".flv", ".webm", ".m4v", ".3gp", ".asf", ".rm", ".rmvb"}

  /** `is_video_file`: the lower-cased pathlib suffix of the name is a supported format. */
  function IsVideoFile(name: string): (r: bool)
    ensures r ==> 0 < RFind(name, '.') < |name| - 1
  {
    Lower(Suffix(name)) in SupportedFormats
  }

  /** An upper-case suffix is accepted; a dot-file such as `.mp4` has no suffix. */
  lemma IsVideoFileExamples()
    ensures IsVideoFile("clip.MP4")
    ensures !IsVideoFile(".mp4")
  {
    RFindAt("clip.MP4", '.', 4);
    assert Suffix("clip.MP4") == ".MP4";
    assert Lower(".MP4") == ".mp4";
    RFindAt(".mp4", '.', 0);
    assert Suffix(".mp4") == [];
  }

  /**
   * One video file. Path, name and the scanned metadata never change; the
   * detector attaches a `similarity` to the record in place.
   */
  class VideoFile {
    const path: string
    const name: string
    const size: int
    const mtime: real
    const extension: string
    const width: int
    const height: int
    const duration: real
    const fps: real
    const frameCount: int
    var similarity: Option<real>

    constructor(path: string, size: int, mtime: real, meta: Metadata)
      ensures this.path == path && name == BaseName(path) && extension == Lower(Suffix(BaseName(path)))
      ensures this.size == size && this.mtime == mtime
      ensures width == meta.width && height == meta.height && duration == meta.duration
      ensures fps == meta.fps && frameCount == meta.frameCount
      ensures similarity == None
    {
      this.path := path;
      name := BaseName(path);
      extension := Lower(Suffix(BaseName(path)));
      this.size := size;
      this.mtime := mtime;
      width := meta.width;
      height := meta.height;
      duration := meta.duration;
      fps := meta.fps;
      frameCount := meta.frameCount;
      similarity := None;
    }

    /** `file_info.copy()` followed by setting `similarity`. */
    constructor Copy(f: VideoFile, similarity: real)
      ensures path == f.path && name == f.name && extension == f.extension
      ensures size == f.size && mtime == f.mtime
      ensures width == f.width && height == f.height && duration == f.duration
      ensures fps == f.fps && frameCount == f.frameCount
      ensures this.similarity == Some(similarity)
    {
      path := f.path;
      name := f.name;
      extension := f.extension;
      size := f.size;
      mtime := f.mtime;
      width := f.width;
      height := f.height;
      duration := f.duration;
      fps := f.fps;
      frameCount := f.frameCount;
      this.similarity := Some(similarity);
    }
  }

  /** The video metadata fields of a record. */
  datatype Metadata = Metadata(width: int, height: int, duration: real, fps: real, frameCount: int)

  /** The raw properties an opened capture reports (all floats in OpenCV). */
  datatype CaptureProps = CaptureProps(width: real, height: real, fps: real, frameCount: real)

  /**
   * `get_video_metadata`: all fields 0 unless the capture opens; then width,
   * height and frame count are truncated to int, and the duration is
   * frame count / fps only when fps is positive.
   */
  function GetVideoMetadata(capture: Option<CaptureProps>): (m: Metadata)
    ensures capture.None? ==> m == Metadata(0, 0, 0.0, 0.0, 0)
  {
    match capture
    case None => Metadata(0, 0, 0.0, 0.0, 0)
    case Some(c) =>
      var frameCount := TruncToInt(c.frameCount);
      var duration := if c.fps > 0.0 then frameCount as real / c.fps else 0.0;
      Metadata(TruncToInt(c.width), TruncToInt(c.height), duration, c.fps, frameCount)
  }

  /**
   * The duration is set only from a positive frame rate and a non-zero frame
   * count, and then it times the frame rate gives back the frame count; a
   * non-negative frame count gives a non-negative duration.
   */
  lemma MetadataDuration(capture: Option<CaptureProps>)
    ensures var m := GetVideoMetadata(capture);
      && (m.duration != 0.0 ==> m.fps > 0.0 && m.frameCount != 0)
      && (capture.Some? && capture.value.fps > 0.0 ==> m.duration * m.fps == m.frameCount as real)
      && (capture.Some? && capture.value.frameCount >= 0.0 ==> m.duration >= 0.0 && m.frameCount >= 0)
  {
  }

  /**
   * `get_video_info`: no record when the file cannot be inspected (`stat` is
   * the size and mtime, or None); otherwise path, name, size, mtime and the
   * lower-cased suffix, updated with the metadata.
   */
  method GetVideoInfo(path: string, stat: Option<(int, real)>, capture: Option<CaptureProps>)
    returns (r: Option<VideoFile>)
    ensures r.Some? <==> stat.Some?
    ensures r.Some? ==> fresh(r.value) && r.value.path == path && r.value.size == stat.value.0
    ensures r.Some? ==> r.value.similarity == None && r.value.duration == GetVideoMetadata(capture).duration
    ensures r.Some? ==> r.value.name == BaseName(path) && r.value.mtime == stat.value.1
    ensures r.Some? ==> r.value.extension == Lower(Suffix(BaseName(path)))
    ensures r.Some? ==> var m := GetVideoMetadata(capture);
      && r.value.width == m.width && r.value.height == m.height
      && r.value.fps == m.fps && r.value.frameCount == m.frameCount
  {
    if stat.None? {
      return None;
    }
    var f := new VideoFile(path, stat.value.0, stat.value.1, GetVideoMetadata(capture));
    return Some(f);
  }

  /** One entry the recursive walk yields: its path, whether it is a regular file, its stat and its capture. */
  datatype Entry = Entry(path: string, isFile: bool, stat: Option<(int, real)>, capture: Option<CaptureProps>)

  /** An entry that becomes a record: a regular file with a video suffix that could be inspected. */
  function Accepted(e: Entry): bool
  {
    e.isFile && IsVideoFile(BaseName(e.path)) && e.stat.Some?
  }

  /**
   * `scan_directory`: nothing for a missing directory; otherwise one fresh
   * record per accepted entry of the walk, in walk order.
   */
  method ScanDirectory(present: bool, entries: seq<Entry>) returns (videos: seq<VideoFile>)
    ensures !present ==> videos == []
    ensures present ==> |videos| == |Where(entries, Accepted)|
    ensures present ==> forall i :: 0 <= i < |videos| ==>
      fresh(videos[i]) && ScannedFrom(videos[i], Where(entries, Accepted)[i])
  {
    videos := [];
    if !present {
      return;
    }
    for k := 0 to |entries|
      invariant Records(videos, Where(entries[..k], Accepted))
      invariant forall i :: 0 <= i < |videos| ==> fresh(videos[i])
    {
      var before := videos;
      videos := ScanEntry(entries, k, videos);
      forall i | 0 <= i < |videos|
        ensures fresh(videos[i])
      {
        if i < |before| {
          assert videos[i] == before[i];
        }
      }
    }
    assert entries[..|entries|] == entries;
  }

  /** One entry of the walk: a record is made for it when it is a regular video file that could be inspected. */
  method ScanEntry(entries: seq<Entry>, k: nat, videos: seq<VideoFile>) returns (videos': seq<VideoFile>)
    requires k < |entries| && Records(videos, Where(entries[..k], Accepted))
    ensures Records(videos', Where(entries[..k + 1], Accepted))
    ensures |videos| <= |videos'| && videos'[..|videos|] == videos
    ensures forall i :: |videos| <= i < |videos'| ==> fresh(videos'[i])
  {
    var e := entries[k];
    var info: Option<VideoFile> := None;
    if e.isFile && IsVideoFile(BaseName(e.path)) {
      info := GetVideoInfo(e.path, e.stat, e.capture);
    }
    assert info.Some? <==> Accepted(e);
    RecordsStep(entries, k, videos, Accepted, info);
    videos' := videos + if info.Some? then [info.value] else [];
  }

  /**
   * The record `get_video_info` makes for an entry that could be inspected:
   * its path, name, size, mtime, lower-cased suffix, the capture's metadata
   * and no similarity.
   */
  ghost predicate ScannedFrom(v: VideoFile, e: Entry)
    reads v
  {
    var m := GetVideoMetadata(e.capture);
    && e.stat.Some?
    && v.path == e.path && v.name == BaseName(e.path) && v.extension == Lower(Suffix(BaseName(e.path)))
    && v.size == e.stat.value.0 && v.mtime == e.stat.value.1
    && v.width == m.width && v.height == m.height && v.duration == m.duration
    && v.fps == m.fps && v.frameCount == m.frameCount
    && v.similarity == None
  }

  /** The records made so far, one per accepted entry, each the record made from that entry. */
  ghost predicate Records(videos: seq<VideoFile>, accepted: seq<Entry>)
    reads videos
  {
    && |videos| == |accepted|
    && forall i :: 0 <= i < |videos| ==> ScannedFrom(videos[i], accepted[i])
  }

  lemma RecordsStep(entries: seq<Entry>, k: nat, videos: seq<VideoFile>, accept: Entry -> bool, made: Option<VideoFile>)
    requires k < |entries| && Records(videos, Where(entries[..k], accept))
    requires made.Some? <==> accept(entries[k])
    requires made.Some? ==> ScannedFrom(made.value, entries[k])
    ensures Records(videos + if made.Some? then [made.value] else [], Where(entries[..k + 1], accept))
  {
    WhereStep(entries, k, accept);
    var accepted := Where(entries[..k], accept);
    if made.Some? {
      var vs, acc := videos + [made.value], accepted + [entries[k]];
      assert Where(entries[..k + 1], accept) == acc;
      forall i | 0 <= i < |vs|
        ensures ScannedFrom(vs[i], acc[i])
      {
        if i < |videos| {
          assert vs[i] == videos[i] && acc[i] == accepted[i];
        }
      }
    } else {
      assert videos + [] == videos;
    }
  }

  /** `scan_multiple_directories`: the per-directory results (`scan` is the walk) concatenated in argument order. */
  method ScanMultipleDirectories(directories: seq<string>, scan: string -> seq<VideoFile>)
    returns (all: seq<VideoFile>)
    ensures all == Flatten(seq(|directories|, i requires 0 <= i < |directories| => scan(directories[i])))
    ensures forall i, f :: 0 <= i < |directories| && f in scan(directories[i]) ==> f in all
  {
    ghost var parts := seq(|directories|, i requires 0 <= i < |directories| => scan(directories[i]));
    all := [];
    for k := 0 to |directories|
      invariant all == Flatten(parts[..k])
    {
      FlattenPrefix(parts, k);
      all := all + scan(directories[k]);
    }
    assert parts[..|directories|] == parts;
    forall i, f | 0 <= i < |directories| && f in scan(directories[i]) ensures f in all {
      FlattenMember(parts, f);
      assert f in parts[i];
    }
  }

  /** The size filter's test; a record always carries its size. */
  function SizeWithin(minSize: int, maxSize: Option<int>): VideoFile -> bool
  {
    (f: VideoFile) => minSize <= f.size && (maxSize.None? || f.size <= maxSize.value)
  }

  /** `filter_by_size`: the records within [minSize, maxSize] (no upper bound when None), in input order. */
  method FilterBySize(files: seq<VideoFile>, minSize: int, maxSize: Option<int>) returns (filtered: seq<VideoFile>)
    ensures filtered == Where(files, SizeWithin(minSize, maxSize))
    ensures forall f :: f in filtered ==> f in files && minSize <= f.size && (maxSize.None? || f.size <= maxSize.value)
    ensures forall i :: 0 <= i < |files| && SizeWithin(minSize, maxSize)(files[i]) ==> files[i] in filtered
  {
    filtered := [];
    for k := 0 to |files|
      invariant filtered == Where(files[..k], SizeWithin(minSize, maxSize))
    {
      WhereStep(files, k, SizeWithin(minSize, maxSize));
      var fileSize := files[k].size;
      if fileSize < minSize {
        continue;
      }
      if maxSize.Some? && fileSize > maxSize.value {
        continue;
      }
      filtered := filtered + [files[k]];
    }
    assert files[..|files|] == files;
    WhereMembers(files, SizeWithin(minSize, maxSize));
  }

  /** The duration filter's test; a record always carries its duration. */
  function DurationWithin(minDuration: real, maxDuration: Option<real>): VideoFile -> bool
  {
    (f: VideoFile) => minDuration <= f.duration && (maxDuration.None? || f.duration <= maxDuration.value)
  }

  /** `filter_by_duration`: the records within [minDuration, maxDuration] (no upper bound when None), in input order. */
  method FilterByDuration(files: seq<VideoFile>, minDuration: real, maxDuration: Option<real>)
    returns (filtered: seq<VideoFile>)
    ensures filtered == Where(files, DurationWithin(minDuration, maxDuration))
    ensures forall f :: f in filtered ==>
      f in files && minDuration <= f.duration && (maxDuration.None? || f.duration <= maxDuration.value)
    ensures forall i :: 0 <= i < |files| && DurationWithin(minDuration, maxDuration)(files[i]) ==> files[i] in filtered
  {
    filtered := [];
    for k := 0 to |files|
      invariant filtered == Where(files[..k], DurationWithin(minDuration, maxDuration))
    {
      WhereStep(files, k, DurationWithin(minDuration, maxDuration));
      var duration := files[k].duration;
      if duration < minDuration {
        continue;
      }
      if maxDuration.Some? && duration > maxDuration.value {
        continue;
      }
      filtered := filtered + [files[k]];
    }
    assert files[..|files|] == files;
    WhereMembers(files, DurationWithin(minDuration, maxDuration));
  }
}
