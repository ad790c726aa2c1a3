/**
 * The image scanner (src/scanner/image_scanner.py): which files count as
 * images, how many workers read them, and the record built for each file.
 * The directory walk itself and PIL/OpenCV decoding are outside the model;
 * their outcomes are parameters.
 */
module ImageScanner {
  import opened Basics
  import opened PathNames

  const SupportedExtensions: set<string> :=
    {".jpg", ".jpeg", ".png", ".bmp", ".gif", ".tiff", ".tif",
     ".webp", ".svg", ".heic", ".heif", ".jp2", ".j2k", ".dng"}

  /** The image scanner's test: the `os.path.splitext` extension of the lower-cased name. */
  function IsImageFile(filename: string): (r: bool)
    ensures r ==> exists e :: e in SupportedExtensions && |e| <= |filename|
                             && Lower(filename)[|filename| - |e|..] == e
  {
    var ext := SplitExt(Lower(filename)).1;
    assert Lower(filename) == SplitExt(Lower(filename)).0 + ext;
    ext in SupportedExtensions
  }

  /** Upper-case extensions are accepted. */
  lemma UpperCaseImageAccepted()
    ensures IsImageFile("a.PNG")
  {
    assert Lower("a.PNG") == "a.png";
    RFindAt("a.png", '.', 1);
    assert RFind("a.png", '/') == -1;
    assert !AllDots("a.png", 0, 1) by { assert "a.png"[0] == 'a'; }
    assert "a.png"[1..] == ".png";
    assert SplitExt("a.png").1 == ".png";
  }

  /** A dot-file such as `.png` has no extension, so it is not an image. */
  lemma DotFileRejected()
    ensures !IsImageFile(".png")
  {
    assert Lower(".png") == ".png";
    assert RFind(".png", '/') == -1;
    RFindAt(".png", '.', 0);
    assert SplitExt(".png").1 == [];
  }

  /** Only the last extension counts. */
  lemma LastExtensionCounts()
    ensures !IsImageFile("photo.png.txt")
  {
    assert Lower("photo.png.txt") == "photo.png.txt";
    RFindAt("photo.png.txt", '.', 9);
    assert RFind("photo.png.txt", '/') == -1;
    assert !AllDots("photo.png.txt", 0, 9) by { assert "photo.png.txt"[0] == 'p'; }
    assert "photo.png.txt"[9..] == ".txt";
    assert SplitExt("photo.png.txt").1 == ".txt";
  }

  /** `min(8, n // 10 + 1)` worker threads for n paths, or 1 when there are none. */
  function WorkerCount(n: nat): (r: nat)
    ensures 1 <= r <= 8
    ensures n < 70 ==> r == n / 10 + 1
  {
    if n > 0 then Min(8, n / 10 + 1) else 1
  }

  /** Width, height and format as read by PIL, or by OpenCV when PIL fails. */
  datatype Dimensions = Dimensions(width: int, height: int, format: string)

  /** The record of one image: `width`, `height` and `format` are present only when decoding succeeded. */
  datatype ImageInfo = ImageInfo(path: string, name: string, size: int, mtime: real, dims: Option<Dimensions>)
  {
    /** `file_info.get('width', 0)`. */
    function Width(): int { if dims.Some? then dims.value.width else 0 }
    /** `file_info.get('height', 0)`. */
    function Height(): int { if dims.Some? then dims.value.height else 0 }
  }

  /** What the file system reports for a path: its size and modification time, or an error. */
  datatype Stat = Stat(size: int, mtime: real)

  /**
   * `_get_image_info`: no record when the file cannot be inspected or is
   * larger than `maxFileSize`; otherwise path, base name, size and mtime,
   * with dimensions from PIL (`pil`) or else OpenCV (`cv`, as width and height).
   */
  function GetImageInfo(path: string, stat: Option<Stat>, pil: Option<Dimensions>,
                        cv: Option<(int, int)>, maxFileSize: int): (r: Option<ImageInfo>)
    ensures r.Some? <==> stat.Some? && stat.value.size <= maxFileSize
    ensures r.Some? ==> r.value.path == path && r.value.name == BaseName(path)
                        && r.value.size == stat.value.size && r.value.mtime == stat.value.mtime
    ensures r.Some? ==> (r.value.dims.Some? <==> pil.Some? || cv.Some?)
    ensures r.Some? && pil.Some? ==> r.value.dims == pil
    ensures r.Some? && pil.None? && cv.Some? ==> r.value.dims == Some(Dimensions(cv.value.0, cv.value.1, "OpenCV"))
  {
    match stat
    case None => None
    case Some(st) =>
      if st.size > maxFileSize then None
      else
        var dims :=
          if pil.Some? then pil
          else if cv.Some? then Some(Dimensions(cv.value.0, cv.value.1, "OpenCV"))
          else None;
        Some(ImageInfo(path, BaseName(path), st.size, st.mtime, dims))
  }

  /** The records kept from per-path results: the present ones, in order. */
  function Present(results: seq<Option<ImageInfo>>): (r: seq<ImageInfo>)
    ensures |r| <= |results|
  {
    if results == [] then []
    else
      var n := |results| - 1;
      var r0 := Present(results[..n]);
      if results[n].Some? then r0 + [results[n].value] else r0
  }

  /** A record is kept exactly when some path produced it. */
  lemma {:induction false} PresentMembers(results: seq<Option<ImageInfo>>, x: ImageInfo)
    ensures x in Present(results) <==> Some(x) in results
  {
    if results != [] {
      var n := |results| - 1;
      PresentMembers(results[..n], x);
      assert results == results[..n] + [results[n]];
    }
  }

  /**
   * `_parallel_get_image_info` with the per-path results taken in submission
   * order: keeps each record that was produced and reports the progress
   * after each path. Returns the records and the reported percentages.
   */
  method ParallelGetImageInfo(results: seq<Option<ImageInfo>>, totalFiles: nat)
    returns (files: seq<ImageInfo>, progress: seq<int>)
    ensures files == Present(results)
    ensures totalFiles > 0 ==> |progress| == |results|
    ensures totalFiles == 0 ==> progress == []
    ensures forall k :: 0 <= k < |progress| ==> 10 <= progress[k] <= 90
    ensures forall k, l :: 0 <= k < l < |progress| ==> progress[k] <= progress[l]
  {
    files := [];
    progress := [];
    for i := 0 to |results|
      invariant files == Present(results[..i])
      invariant totalFiles > 0 ==> |progress| == i
      invariant totalFiles == 0 ==> progress == []
      invariant forall k :: 0 <= k < |progress| ==> 10 <= progress[k] <= 90
      invariant totalFiles > 0 ==> forall k :: 0 <= k < |progress| ==> progress[k] == ScanProgress(k + 1, totalFiles)
      invariant forall k, l :: 0 <= k < l < |progress| ==> progress[k] <= progress[l]
    {
      assert results[..i + 1][..i] == results[..i];
      if results[i].Some? {
        files := files + [results[i].value];
      }
      if totalFiles > 0 {
        var pct := ScanProgress(i + 1, totalFiles);
        forall k | 0 <= k < |progress| ensures progress[k] <= pct {
          ScanProgressMonotone(k + 1, i + 1, totalFiles);
        }
        progress := progress + [pct];
      }
    }
    assert results[..|results|] == results;
  }
}
