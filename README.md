# DupFinder core, modelled in Dafny

DupFinder scans directories for text, image and video files, finds duplicate
groups among them, and then moves, copies or deletes the duplicates. This project
models the part of DupFinder that decides things:

- **Scanners.** Which files they accept, which directories they walk, the records
  they build, and how text records get their details filled in later.
- **Detectors.** How the three detectors bucket, screen, compare and group files:
  - text: exact hash groups, then a pre-filter, a smart selection, batched quick
    screening, and a depth-first search over a similarity graph;
  - video: two-level metadata buckets and a greedy grouping on frame hashes;
  - image: metadata buckets and a greedy grouping on a pair of 64-bit hashes.

  As written, the text detector's similar phase never yields a group: the
  similarity graph is keyed by unhashable records, and the resulting
  `TypeError` is caught (see Findings). The model states that code in
  `TextGroups.DetailedSimilarityCheckAsWritten`; the batch and pipeline
  members above it run on the corrected `TextGroups.DetailedSimilarityCheck`.
- **File processor.** How it names targets and counts what it handled.
- **Configuration store.** Defaults, overlay, get/set/update/reset.

Each core file of the repository becomes one module:

| module | models |
|---|---|
| `Configuration` | `src/utils/config.py` |
| `FileProcessing` | `src/processor/file_processor.py` |
| `TextScanner` | `src/scanner/text_scanner.py` |
| `ImageScanner` | `src/scanner/image_scanner.py` |
| `VideoScanner` | `src/scanner/video_scanner.py` |
| `ImageDetector` | `src/detector/image_duplicate_detector.py` |
| `VideoDetector` | `src/detector/duplicate_detector.py` |

The text detector, `src/detector/text_duplicate_detector.py`, is split along its
phases:

| module | phase |
|---|---|
| `TextDetector` | the detector object, the exact phase, encoding detection, the hash cache |
| `TextSelection` | the pre-filter and the smart selection |
| `TextFeatures` | the lightweight feature extraction |
| `TextSimilarity` | the quick, name, fast-text, sampled and detailed similarities |
| `TextBatches` | pre-screening and the batch loop |
| `TextGroups` | the similarity graph and the depth-first search |

Four modules are shared:

| module | holds |
|---|---|
| `Basics` | truncation to int, the scan progress formula |
| `PathNames` | lower-casing, `rfind`, `basename`, pathlib `suffix`/`stem`, `os.path.splitext`, `str(n)` |
| `Grouping` | `defaultdict(list)` bucketing as first-occurrence `GroupBy`, filtering, flattening, a stable sort |
| `Greedy` | the anchor-and-later-candidates grouping loop shared by the image and video detectors |

Objects whose fields the source updates in place are classes:
- the configuration store;
- the file processor over a disk;
- the text scanner's shared extension registry;
- text file records, whose encoding, hash, similarity and match type are filled in later;
- video file records, whose similarity is set on the anchor in place;
- the text and image detectors, with their caches.

Records the source only copies are datatypes:
- the text entries of the similar phase;
- image records.

Loops that update variables are methods with invariants, proved against specification functions:
- the naming loop;
- the bucketing loops;
- the greedy loops;
- the batch loop;
- the depth-first search;
- the line bookkeeping of the feature extraction.

Foreign code is a parameter of the method that calls it:
- file system calls;
- MD5;
- chardet;
- OpenCV and PIL;
- imagehash;
- `difflib.SequenceMatcher`;
- the `\w` regex;
- reading a file's text.

Thread pools are modelled as processing their items in submission order.

## Model

| member | source | states |
|---|---|---|
| Configuration.Lookup | src/utils/config.py:77 | The value stored under a present key, else the given default. |
| Configuration.UpdateOverrides | src/utils/config.py:96 | After `dict.update(other)` every key of `other` maps to its value there and every other key keeps its value; the key set is the union. |
| Configuration.StartupKeys | src/utils/config.py:44-55 | The store built at start-up holds every default key, with the loaded value where the file supplied one. |
| Configuration.DefaultValues | src/utils/config.py:16-27 | The defaults hold the similarity threshold 80, the video formats and the processing mode the rest of the program starts from. |
| Configuration.Config.constructor | src/utils/config.py:29-45 | The store is the defaults overlaid with the loaded file; with no loadable file it is exactly the defaults. |
| Configuration.Config.LoadConfig | src/utils/config.py:47-55 | A successful load overlays the loaded keys on the store; a failed load leaves it unchanged. |
| Configuration.Config.Get | src/utils/config.py:66-77 | Returns the stored value when the key is present, otherwise the caller's default. |
| Configuration.Config.Set | src/utils/config.py:79-87 | Afterwards the key reads back the value and every other key reads as before. |
| Configuration.Config.Update | src/utils/config.py:89-96 | Exactly the keys of the argument take its values; all other keys keep theirs. |
| Configuration.Config.ResetToDefault | src/utils/config.py:98-100 | Afterwards the store equals the defaults. |
| Configuration.Config.GetAll | src/utils/config.py:102-104 | Returns a copy equal to the store; the store is unchanged. |
| FileProcessing.CandidateInjective | src/processor/file_processor.py:82-88 | Different counters give different `stem_counter+suffix` names. |
| FileProcessing.FirstFree | src/processor/file_processor.py:82-88 | The counter found is the least one at or after the start whose name does not exist. |
| FileProcessing.Target | src/processor/file_processor.py:79-88 | The target name does not exist, and every name tried before it does. |
| FileProcessing.BackupFolder | src/processor/file_processor.py:62-65 | The argument's folder when it is non-empty, otherwise the processor's own; None only when both are empty, which is the ValueError case. |
| FileProcessing.Placed | src/processor/file_processor.py:91-92 | Moving or copying puts the file under a name that did not exist, with its size. A move frees the source and a copy keeps it. No other path changes. |
| FileProcessing.SuccessiveTargets | src/processor/file_processor.py:73-93 | Two files handled in one call never land on the same name, even with equal names, because the second name is chosen after the first file is placed. |
| FileProcessing.DiscardRemoves | src/processor/file_processor.py:36-49 | With no path repeated, exactly the existing, non-refused paths are removed from the disk. |
| FileProcessing.DiscardCount | src/processor/file_processor.py:111-124 | The count is the number of those paths, so it never exceeds the number of paths given. |
| FileProcessing.TotalSizeAppend | src/processor/file_processor.py:181-190 | The total over a concatenation is the sum of the totals. |
| FileProcessing.TotalSizeOfExisting | src/processor/file_processor.py:183-186 | Missing paths add nothing: the total equals the total of the existing paths that validation returns. |
| FileProcessing.TotalSizeNonNegative | src/processor/file_processor.py:171-190 | The total size is never negative. |
| FileProcessing.ValidatePartition | src/processor/file_processor.py:208-227 | Each path lands in exactly one of existing or missing. Both keep input order, and nothing is lost or added. |
| FileProcessing.ValidateCounts | src/processor/file_processor.py:208-227 | The two lists' lengths add up to the number of paths given. |
| FileProcessing.FileProcessor.constructor | src/processor/file_processor.py:17-24 | The processor starts with the given backup folder over the given disk. |
| FileProcessing.FileProcessor.FreeName | src/processor/file_processor.py:82-88 | The naming loop returns the target name: one that does not exist on the current disk, after every earlier name was found to exist. |
| FileProcessing.FileProcessor.ApplyOne | src/processor/file_processor.py:38-47 | One path: the disk and count after it equal the per-path specification (missing or refused paths change nothing and are not counted). |
| FileProcessing.FileProcessor.ApplyEach | src/processor/file_processor.py:36-49 | The final disk and the returned count are those of applying the action to every path in order. |
| FileProcessing.ApplyAll | src/processor/file_processor.py:38-47 | The per-path loop never counts more paths than it is given. |
| FileProcessing.FileProcessor.MoveToTrash | src/processor/file_processor.py:26-49 | Returns the number of existing paths sent to the recycle bin; the disk loses exactly those. |
| FileProcessing.FileProcessor.MoveToBackup | src/processor/file_processor.py:51-99 | With no folder, an error and no change. Otherwise each existing file moves to its free name in the folder and the count of moves is returned. |
| FileProcessing.FileProcessor.DeletePermanently | src/processor/file_processor.py:101-124 | Returns the number of existing paths removed; the disk loses exactly those. |
| FileProcessing.FileProcessor.CopyToFolder | src/processor/file_processor.py:126-169 | Each existing file is copied to its free name in the folder, sources stay, and the count is returned. |
| FileProcessing.FileProcessor.GetTotalSize | src/processor/file_processor.py:171-190 | Returns the summed size of the existing paths, each occurrence counted; the disk is unchanged. |
| FileProcessing.FileProcessor.ValidateFiles | src/processor/file_processor.py:208-227 | Returns the existing and the missing paths, each in input order, as the partition above. |
| PathNames.Lower | src/scanner/video_scanner.py:65 | Same length as the input; ASCII letters A-Z are lowered one for one and every other character is kept. Python's Unicode lower-casing is not modelled (see Left out). |
| PathNames.LowerIdempotent | src/scanner/text_scanner.py:101-102 | Lower-casing twice is lower-casing once. |
| PathNames.RFind | src/detector/text_duplicate_detector.py:751-752 | -1, or the index of the last occurrence of the character: no later index holds it. |
| PathNames.RFindAt | src/detector/text_duplicate_detector.py:751-752 | An occurrence with no later occurrence is the one `rfind` returns. |
| PathNames.BaseName | src/scanner/video_scanner.py:82 | The result is a separator-free tail of the path. |
| PathNames.Suffix | src/scanner/video_scanner.py:65 | Empty, or a dot followed by at least one dot-free character, and shorter than the name. It is empty exactly when the last dot is the first or the last character. |
| PathNames.StemSuffix | src/processor/file_processor.py:85-87 | Stem followed by suffix gives back the name, and a non-empty name has a non-empty stem. |
| PathNames.Stem | src/processor/file_processor.py:85-87 | The stem followed by the suffix gives back the name; a non-empty name has a non-empty stem. |
| PathNames.SplitExt | src/scanner/image_scanner.py:100-101 | Root followed by extension gives back the path. The extension is non-empty exactly when the last path component has a dot after some non-dot character of that component; it then starts at the last such dot and holds no '/'. |
| PathNames.Decimal | src/processor/file_processor.py:87 | `str(n)` is a non-empty string of decimal digits. |
| PathNames.DecimalInjective | src/processor/file_processor.py:87 | Different counters are written differently. |
| PathNames.IsWalkedDirectory | src/scanner/text_scanner.py:69-71 | A directory is walked exactly when its lower-cased name neither starts with a dot nor is one of the nine excluded names; the test gives the same answer on the lower-cased name. |
| Basics.TruncToInt | src/detector/image_duplicate_detector.py:52 | Truncation toward zero: the result is the integer part on both sides of zero. |
| Basics.TruncMonotone | src/detector/duplicate_detector.py:79 | Truncation never reverses order. |
| Basics.ScanProgress | src/scanner/text_scanner.py:83 | Scan progress lies in [10, 90] and equals `10 + 80·processed // total` while processed ≤ total. |
| Basics.ScanProgressMonotone | src/scanner/image_scanner.py:140 | Scan progress never goes down as more files are processed. |
| TextScanner.AcceptsCaseInsensitive | src/scanner/text_scanner.py:91-102 | A name and its lower-cased form are accepted alike. |
| TextScanner.Accepts | src/scanner/text_scanner.py:100-102 | True exactly when the pathlib suffix of the lower-cased name is a supported extension; with dotted extensions an accepted name has a dot that is neither its first nor its last character. |
| TextScanner.TextScanner.IsTextFile | src/scanner/text_scanner.py:90-102 | The test against the shared registry answers the same for a name and its lower-cased form; with dotted extensions an accepted name has an inner dot. |
| TextScanner.AcceptedHasSuffix | src/scanner/text_scanner.py:101-102 | An accepted name has a dot that is neither its first nor its last character. |
| TextScanner.AcceptsUpperCase | src/scanner/text_scanner.py:101-102 | `a.TXT` is accepted. |
| TextScanner.RejectsDotFile | src/scanner/text_scanner.py:101-102 | `.txt` has no suffix and is rejected. |
| TextScanner.RejectsOuterSuffix | src/scanner/text_scanner.py:101-102 | Only the last suffix counts: `notes.txt.bak` is rejected. |
| TextScanner.WalkedDirectoryCaseInsensitive | src/scanner/text_scanner.py:69-71 | The prune rule answers alike for a directory name and its lower-cased form. |
| TextScanner.WalkedDirectoryExamples | src/scanner/image_scanner.py:73-75 | Hidden and excluded directories are pruned whatever their case; ordinary ones are walked. |
| TextScanner.ExtensionRegistry.constructor | src/scanner/text_scanner.py:18-24 | The registry starts with the supported extensions. |
| TextScanner.ExtensionRegistry.AddExtension | src/scanner/text_scanner.py:301-309 | A string starting with '.' is added lower-cased; any other leaves the set unchanged. |
| TextScanner.ExtensionRegistry.RemoveExtension | src/scanner/text_scanner.py:311-318 | The lower-cased form is no longer in the set, and nothing else changes, present or not. |
| TextScanner.TextFileInfo.constructor | src/scanner/text_scanner.py:127-138 | A fresh record with path, name, size, mtime and lower-cased extension; encoding, counts, hash, similarity and match type are unset. |
| TextScanner.Count | src/scanner/text_scanner.py:250 | The count never exceeds the length. |
| TextScanner.CountAppend | src/scanner/text_scanner.py:246-250 | Counting over concatenated chunks adds the chunks' counts, so counting chunk by chunk counts the whole text. |
| TextScanner.TrailingNewlineCountedTwice | src/scanner/text_scanner.py:253-254 | "ab\n" is reported as two lines, one more than its newline-terminated lines, and "ab" as one. |
| TextScanner.FileStats | src/scanner/text_scanner.py:227-260 | The character count is the text's length. The line count is its newlines plus one for a non-empty text. An unreadable file gives (0, 0). |
| TextScanner.DetectedEncoding | src/scanner/text_scanner.py:162-166 | A present encoding is kept; otherwise the detection's answer, and an empty answer fails. |
| TextScanner.TextScanner.constructor | src/scanner/text_scanner.py:26-33 | A scanner over the shared registry with the given size limit. |
| TextScanner.TextScanner.GetSupportedExtensions | src/scanner/text_scanner.py:292-299 | Returns a set equal to the registry; later registry changes do not reach it. |
| TextScanner.TextScanner.GetFileInfo | src/scanner/text_scanner.py:104-142 | No record for a failed stat, a file over the size limit or one under 10 bytes. Otherwise a fresh record with the path's fields and no details. |
| TextScanner.TextScanner.EnsureFileDetails | src/scanner/text_scanner.py:144-185 | A record with a hash succeeds unchanged. From no hash, success leaves encoding, hash, line count and character count all set. Failure is a failed detection or a failed hash. |
| TextScanner.SharedRegistry | src/scanner/text_scanner.py:301-309 | An extension added through one scanner is accepted by another; a copy taken earlier is unchanged. |
| ImageScanner.IsImageFile | src/scanner/image_scanner.py:90-101 | An accepted name, lower-cased, ends with a supported extension no longer than the name; the test reads the `splitext` extension of the lower-cased name. |
| ImageScanner.UpperCaseImageAccepted | src/scanner/image_scanner.py:100-101 | `a.PNG` is accepted. |
| ImageScanner.DotFileRejected | src/scanner/image_scanner.py:100-101 | `.png` has no extension and is rejected. |
| ImageScanner.LastExtensionCounts | src/scanner/image_scanner.py:100-101 | Only the last extension counts: `photo.png.txt` is rejected. |
| ImageScanner.WorkerCount | src/scanner/image_scanner.py:120 | Always in [1, 8], and `n // 10 + 1` below 70 paths. |
| ImageScanner.GetImageInfo | src/scanner/image_scanner.py:148-194 | A record exists exactly when the stat succeeds and the size is within the limit. It has path, base name, size and mtime. Dimensions come from PIL, else OpenCV, else none. |
| ImageScanner.Present | src/scanner/image_scanner.py:130-141 | No more records than results. |
| ImageScanner.PresentMembers | src/scanner/image_scanner.py:137-139 | A record is kept exactly when some path produced it. |
| ImageScanner.ParallelGetImageInfo | src/scanner/image_scanner.py:103-146 | Keeps exactly the produced records in order. It reports one progress value per result, each in [10, 90] and non-decreasing, and none when the total is 0. |
| VideoScanner.IsVideoFile | src/scanner/video_scanner.py:55-65 | An accepted name has a dot that is neither its first nor its last character. |
| VideoScanner.IsVideoFileExamples | src/scanner/video_scanner.py:65 | `clip.MP4` is accepted; `.mp4` is not. |
| VideoScanner.VideoFile.constructor | src/scanner/video_scanner.py:80-90 | A record with path, base name, lower-cased suffix, size, mtime and the metadata fields, and no similarity. |
| VideoScanner.VideoFile.Copy | src/detector/duplicate_detector.py:235-236 | A new record equal to the original in every field except similarity, which is set. |
| VideoScanner.GetVideoMetadata | src/scanner/video_scanner.py:98-136 | All zeros when the capture does not open. |
| VideoScanner.MetadataDuration | src/scanner/video_scanner.py:128-129 | The duration is non-zero only with a positive fps and a non-zero frame count, and then duration × fps is the frame count. |
| VideoScanner.GetVideoInfo | src/scanner/video_scanner.py:67-96 | A record exactly when the stat succeeds. It is fresh and carries the path, the base name, the size and the modification time of the stat, the lower-cased suffix, no similarity, and the capture's width, height, frame rate, frame count and duration. |
| VideoScanner.ScanDirectory | src/scanner/video_scanner.py:26-53 | Nothing for a missing directory. Otherwise one fresh record per accepted entry, in walk order, each the record `get_video_info` makes of its entry: path, name, size, mtime, lower-cased suffix, the capture's metadata and no similarity. |
| VideoScanner.ScanEntry | src/scanner/video_scanner.py:44-48 | One entry: a record is appended exactly when the entry is an inspectable regular video file. |
| VideoScanner.ScanMultipleDirectories | src/scanner/video_scanner.py:138-154 | The per-directory results concatenated in argument order; every record of every directory is in the result. |
| VideoScanner.FilterBySize | src/scanner/video_scanner.py:156-182 | The order-preserving subsequence within [min, max], no upper bound for None; every record within the bounds is kept. |
| VideoScanner.FilterByDuration | src/scanner/video_scanner.py:184-209 | The order-preserving subsequence within [min, max] duration, no upper bound for None; every record within the bounds is kept. |
| Grouping.GroupByShape | src/detector/duplicate_detector.py:108-118 | Each bucket is non-empty, shares one key, and keeps input order; different buckets have different keys. |
| Grouping.GroupByPermutes | src/detector/duplicate_detector.py:108-118 | The buckets together hold exactly the input, each element as often as in the input. |
| Grouping.BucketBy | src/detector/duplicate_detector.py:127-137 | The `defaultdict(list)` loop yields the buckets in first-insertion order of their keys. |
| Grouping.BucketWhere | src/detector/duplicate_detector.py:307-312 | Appending only the elements that pass yields the buckets of the filtered input. |
| Grouping.WhereSplit | src/processor/file_processor.py:218-227 | Filtering by a test and by its negation splits the input: nothing lost, nothing added. |
| Grouping.SortByKeySorted | src/detector/text_duplicate_detector.py:448 | The stable sort orders its result by the key. |
| Grouping.SortByKey | src/detector/text_duplicate_detector.py:434 | The sort is a permutation of its input. |
| Greedy.GroupsSpec | src/detector/image_duplicate_detector.py:247-289 | The greedy groups are disjoint and hold at least two candidates each. Each is an anchor followed by later candidates close to it, ascending. An untaken later candidate close to an anchor joins that anchor's group. |
| Greedy.GroupsOfFewerThanTwo | src/detector/image_duplicate_detector.py:244-245 | Fewer than two candidates form no group. |
| ImageDetector.HashDiffThreshold | src/detector/image_duplicate_detector.py:37-55 | The bit threshold is always within [0, 64]. |
| ImageDetector.HashDiffThresholdPoints | src/detector/image_duplicate_detector.py:34 | 100% gives 0 bits, 0% gives 64, and 80% gives 12, not the 13 the comment says. |
| ImageDetector.HashDiffThresholdAntitone | src/detector/image_duplicate_detector.py:52-55 | A higher similarity requirement never allows more differing bits. |
| ImageDetector.MetadataPrescreening | src/detector/image_duplicate_detector.py:120-150 | Returns the metadata-key buckets of two or more, in first-occurrence order. |
| ImageDetector.PrescreeningSpec | src/detector/image_duplicate_detector.py:131-150 | Each group has two or more images with one key and holds every image with that key, in input order. An image is in some group exactly when another image shares its key. |
| ImageDetector.MetadataKey | src/detector/image_duplicate_detector.py:135-146 | The key is the size in KiB and the width and height in hundreds: each component is the floor of its quantity over 1024 or 100. |
| ImageDetector.HexValue | src/detector/image_duplicate_detector.py:260 | A hex digit's value lies in [0, 16). |
| ImageDetector.BitDiff | src/detector/image_duplicate_detector.py:274 | At most `bits` bits differ. |
| ImageDetector.Hamming | src/detector/image_duplicate_detector.py:260-275 | The distance between two hex hashes is at most four bits per digit. |
| ImageDetector.HammingMetric | src/detector/image_duplicate_detector.py:274-275 | The distance is symmetric, and a hash is at distance 0 from itself. |
| ImageDetector.CombinedHashRoundTrip | src/detector/image_duplicate_detector.py:222 | Splitting the 32-digit combined hash at 16 recovers both parts, and every combined hash is such a pair. |
| ImageDetector.CombinedHash | src/detector/image_duplicate_detector.py:222 | The combined hash is the average hash followed by the perceptual hash: its length is the sum and each part is recovered by slicing. |
| ImageDetector.AverageDiffWithin | src/detector/image_duplicate_detector.py:274-281 | The average distance is within the threshold exactly when the two distances sum to at most twice the threshold. |
| ImageDetector.Infos | src/detector/image_duplicate_detector.py:255 | One record per feature. |
| ImageDetector.FindSimilarImages | src/detector/image_duplicate_detector.py:234-289 | Returns the greedy groups over the features: nothing for fewer than two features; records are not annotated. |
| ImageDetector.CollectMatches | src/detector/image_duplicate_detector.py:255-283 | The inner loop returns the anchor followed by exactly the later untaken images within the threshold, in ascending order. The processed set grows by the anchor and those images. |
| ImageDetector.MatchOne | src/detector/image_duplicate_detector.py:263-283 | Image j joins exactly when it is untaken and within the threshold. |
| ImageDetector.SimilarImagesMembers | src/detector/image_duplicate_detector.py:244-289 | Every group holds two or more of the given records. |
| ImageDetector.ImageDuplicateDetector.constructor | src/detector/image_duplicate_detector.py:20-35 | The bit threshold is derived from the percentage, and the cache starts empty. |
| ImageDetector.ImageDuplicateDetector.ExtractImageHash | src/detector/image_duplicate_detector.py:195-232 | A cached path returns its stored hash with no change. Otherwise a decodable image stores and returns the average hash followed by the perceptual hash, and an undecodable one returns None and stores nothing. |
| ImageDetector.ImageDuplicateDetector.ClearCache | src/detector/image_duplicate_detector.py:291-296 | The cache is empty afterwards. |
| ImageDetector.ImageDuplicateDetector.ExtractAll | src/detector/image_duplicate_detector.py:164-193 | Every hashed image kept comes from its queued candidate group and carries a combined hash. |
| ImageDetector.FilesToProcess | src/detector/image_duplicate_detector.py:86-91 | Every queued image belongs to the candidate group whose index it carries. |
| ImageDetector.CompareGroups | src/detector/image_duplicate_detector.py:105-113 | Every group found holds two or more input images sharing one metadata key. |
| ImageDetector.SimilarWithinCandidate | src/detector/image_duplicate_detector.py:105-108 | Greedy groups drawn from one candidate group share its metadata key. |
| ImageDetector.ImageDuplicateDetector.FindDuplicates | src/detector/image_duplicate_detector.py:57-118 | No input gives no group. Every duplicate group holds two or more input images sharing one metadata key. |
| VideoDetector.CountDiff | src/detector/duplicate_detector.py:264 | The number of differing positions is at most the length. |
| VideoDetector.Diff | src/detector/duplicate_detector.py:264 | The differing bits over all rows are at most the total bits. |
| VideoDetector.Similarity | src/detector/duplicate_detector.py:248-274 | 0 on a shape mismatch; otherwise a value in [0, 100]. |
| VideoDetector.Percent | src/detector/duplicate_detector.py:268-270 | `max(0, (1 - d/rows)·100)` lies in [0, 100] for d ≥ 0. |
| VideoDetector.PercentAtLeast | src/detector/duplicate_detector.py:233 | A percentage reaches a positive threshold exactly when the differing bits stay within the threshold's budget. |
| VideoDetector.SimilaritySymmetric | src/detector/duplicate_detector.py:259-270 | Similarity does not depend on argument order. |
| VideoDetector.SimilarityFull | src/detector/duplicate_detector.py:260-270 | Non-empty features are 100% similar exactly when they are equal. |
| VideoDetector.SimilarityZero | src/detector/duplicate_detector.py:264-268 | Dividing by the row count, `rows` differing bits already give 0, though a k-frame feature has 64k bits over 8k rows. |
| VideoDetector.SimilarityAtLeast | src/detector/duplicate_detector.py:233 | A pair reaches threshold t in (0, 100] exactly when at most (1 - t/100)·rows bits differ. |
| VideoDetector.CountDiffComplement | src/detector/duplicate_detector.py:264 | Complementary bit strings differ everywhere. |
| VideoDetector.ComplementDissimilar | src/detector/duplicate_detector.py:268-270 | For complementary features the raw value is -700 and the result is clamped to 0. |
| VideoDetector.DurationKey | src/detector/duplicate_detector.py:111-118 | A positive duration's bucket is in [0, 19]; any other duration goes to -1. |
| VideoDetector.DurationKeyCollapse | src/detector/duplicate_detector.py:114 | Every duration of 380 seconds or more lands in bucket 19. |
| VideoDetector.DurationKeyMonotone | src/detector/duplicate_detector.py:114 | Longer positive durations never get smaller buckets. |
| VideoDetector.SizeKey | src/detector/duplicate_detector.py:129-135 | A positive size's bucket is in [0, 9]; any other size goes to -1. |
| VideoDetector.SizeKeyCollapse | src/detector/duplicate_detector.py:132 | Every file of 92160 bytes or more lands in bucket 9. |
| VideoDetector.SizeKeyMonotone | src/detector/duplicate_detector.py:132 | Larger positive sizes never get smaller buckets. |
| VideoDetector.MetadataPrescreening | src/detector/duplicate_detector.py:97-139 | Returns the duration buckets in first-occurrence order: buckets of fewer than two kept whole, the others split by size bucket. |
| VideoDetector.PrescreeningPartition | src/detector/duplicate_detector.py:108-137 | The candidate groups together hold every file exactly as often as the input does, duration singletons included. |
| VideoDetector.PrescreeningKeys | src/detector/duplicate_detector.py:110-137 | Every candidate group is non-empty, and its files share both the duration and the size bucket. |
| VideoDetector.SimilarVideoGroupsSpec | src/detector/duplicate_detector.py:211-246 | Each group has two or more entries, anchor first. Each member is at least threshold-similar to the anchor, not necessarily to the others. No entry is in two groups. An untaken later entry similar to an anchor joins it. |
| VideoDetector.FindSimilarVideos | src/detector/duplicate_detector.py:201-246 | The groups are the greedy index groups as records: the anchor is the entry's own record, set to 100 in place, and members are fresh copies with their similarity. Non-anchors keep their similarity. |
| VideoDetector.CollectVideoMatches | src/detector/duplicate_detector.py:220-238 | The inner loop marks the anchor and takes a copy of every later untaken entry at least threshold-similar, in order. |
| VideoDetector.ScanOne | src/detector/duplicate_detector.py:224-238 | Entry j joins exactly when it is untaken and similar enough. |
| VideoDetector.MarkAnchor | src/detector/duplicate_detector.py:241-244 | Once a group has a second member, only its anchor's similarity becomes 100. |
| VideoDetector.VisitAnchor | src/detector/duplicate_detector.py:216-244 | One outer step keeps the greedy state and the built groups in step with the index groups. |
| VideoDetector.AnchorOutside | src/detector/duplicate_detector.py:220-221 | A new anchor's record is in none of the earlier groups. |
| VideoDetector.ExactGroupsSpec | src/detector/duplicate_detector.py:307-321 | Every exact group holds two or more files with one non-empty hash, and any two files sharing a non-empty hash are grouped. |
| VideoDetector.ExactGrouped | src/detector/duplicate_detector.py:309-321 | Two files with one non-empty hash both land in an exact group. |
| VideoDetector.ExactMembers | src/detector/duplicate_detector.py:309-312 | Every file of an exact bucket is an input file. |
| VideoDetector.FindExactDuplicates | src/detector/duplicate_detector.py:297-323 | Returns the hash buckets of two or more, and exactly their members have similarity 100 afterwards. |
| VideoDetector.MarkExact | src/detector/duplicate_detector.py:319-320 | Exactly the group's records get similarity 100; every other record keeps its own. |
| VideoDetector.IndexOfPath | src/detector/duplicate_detector.py:72 | -1, or the position of the entry stored under the path. |
| VideoDetector.StoreKeys | src/detector/duplicate_detector.py:72-75 | Storing keeps the paths distinct and adds the new path to the keys. |
| VideoDetector.StoreMembers | src/detector/duplicate_detector.py:72-75 | Storing brings in nothing but the new entry. |
| VideoDetector.FeaturesSpec | src/detector/duplicate_detector.py:67-75 | The dictionary holds each path once. Every entry is an eligible record of the group with its feature, and every eligible record's path is a key. |
| VideoDetector.ExtractionProgress | src/detector/duplicate_detector.py:79 | Extraction progress lies in [60, 90]. |
| VideoDetector.ExtractionProgressMonotone | src/detector/duplicate_detector.py:77-80 | Extraction progress never goes down. |
| VideoDetector.ExtractFeatures | src/detector/duplicate_detector.py:67-80 | Returns the feature dictionary of the group and one progress value per record, in order. |
| VideoDetector.ExtractOne | src/detector/duplicate_detector.py:68-76 | A record's features are stored unless it is already grouped or extraction fails. |
| VideoDetector.CandidateCountPrefix | src/detector/duplicate_detector.py:59 | The total counted over candidate groups of two or more grows group by group and bounds every prefix's count. |
| VideoDetector.CandidateMembers | src/detector/duplicate_detector.py:62-68 | Every record of a candidate group is an input record. |
| VideoDetector.SimilarReported | src/detector/duplicate_detector.py:84-90 | Groups of the similar step over input records are reported correctly: two or more, an input anchor at 100, copies at or above the threshold, distinct paths. |
| VideoDetector.SimilarIndicesDistinct | src/detector/duplicate_detector.py:212-238 | No entry index occurs in two groups. |
| VideoDetector.ReportedAppend | src/detector/duplicate_detector.py:85-90 | Appending reported groups whose paths are new keeps the result reported correctly. |
| VideoDetector.Ticks | src/detector/duplicate_detector.py:77-80 | The progress values after each counted record. |
| VideoDetector.TicksExtend | src/detector/duplicate_detector.py:77-80 | The next records' values extend the ticks. |
| VideoDetector.TicksReport | src/detector/duplicate_detector.py:47-93 | The whole report of a non-empty input is 40, 60, one tick per counted record, then 100. |
| VideoDetector.GroupSimilar | src/detector/duplicate_detector.py:83-90 | Fewer than two records give no group. Otherwise the groups are exactly the greedy grouping of the records with features, as fresh copies; the anchors of the groups are the only records whose similarity changes, and no path was grouped before. |
| VideoDetector.HandleGroup | src/detector/duplicate_detector.py:62-90 | One candidate group of two or more extends the progress by one tick per record. Its groups are the greedy grouping of its records that have features and were not processed, so afterwards no two of its records that are both ungrouped and have features are similar at the threshold; only new anchors change their similarity. |
| VideoDetector.VisitCandidateGroup | src/detector/duplicate_detector.py:62-64 | Groups of fewer than two are passed over. The loop state (reported groups, grouped paths, maximality of the groups visited, similarity kept off the anchors) carries from k candidate groups to k + 1. |
| VideoDetector.CompareCandidateGroups | src/detector/duplicate_detector.py:56-90 | After the loop over all candidate groups the progress is 40, 60 and one tick per compared record, the groups are fresh, reported correctly, maximal in every candidate group, and only anchors changed their similarity. |
| VideoDetector.SimilarMaximal | src/detector/duplicate_detector.py:211-246 | After the greedy grouping of a candidate group, any two of its records with features that are not grouped, already processed or the same path are below the threshold. |
| VideoDetector.CloseGrouped | src/detector/duplicate_detector.py:216-238 | Of two records whose similarity reaches the threshold, at least one ends in a greedy group. |
| VideoDetector.FindDuplicates | src/detector/duplicate_detector.py:31-95 | No input gives no group and no progress. Otherwise the progress is 40, 60, the ticks, then 100; every group is reported correctly (input anchors at 100, fresh copies above the threshold, no path twice); in every candidate group no two ungrouped records with features reach the threshold; only anchors change their similarity. |
| TextDetector.ChardetAnswer | src/detector/text_duplicate_detector.py:519-526 | chardet's guess below 0.5 confidence gives utf-8; otherwise its encoding. |
| TextDetector.FirstDecodingSpec | src/detector/text_duplicate_detector.py:511-526 | The answer is the first codec that decodes the bytes, every earlier one failing; when none decodes, chardet decides. |
| TextDetector.DetectedIsTried | src/detector/text_duplicate_detector.py:511-516 | When latin-1 decodes the bytes, the answer is one of the four codecs tried and chardet is never asked. |
| TextDetector.DetectEncodingFast | src/detector/text_duplicate_detector.py:490-530 | utf-8 for an unreadable or empty head, else the first codec that decodes it. |
| TextDetector.CacheStaysValid | src/detector/text_duplicate_detector.py:546-564 | A lookup keeps the cache within 1000 entries, each the digest of its file, and returns a digest of the file. |
| TextDetector.CacheHit | src/detector/text_duplicate_detector.py:549-550 | A hit returns the stored digest and leaves the cache unchanged. |
| TextDetector.CacheMiss | src/detector/text_duplicate_detector.py:552-566 | A miss stores the new digest exactly when one exists and the cache has room. |
| TextDetector.TextDuplicateDetector.constructor | src/detector/text_duplicate_detector.py:21-52 | Without `max_workers`, three per CPU up to 16, counting 4 CPUs when the count is 0. The cache starts empty. |
| TextDetector.TextDuplicateDetector.CalculateFileHashLocal | src/detector/text_duplicate_detector.py:532-570 | The result and the new cache are those of a cache lookup keyed by path, size and mtime, with the bounded insertion. |
| TextDetector.TextDuplicateDetector.EnsureFileDetails | src/detector/text_duplicate_detector.py:453-488 | Already hashed: success with nothing changed. Otherwise success exactly when a hash ends up set, and only encoding and hash change. |
| TextDetector.TextDuplicateDetector.LoadHash | src/detector/text_duplicate_detector.py:131-134 | A hash the record already had is kept and returned; a non-empty result is the record's hash. |
| TextDetector.TextDuplicateDetector.ReadHashes | src/detector/text_duplicate_detector.py:129-136 | Keeps exactly the records with a non-empty hash, each paired with it, in input order. A hash once set never changes. |
| TextDetector.TextDuplicateDetector.ReadOne | src/detector/text_duplicate_detector.py:129-136 | One record of the first loop keeps the loop state. |
| TextDetector.TextDuplicateDetector.MarkExact | src/detector/text_duplicate_detector.py:139-146 | Returns the buckets of two or more. Exactly their records are marked 100.0 and "exact", and the others keep their marks. |
| TextDetector.TextDuplicateDetector.MarkGroup | src/detector/text_duplicate_detector.py:143-145 | Every record of the group is marked 100.0 and "exact"; its other fields stay. |
| TextDetector.TextDuplicateDetector.FindExactDuplicates | src/detector/text_duplicate_detector.py:114-148 | Returns the exact groups of the hashes read. Each holds two or more input records sharing one non-empty hash, marked 100.0/"exact". Failing records are skipped, and counts are unchanged. |
| TextDetector.TextDuplicateDetector.ProcessedPaths | src/detector/text_duplicate_detector.py:77-82 | The processed paths are exactly the paths of the exact groups. |
| TextDetector.TextDuplicateDetector.FindDuplicates | src/detector/text_duplicate_detector.py:54-112 | No input gives no group. The result is the exact groups, then the similar groups; the similar phase runs only on unprocessed records, at least two, so no path is in both. For each batch screened, its records carry the features of their files' texts and both ends of every candidate pair at the threshold are in similar groups, and batches stop short only after nine. Exact-group records are marked 100.0 'exact', others keep similarity and match type. Over the corrected grouping (see Findings). |
| TextDetector.Usable | src/detector/text_duplicate_detector.py:471-475 | A falsy detection keeps nothing. |
| TextDetector.HashGroupsSound | src/detector/text_duplicate_detector.py:127-147 | Every bucket holds two or more input records read with one non-empty hash; different buckets have different hashes. |
| TextDetector.HashGroupsComplete | src/detector/text_duplicate_detector.py:129-147 | Two records read with one non-empty hash share a returned bucket. |
| TextDetector.ExactGroupsShare | src/detector/text_duplicate_detector.py:134-146 | With the hashes recorded, each group's records share one non-empty content hash. |
| TextDetector.BucketRecords | src/detector/text_duplicate_detector.py:133-136 | Every bucket holds input records. |
| TextDetector.RemainingUnprocessed | src/detector/text_duplicate_detector.py:89 | The similar phase sees no processed path. |
| TextSelection.SizeBucket | src/detector/text_duplicate_detector.py:198 | A positive size's bucket is in [0, 19]; other sizes get -1. |
| TextSelection.SizeBucketCollapse | src/detector/text_duplicate_detector.py:198 | Every file of 380 bytes or more lands in bucket 19. |
| TextSelection.SizeBucketMonotone | src/detector/text_duplicate_detector.py:198 | Larger positive sizes never get smaller buckets. |
| TextSelection.KeepRepeatedExtensions | src/detector/text_duplicate_detector.py:206-214 | The extension loop keeps exactly the extension groups of two or more, concatenated in order. |
| TextSelection.Gap | src/detector/text_duplicate_detector.py:226 | The absolute difference of two mtimes. |
| TextSelection.Nearby | src/detector/text_duplicate_detector.py:218-232 | No more files than scanned. |
| TextSelection.KeepNearby | src/detector/text_duplicate_detector.py:218-234 | The time layer keeps exactly the sorted survivors that have a neighbour within five places and 24 hours. |
| TextSelection.FilterByClass | src/detector/text_duplicate_detector.py:192-214 | The size and extension layers yield the survivors of both. |
| TextSelection.PreFilterFiles | src/detector/text_duplicate_detector.py:181-236 | Returns the pre-filtered files: the class layers, then the time layer above 100 survivors. |
| TextSelection.ClassGroup | src/detector/text_duplicate_detector.py:194-209 | Three nested bucketings select the same files as one test on size bucket and extension. |
| TextSelection.ByClassSound | src/detector/text_duplicate_detector.py:194-214 | A survivor is an input file with a positive size and a peer of its bucket and extension. |
| TextSelection.ByClassComplete | src/detector/text_duplicate_detector.py:194-214 | An input file with a positive size and such a peer survives. |
| TextSelection.ByClassMembers | src/detector/text_duplicate_detector.py:194-214 | A file survives the first two layers exactly when its size is positive and at least two files share its bucket and extension. |
| TextSelection.NearbyMembers | src/detector/text_duplicate_detector.py:221-232 | A kept file is exactly one with a nearby neighbour. |
| TextSelection.PreFilteredMembers | src/detector/text_duplicate_detector.py:181-236 | Every kept file survives the class layers. At most 100 survivors are kept as they are; above that only those with a nearby neighbour. |
| TextSelection.PreFilteredPositive | src/detector/text_duplicate_detector.py:196 | Files of size 0 never survive the pre-filter. |
| TextSelection.StopFrom | src/detector/text_duplicate_detector.py:434-438 | The stopping group count lies between its start and the number of groups. |
| TextSelection.StopFromSpec | src/detector/text_duplicate_detector.py:434-438 | The priority loop stops at the first group count reaching 300 files, or after the last group. |
| TextSelection.SmartFileSelection | src/detector/text_duplicate_detector.py:416-451 | Returns the specified selection: priority files, then the largest singles up to 200 files in all. |
| TextSelection.PriorityFiles | src/detector/text_duplicate_detector.py:433-438 | The priority loop takes the repeated-size groups, larger first, up to its stopping point. |
| TextSelection.SingleFiles | src/detector/text_duplicate_detector.py:442-445 | The singles loop takes the files of the one-file size groups, in group order. |
| TextSelection.UptoMembers | src/detector/text_duplicate_detector.py:435-436 | A priority file shares its size with another input file. |
| TextSelection.SinglesMembers | src/detector/text_duplicate_detector.py:443-445 | A single is the only input file of its size. |
| TextSelection.SelectionSpec | src/detector/text_duplicate_detector.py:433-451 | The selection starts with the priority files and adds singles, largest first. It reaches 200 when enough singles exist, and stays at the priority files when they already number 200. |
| TextSelection.PriorityStops | src/detector/text_duplicate_detector.py:434-438 | The priority part is the larger-first repeated-size groups up to the first that brings it to 300, or all of them. |
| TextSelection.SelectionFromInput | src/detector/text_duplicate_detector.py:416-451 | Every selected file is an input file. |
| TextSelection.SelectionMember | src/detector/text_duplicate_detector.py:436-449 | A selected file is an input file. |
| TextFeatures.TrimStart | src/detector/text_duplicate_detector.py:368 | The suffix after the leading white space. |
| TextFeatures.TrimEnd | src/detector/text_duplicate_detector.py:368 | The prefix before the trailing white space. |
| TextFeatures.StripBlank | src/detector/text_duplicate_detector.py:389 | A string strips to nothing exactly when it is all white space. |
| TextFeatures.StripTrimmed | src/detector/text_duplicate_detector.py:368-369 | A stripped line has no white space at its ends. |
| TextFeatures.MapSeq | src/detector/text_duplicate_detector.py:368 | One output per input. |
| TextFeatures.LastN | src/detector/text_duplicate_detector.py:369-376 | At most n elements, the tail of the input. |
| TextFeatures.WindowSnoc | src/detector/text_duplicate_detector.py:369-376 | Appending and then popping the oldest entry past n keeps exactly the last n. |
| TextFeatures.Kept | src/detector/text_duplicate_detector.py:362-386 | The bookkeeping counts the lines and keeps at most ten first lines, ten last lines and a hundred lengths. |
| TextFeatures.TakeLine | src/detector/text_duplicate_detector.py:363-382 | One complete line advances the bookkeeping by one step. |
| TextFeatures.KeptFirstLines | src/detector/text_duplicate_detector.py:367-368 | The first lines kept are the first ten lines, stripped. |
| TextFeatures.KeptLastLines | src/detector/text_duplicate_detector.py:369-371 | The last lines kept are the last ten lines, stripped. |
| TextFeatures.KeptLineLengths | src/detector/text_duplicate_detector.py:374-376 | The lengths kept are those of the last hundred lines. |
| TextFeatures.KeptWords | src/detector/text_duplicate_detector.py:379-382 | The word sample and count come from every tenth line. |
| TextFeatures.FirstIndex | src/detector/text_duplicate_detector.py:363 | Where `split('\n', 1)` cuts: the first newline. |
| TextFeatures.AverageLength | src/detector/text_duplicate_detector.py:399 | The mean of the kept lengths, 0 with none. |
| TextFeatures.ExtractLightweightFeatures | src/detector/text_duplicate_detector.py:320-407 | None for an unreadable file. Otherwise the text is the kept lines, newline-free, followed by the rest; the rest holds no newline unless the word sample passed 100 words; the features are those of the kept lines and the rest, with every character counted. The split after the sample passes 100 words is not fixed (see Left out). |
| TextFeatures.Finish | src/detector/text_duplicate_detector.py:389-403 | The leftover buffer counts as one more line when not blank, and the features are filled in from the bookkeeping. |
| TextFeatures.TakeLines | src/detector/text_duplicate_detector.py:362-386 | Takes complete lines off the buffer until none is left or the word sample passes 100 words; the text taken plus the buffer is the text read. |
| TextFeatures.CutLine | src/detector/text_duplicate_detector.py:363 | Cutting at a newline moves the line and its newline to the text taken. |
| TextFeatures.AddChunk | src/detector/text_duplicate_detector.py:354-358 | Appending the next chunk extends the text read by it. |
| TextFeatures.CountAbsent | src/detector/text_duplicate_detector.py:362 | A newline-free rest adds no newline. |
| TextFeatures.JoinedCount | src/detector/text_duplicate_detector.py:362-364 | The complete lines account for one newline each. |
| TextFeatures.FeatureLineCount | src/detector/text_duplicate_detector.py:362-391 | While the sample stays at most 100 words, the line count is the newlines, plus one for a non-blank rest. |
| TextFeatures.LastLinesHashed | src/detector/text_duplicate_detector.py:389-397 | The hashed last-lines list has at most eleven entries: with ten lines and a non-blank rest it has eleven. |
| TextFeatures.PreprocessTextLazy | src/detector/text_duplicate_detector.py:238-268 | None for an empty path or failed extraction; otherwise a copy of the record with its features, which are the features of the file's decoded text: its lines, newline-free, then a rest that holds no newline unless the word sample passed 100 words. |
| TextFeatures.SplitLines | src/detector/text_duplicate_detector.py:353-363 | The text split at every newline: the lines, newline-free, joined with newlines and followed by a newline-free rest give back the text. |
| TextFeatures.JoinedPrefix | src/detector/text_duplicate_detector.py:361-363 | Of two newline-free line splits of the same text, the one whose rest holds no newline extends the other. |
| TextFeatures.SampledPrefix | src/detector/text_duplicate_detector.py:378-381 | The words sampled from leading lines are among those sampled from all lines. |
| TextFeatures.SameSplit | src/detector/text_duplicate_detector.py:362-386 | While the split at every newline samples at most 100 words, any split the extraction may make is that split. |
| TextFeatures.FeaturesPinned | src/detector/text_duplicate_detector.py:320-407 | While the text's full line split samples at most 100 words, the features of the text are exactly those of that split: one value per text. |
| TextSimilarity.StripExtension | src/detector/text_duplicate_detector.py:751-752 | The name before its last dot, or the whole name without a dot. |
| TextSimilarity.IntersectionWithinUnion | src/detector/text_duplicate_detector.py:761 | The common part is no larger than the union, which a non-empty set makes non-empty. |
| TextSimilarity.Jaccard | src/detector/text_duplicate_detector.py:722 | In [0, 1], and positive exactly when the sets meet. |
| TextSimilarity.QuickNameSimilarity | src/detector/text_duplicate_detector.py:736-761 | In [0, 1]; positive only when the stripped, lower-cased names share a character. |
| TextSimilarity.QuickNameSymmetric | src/detector/text_duplicate_detector.py:747-761 | Name similarity does not depend on argument order. |
| TextSimilarity.QuickNameSelf | src/detector/text_duplicate_detector.py:751-761 | A name with a character before its last dot is fully similar to itself. |
| TextSimilarity.FeaturesAgree | src/detector/text_duplicate_detector.py:706-734 | Accepts only on equal first- or last-lines hashes or a word-sample Jaccard above 0.5, with line counts within 30%. |
| TextSimilarity.QuickSimilarityCheck | src/detector/text_duplicate_detector.py:666-734 | A size ratio below 0.8 rejects. Acceptance comes only from the feature test, or from missing features with a size ratio above 0.95. A raise (None) happens only without both sizes positive. |
| TextSimilarity.QuickCheckDefined | src/detector/text_duplicate_detector.py:682-703 | With both sizes positive the check never raises. |
| TextSimilarity.NamesApartSymmetric | src/detector/text_duplicate_detector.py:688-695 | The name test does not depend on pair order. |
| TextSimilarity.FeaturesAgreeSymmetric | src/detector/text_duplicate_detector.py:706-734 | The feature layer does not depend on pair order. |
| TextSimilarity.QuickCheckSymmetric | src/detector/text_duplicate_detector.py:678-734 | Both orders of a pair give the same answer, or both raise. |
| TextSimilarity.AverageLineLengthIgnored | src/detector/text_duplicate_detector.py:727-734 | The average-line-length block never changes the result. |
| TextSimilarity.QuickCheckRaises | src/detector/text_duplicate_detector.py:682-694 | Sizes 1 and 0 with different names reach the unbound `size_ratio`. |
| TextSimilarity.Window | src/detector/text_duplicate_detector.py:987 | A window is at most 500 characters. |
| TextSimilarity.SamplePositions | src/detector/text_duplicate_detector.py:981 | Five non-negative start positions, all inside a non-empty first text. |
| TextSimilarity.BestFromBounds | src/detector/text_duplicate_detector.py:990-997 | The best match is at least its start value and every window's ratio. |
| TextSimilarity.BestFromRange | src/detector/text_duplicate_detector.py:990-997 | Ratios in [0, 1] keep the best match in [0, 1]. |
| TextSimilarity.Scores | src/detector/text_duplicate_detector.py:983-999 | No more scores than positions. |
| TextSimilarity.ScoresAll | src/detector/text_duplicate_detector.py:983-985 | Every position inside the first text is scored; none is skipped. |
| TextSimilarity.ScoresRange | src/detector/text_duplicate_detector.py:990-999 | The scores sum to between 0 and their number. |
| TextSimilarity.SampleSimilarityRange | src/detector/text_duplicate_detector.py:1002-1005 | The sampled similarity is a percentage over exactly five chunks of a non-empty text. |
| TextSimilarity.SampleBasedSimilarity | src/detector/text_duplicate_detector.py:965-1005 | The loops compute the sampled similarity. |
| TextSimilarity.Clamp | src/detector/text_duplicate_detector.py:959 | In [0, 100], and the identity there. |
| TextSimilarity.FastTextSimilarity | src/detector/text_duplicate_detector.py:930-963 | In [0, 100]; 0 for an empty text or a length ratio below 0.3. |
| TextSimilarity.FastTextShort | src/detector/text_duplicate_detector.py:952-957 | Short texts of comparable length score their whole-text ratio as a percentage. |
| TextSimilarity.DetailedSimilarity | src/detector/text_duplicate_detector.py:866-897 | In [0, 100]; 100 for a shared non-empty hash; 0 when either content cannot be read. |
| TextBatches.PreprocessBatch | src/detector/text_duplicate_detector.py:649-653 | Keeps exactly the records the preprocessing returns, in order. Their paths are the paths of the readable files, in order, and each record copies its file with the features of that file's decoded text (fixed outright while the sample holds at most 100 words). |
| TextBatches.PreprocessOne | src/detector/text_duplicate_detector.py:650-653 | One file's record is kept exactly when its path is set and its text can be read. |
| TextBatches.PreprocessedFields | src/detector/text_duplicate_detector.py:259-262 | Every copy keeps its file's path and size. |
| TextBatches.Increasing | src/detector/text_duplicate_detector.py:656-657 | Strictly increasing indices below n number at most n. |
| TextBatches.Row | src/detector/text_duplicate_detector.py:657-662 | The accepted pairs of one row all have i < j. |
| TextBatches.RowMembers | src/detector/text_duplicate_detector.py:657-662 | A pair is in row i exactly when it is (es[i], es[j]) for a later j on which the quick check accepts. |
| TextBatches.ScreenPairs | src/detector/text_duplicate_detector.py:656-662 | None exactly when some pair raises; otherwise the accepted pairs (i < j) in row order. |
| TextBatches.FastPreScreening | src/detector/text_duplicate_detector.py:636-664 | Features the readable files, in order, then returns their candidate pairs, or None when the quick check raises. Every path in a pair is the path of a given file. |
| TextBatches.UpperSound | src/detector/text_duplicate_detector.py:656-662 | Every listed pair is (es[i], es[j]) with i < j on which the quick check accepts. |
| TextBatches.CandidatesMembers | src/detector/text_duplicate_detector.py:656-662 | A pair is a candidate exactly when it is such an accepted (es[i], es[j]) with i < j. |
| TextBatches.CandidatesCount | src/detector/text_duplicate_detector.py:656-662 | A batch of n records yields at most n(n-1)/2 pairs, 1225 for 50. |
| TextBatches.PositiveDefined | src/detector/text_duplicate_detector.py:682-703 | Records of positive size never make the quick check raise. |
| TextBatches.Batch | src/detector/text_duplicate_detector.py:610-611 | The b-th batch has at most 50 files. |
| TextBatches.CandidatePaths | src/detector/text_duplicate_detector.py:649-662 | Every path of a candidate pair is the path of a record of the batch. |
| TextBatches.EntryPaths | src/detector/text_duplicate_detector.py:649-653 | The records of a batch carry paths of its files. |
| TextBatches.SeparateAppend | src/detector/text_duplicate_detector.py:628 | Separate groups with disjoint paths stay separate when concatenated. |
| TextBatches.SlicePaths | src/detector/text_duplicate_detector.py:610-611 | Consecutive batches of distinct-path files have disjoint path sets. |
| TextBatches.RunBatch | src/detector/text_duplicate_detector.py:618-632 | One batch, over the corrected grouping (see Findings): no group when screening raises. Its records carry the features of their files' texts. Otherwise marked, separate groups with batch paths, both ends of every pair at the threshold grouped. |
| TextBatches.GroupPairs | src/detector/text_duplicate_detector.py:626-628 | Over the corrected grouping (see Findings): no candidate pairs, no groups. Otherwise the groups are marked and separate, carry only pair paths, and hold both ends of every pair at the threshold with different paths. |
| TextBatches.GroupsStep | src/detector/text_duplicate_detector.py:626-628 | Appending one batch's groups keeps the facts about all groups. |
| TextBatches.BatchSimilarityCheck | src/detector/text_duplicate_detector.py:572-634 | Over the corrected grouping (see Findings). Above 500 files only the smart selection is batched. Groups are marked and carry batched paths, separate for distinct paths. Every pair of a screened batch at the threshold is grouped, the batch's records carrying the features of their files' texts. It stops early only past 10000 comparisons, with at most 1225 over and at most 1225 per batch. |
| TextBatches.ProgressStep | src/detector/text_duplicate_detector.py:603-632 | One batch after the cap check keeps the loop state; a batch that raised adds nothing. |
| TextBatches.BatchScreened | src/detector/text_duplicate_detector.py:610-620 | The batch at the current start is the next batch, so screening it extends the screened batches. |
| TextBatches.BatchAt | src/detector/text_duplicate_detector.py:603-611 | The b-th batch, when not past the end, is the slice from 50·b. |
| TextBatches.ScreenBatches | src/detector/text_duplicate_detector.py:603-632 | The batch loop ends with every batch screened or the cap passed, each screened batch featured from its files' texts, its groups meeting the promises above. |
| TextBatches.ScreenOne | src/detector/text_duplicate_detector.py:605-632 | One pass screens the batch from the current start and advances the start. |
| TextBatches.BatchedFrom | src/detector/text_duplicate_detector.py:591-593 | The files batched are input files. |
| TextBatches.BatchFrom | src/detector/text_duplicate_detector.py:610-611 | Every file of a batch is a batched file. |
| TextBatches.ExtractedDefined | src/detector/text_duplicate_detector.py:196-199 | Records from files of positive size never make the quick check raise. |
| TextBatches.FindSimilarTexts | src/detector/text_duplicate_detector.py:150-179 | Over the corrected grouping (see Findings). No group and no batch for fewer than two files or survivors. Otherwise groups are marked, hold pre-filtered paths only, no batch raises, every screened batch is featured from its files' texts, every screened pair at the threshold is grouped, and the batches stop short of the end only after nine. |
| TextGroups.NeighbourSource | src/detector/text_duplicate_detector.py:801-804 | Every adjacency entry comes from an edge at that path. |
| TextGroups.EdgeListed | src/detector/text_duplicate_detector.py:801-804 | Every edge is listed at both its ends. |
| TextGroups.NeighboursStep | src/detector/text_duplicate_detector.py:802-804 | Adding an edge appends its contribution to each adjacency list. |
| TextGroups.BuildGraph | src/detector/text_duplicate_detector.py:801-804 | The graph lists, at every path, the adjacency the edges give it, in order. |
| TextGroups.BuildStep | src/detector/text_duplicate_detector.py:802-804 | Listing one more edge at both ends extends the adjacency by that edge. |
| TextGroups.NeighbourMirrored | src/detector/text_duplicate_detector.py:803-804 | Every entry is mirrored by one with the same similarity at the other end. |
| TextGroups.NeighbourAtLeast | src/detector/text_duplicate_detector.py:790-804 | Every entry carries the similarity of some edge. |
| TextGroups.GraphSymmetric | src/detector/text_duplicate_detector.py:801-804 | A graph built from edges is symmetric. |
| TextGroups.GraphAtLeast | src/detector/text_duplicate_detector.py:790-804 | A graph built from edges at or above the threshold has only such entries. |
| TextGroups.ReachedRepath | src/detector/text_duplicate_detector.py:851-852 | Reaching depends only on the members' paths. |
| TextGroups.PushedMembers | src/detector/text_duplicate_detector.py:851-857 | What is pushed is an annotated copy of an entry, and every entry is visited or pushed. |
| TextGroups.Push | src/detector/text_duplicate_detector.py:851-857 | Pushes exactly the annotated copies of the unvisited entries, in order. |
| TextGroups.VisitShrinks | src/detector/text_duplicate_detector.py:846 | Visiting a new path leaves one fewer path to visit. |
| TextGroups.LookupPaths | src/detector/text_duplicate_detector.py:851 | The paths an adjacency mentions are graph paths. |
| TextGroups.ChainGrow | src/detector/text_duplicate_detector.py:846-857 | Visiting the top extends the chain; the rest of the stack stays reached. |
| TextGroups.StackPop | src/detector/text_duplicate_detector.py:840 | Popping keeps the rest of the stack reached. |
| TextGroups.StackPush | src/detector/text_duplicate_detector.py:851-857 | The copies pushed for the newest member were reached from it. |
| TextGroups.FrontierSkip | src/detector/text_duplicate_detector.py:843-844 | Popping a processed record keeps the frontier. |
| TextGroups.FrontierVisit | src/detector/text_duplicate_detector.py:846-857 | Visiting and pushing the unvisited adjacency keeps the frontier. |
| TextGroups.WithinSkip | src/detector/text_duplicate_detector.py:843-844 | Popping keeps the stack within the paths reachable. |
| TextGroups.WithinVisit | src/detector/text_duplicate_detector.py:846-857 | Visiting keeps the visited paths and the stack within them. |
| TextGroups.SearchStarts | src/detector/text_duplicate_detector.py:835-837 | The state after visiting the start and pushing its adjacency satisfies the loop invariant. |
| TextGroups.SearchStep | src/detector/text_duplicate_detector.py:839-857 | One turn pops the top; skips it when visited or processed, else adds it and pushes its unvisited adjacency; the invariant and the measure are kept. |
| TextGroups.SearchSkip | src/detector/text_duplicate_detector.py:843-844 | Skipping a visited or processed record keeps the search state. |
| TextGroups.SearchVisit | src/detector/text_duplicate_detector.py:846-857 | Visiting a new record grows the group and the visited paths, keeping the search state. |
| TextGroups.Marked | src/detector/text_duplicate_detector.py:860-862 | The start record annotated 100.0 and 'similar', keeping the group's paths. |
| TextGroups.FindSimilarGroup | src/detector/text_duplicate_detector.py:821-864 | Distinct, new paths, added exactly to the processed paths; start first at 100.0/'similar'. Empty exactly when the start was processed. Every member reached from earlier ones; every adjacency leads to a processed path. |
| TextGroups.LoneStartIsolated | src/detector/text_duplicate_detector.py:835-864 | A search that found nothing else leaves the start isolated. |
| TextGroups.SeparateAdd | src/detector/text_duplicate_detector.py:815-817 | Adding a group of new paths keeps the groups separate. |
| TextGroups.GrownAdd | src/detector/text_duplicate_detector.py:815-817 | Adding a group found from a pair keeps every group grown from a pair. |
| TextGroups.AloneAdd | src/detector/text_duplicate_detector.py:815-817 | A start found alone keeps the processed paths outside groups isolated. |
| TextGroups.CollectStep | src/detector/text_duplicate_detector.py:810-817 | One pair keeps the loop state. |
| TextGroups.GroupCandidates | src/detector/text_duplicate_detector.py:807-819 | Groups have distinct paths and share none. Every path joined to another by an adjacency of a pair's first record is grouped, with that record. No edges, no groups. |
| TextGroups.CollectOne | src/detector/text_duplicate_detector.py:810-817 | One pair: a search from its first record unless processed, keeping the loop state. |
| TextGroups.CollectedEnds | src/detector/text_duplicate_detector.py:810-819 | After the loop both ends of every such adjacency are grouped. |
| TextGroups.RecordedEdges | src/detector/text_duplicate_detector.py:790-791 | No more edges than pairs. |
| TextGroups.RecordedEdgesSpec | src/detector/text_duplicate_detector.py:789-791 | A pair at the threshold is recorded, and every recorded edge is a pair with its similarity. |
| TextGroups.RecordedGraphPaths | src/detector/text_duplicate_detector.py:801-804 | The graph mentions only paths of the pairs. |
| TextGroups.ReachedAtLeast | src/detector/text_duplicate_detector.py:854-856 | Every copy in a group was reached by an edge at or above the threshold. |
| TextGroups.RecordSimilarities | src/detector/text_duplicate_detector.py:786-798 | The corrected recording of the Findings row: records exactly the pairs at or above the threshold, in order. |
| TextGroups.PairListed | src/detector/text_duplicate_detector.py:801-803 | A pair at the threshold lists its second record at its first record's path. |
| TextGroups.DetailedSimilarityCheck | src/detector/text_duplicate_detector.py:763-819 | Separate groups. Both records of a pair at the threshold with different paths are grouped. Each group starts with a pair's record marked 100.0; every later member is joined to an earlier member by a pair at or above the threshold and carries that pair's similarity as 'similar'. Every path is a candidate's. |
| TextGroups.ReachedByPair | src/detector/text_duplicate_detector.py:851-856 | A record the search reaches is the other end of a recorded pair at the threshold whose one end is an earlier member of the group, marked with that pair's similarity. |
| TextGroups.GrownByPairs | src/detector/text_duplicate_detector.py:835-862 | Every member after the first of a grown group is paired at the threshold with an earlier member. |
| TextGroups.DetailedSimilarityCheckAsWritten | src/detector/text_duplicate_detector.py:791 | As written, no group is ever returned. |
| TextGroups.LostEdgeWitness | src/detector/text_duplicate_detector.py:791 | For two different records at the threshold, the intended check groups both and the check as written returns nothing. |

## Left out

- Floating point is modelled as exact reals, and ratio tests are written by cross-multiplication. Float rounding may shift a boundary by one unit, for example 0.8 and 0.3 in the ratio tests.
- Foreign code is an oracle parameter, not a model:
  - `os.stat`, `os.path.exists`, `send2trash`, `shutil.move`, `shutil.copy2`, `os.remove`, `os.walk` and `Path.rglob`;
  - MD5 digests and chardet;
  - the codecs' decoding;
  - OpenCV captures and frame reading, PIL and its resizing;
  - imagehash `average_hash`, `phash` and `hex_to_hash`;
  - `difflib.SequenceMatcher`;
  - the `\w+` regex;
  - JSON load.
- The model states what the code does with their answers, not the answers themselves.
- Thread pools (`ThreadPoolExecutor`/`as_completed`) are modelled as processing their items in submission order. Completion order, the locks and the image detector's dictionary keyed by `id(group)` are not modelled.
- `extract_video_features` (src/detector/duplicate_detector.py:141-199) and `calculate_file_hash` (276-295) are the oracles `extract` and `hashOf`. The `np.linspace` frame choice and the frame hashing are not modelled.
- `_read_file_content_for_analysis`, `_normalize_text` (NFKC), `_read_and_normalize_content` and `_calculate_variance` are not modelled; the normalised content is the oracle `content`.
- `_cosine_similarity` and `get_similarity_details` (floating-point vectors) are not modelled.
- `format_size` and `save_config` are not modelled: one is float formatting, the other writes a file.
- The text and image scanners' `scan_directory` walks are left out as loops. Their decisions are modelled on their own:
  - the prune predicate (`PathNames.IsWalkedDirectory`);
  - the file tests;
  - the per-file records;
  - the progress formula;
  - for images, the collection of per-path results (`ImageScanner.ParallelGetImageInfo`).
- The text scanner's own `_detect_encoding_fast` and `_calculate_file_hash` are the oracles `detect` and `hashOf` of `TextScanner.TextScanner.EnsureFileDetails`. The detector's copies of these are modelled in `TextDetector`.
- `mkdir` of the target folders is not modelled, and neither is pathlib path normalisation. Paths are strings, joined with '/'.
- Printing, progress-callback text and elapsed time are not modelled. Progress values are returned as sequences where the properties concern them.
- The `try`/`except` around `find_similar_texts` (src/detector/text_duplicate_detector.py:99-103) is not modelled as a separate path. No raise reaches it in the model, because pre-filtered files all have a positive size.
- The GUI, `src/main.py`, `run.py`, the build script and the test scripts are not part of this model.
- `get_total_size`'s per-file exception is not modelled; sizes of existing files are always available.
- `Configuration.Config.GetAll` returns the map value. The top-level copy in the code is shallow, so nested lists are still shared. Dafny maps are values and cannot show that sharing.
- ImageDetector.ImageDuplicateDetector.FindDuplicates: states only that every group has two or more input images sharing one metadata key. The groups themselves are stated per candidate group by `ImageDetector.FindSimilarImages`.
- ImageDetector.CompareGroups: states the same shape property, not which greedy groups come out.
- ImageDetector.ImageDuplicateDetector.ExtractAll: states where each kept hash comes from, not that every decodable image is kept.
- TextBatches.FastPreScreening: the features of each record are those of its file's decoded text (`TextFeatures.FeaturesOfText`). They are one value per text while the sample holds at most 100 words (`TextFeatures.FeaturesPinned`); past that point the line split, and so the features, are left open as under `TextFeatures.ExtractLightweightFeatures`. The pairs are stated relative to those records and, directly, as pairs of paths of the given files.
- TextBatches.PreprocessBatch, TextBatches.RunBatch, TextBatches.ScreenBatches, TextBatches.BatchSimilarityCheck, TextBatches.FindSimilarTexts and TextDetector.TextDuplicateDetector.FindDuplicates: the features of the records they screen are tied to the files' texts with the same gap as `TextBatches.FastPreScreening`: past 100 sampled words the line split is not fixed.
- TextBatches.BatchSimilarityCheck: the groups are characterised by coverage of the pairs at the threshold and by separation, not as the exact output of the depth-first searches.
- TextSelection.SmartFileSelection: the ensures ties the result to `Selection`. Its meaning is stated by `SelectionSpec` and `PriorityStops`, which do not pin the order among equal sizes beyond stability.
- PathNames.Lower: lowers ASCII A-Z only, while Python's `str.lower()` lowers every Unicode capital and may change the length ('İ' lowers to two characters). The name, extension and suffix tests therefore differ on non-ASCII names.
- TextSimilarity.QuickSimilarityCheck: the names go through the ASCII-only `PathNames.Lower`, so two names that differ only in non-ASCII case, such as "ΑΒΓ.txt" and "αβγ.txt", count as different names here and as the same name in the code.
- VideoScanner.IsVideoFile: through the ASCII-only `PathNames.Lower`, a suffix such as ".MKV" written with the Kelvin sign (U+212A) is rejected here and accepted by the code.
- TextFeatures.ExtractLightweightFeatures: once the word sample passes 100 words, the `break` at src/detector/text_duplicate_detector.py:385-386 leaves the inner line loop (:362), so each 8192-character chunk (:349) yields at most one more line and the rest is finished as one line. The method does this, but its contract fixes the line split only while the sample holds at most 100 words.
- TextBatches.FindSimilarTexts, TextBatches.BatchSimilarityCheck, TextBatches.RunBatch, TextBatches.GroupPairs and TextDetector.TextDuplicateDetector.FindDuplicates: these sit on the corrected `TextGroups.DetailedSimilarityCheck`. As written (see Findings) `find_similar_texts` never yields a group, because the `TypeError` at src/detector/text_duplicate_detector.py:791 is caught at :797.
- VideoScanner.ScanDirectory: walk order is the order of the entries given; `rglob`'s order is not modelled.

## Findings

| source | as written | input that shows it | evidently intended | confidence | as-written member | corrected member |
|---|---|---|---|---|---|---|
| src/detector/text_duplicate_detector.py:791 | `similarities[pair] = similarity` keys a dict by a tuple of two record dicts. Dicts are unhashable, so every insertion raises `TypeError`, which :797 catches. No edge is recorded, every search returns the start alone, and the method never returns a group. | Any two candidate records with different paths whose detailed similarity reaches the threshold, for example two identical files, which score 100.0. | Record the pair's similarity as an edge, so both records end in one group. | not executed | TextGroups.DetailedSimilarityCheckAsWritten | TextGroups.DetailedSimilarityCheck |
