/**
 * The line bookkeeping of `_extract_lightweight_features` and the record copy
 * of `_preprocess_text_lazy` (src/detector/text_duplicate_detector.py). The
 * text is read in chunks of 8192 characters into a buffer; every complete
 * line is taken off the buffer, its stripped form kept among the first ten
 * and the last ten lines, its length among the last hundred, and every tenth
 * line sampled for words. What is left in the buffer at the end counts as one
 * more line when it is not blank.
 */
module TextFeatures {
  import opened Basics
  import opened TextScanner
  import opened TextSimilarity
  import PathNames

  /** `chunk_size` of the feature reader. */
  const FeatureChunk: nat := 8192

  /** The characters Python's `str.isspace` accepts. */
  predicate IsSpace(c: char)
  {
    ('\U{0009}' <= c <= '\U{000D}') || ('\U{001C}' <= c <= '\U{0020}') || c == '\U{0085}' || c == '\U{00A0}'
    || c == '\U{1680}' || ('\U{2000}' <= c <= '\U{200A}') || c == '\U{2028}' || c == '\U{2029}'
    || c == '\U{202F}' || c == '\U{205F}' || c == '\U{3000}'
  }

  /** `s.lstrip()`: the suffix left after the leading white space. */
  function TrimStart(s: string): (r: string)
    ensures |r| <= |s| && r == s[|s| - |r|..]
    ensures r == [] || !IsSpace(r[0])
    ensures forall i :: 0 <= i < |s| - |r| ==> IsSpace(s[i])
  {
    if s != [] && IsSpace(s[0]) then TrimStart(s[1..]) else s
  }

  /** `s.rstrip()`: the prefix left before the trailing white space. */
  function TrimEnd(s: string): (r: string)
    ensures |r| <= |s| && r == s[..|r|]
    ensures r == [] || !IsSpace(r[|r| - 1])
    ensures forall i :: |r| <= i < |s| ==> IsSpace(s[i])
  {
    if s != [] && IsSpace(s[|s| - 1]) then TrimEnd(s[..|s| - 1]) else s
  }

  /** `s.strip()`. */
  function Strip(s: string): string
  {
    TrimEnd(TrimStart(s))
  }

  /** A string strips to nothing exactly when it is all white space. */
  lemma StripBlank(s: string)
    ensures Strip(s) == [] <==> forall i :: 0 <= i < |s| ==> IsSpace(s[i])
  {
  }

  /** A line read from a text stream never holds white space at its ends once stripped. */
  lemma StripTrimmed(s: string)
    ensures var r := Strip(s); r == [] || (!IsSpace(r[0]) && !IsSpace(r[|r| - 1]))
  {
    var t := TrimStart(s);
    var r := TrimEnd(t);
    if r != [] {
      assert r[0] == t[0];
    }
  }

  /** `[f(x) for x in s]`. */
  function MapSeq<A, B>(s: seq<A>, f: A -> B): (r: seq<B>)
    ensures |r| == |s| && forall i :: 0 <= i < |s| ==> r[i] == f(s[i])
  {
    if s == [] then [] else MapSeq(s[..|s| - 1], f) + [f(s[|s| - 1])]
  }

  /** The last `n` elements (all of them when there are fewer). */
  function LastN<T>(s: seq<T>, n: nat): (r: seq<T>)
    ensures |r| == Min(|s|, n) && r == s[|s| - |r|..]
  {
    if |s| <= n then s else s[|s| - n..]
  }

  /**
   * Appending then dropping the oldest entry when there are more than `n`
   * (`append` followed by `pop(0)`) keeps exactly the last `n`.
   */
  lemma {:induction false} WindowSnoc<A, B>(s: seq<A>, x: A, n: nat, f: A -> B)
    requires n >= 1
    ensures var m := MapSeq(LastN(s, n), f) + [f(x)];
      MapSeq(LastN(s + [x], n), f) == if |m| > n then m[1..] else m
  {
    var m := MapSeq(LastN(s, n), f) + [f(x)];
    var w := MapSeq(LastN(s + [x], n), f);
    var expected := if |m| > n then m[1..] else m;
    assert |w| == |expected|;
    forall i | 0 <= i < |w| ensures w[i] == expected[i] {
      if |s| < n {
        assert LastN(s + [x], n) == s + [x];
      } else {
        assert LastN(s + [x], n)[i] == (s + [x])[|s| + 1 - n + i];
        if i < n - 1 {
          assert expected[i] == m[i + 1] == f(LastN(s, n)[i + 1]);
        }
      }
    }
  }

  /** `len(line)`. */
  function Length(line: string): int
  {
    |line|
  }

  /** `set(words[:5])`. */
  function Sample(words: seq<string>): set<string>
  {
    set w | w in words[..Min(5, |words|)]
  }

  /** The words sampled from every tenth line (the 10th, the 20th, ...). */
  function Sampled(lines: seq<string>, words: string -> seq<string>): set<string>
  {
    if lines == [] then {}
    else Sampled(lines[..|lines| - 1], words) + (if |lines| % 10 == 0 then Sample(words(lines[|lines| - 1])) else {})
  }

  /** The number of words on every tenth line. */
  function Counted(lines: seq<string>, words: string -> seq<string>): nat
  {
    if lines == [] then 0
    else Counted(lines[..|lines| - 1], words) + (if |lines| % 10 == 0 then |words(lines[|lines| - 1])| else 0)
  }

  /** The bookkeeping kept while reading: the line counter, the three line lists, the word sample and count. */
  datatype Bookkeeping = Bookkeeping(
    lineCount: nat, firstLines: seq<string>, lastLines: seq<string>, lineLengths: seq<int>,
    wordSample: set<string>, wordCount: nat)

  /**
   * The bookkeeping the reading loop holds after `lines`, one `Step` per
   * line from the empty lists; it counts the lines and keeps at most ten
   * first and last lines and a hundred lengths.
   */
  function Kept(lines: seq<string>, words: string -> seq<string>): (k: Bookkeeping)
    ensures k.lineCount == |lines|
    ensures |k.firstLines| == Min(|lines|, 10) && |k.lastLines| == Min(|lines|, 10)
    ensures |k.lineLengths| == Min(|lines|, 100)
  {
    if lines == [] then Bookkeeping(0, [], [], [], {}, 0)
    else Step(Kept(lines[..|lines| - 1], words), lines[|lines| - 1], words)
  }

  lemma FirstLinesSnoc(lines: seq<string>, line: string)
    ensures var n := |lines| + 1; var first := MapSeq(lines[..Min(10, |lines|)], Strip);
      MapSeq((lines + [line])[..Min(10, n)], Strip) == if n <= 10 then first + [Strip(line)] else first
  {
    var lines' := lines + [line];
    if |lines'| <= 10 {
      var taken := lines'[..Min(10, |lines'|)];
      assert taken == lines + [line];
      assert taken[..|taken| - 1] == lines[..Min(10, |lines|)];
    } else {
      assert lines'[..Min(10, |lines'|)] == lines[..Min(10, |lines|)];
    }
  }

  lemma SampledSnoc(lines: seq<string>, line: string, words: string -> seq<string>)
    ensures var n := |lines| + 1;
      && Sampled(lines + [line], words) == (if n % 10 == 0 then Sampled(lines, words) + Sample(words(line)) else Sampled(lines, words))
      && Counted(lines + [line], words) == (if n % 10 == 0 then Counted(lines, words) + |words(line)| else Counted(lines, words))
  {
    assert (lines + [line])[..|lines|] == lines;
    var none: set<string> := {};
    assert Sampled(lines, words) + none == Sampled(lines, words);
  }

  /** Processing one complete line: the body of the inner `while '\n' in buffer` loop, up to the memory check. */
  method TakeLine(state: Bookkeeping, line: string, words: string -> seq<string>) returns (state': Bookkeeping)
    ensures state' == Step(state, line, words)
  {
    ghost var next := Step(state, line, words);
    var lineCount := state.lineCount + 1;
    var firstLines := state.firstLines;
    if lineCount <= 10 {
      firstLines := firstLines + [Strip(line)];
    }
    assert firstLines == next.firstLines;
    var lastLines := state.lastLines + [Strip(line)];
    if |lastLines| > 10 {
      lastLines := lastLines[1..];
    }
    assert lastLines == next.lastLines;
    var lineLengths := state.lineLengths + [|line|];
    if |lineLengths| > 100 {
      lineLengths := lineLengths[1..];
    }
    assert lineLengths == next.lineLengths;
    var wordSample, wordCount := state.wordSample, state.wordCount;
    if lineCount % 10 == 0 {
      var ws := words(line);
      wordSample := wordSample + Sample(ws);
      wordCount := wordCount + |ws|;
    }
    assert wordSample == next.wordSample && wordCount == next.wordCount;
    state' := Bookkeeping(lineCount, firstLines, lastLines, lineLengths, wordSample, wordCount);
  }

  /** The bookkeeping after one more line, from the bookkeeping before it. */
  function Step(k: Bookkeeping, line: string, words: string -> seq<string>): Bookkeeping
  {
    var n := k.lineCount + 1;
    var last := k.lastLines + [Strip(line)];
    var lengths := k.lineLengths + [|line|];
    Bookkeeping(
      n,
      if n <= 10 then k.firstLines + [Strip(line)] else k.firstLines,
      if |last| > 10 then last[1..] else last,
      if |lengths| > 100 then lengths[1..] else lengths,
      if n % 10 == 0 then k.wordSample + Sample(words(line)) else k.wordSample,
      if n % 10 == 0 then k.wordCount + |words(line)| else k.wordCount)
  }

  /** The first lines kept are the first ten lines, stripped. */
  lemma {:induction false} KeptFirstLines(lines: seq<string>, words: string -> seq<string>)
    ensures Kept(lines, words).firstLines == MapSeq(lines[..Min(10, |lines|)], Strip)
  {
    if lines != [] {
      var m := |lines| - 1;
      assert lines[..m] + [lines[m]] == lines;
      KeptFirstLines(lines[..m], words);
      FirstLinesSnoc(lines[..m], lines[m]);
    }
  }

  /** The last lines kept are the last ten lines, stripped. */
  lemma {:induction false} KeptLastLines(lines: seq<string>, words: string -> seq<string>)
    ensures Kept(lines, words).lastLines == MapSeq(LastN(lines, 10), Strip)
  {
    if lines != [] {
      var m := |lines| - 1;
      assert lines[..m] + [lines[m]] == lines;
      KeptLastLines(lines[..m], words);
      WindowSnoc(lines[..m], lines[m], 10, Strip);
    }
  }

  /** The lengths kept are those of the last hundred lines. */
  lemma {:induction false} KeptLineLengths(lines: seq<string>, words: string -> seq<string>)
    ensures Kept(lines, words).lineLengths == MapSeq(LastN(lines, 100), Length)
  {
    if lines != [] {
      var m := |lines| - 1;
      assert lines[..m] + [lines[m]] == lines;
      KeptLineLengths(lines[..m], words);
      WindowSnoc(lines[..m], lines[m], 100, Length);
    }
  }

  /** The word sample and count are those of every tenth line. */
  lemma {:induction false} KeptWords(lines: seq<string>, words: string -> seq<string>)
    ensures Kept(lines, words).wordSample == Sampled(lines, words)
    ensures Kept(lines, words).wordCount == Counted(lines, words)
  {
    if lines != [] {
      var m := |lines| - 1;
      assert lines[..m] + [lines[m]] == lines;
      KeptWords(lines[..m], words);
      SampledSnoc(lines[..m], lines[m], words);
    }
  }

  lemma KeptSnoc(lines: seq<string>, line: string, words: string -> seq<string>)
    ensures Kept(lines + [line], words) == Step(Kept(lines, words), line, words)
  {
    assert (lines + [line])[..|lines|] == lines;
  }

  /** The text of the complete lines: each followed by its newline. */
  function Joined(lines: seq<string>): string
  {
    if lines == [] then [] else Joined(lines[..|lines| - 1]) + lines[|lines| - 1] + "\n"
  }

  lemma JoinedSnoc(lines: seq<string>, line: string)
    ensures Joined(lines + [line]) == Joined(lines) + line + "\n"
  {
    assert (lines + [line])[..|lines|] == lines;
  }

  /** `'\n'.join(lines)`. */
  function JoinLines(lines: seq<string>): string
  {
    if lines == [] then []
    else if |lines| == 1 then lines[0]
    else JoinLines(lines[..|lines| - 1]) + "\n" + lines[|lines| - 1]
  }

  /** The first occurrence of `c`: where `buffer.split('\n', 1)` cuts. */
  function FirstIndex(s: string, c: char): (i: nat)
    requires c in s
    ensures i < |s| && s[i] == c && c !in s[..i]
  {
    if s[0] == c then 0 else 1 + FirstIndex(s[1..], c)
  }

  /** `sum(line_lengths) / max(len(line_lengths), 1)`. */
  function AverageLength(lengths: seq<int>): (r: real)
    ensures lengths == [] ==> r == 0.0
  {
    SumOf(lengths) as real / Max(|lengths|, 1) as real
  }

  function SumOf(s: seq<int>): int
  {
    if s == [] then 0 else SumOf(s[..|s| - 1]) + s[|s| - 1]
  }

  /**
   * The last lines that are hashed: the ten kept and, when it is not blank,
   * the stripped rest of the buffer after the last newline.
   */
  function HashedLastLines(k: Bookkeeping, rest: string): seq<string>
  {
    if Strip(rest) == [] then k.lastLines else k.lastLines + [Strip(rest)]
  }

  /**
   * The features from the bookkeeping `k` and the `rest` left in the buffer:
   * the rest, when not blank, counts as one more line.
   */
  function Features(k: Bookkeeping, rest: string, chars: nat, digest: string -> string): LightFeatures
  {
    LightFeatures(
      k.wordCount, if Strip(rest) == [] then k.lineCount else k.lineCount + 1, chars,
      digest(JoinLines(k.firstLines)), digest(JoinLines(HashedLastLines(k, rest))),
      k.wordSample, AverageLength(k.lineLengths))
  }

  /**
   * `_extract_lightweight_features` over the decoded text (`text`, None when
   * opening or reading fails, which the source catches and turns into None),
   * with `words` standing for `re.findall(r'\b\w+\b', line.lower())` and
   * `digest` for the first sixteen hex digits of the MD5 of the UTF-8 text.
   * The text splits into the complete lines processed and the rest left in
   * the buffer; lines stay unprocessed only once the word sample has grown
   * past 100 words (the `break` leaves only the inner loop, so later chunks
   * still take one line each); the features are those of that split.
   */
  method ExtractLightweightFeatures(text: Option<string>, words: string -> seq<string>, digest: string -> string)
    returns (r: Option<LightFeatures>, ghost lines: seq<string>, ghost rest: string)
    ensures text.None? <==> r.None?
    ensures text.Some? ==> Joined(lines) + rest == text.value
    ensures NewlineFree(lines)
    ensures text.Some? ==> '\n' !in rest || |Sampled(lines, words)| > 100
    ensures text.Some? ==> r == Some(Features(Kept(lines, words), rest, |text.value|, digest))
  {
    lines, rest := [], [];
    if text.None? {
      return None, lines, rest;
    }
    var t := text.value;
    var pos := 0;
    var buffer: string := [];
    var chars := 0;
    var state := Bookkeeping(0, [], [], [], {}, 0);
    assert state == Kept(lines, words);
    while pos < |t|
      invariant 0 <= pos <= |t| && chars == pos
      invariant Joined(lines) + buffer == t[..pos]
      invariant NewlineFree(lines)
      invariant state == Kept(lines, words)
      invariant '\n' !in buffer || |state.wordSample| > 100
      decreases |t| - pos
    {
      var end := Min(pos + FeatureChunk, |t|);
      var chunk := t[pos..end];
      AddChunk(Joined(lines), buffer, t, pos, end);
      buffer := buffer + chunk;
      chars := chars + |chunk|;
      pos := end;
      buffer, state, lines := TakeLines(buffer, state, words, lines);
    }
    assert t[..pos] == t;
    assert '\n' !in buffer || |Sampled(lines, words)| > 100 by { KeptWords(lines, words); }
    rest := buffer;
    var features := Finish(state, buffer, chars, digest);
    r := Some(features);
  }

  /** The remaining buffer and the `features.update(...)` after the reading loop. */
  method Finish(state: Bookkeeping, buffer: string, chars: nat, digest: string -> string) returns (f: LightFeatures)
    ensures f == Features(state, buffer, chars, digest)
  {
    var lineCount := state.lineCount;
    var lastLines := state.lastLines;
    if Strip(buffer) != [] {
      lineCount := lineCount + 1;
      lastLines := lastLines + [Strip(buffer)];
    }
    f := LightFeatures(
      state.wordCount, lineCount, chars,
      digest(JoinLines(state.firstLines)), digest(JoinLines(lastLines)),
      state.wordSample, AverageLength(state.lineLengths));
  }

  /**
   * The inner `while '\n' in buffer` loop: takes complete lines off the
   * front of the buffer until none is left or the word sample has grown past
   * 100 words.
   */
  method TakeLines(buffer: string, state: Bookkeeping, words: string -> seq<string>, ghost lines: seq<string>)
    returns (buffer': string, state': Bookkeeping, ghost lines': seq<string>)
    requires state == Kept(lines, words)
    requires NewlineFree(lines)
    ensures Joined(lines') + buffer' == Joined(lines) + buffer
    ensures NewlineFree(lines')
    ensures state' == Kept(lines', words)
    ensures '\n' !in buffer' || |state'.wordSample| > 100
  {
    buffer', state', lines' := buffer, state, lines;
    while '\n' in buffer'
      invariant Joined(lines') + buffer' == Joined(lines) + buffer
      invariant NewlineFree(lines')
      invariant state' == Kept(lines', words)
      decreases |buffer'|
    {
      var cut := FirstIndex(buffer', '\n');
      var line := buffer'[..cut];
      CutLine(Joined(lines'), buffer', cut);
      JoinedSnoc(lines', line);
      buffer' := buffer'[cut + 1..];
      state' := TakeLine(state', line, words);
      KeptSnoc(lines', line, words);
      NewlineFreeSnoc(lines', line);
      lines' := lines' + [line];
      if |state'.wordSample| > 100 {
        break;
      }
    }
  }

  /** None of the lines holds a newline. */
  predicate NewlineFree(lines: seq<string>)
  {
    forall i :: 0 <= i < |lines| ==> '\n' !in lines[i]
  }

  lemma NewlineFreeSnoc(lines: seq<string>, line: string)
    requires NewlineFree(lines) && '\n' !in line
    ensures NewlineFree(lines + [line])
  {
  }

  /** Cutting the buffer at a newline moves the line and its newline to the processed text. */
  lemma CutLine(done: string, buffer: string, cut: nat)
    requires cut < |buffer| && buffer[cut] == '\n'
    ensures done + buffer[..cut] + "\n" + buffer[cut + 1..] == done + buffer
  {
    assert buffer == buffer[..cut] + "\n" + buffer[cut + 1..];
  }

  /** Appending the next chunk to the buffer extends the text read by that chunk. */
  lemma AddChunk(done: string, buffer: string, t: string, pos: nat, end: nat)
    requires pos <= end <= |t| && done + buffer == t[..pos]
    ensures done + (buffer + t[pos..end]) == t[..end]
  {
    assert t[..end] == t[..pos] + t[pos..end];
  }

  /** A line free of newlines contributes none to the count. */
  lemma {:induction false} CountAbsent(s: string, c: char)
    requires c !in s
    ensures Count(s, c) == 0
  {
    if s != [] {
      assert s[..|s| - 1] <= s;
      CountAbsent(s[..|s| - 1], c);
    }
  }

  /** The complete lines account for one newline each. */
  lemma {:induction false} JoinedCount(lines: seq<string>)
    requires NewlineFree(lines)
    ensures Count(Joined(lines), '\n') == |lines|
  {
    if lines != [] {
      var m := |lines| - 1;
      JoinedCount(lines[..m]);
      CountAbsent(lines[m], '\n');
      CountAppend(Joined(lines[..m]), lines[m], '\n');
      CountAppend(Joined(lines[..m]) + lines[m], "\n", '\n');
    }
  }

  /**
   * When the word sample never passed 100 words, the features' line count is
   * the number of newlines, plus one when the text after the last newline is
   * not blank; unlike `_get_file_stats_fast`, a trailing newline adds nothing
   * and a blank last line is not counted.
   */
  lemma FeatureLineCount(t: string, lines: seq<string>, rest: string, words: string -> seq<string>,
                         digest: string -> string)
    requires Joined(lines) + rest == t && '\n' !in rest
    requires NewlineFree(lines)
    ensures Features(Kept(lines, words), rest, |t|, digest).lineCount == Count(t, '\n') + (if Strip(rest) == [] then 0 else 1)
  {
    JoinedCount(lines);
    CountAbsent(rest, '\n');
    CountAppend(Joined(lines), rest, '\n');
  }

  /**
   * The last-lines list that is hashed holds at most eleven entries: ten
   * complete lines and the non-blank rest. With ten lines or more and a
   * non-blank rest it holds eleven, one more than the ten the loop keeps.
   */
  lemma LastLinesHashed(lines: seq<string>, rest: string, words: string -> seq<string>)
    ensures var hashed := HashedLastLines(Kept(lines, words), rest);
      |hashed| <= 11 && (|lines| >= 10 && Strip(rest) != [] ==> |hashed| == 11)
  {
  }

  /**
   * `fs` are the lightweight features of the text `t`: they come from a
   * split of `t` into complete newline-free lines and a rest, where the rest
   * holds no newline unless the word sample of the lines passed 100 words.
   */
  ghost predicate FeaturesOfText(t: string, words: string -> seq<string>, digest: string -> string, fs: LightFeatures)
  {
    exists lines: seq<string>, rest: string ::
      && Joined(lines) + rest == t && NewlineFree(lines)
      && ('\n' !in rest || |Sampled(lines, words)| > 100)
      && fs == Features(Kept(lines, words), rest, |t|, digest)
  }

  /** The split of `t` at every newline: its complete lines and the text after the last newline. */
  function SplitLines(t: string): (r: (seq<string>, string))
    ensures Joined(r.0) + r.1 == t && NewlineFree(r.0) && '\n' !in r.1
    decreases |t|
  {
    if '\n' !in t then ([], t)
    else
      var i := PathNames.RFind(t, '\n');
      var p := SplitLines(t[..i]);
      JoinedSnoc(p.0, p.1);
      assert t == t[..i] + "\n" + t[i + 1..];
      (p.0 + [p.1], t[i + 1..])
  }

  lemma {:induction false} JoinedCons(line: string, lines: seq<string>)
    ensures Joined([line] + lines) == line + "\n" + Joined(lines)
    decreases |lines|
  {
    if lines == [] {
      JoinedSnoc([], line);
    } else {
      var m := |lines| - 1;
      JoinedCons(line, lines[..m]);
      assert [line] + lines == ([line] + lines[..m]) + [lines[m]];
      assert lines == lines[..m] + [lines[m]];
      JoinedSnoc([line] + lines[..m], lines[m]);
      JoinedSnoc(lines[..m], lines[m]);
    }
  }

  /**
   * Two ways of writing one text as complete newline-free lines and a rest:
   * when the second rest holds no newline, the first lines are a prefix of
   * the second.
   */
  lemma {:induction false} JoinedPrefix(l1: seq<string>, r1: string, l2: seq<string>, r2: string)
    requires Joined(l1) + r1 == Joined(l2) + r2
    requires NewlineFree(l1) && NewlineFree(l2) && '\n' !in r2
    ensures |l1| <= |l2| && l1 == l2[..|l1|]
    decreases |l1|
  {
    if l1 != [] {
      var t := Joined(l1) + r1;
      HeadLine(l1, r1);
      LinesBeforeNewline(l2, r2, t, |l1[0]|);
      HeadLine(l2, r2);
      SameHead(t, l1[0], l2[0]);
      JoinedPrefix(l1[1..], r1, l2[1..], r2);
    }
  }

  /** A text with a newline, split into lines and a newline-free rest, has at least one line. */
  lemma LinesBeforeNewline(lines: seq<string>, rest: string, t: string, i: int)
    requires Joined(lines) + rest == t && '\n' !in rest
    requires 0 <= i < |t| && t[i] == '\n'
    ensures lines != []
  {
    assert Joined([]) + rest == rest;
  }

  /** A text that starts with a complete newline-free line: that line, its newline, and the text after it. */
  lemma HeadLine(lines: seq<string>, rest: string)
    requires lines != [] && NewlineFree(lines)
    ensures var t := Joined(lines) + rest;
      && |lines[0]| < |t| && t[|lines[0]|] == '\n'
      && t[..|lines[0]|] == lines[0] && t[|lines[0]| + 1..] == Joined(lines[1..]) + rest
  {
    var head, tail := lines[0], Joined(lines[1..]) + rest;
    var t := Joined(lines) + rest;
    assert t == head + "\n" + tail by {
      assert lines == [head] + lines[1..];
      JoinedCons(head, lines[1..]);
    }
    SplitAround(head, tail);
  }

  lemma SplitAround(head: string, tail: string)
    ensures var t := head + "\n" + tail;
      t[|head|] == '\n' && t[..|head|] == head && t[|head| + 1..] == tail
  {
    var t := head + "\n" + tail;
    assert t[..|head|] == head;
    assert t[|head| + 1..] == tail;
  }

  /** Two newline-free lines that both run up to a newline of the same text are the same line. */
  lemma SameHead(t: string, h1: string, h2: string)
    requires '\n' !in h1 && '\n' !in h2
    requires |h1| < |t| && t[|h1|] == '\n' && t[..|h1|] == h1
    requires |h2| < |t| && t[|h2|] == '\n' && t[..|h2|] == h2
    ensures h1 == h2
  {
    assert forall i :: 0 <= i < |h1| ==> t[i] == h1[i];
    assert forall i :: 0 <= i < |h2| ==> t[i] == h2[i];
  }

  /** Cardinality grows with the set. */
  lemma {:induction false} SubsetCard<T>(a: set<T>, b: set<T>)
    requires a <= b
    ensures |a| <= |b|
  {
    if a != {} {
      var x :| x in a;
      SubsetCard(a - {x}, b - {x});
    }
  }

  /** The words sampled from the first lines are among those sampled from all of them. */
  lemma {:induction false} SampledPrefix(lines: seq<string>, n: nat, words: string -> seq<string>)
    requires n <= |lines|
    ensures Sampled(lines[..n], words) <= Sampled(lines, words)
  {
    if n < |lines| {
      var m := |lines| - 1;
      assert lines[..m][..n] == lines[..n];
      SampledPrefix(lines[..m], n, words);
    } else {
      assert lines[..n] == lines;
    }
  }

  /**
   * When the word sample of all the complete lines of `t` stays at or below
   * 100 words, the reader never breaks early: the features of `t` are those
   * of its split at every newline, so they are fixed by the text alone.
   */
  lemma FeaturesPinned(t: string, words: string -> seq<string>, digest: string -> string, fs: LightFeatures)
    requires FeaturesOfText(t, words, digest, fs)
    requires |Sampled(SplitLines(t).0, words)| <= 100
    ensures fs == Features(Kept(SplitLines(t).0, words), SplitLines(t).1, |t|, digest)
  {
    var lines, rest := SplitOf(t, words, digest, fs);
    SameSplit(lines, rest, SplitLines(t).0, SplitLines(t).1, words);
  }

  /**
   * A split whose rest keeps a newline only past 100 sampled words is the
   * split at every newline, when that split samples at most 100 words.
   */
  lemma SameSplit(lines: seq<string>, rest: string, all: seq<string>, last: string, words: string -> seq<string>)
    requires Joined(lines) + rest == Joined(all) + last
    requires NewlineFree(lines) && NewlineFree(all) && '\n' !in last
    requires '\n' !in rest || |Sampled(lines, words)| > 100
    requires |Sampled(all, words)| <= 100
    ensures lines == all && rest == last
  {
    JoinedPrefix(lines, rest, all, last);
    assert '\n' !in rest by {
      SampledPrefix(all, |lines|, words);
      SubsetCard(Sampled(lines, words), Sampled(all, words));
    }
    JoinedPrefix(all, last, lines, rest);
    assert lines == all;
    assert rest == (Joined(lines) + rest)[|Joined(lines)|..];
  }

  /** A split that gives the features `fs` of `t`. */
  lemma SplitOf(t: string, words: string -> seq<string>, digest: string -> string, fs: LightFeatures)
    returns (lines: seq<string>, rest: string)
    requires FeaturesOfText(t, words, digest, fs)
    ensures Joined(lines) + rest == t && NewlineFree(lines)
    ensures '\n' !in rest || |Sampled(lines, words)| > 100
    ensures fs == Features(Kept(lines, words), rest, |t|, digest)
  {
    lines, rest :| && Joined(lines) + rest == t && NewlineFree(lines)
                   && ('\n' !in rest || |Sampled(lines, words)| > 100)
                   && fs == Features(Kept(lines, words), rest, |t|, digest);
  }

  /**
   * `_preprocess_text_lazy`: None for a record with an empty path or whose
   * features cannot be extracted; otherwise a copy of the record with its
   * lightweight features attached. The encoding passed on is the record's own
   * (`file_info.get('encoding', 'utf-8')` finds the key, which the scanner
   * always sets, possibly to None, the platform default); `read` is the
   * decoded text of a path under an encoding.
   */
  method PreprocessTextLazy(f: TextFileInfo, read: (string, Option<string>) -> Option<string>,
                            words: string -> seq<string>, digest: string -> string)
    returns (r: Option<TextEntry>, ghost lines: seq<string>, ghost rest: string)
    ensures r.None? <==> f.path == [] || read(f.path, f.encoding).None?
    ensures r.Some? ==> r.value == Snapshot(f).(features := r.value.features)
    ensures r.Some? ==>
      var t := read(f.path, f.encoding).value;
      && Joined(lines) + rest == t && NewlineFree(lines)
      && ('\n' !in rest || |Sampled(lines, words)| > 100)
      && r.value.features == Some(Features(Kept(lines, words), rest, |t|, digest))
    ensures r.Some? ==>
      r.value.features.Some? && FeaturesOfText(read(f.path, f.encoding).value, words, digest, r.value.features.value)
  {
    lines, rest := [], [];
    if f.path == [] {
      return None, lines, rest;
    }
    var features;
    features, lines, rest := ExtractLightweightFeatures(read(f.path, f.encoding), words, digest);
    if features.None? {
      return None, lines, rest;
    }
    r := Some(Snapshot(f).(features := features));
  }

  /** `file_info.copy()`: the record's fields as a value, without features. */
  function Snapshot(f: TextFileInfo): (e: TextEntry)
    reads f
    ensures e.path == f.path && e.size == f.size && e.mtime == f.mtime && e.contentHash == f.contentHash
    ensures e.features.None?
  {
    TextEntry(f.path, f.name, f.size, f.mtime, f.extension, f.encoding, f.lineCount, f.charCount,
              f.contentHash, None, f.similarity, f.matchType)
  }
}
