/**
  Standardised file names and the video-extension test
  (generateStandardFileName, VIDEO_EXTENSIONS and the extension check of the
  recursive scan).
 */
module Naming {
  import opened Text

  // ---------------------------------------------------------------------
  // The two prefixes an old name may carry.

  /** `p` is, as a whole, a match of `\d+[-\.]\s*` (an old ordinal such as
      "12-", "3. " or "07.\t"). */
  ghost predicate IsOrdinalPrefix(p: string) {
    exists d :: 1 <= d < |p| && All(p[..d], IsDigit) && (p[d] == '-' || p[d] == '.')
      && All(p[d + 1..], IsJsSpace)
  }

  /** The characters that may follow a lesson marker: `[-\.\s]`. */
  predicate IsLessonSeparator(c: char) { c == '-' || c == '.' || IsJsSpace(c) }

  /** `[课讲节]` */
  predicate IsLessonWord(c: char) { c == '课' || c == '讲' || c == '节' }

  /** `p` is, as a whole, a match of `第\d+[课讲节][-\.\s]*` (a lesson marker
      such as "第3课 " or "第12讲-"). */
  ghost predicate IsLessonPrefix(p: string) {
    exists d :: 2 <= d < |p| && p[0] == '第' && All(p[1..d], IsDigit) && IsLessonWord(p[d])
      && All(p[d + 1..], IsLessonSeparator)
  }

  /** Number of leading characters that the replacement of `^\d+[-\.]\s*` removes. */
  function OrdinalPrefixLen(s: string): (k: nat)
    ensures k <= |s|
  {
    var d := SpanLen(s, IsDigit);
    if 0 < d < |s| && (s[d] == '-' || s[d] == '.') then
      d + 1 + SpanLen(s[d + 1..], IsJsSpace)
    else 0
  }

  /** Number of leading characters that the replacement of `^第\d+[课讲节][-\.\s]*` removes. */
  function LessonPrefixLen(s: string): (k: nat)
    ensures k <= |s|
  {
    if s == [] || s[0] != '第' then 0
    else
      var d := 1 + SpanLen(s[1..], IsDigit);
      if 1 < d < |s| && IsLessonWord(s[d]) then
        d + 1 + SpanLen(s[d + 1..], IsLessonSeparator)
      else 0
  }

  /** Any prefix matching `^\d+[-\.]\s*` is covered by what the replacement removes. */
  lemma OrdinalMatchCovered(s: string, k: nat)
    requires k <= |s| && IsOrdinalPrefix(s[..k])
    ensures 0 < k <= OrdinalPrefixLen(s)
  {
    var p := s[..k];
    var d :| 1 <= d < |p| && All(p[..d], IsDigit) && (p[d] == '-' || p[d] == '.')
      && All(p[d + 1..], IsJsSpace);
    assert forall i :: 0 <= i < d ==> p[..d][i] == s[i];
    assert forall i :: d < i < k ==> p[d + 1..][i - d - 1] == s[i];
    OrdinalCoveredWith(s, k, d);
  }

  /** The same, for a match whose digits end at `d`. */
  lemma OrdinalCoveredWith(s: string, k: nat, d: nat)
    requires 1 <= d < k <= |s|
    requires forall i :: 0 <= i < d ==> IsDigit(s[i])
    requires s[d] == '-' || s[d] == '.'
    requires forall i :: d < i < k ==> IsJsSpace(s[i])
    ensures k <= OrdinalPrefixLen(s)
  {
    assert s[0..] == s;
    SpanLenFrom(s, IsDigit, 0, d);
    SpanLenFrom(s, IsJsSpace, d + 1, k - d - 1);
  }

  /** Any prefix matching `^第\d+[课讲节][-\.\s]*` is covered by what the replacement removes. */
  lemma LessonMatchCovered(s: string, k: nat)
    requires k <= |s| && IsLessonPrefix(s[..k])
    ensures 0 < k <= LessonPrefixLen(s)
  {
    var p := s[..k];
    var d :| 2 <= d < |p| && p[0] == '第' && All(p[1..d], IsDigit) && IsLessonWord(p[d])
      && All(p[d + 1..], IsLessonSeparator);
    assert forall i :: 1 <= i < d ==> p[1..d][i - 1] == s[i];
    assert forall i :: d < i < k ==> p[d + 1..][i - d - 1] == s[i];
    LessonCoveredWith(s, k, d);
  }

  /** The same, for a match whose digits end at `d`. */
  lemma LessonCoveredWith(s: string, k: nat, d: nat)
    requires 2 <= d < k <= |s| && s[0] == '第'
    requires forall i :: 1 <= i < d ==> IsDigit(s[i])
    requires IsLessonWord(s[d])
    requires forall i :: d < i < k ==> IsLessonSeparator(s[i])
    ensures k <= LessonPrefixLen(s)
  {
    SpanLenFrom(s, IsDigit, 1, d - 1);
    assert s[1..][d - 1] == s[d];
    SpanLenFrom(s, IsLessonSeparator, d + 1, k - d - 1);
  }

  /** The greedy, anchored replacement removes exactly the longest prefix that
      matches the pattern, and nothing when no prefix matches. */
  lemma OrdinalPrefixLenIsLongestMatch(s: string)
    ensures OrdinalPrefixLen(s) > 0 ==> IsOrdinalPrefix(s[..OrdinalPrefixLen(s)])
    ensures forall k :: OrdinalPrefixLen(s) < k <= |s| ==> !IsOrdinalPrefix(s[..k])
    ensures OrdinalPrefixLen(s) == 0 ==> forall k :: 0 <= k <= |s| ==> !IsOrdinalPrefix(s[..k])
  {
    var n := OrdinalPrefixLen(s);
    var d := SpanLen(s, IsDigit);
    if n > 0 {
      var p := s[..n];
      assert p[..d] == s[..d];
      assert p[d + 1..] == s[d + 1..][..n - d - 1];
      assert 1 <= d < |p| && All(p[..d], IsDigit) && (p[d] == '-' || p[d] == '.') && All(p[d + 1..], IsJsSpace);
    }
    forall k | 0 <= k <= |s| && IsOrdinalPrefix(s[..k])
      ensures 0 < k <= n
    {
      OrdinalMatchCovered(s, k);
    }
  }

  lemma LessonPrefixLenIsLongestMatch(s: string)
    ensures LessonPrefixLen(s) > 0 ==> IsLessonPrefix(s[..LessonPrefixLen(s)])
    ensures forall k :: LessonPrefixLen(s) < k <= |s| ==> !IsLessonPrefix(s[..k])
    ensures LessonPrefixLen(s) == 0 ==> forall k :: 0 <= k <= |s| ==> !IsLessonPrefix(s[..k])
  {
    var n := LessonPrefixLen(s);
    if n > 0 {
      var d := 1 + SpanLen(s[1..], IsDigit);
      var p := s[..n];
      assert p[1..d] == s[1..][..d - 1];
      assert p[d + 1..] == s[d + 1..][..n - d - 1];
      assert 2 <= d < |p| && p[0] == '第' && All(p[1..d], IsDigit) && IsLessonWord(p[d])
        && All(p[d + 1..], IsLessonSeparator);
    }
    forall k | 0 <= k <= |s| && IsLessonPrefix(s[..k])
      ensures 0 < k <= n
    {
      LessonMatchCovered(s, k);
    }
  }

  function StripOrdinalPrefix(s: string): string {
    s[OrdinalPrefixLen(s)..]
  }

  function StripLessonPrefix(s: string): string {
    s[LessonPrefixLen(s)..]
  }

  /** The old name with at most one ordinal and then at most one lesson marker removed. */
  function CleanName(name: string): string {
    StripLessonPrefix(StripOrdinalPrefix(name))
  }

  /** generateStandardFileName(originalName, index): `${index}-${cleanName}`. */
  function GenerateStandardFileName(name: string, index: nat): string {
    NatToString(index) + "-" + CleanName(name)
  }

  /** The new name is the ordinal, a dash and an unaltered tail of the old
      name: letters keep their case, the extension included. */
  lemma GeneratedNameShape(name: string, index: nat)
    ensures var r := GenerateStandardFileName(name, index);
      var head := NatToString(index) + "-";
      StartsWith(r, head) && |r| - |head| <= |name|
      && r[|head|..] == name[|name| - (|r| - |head|)..]
  {
    var k1 := OrdinalPrefixLen(name);
    var t := name[k1..];
    var k2 := LessonPrefixLen(t);
    assert CleanName(name) == name[k1 + k2..];
  }

  /** A name with neither an ordinal nor a lesson marker is kept verbatim. */
  lemma GeneratedNameVerbatim(name: string, index: nat)
    requires forall k :: 0 <= k <= |name| ==> !IsOrdinalPrefix(name[..k])
    requires forall k :: 0 <= k <= |name| ==> !IsLessonPrefix(name[..k])
    ensures GenerateStandardFileName(name, index) == NatToString(index) + "-" + name
  {
    OrdinalPrefixLenIsLongestMatch(name);
    LessonPrefixLenIsLongestMatch(name);
  }

  /** The leading ordinal of a name, `<digits>-…`, read back as a number. */
  function LeadingOrdinal(s: string): Option<nat> {
    var d := SpanLen(s, IsDigit);
    if 0 < d < |s| && s[d] == '-' then
      assert All(s[..d], IsDigit) by {
        assert forall i :: 0 <= i < d ==> s[..d][i] == s[i];
      }
      Some(DigitsValue(s[..d]))
    else None
  }

  /** The ordinal can be read back from a generated name. */
  lemma {:induction false} LeadingOrdinalOfGenerated(name: string, index: nat)
    ensures LeadingOrdinal(GenerateStandardFileName(name, index)) == Some(index)
  {
    var head := NatToString(index);
    var r := GenerateStandardFileName(name, index);
    assert r == head + ['-'] + CleanName(name);
    SpanLenStopsAt(head, '-', CleanName(name), IsDigit);
    assert r[..|head|] == head;
    DigitsValueOfNatToString(index);
  }

  /** Two different ordinals never produce the same name, whatever the old
      names were: the names of one run are pairwise distinct. */
  lemma GeneratedNamesDistinct(a: string, i: nat, b: string, j: nat)
    requires i != j
    ensures GenerateStandardFileName(a, i) != GenerateStandardFileName(b, j)
  {
    LeadingOrdinalOfGenerated(a, i);
    LeadingOrdinalOfGenerated(b, j);
  }

  /** Renaming an already renumbered file replaces its ordinal: applying the
      generator to its own output with a new index gives what the original
      name would have given, as long as the cleaned name starts neither with
      whitespace nor with another lesson marker. */
  lemma ReapplyReplacesOrdinal(name: string, i: nat, j: nat)
    requires var c := CleanName(name); c == [] || !IsJsSpace(c[0])
    requires LessonPrefixLen(CleanName(name)) == 0
    ensures GenerateStandardFileName(GenerateStandardFileName(name, i), j)
         == GenerateStandardFileName(name, j)
  {
    var c := CleanName(name);
    var head := NatToString(i);
    var r := GenerateStandardFileName(name, i);
    assert r == head + ['-'] + c;
    SpanLenStopsAt(head, '-', c, IsDigit);
    assert r[|head| + 1..] == c;
    assert OrdinalPrefixLen(r) == |head| + 1;
    assert StripOrdinalPrefix(r) == c;
  }

  // ---------------------------------------------------------------------
  // Video classification.

  /** VIDEO_EXTENSIONS */
  const VideoExtensions: set<string> := {
    "mp4", "avi", "mkv", "mov", "wmv", "flv", "webm", "m4v",
    "3gp", "rmvb", "rm", "asf", "divx", "vob", "ts", "m2ts",
    "mts", "f4v", "ogv", "mpg", "mpeg"
  }

  /** The text after the last dot, when it is `[a-zA-Z0-9]{1,4}`, lower-cased;
      `None` where the script leaves `fileExt` empty. */
  function FileExtension(name: string): Option<string> {
    var parts := Split(name, '.');
    if |parts| > 1 then
      var last := parts[|parts| - 1];
      if 1 <= |last| <= 4 && All(last, IsAsciiAlnum) then Some(AsciiLowerString(last)) else None
    else None
  }

  /** A file counts as a video when its extension is a listed one. */
  predicate IsVideoName(name: string) {
    var ext := FileExtension(name);
    ext.Some? && ext.value in VideoExtensions
  }

  /** A suffix (the text after a dot) that names a video format. */
  predicate IsVideoSuffix(x: string) {
    1 <= |x| <= 4 && All(x, IsAsciiAlnum) && AsciiLowerString(x) in VideoExtensions
  }

  /** The extension test, stated without splitting: the name contains a dot
      and the text after the last dot is 1 to 4 ASCII letters or digits whose
      lower-case form is a listed extension. */
  lemma IsVideoNameIff(name: string)
    ensures IsVideoName(name) <==>
      LastIndexOf(name, '.').Some? && IsVideoSuffix(name[LastIndexOf(name, '.').value + 1..])
  {
    SplitLastPiece(name, '.');
    var dot := LastIndexOf(name, '.');
    if dot.Some? {
      var parts := Split(name, '.');
      var x := name[dot.value + 1..];
      assert parts[|parts| - 1] == x;
      assert FileExtension(name) == if 1 <= |x| <= 4 && All(x, IsAsciiAlnum) then Some(AsciiLowerString(x)) else None;
    } else {
      assert FileExtension(name) == None;
    }
  }

  lemma AsciiLowerIdempotent(x: string)
    ensures AsciiLowerString(AsciiLowerString(x)) == AsciiLowerString(x)
  {
  }

  lemma {:induction false} LastIndexOfLower(s: string, c: char)
    requires !IsAsciiLetter(c)
    ensures LastIndexOf(AsciiLowerString(s), c) == LastIndexOf(s, c)
  {
    if s != [] {
      var low := AsciiLowerString(s);
      assert low[..|s| - 1] == AsciiLowerString(s[..|s| - 1]);
      LastIndexOfLower(s[..|s| - 1], c);
    }
  }

  lemma VideoSuffixIgnoresCase(x: string)
    ensures IsVideoSuffix(AsciiLowerString(x)) == IsVideoSuffix(x)
  {
    var low := AsciiLowerString(x);
    assert All(low, IsAsciiAlnum) == All(x, IsAsciiAlnum) by {
      assert forall i :: 0 <= i < |x| ==> low[i] == AsciiLower(x[i]);
    }
    AsciiLowerIdempotent(x);
  }

  lemma {:induction false} LowerSuffix(s: string, k: nat)
    requires k <= |s|
    ensures AsciiLowerString(s)[k..] == AsciiLowerString(s[k..])
  {
    if k > 0 {
      LowerSuffix(s[1..], k - 1);
      assert s[1..][k - 1..] == s[k..];
    }
  }

  /** The test ignores letter case: lower-casing the whole name does not
      change the verdict (so "clip.MKV" is a video exactly as "clip.mkv"). */
  lemma IsVideoNameIgnoresCase(name: string)
    ensures IsVideoName(AsciiLowerString(name)) == IsVideoName(name)
  {
    var low := AsciiLowerString(name);
    IsVideoNameIff(name);
    IsVideoNameIff(low);
    LastIndexOfLower(name, '.');
    var dot := LastIndexOf(name, '.');
    if dot.Some? {
      var x := name[dot.value + 1..];
      LowerSuffix(name, dot.value + 1);
      VideoSuffixIgnoresCase(x);
    }
  }

  /** A name whose last dot is at `k` is a video exactly when the text
      after it is a video suffix. */
  lemma VideoNameByLastDot(name: string, k: nat)
    requires k < |name| && name[k] == '.' && '.' !in name[k + 1..]
    ensures IsVideoName(name) == IsVideoSuffix(name[k + 1..])
  {
    assert '.' in name;
    var dot := LastIndexOf(name, '.');
    assert dot.value >= k;
    assert dot.value <= k by {
      assert forall j :: k < j < |name| ==> name[j] == name[k + 1..][j - k - 1];
    }
    IsVideoNameIff(name);
  }

  /** `<stem>.<suffix>` with a dot-free suffix is a video exactly when the
      suffix is a video suffix; the stem does not matter. */
  lemma VideoNameOfParts(stem: string, suffix: string)
    requires '.' !in suffix
    ensures IsVideoName(stem + "." + suffix) == IsVideoSuffix(suffix)
  {
    var name := stem + "." + suffix;
    assert name[|stem|] == '.';
    assert name[|stem| + 1..] == suffix;
    VideoNameByLastDot(name, |stem|);
  }

  /** Text and subtitle, image and document suffixes are not listed. */
  lemma OtherSuffixesNotListed()
    ensures "txt" !in VideoExtensions && "srt" !in VideoExtensions
    ensures "jpg" !in VideoExtensions && "pdf" !in VideoExtensions
  {
  }

  /** Whatever the stem, `.mp4` and `.MKV` files are videos (the test
      ignores case) and `.txt` files are not: the sample folder's
      `video.mp4`, `clip.MKV` and `ep1.mp4` are kept and `notes.txt` is not. */
  lemma SampleSuffixes(stem: string)
    ensures IsVideoName(stem + ".mp4") && IsVideoName(stem + ".MKV")
    ensures !IsVideoName(stem + ".txt")
  {
    Mp4IsVideo(stem);
    UpperMkvIsVideo(stem);
    TxtIsNotVideo(stem);
  }

  lemma Mp4IsVideo(stem: string)
    ensures IsVideoName(stem + ".mp4")
  {
    assert AsciiLowerString("mp4") == "mp4";
    VideoNameOfParts(stem, "mp4");
    assert stem + "." + "mp4" == stem + ".mp4";
  }

  /** `.MKV` counts because its lower-case form `.mkv` does. */
  lemma UpperMkvIsVideo(stem: string)
    ensures IsVideoName(stem + ".MKV")
  {
    assert AsciiLowerString("mkv") == "mkv";
    assert IsVideoSuffix("mkv");
    assert AsciiLowerString("MKV") == "mkv";
    VideoSuffixIgnoresCase("MKV");
    VideoNameOfParts(stem, "MKV");
    assert stem + "." + "MKV" == stem + ".MKV";
  }

  lemma TxtIsNotVideo(stem: string)
    ensures !IsVideoName(stem + ".txt")
  {
    assert AsciiLowerString("txt") == "txt";
    VideoNameOfParts(stem, "txt");
    assert stem + "." + "txt" == stem + ".txt";
    OtherSuffixesNotListed();
  }

  /** Numbered 1 to 3 in scan order they become `1-video.mp4`,
      `2-clip.MKV` (the extension keeps its case) and `3-ep1.mp4`. */
  lemma SampleNewNames()
    ensures GenerateStandardFileName("video.mp4", 1) == "1-video.mp4"
    ensures GenerateStandardFileName("clip.MKV", 2) == "2-clip.MKV"
    ensures GenerateStandardFileName("ep1.mp4", 3) == "3-ep1.mp4"
  {
    RenamedVideo();
    RenamedClip();
    RenamedEpisode();
  }

  lemma RenamedVideo()
    ensures GenerateStandardFileName("video.mp4", 1) == "1-video.mp4"
  {
    PlainNameKept("video.mp4", 1);
  }

  lemma RenamedClip()
    ensures GenerateStandardFileName("clip.MKV", 2) == "2-clip.MKV"
  {
    PlainNameKept("clip.MKV", 2);
  }

  lemma RenamedEpisode()
    ensures GenerateStandardFileName("ep1.mp4", 3) == "3-ep1.mp4"
  {
    PlainNameKept("ep1.mp4", 3);
  }

  /** A name starting with neither a digit nor `第` is kept after `<index>-`. */
  lemma PlainNameKept(name: string, index: nat)
    requires name != [] && !IsDigit(name[0]) && name[0] != '第'
    ensures GenerateStandardFileName(name, index) == NatToString(index) + "-" + name
  {
    assert SpanLen(name, IsDigit) == 0;
  }

  /** A single space before a name that starts with no separator is a
      separator run of length one. */
  lemma OneSpaceRun(rest: string)
    requires rest == [] || !IsLessonSeparator(rest[0])
    ensures SpanLen([' '] + rest, IsLessonSeparator) == 1
  {
    assert ([' '] + rest)[1..] == rest;
  }

  /** The lesson-marker replacement removes exactly `第<n><word> `. */
  lemma LessonMarkerLen(n: nat, w: char, rest: string)
    requires IsLessonWord(w)
    requires rest == [] || !IsLessonSeparator(rest[0])
    ensures LessonPrefixLen("第" + NatToString(n) + [w] + " " + rest) == 3 + |NatToString(n)|
  {
    var digits := NatToString(n);
    var s := "第" + digits + [w] + " " + rest;
    assert s[1..] == digits + [w] + (" " + rest);
    SpanLenStopsAt(digits, w, " " + rest, IsDigit);
    assert s[1 + |digits|] == w;
    assert s[2 + |digits|..] == [' '] + rest;
    OneSpaceRun(rest);
  }

  /** A lesson marker such as `第3课 ` in front of a name is replaced by the
      new ordinal. */
  lemma LessonMarkerReplaced(n: nat, w: char, rest: string, k: nat)
    requires IsLessonWord(w)
    requires rest == [] || !IsLessonSeparator(rest[0])
    ensures GenerateStandardFileName("第" + NatToString(n) + [w] + " " + rest, k)
         == NatToString(k) + "-" + rest
  {
    var s := "第" + NatToString(n) + [w] + " " + rest;
    assert SpanLen(s, IsDigit) == 0;
    assert StripOrdinalPrefix(s) == s;
    LessonMarkerLen(n, w, rest);
    assert s[3 + |NatToString(n)|..] == rest;
  }
}
