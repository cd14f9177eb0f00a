/**
  Text helpers shared by the model: the character classes that the script's
  regular expressions use, a longest-run scanner, splitting on a separator,
  decimal rendering of ordinals and JavaScript's `trim`.
 */
module Text {

  datatype Option<T> = None | Some(value: T)

  /** `\d` in a JavaScript regular expression without the `u` flag. */
  predicate IsDigit(c: char) { '0' <= c <= '9' }

  predicate IsAsciiLetter(c: char) { 'a' <= c <= 'z' || 'A' <= c <= 'Z' }

  /** `[a-zA-Z0-9]` */
  predicate IsAsciiAlnum(c: char) { IsAsciiLetter(c) || IsDigit(c) }

  /** `[a-zA-Z0-9_-]`, the character class of directory identifiers. */
  predicate IsIdChar(c: char) { IsAsciiAlnum(c) || c == '_' || c == '-' }

  /** `\w` */
  predicate IsWordChar(c: char) { IsAsciiAlnum(c) || c == '_' }

  /** The characters that `.` in a JavaScript regular expression does not match. */
  predicate IsLineTerminator(c: char) {
    c == '\n' || c == '\r' || c == '\U{2028}' || c == '\U{2029}'
  }

  /** `\s`, which is also the set that `String.prototype.trim` removes. */
  predicate IsJsSpace(c: char) {
    || c == '\t' || c == '\n' || c == '\U{000B}' || c == '\U{000C}' || c == '\r' || c == ' '
    || c == '\U{00A0}' || c == '\U{1680}' || ('\U{2000}' <= c <= '\U{200A}')
    || c == '\U{2028}' || c == '\U{2029}' || c == '\U{202F}' || c == '\U{205F}'
    || c == '\U{3000}' || c == '\U{FEFF}'
  }

  predicate All(s: string, p: char -> bool) {
    forall i :: 0 <= i < |s| ==> p(s[i])
  }

  /** Length of the longest prefix of `s` whose characters all satisfy `p`
      (what a greedy `p*` consumes). */
  function SpanLen(s: string, p: char -> bool): (n: nat)
    ensures n <= |s|
    ensures forall i :: 0 <= i < n ==> p(s[i])
    ensures n < |s| ==> !p(s[n])
  {
    if s == [] || !p(s[0]) then 0 else 1 + SpanLen(s[1..], p)
  }

  /** A prefix of `s` that satisfies `p` throughout is covered by the span. */
  lemma SpanLenAtLeast(s: string, p: char -> bool, m: nat)
    requires m <= |s| && All(s[..m], p)
    ensures SpanLen(s, p) >= m
  {
    assert forall i :: 0 <= i < m ==> s[..m][i] == s[i];
  }

  /** The span of `s[a..]` covers `m` characters from `a` on that all satisfy `p`. */
  lemma {:induction false} SpanLenFrom(s: string, p: char -> bool, a: nat, m: nat)
    requires a + m <= |s|
    requires forall i :: a <= i < a + m ==> p(s[i])
    decreases m
    ensures SpanLen(s[a..], p) >= m
  {
    if m > 0 {
      assert s[a..][0] == s[a];
      assert s[a..][1..] == s[a + 1..];
      SpanLenFrom(s, p, a + 1, m - 1);
    }
  }

  /** A run of `m` characters from `a` on that satisfy `p`, ended by one
      that does not or by the end of `s`, is exactly the span of `s[a..]`. */
  lemma SpanLenExactFrom(s: string, p: char -> bool, a: nat, m: nat)
    requires a + m <= |s|
    requires forall i :: a <= i < a + m ==> p(s[i])
    requires a + m < |s| ==> !p(s[a + m])
    ensures SpanLen(s[a..], p) == m
  {
    SpanLenFrom(s, p, a, m);
    if a + m < |s| {
      assert s[a..][m] == s[a + m];
    }
  }

  /** The span of `s[a..]`, read as positions of `s`. */
  lemma SpanRunFrom(s: string, p: char -> bool, a: nat)
    requires a <= |s|
    ensures forall i :: a <= i < a + SpanLen(s[a..], p) ==> p(s[i])
    ensures a + SpanLen(s[a..], p) < |s| ==> !p(s[a + SpanLen(s[a..], p)])
  {
    var n := SpanLen(s[a..], p);
    assert forall i :: a <= i < a + n ==> s[i] == s[a..][i - a];
    if a + n < |s| {
      assert s[a + n] == s[a..][n];
    }
  }

  /** A prefix that satisfies `p` throughout and is followed by a character
      that does not fixes the span. */
  lemma SpanLenStopsAt(a: string, c: char, b: string, p: char -> bool)
    requires All(a, p) && !p(c)
    ensures SpanLen(a + [c] + b, p) == |a|
  {
    var s := a + [c] + b;
    assert s[|a|] == c;
    assert forall i :: 0 <= i < |a| ==> s[i] == a[i];
  }

  /** Lower-cases ASCII letters and leaves every other character alone. */
  function AsciiLower(c: char): (d: char)
    ensures IsAsciiAlnum(c) <==> IsAsciiAlnum(d)
    ensures 'A' <= c <= 'Z' ==> 'a' <= d <= 'z' && d as int == c as int + 32
    ensures !('A' <= c <= 'Z') ==> d == c
  {
    if 'A' <= c <= 'Z' then (c as int + 32) as char else c
  }

  function AsciiLowerString(s: string): (r: string)
    ensures |r| == |s|
    ensures forall i :: 0 <= i < |s| ==> r[i] == AsciiLower(s[i])
  {
    if s == [] then [] else [AsciiLower(s[0])] + AsciiLowerString(s[1..])
  }

  // ---------------------------------------------------------------------
  // Decimal rendering, as JavaScript's template literal prints an index.

  function DigitChar(d: nat): (c: char)
    requires d < 10
    ensures IsDigit(c) && c as int - '0' as int == d
  {
    ('0' as int + d) as char
  }

  function DigitValue(c: char): (d: nat)
    requires IsDigit(c)
    ensures d < 10
  {
    c as int - '0' as int
  }

  function NatToString(n: nat): (s: string)
    ensures |s| >= 1 && All(s, IsDigit)
    ensures s[0] == '0' ==> n == 0 && |s| == 1
  {
    if n < 10 then [DigitChar(n)] else NatToString(n / 10) + [DigitChar(n % 10)]
  }

  function DigitsValue(s: string): nat
    requires All(s, IsDigit)
  {
    if s == [] then 0 else DigitsValue(s[..|s| - 1]) * 10 + DigitValue(s[|s| - 1])
  }

  /** Reading back the decimal rendering of `n` gives `n`. */
  lemma {:induction false} DigitsValueOfNatToString(n: nat)
    ensures DigitsValue(NatToString(n)) == n
  {
    var s := NatToString(n);
    if n >= 10 {
      DigitsValueOfNatToString(n / 10);
      assert s[..|s| - 1] == NatToString(n / 10);
    }
  }

  /** The decimal rendering is injective. */
  lemma NatToStringInjective(m: nat, n: nat)
    requires NatToString(m) == NatToString(n)
    ensures m == n
  {
    DigitsValueOfNatToString(m);
    DigitsValueOfNatToString(n);
  }

  // ---------------------------------------------------------------------
  // Searching and splitting.

  predicate StartsWith(s: string, prefix: string) {
    |prefix| <= |s| && s[..|prefix|] == prefix
  }

  predicate OccursAt(s: string, sub: string, i: nat) {
    i + |sub| <= |s| && s[i..i + |sub|] == sub
  }

  /** Leftmost position at or after `from` where `sub` occurs. */
  function IndexOf(s: string, sub: string, from: nat): (r: Option<nat>)
    decreases |s| - from
    ensures r.Some? ==> from <= r.value && OccursAt(s, sub, r.value)
    ensures r.Some? ==> forall k :: from <= k < r.value ==> !OccursAt(s, sub, k)
    ensures r.None? ==> forall k :: from <= k ==> !OccursAt(s, sub, k)
  {
    if from + |sub| > |s| then None
    else if s[from..from + |sub|] == sub then Some(from)
    else IndexOf(s, sub, from + 1)
  }

  /** `s.includes(sub)` */
  predicate Contains(s: string, sub: string) {
    IndexOf(s, sub, 0).Some?
  }

  /** First position of `c` in `s`. */
  function IndexOfChar(s: string, c: char): (r: Option<nat>)
    ensures r.Some? ==> r.value < |s| && s[r.value] == c
    ensures r.Some? ==> forall j :: 0 <= j < r.value ==> s[j] != c
    ensures r.None? ==> c !in s
  {
    if s == [] then None
    else if s[0] == c then Some(0)
    else
      var r := IndexOfChar(s[1..], c);
      if r.Some? then Some(r.value + 1) else None
  }

  /** Last position of `c` in `s`. */
  function LastIndexOf(s: string, c: char): (r: Option<nat>)
    ensures r.Some? ==> r.value < |s| && s[r.value] == c
    ensures r.Some? ==> forall j :: r.value < j < |s| ==> s[j] != c
    ensures r.None? ==> c !in s
  {
    if s == [] then None
    else if s[|s| - 1] == c then Some(|s| - 1)
    else LastIndexOf(s[..|s| - 1], c)
  }

  /** `s.split(sep)` for a one-character separator. */
  function Split(s: string, sep: char): (parts: seq<string>)
    decreases |s|
    ensures |parts| >= 1
    ensures forall i :: 0 <= i < |parts| ==> sep !in parts[i]
  {
    match IndexOfChar(s, sep)
    case None => [s]
    case Some(k) =>
      var head := s[..k];
      assert forall j :: 0 <= j < |head| ==> head[j] != sep;
      [head] + Split(s[k + 1..], sep)
  }

  /** `parts.join(sep)` */
  function Join(parts: seq<string>, sep: char): string
    requires |parts| >= 1
  {
    if |parts| == 1 then parts[0] else parts[0] + [sep] + Join(parts[1..], sep)
  }

  /** Splitting loses nothing: joining the pieces restores the string. */
  lemma {:induction false} JoinSplit(s: string, sep: char)
    decreases |s|
    ensures Join(Split(s, sep), sep) == s
  {
    match IndexOfChar(s, sep)
    case None =>
    case Some(k) =>
      var rest := s[k + 1..];
      JoinSplit(rest, sep);
      SplitAtFirst(s, sep, k);
      JoinCons(s[..k], Split(rest, sep), sep);
      CutAt(s, k);
  }

  lemma SplitAtFirst(s: string, sep: char, k: nat)
    requires IndexOfChar(s, sep) == Some(k)
    ensures Split(s, sep) == [s[..k]] + Split(s[k + 1..], sep)
  {
  }

  lemma CutAt(s: string, k: nat)
    requires k < |s|
    ensures s == s[..k] + [s[k]] + s[k + 1..]
  {
  }

  lemma JoinCons(head: string, tail: seq<string>, sep: char)
    requires |tail| >= 1
    ensures Join([head] + tail, sep) == head + [sep] + Join(tail, sep)
  {
    assert ([head] + tail)[1..] == tail;
  }

  /** There is more than one piece exactly when the separator occurs, and
      the last piece is the text after its last occurrence. */
  lemma {:induction false} SplitLastPiece(s: string, sep: char)
    decreases |s|
    ensures |Split(s, sep)| > 1 <==> LastIndexOf(s, sep).Some?
    ensures LastIndexOf(s, sep).Some? ==>
      Split(s, sep)[|Split(s, sep)| - 1] == s[LastIndexOf(s, sep).value + 1..]
  {
    var first := IndexOfChar(s, sep);
    if first.Some? {
      var k := first.value;
      var rest := s[k + 1..];
      var tail := Split(rest, sep);
      assert Split(s, sep) == [s[..k]] + tail;
      SplitLastPiece(rest, sep);
      LastAfterFirst(s, sep, k);
    }
  }

  /** Locating the last occurrence after a known one. */
  lemma LastAfterFirst(s: string, sep: char, k: nat)
    requires k < |s| && s[k] == sep
    ensures LastIndexOf(s, sep).Some?
    ensures LastIndexOf(s[k + 1..], sep).None? ==> LastIndexOf(s, sep).value == k
    ensures LastIndexOf(s[k + 1..], sep).Some? ==>
      LastIndexOf(s, sep).value == k + 1 + LastIndexOf(s[k + 1..], sep).value
  {
    var rest := s[k + 1..];
    var w := LastIndexOf(s, sep).value;
    assert forall j :: k < j < |s| ==> s[j] == rest[j - k - 1];
    if LastIndexOf(rest, sep).Some? {
      var v := LastIndexOf(rest, sep).value;
      assert s[k + 1 + v] == sep;
    }
  }

  /** `s.trim()` */
  function Trim(s: string): (r: string)
    ensures SpanLen(s, IsJsSpace) + |r| <= |s|
    ensures r != [] ==> !IsJsSpace(r[0]) && !IsJsSpace(r[|r| - 1])
    ensures r == s[SpanLen(s, IsJsSpace)..][..|r|]
  {
    TrimEnd(s[SpanLen(s, IsJsSpace)..])
  }

  function TrimEnd(s: string): (r: string)
    ensures |r| <= |s| && r == s[..|r|]
    ensures r != [] ==> !IsJsSpace(r[|r| - 1])
    ensures s != [] && !IsJsSpace(s[0]) ==> r != [] && r[0] == s[0]
    ensures forall i :: |r| <= i < |s| ==> IsJsSpace(s[i])
  {
    if s == [] then []
    else if IsJsSpace(s[|s| - 1]) then TrimEnd(s[..|s| - 1])
    else s
  }
}
