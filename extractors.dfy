/**
  Extracting directory ids from text and from page data: extractIdFromPath,
  findDirIdInObject, and the regular expressions of the resolver, each
  written out as an anchored matcher plus a leftmost search.
 */
module Extractors {
  import opened Text
  import opened Json

  // ---------------------------------------------------------------------
  // extractIdFromPath

  /** A decoder of percent escapes shortens every string it changes (three
      characters `%XX` become one), which bounds the script's recursion on
      the decoded text. */
  ghost predicate ShrinksWhenChanging(decode: string -> Option<string>) {
    forall s :: decode(s).Some? && decode(s).value != s ==> |decode(s).value| < |s|
  }

  /** Any character but a line terminator (what `.` matches). */
  predicate IsDotChar(c: char) { !IsLineTerminator(c) }

  /** extractIdFromPath(pathStr); `decode` is decodeURIComponent, `None`
      where it throws. The forms are tried in order: `<id>-<name>` with an
      alphanumeric id of at least 20 characters; a whole string of at least
      20 id characters; the decoded string, when decoding changes it; and a
      leading alphanumeric run of at least 20 characters. */
  function ExtractIdFromPath(s: string, decode: string -> Option<string>): (r: Option<string>)
    requires ShrinksWhenChanging(decode)
    decreases |s|
    ensures r.Some? ==> |r.value| >= 20 && All(r.value, IsIdChar)
    ensures (decode(s).None? || decode(s) == Some(s)) && r.Some? ==> StartsWith(s, r.value)
  {
    if s == [] then None
    else
      var a := SpanLen(s, IsAsciiAlnum);
      assert All(s[..a], IsIdChar) by {
        assert forall i :: 0 <= i < a ==> s[..a][i] == s[i];
      }
      if a >= 20 && a + 1 < |s| && s[a] == '-' && All(s[a + 1..], IsDotChar) then Some(s[..a])
      else if |s| >= 20 && All(s, IsIdChar) && s != "0" then Some(s)
      else
        var d := decode(s);
        if d.Some? && d.value != s then ExtractIdFromPath(d.value, decode)
        else if a >= 20 then Some(s[..a])
        else None
  }

  /** `<id>-<name>`: the leading alphanumeric id is returned. */
  lemma ExtractDashSeparated(id: string, name: string, decode: string -> Option<string>)
    requires ShrinksWhenChanging(decode)
    requires |id| >= 20 && All(id, IsAsciiAlnum)
    requires name != [] && All(name, IsDotChar)
    ensures ExtractIdFromPath(id + "-" + name, decode) == Some(id)
  {
    var s := id + "-" + name;
    SpanLenStopsAt(id, '-', name, IsAsciiAlnum);
    assert s[|id| + 1..] == name;
    assert s[..|id|] == id;
  }

  /** A string of id characters without a dash, at least 20 long, is itself
      the id. */
  lemma ExtractPlainId(s: string, decode: string -> Option<string>)
    requires ShrinksWhenChanging(decode)
    requires |s| >= 20 && All(s, IsIdChar) && '-' !in s
    ensures ExtractIdFromPath(s, decode) == Some(s)
  {
  }

  // ---------------------------------------------------------------------
  // findDirIdInObject

  /** The fields looked at first, in this order. */
  const DirFields: seq<string> := ["pdir_fid", "dir_fid", "fid", "folder_id", "current_dir", "currentDir"]

  /** A value the search accepts: a string other than "0" longer than five. */
  predicate IsDirIdValue(v: Option<Json>) {
    v.Some? && v.value.JStr? && v.value.s != "0" && |v.value.s| > 5
  }

  /** The first of `DirFields[i..]` holding an acceptable value. */
  function FieldHit(j: Json, i: nat): (r: Option<string>)
    decreases |DirFields| - i
    ensures r.Some? ==> r.value != "0" && |r.value| > 5
  {
    if i >= |DirFields| then None
    else if IsDirIdValue(Get(j, DirFields[i])) then Some(Get(j, DirFields[i]).value.s)
    else FieldHit(j, i + 1)
  }

  /** A hit is the value of the first field, from `i` on, holding an
      acceptable value. */
  lemma {:induction false} FieldHitFound(j: Json, i: nat)
    decreases |DirFields| - i
    ensures FieldHit(j, i).Some? ==>
      exists k :: i <= k < |DirFields| && Get(j, DirFields[k]) == Some(JStr(FieldHit(j, i).value))
        && forall m :: i <= m < k ==> !IsDirIdValue(Get(j, DirFields[m]))
  {
    if i < |DirFields| && !IsDirIdValue(Get(j, DirFields[i])) {
      FieldHitFound(j, i + 1);
    }
  }

  /** There is no hit exactly when no field from `i` on is acceptable. */
  lemma {:induction false} FieldHitNone(j: Json, i: nat)
    decreases |DirFields| - i
    ensures FieldHit(j, i).None? <==> forall k :: i <= k < |DirFields| ==> !IsDirIdValue(Get(j, DirFields[k]))
  {
    if i < |DirFields| && !IsDirIdValue(Get(j, DirFields[i])) {
      FieldHitNone(j, i + 1);
    }
  }

  /** The fields are tried in order and the first acceptable one wins. */
  lemma FieldHitSpec(j: Json, i: nat)
    ensures FieldHit(j, i).Some? ==>
      exists k :: i <= k < |DirFields| && Get(j, DirFields[k]) == Some(JStr(FieldHit(j, i).value))
        && forall m :: i <= m < k ==> !IsDirIdValue(Get(j, DirFields[m]))
    ensures FieldHit(j, i).None? <==> forall k :: i <= k < |DirFields| ==> !IsDirIdValue(Get(j, DirFields[k]))
  {
    FieldHitFound(j, i);
    FieldHitNone(j, i);
  }

  /** Number of children `for (key in obj)` visits. */
  function Width(j: Json): nat {
    match j
    case JArr(xs) => |xs|
    case JObj(ms) => |ms|
    case _ => 0
  }

  /** The value of the `i`-th own key, in enumeration order. */
  function Child(j: Json, i: nat): (c: Json)
    requires i < Width(j)
    ensures c < j
  {
    match j
    case JArr(xs) => xs[i]
    case JObj(ms) => ms[i].value
  }

  /** An object with an own member named `hasOwnProperty`: the script's
      own-key test then either rejects every key (a falsy value) or throws
      into its catch (a truthy one), so its children are never searched. */
  predicate ShadowsHasOwnProperty(j: Json) {
    j.JObj? && Get(j, "hasOwnProperty").Some?
  }

  /** findDirIdInObject(obj, depth) */
  function FindDirIdInObject(j: Json, depth: nat): (r: Option<string>)
    decreases j, 1
    ensures r.Some? ==> r.value != "0" && |r.value| > 5
  {
    if depth > 3 || !(j.JObj? || j.JArr?) then None
    else
      var hit := FieldHit(j, 0);
      if hit.Some? then hit
      else if ShadowsHasOwnProperty(j) then None
      else FindInChildren(j, 0, depth)
  }

  /** The `for (key in obj)` loop from the `i`-th key on. */
  function FindInChildren(j: Json, i: nat, depth: nat): (r: Option<string>)
    requires i <= Width(j)
    decreases j, 0, Width(j) - i
    ensures r.Some? ==> r.value != "0" && |r.value| > 5
  {
    if i == Width(j) then None
    else
      var found := FindDirIdInObject(Child(j, i), depth + 1);
      if found.Some? then found else FindInChildren(j, i + 1, depth)
  }

  /** `id` is an acceptable value of a direct id field of `j` or, within `k`
      more levels of nesting, of a nested object or array. */
  ghost predicate HoldsWithin(j: Json, k: nat, id: string)
    decreases j
  {
    || (exists f :: f in DirFields && IsDirIdValue(Get(j, f)) && Get(j, f) == Some(JStr(id)))
    || (k > 0 && exists i :: 0 <= i < Width(j) && HoldsWithin(Child(j, i), k - 1, id))
  }

  /** No object within `k` levels shadows `hasOwnProperty`. */
  ghost predicate NoShadowWithin(j: Json, k: nat)
    decreases j
  {
    && !ShadowsHasOwnProperty(j)
    && (k > 0 ==> forall i :: 0 <= i < Width(j) ==> NoShadowWithin(Child(j, i), k - 1))
  }

  /** The search looks no deeper than nesting depth 3: what it returns is
      held by an object at most `3 - depth` levels below `j`. */
  lemma {:induction false} FindDirIdSound(j: Json, depth: nat)
    decreases j, 1
    ensures FindDirIdInObject(j, depth).Some? ==>
      depth <= 3 && HoldsWithin(j, 3 - depth, FindDirIdInObject(j, depth).value)
  {
    if depth <= 3 && (j.JObj? || j.JArr?) {
      var hit := FieldHit(j, 0);
      FieldHitSpec(j, 0);
      if hit.Some? {
        var k :| 0 <= k < |DirFields| && Get(j, DirFields[k]) == Some(JStr(hit.value))
          && forall m :: 0 <= m < k ==> !IsDirIdValue(Get(j, DirFields[m]));
        assert DirFields[k] in DirFields;
      } else if !ShadowsHasOwnProperty(j) {
        FindInChildrenSound(j, 0, depth);
      }
    }
  }

  lemma {:induction false} FindInChildrenSound(j: Json, i: nat, depth: nat)
    requires i <= Width(j) && depth <= 3
    decreases j, 0, Width(j) - i
    ensures FindInChildren(j, i, depth).Some? ==>
      depth < 3 && exists c :: i <= c < Width(j) && HoldsWithin(Child(j, c), 3 - depth - 1, FindInChildren(j, i, depth).value)
  {
    if i < Width(j) {
      FindInChildrenStep(j, i, depth);
      var found := FindDirIdInObject(Child(j, i), depth + 1);
      FindDirIdSound(Child(j, i), depth + 1);
      if found.None? {
        FindInChildrenSound(j, i + 1, depth);
      }
    }
  }

  /** The own fields are looked at before any child: within the depth
      limit, an object with an acceptable field answers with the first such
      field in `DirFields` order, whatever its children hold. */
  lemma FieldsBeforeChildren(j: Json, depth: nat)
    ensures depth <= 3 && (j.JObj? || j.JArr?) && FieldHit(j, 0).Some? ==>
      FindDirIdInObject(j, depth) == FieldHit(j, 0)
    ensures depth > 3 || !(j.JObj? || j.JArr?) ==> FindDirIdInObject(j, depth).None?
  {
  }

  /** The first of `f(i), f(i + 1), …, f(n - 1)` that holds an id. */
  ghost function FirstSome(f: nat -> Option<string>, i: nat, n: nat): Option<string>
    decreases n - i
  {
    if i >= n then None else if f(i).Some? then f(i) else FirstSome(f, i + 1, n)
  }

  lemma {:induction false} FirstSomeSpec(f: nat -> Option<string>, i: nat, n: nat)
    decreases n - i
    ensures FirstSome(f, i, n).Some? ==>
      exists c: nat :: i <= c < n && f(c) == FirstSome(f, i, n) && forall m: nat :: i <= m < c ==> f(m).None?
    ensures FirstSome(f, i, n).None? <==> forall c: nat :: i <= c < n ==> f(c).None?
  {
    if i < n && f(i).None? {
      FirstSomeSpec(f, i + 1, n);
    }
  }

  /** The search of child `c` of `j`, nothing past the last child. */
  ghost function ChildSearch(j: Json, depth: nat): nat -> Option<string> {
    (c: nat) => if c < Width(j) then FindDirIdInObject(Child(j, c), depth + 1) else None
  }

  lemma {:induction false} FindInChildrenIsFirst(j: Json, i: nat, depth: nat)
    requires i <= Width(j)
    decreases Width(j) - i
    ensures FindInChildren(j, i, depth) == FirstSome(ChildSearch(j, depth), i, Width(j))
  {
    if i < Width(j) {
      FindInChildrenStep(j, i, depth);
      FindInChildrenIsFirst(j, i + 1, depth);
    }
  }

  /** The loop over the children answers with the search of the first
      child, in key order from `i`, whose search succeeds. */
  lemma FirstChildWins(j: Json, i: nat, depth: nat)
    requires i <= Width(j)
    ensures FindInChildren(j, i, depth).Some? ==>
      exists c :: i <= c < Width(j) && FindDirIdInObject(Child(j, c), depth + 1) == FindInChildren(j, i, depth)
        && forall m :: i <= m < c ==> FindDirIdInObject(Child(j, m), depth + 1).None?
  {
    FindInChildrenIsFirst(j, i, depth);
    FirstSomeSpec(ChildSearch(j, depth), i, Width(j));
    assert forall c: nat :: c < Width(j) ==> ChildSearch(j, depth)(c) == FindDirIdInObject(Child(j, c), depth + 1);
  }

  /** The loop finds nothing exactly when no child from `i` on yields an id. */
  lemma NoChildYields(j: Json, i: nat, depth: nat)
    requires i <= Width(j)
    ensures FindInChildren(j, i, depth).None? <==>
      forall c :: i <= c < Width(j) ==> FindDirIdInObject(Child(j, c), depth + 1).None?
  {
    FindInChildrenIsFirst(j, i, depth);
    FirstSomeSpec(ChildSearch(j, depth), i, Width(j));
    assert forall c: nat :: c < Width(j) ==> ChildSearch(j, depth)(c) == FindDirIdInObject(Child(j, c), depth + 1);
  }

  /** Conversely, when no object within reach shadows `hasOwnProperty`, an
      acceptable field within `3 - depth` levels is always found. */
  lemma {:induction false} FindDirIdComplete(j: Json, depth: nat, id: string)
    requires depth <= 3 && NoShadowWithin(j, 3 - depth) && HoldsWithin(j, 3 - depth, id)
    decreases j, 1
    ensures FindDirIdInObject(j, depth).Some?
  {
    FieldHitSpec(j, 0);
    if FieldHit(j, 0).None? {
      assert forall f :: f in DirFields ==> !IsDirIdValue(Get(j, f));
      var c :| 0 <= c < Width(j) && HoldsWithin(Child(j, c), 3 - depth - 1, id);
      FindInChildrenComplete(j, 0, depth, c, id);
    }
  }

  lemma {:induction false} FindInChildrenComplete(j: Json, i: nat, depth: nat, c: nat, id: string)
    requires depth < 3 && i <= c < Width(j)
    requires forall m :: 0 <= m < Width(j) ==> NoShadowWithin(Child(j, m), 3 - depth - 1)
    requires HoldsWithin(Child(j, c), 3 - depth - 1, id)
    decreases j, 0, Width(j) - i
    ensures FindInChildren(j, i, depth).Some?
  {
    FindInChildrenStep(j, i, depth);
    if i == c {
      FindDirIdComplete(Child(j, c), depth + 1, id);
    } else if FindDirIdInObject(Child(j, i), depth + 1).None? {
      FindInChildrenComplete(j, i + 1, depth, c, id);
    }
  }

  /** One step of the loop over the children. */
  lemma FindInChildrenStep(j: Json, i: nat, depth: nat)
    requires i < Width(j)
    ensures FindInChildren(j, i, depth) ==
      if FindDirIdInObject(Child(j, i), depth + 1).Some? then FindDirIdInObject(Child(j, i), depth + 1)
      else FindInChildren(j, i + 1, depth)
  {
  }

  // ---------------------------------------------------------------------
  // Regular expressions as anchored matchers plus a leftmost search.

  /** The capture of the leftmost match, trying positions `p, p + 1, …, |s|`
      in turn; `at(t)` is the capture of a match that starts where `t` does. */
  function Leftmost(s: string, at: string -> Option<string>, p: nat): (r: Option<string>)
    decreases |s| + 1 - p
    ensures r.Some? ==> exists q :: (p <= q <= |s| && at(s[q..]) == r
      && forall q' :: p <= q' < q ==> at(s[q'..]).None?)
    ensures r.None? ==> forall q :: p <= q <= |s| ==> at(s[q..]).None?
  {
    if p > |s| then None
    else if at(s[p..]).Some? then at(s[p..])
    else Leftmost(s, at, p + 1)
  }

  /** `<prefix>([a-zA-Z0-9_-]{min,})` at the start of `t`. */
  function PrefixedIdAt(t: string, prefix: string, min: nat): (r: Option<string>)
    ensures r.Some? ==> |r.value| >= min && All(r.value, IsIdChar) && StartsWith(t, prefix + r.value)
  {
    if !StartsWith(t, prefix) then None
    else
      var n := SpanLen(t[|prefix|..], IsIdChar);
      if n >= min then
        assert t[..|prefix| + n] == prefix + t[|prefix|..][..n];
        Some(t[|prefix|..][..n])
      else None
  }

  /** The three prefixed path patterns, `\/list\/`, `\/folder\/` and `\/dir\/`,
      each followed by at least ten id characters. */
  function ListIdAt(t: string): Option<string> { PrefixedIdAt(t, "/list/", 10) }
  function FolderIdAt(t: string): Option<string> { PrefixedIdAt(t, "/folder/", 10) }
  function DirIdAt(t: string): Option<string> { PrefixedIdAt(t, "/dir/", 10) }

  /** `\/([a-zA-Z0-9_-]{20,})\/` at the start of `t`. */
  function SlashedIdAt(t: string): (r: Option<string>)
    ensures r.Some? ==> |r.value| >= 20 && All(r.value, IsIdChar) && StartsWith(t, "/" + r.value + "/")
  {
    if t == [] || t[0] != '/' then None
    else
      var n := SpanLen(t[1..], IsIdChar);
      if n >= 20 && 1 + n < |t| && t[1 + n] == '/' then
        assert t[..n + 2] == "/" + t[1..][..n] + "/";
        Some(t[1..][..n])
      else None
  }

  /** `#\/list\/all\/(.+)` at the start of `t`. */
  function HashRouteAt(t: string): (r: Option<string>)
    ensures r.Some? ==> r.value != [] && All(r.value, IsDotChar) && StartsWith(t, "#/list/all/" + r.value)
  {
    if !StartsWith(t, "#/list/all/") then None
    else
      var n := SpanLen(t[11..], IsDotChar);
      if n >= 1 then
        assert t[..11 + n] == "#/list/all/" + t[11..][..n];
        Some(t[11..][..n])
      else None
  }

  predicate IsQuote(c: char) { c == '"' || c == '\'' }
  predicate IsNotQuote(c: char) { !IsQuote(c) }

  /** `["']pdir_fid["']\s*:\s*["']([^"']+)["']` at the start of `t`: the
      quoted key, then the rest of the pattern. */
  function ScriptPdirAt(t: string): (r: Option<string>)
    ensures r.Some? ==> r.value != [] && All(r.value, IsNotQuote)
  {
    if |t| < 10 || !IsQuote(t[0]) || t[1..9] != "pdir_fid" || !IsQuote(t[9]) then None
    else ColonValueAt(t[10..])
  }

  /** `\s*:\s*["']([^"']+)["']` at the start of `u`. */
  function ColonValueAt(u: string): (r: Option<string>)
    ensures r.Some? ==> r.value != [] && All(r.value, IsNotQuote)
  {
    var a := SpanLen(u, IsJsSpace);
    if a >= |u| || u[a] != ':' then None else QuotedValueAt(u[a + 1..])
  }

  /** `\s*["']([^"']+)["']` at the start of `v`. */
  function QuotedValueAt(v: string): (r: Option<string>)
    ensures r.Some? ==> r.value != [] && All(r.value, IsNotQuote)
  {
    var b := SpanLen(v, IsJsSpace);
    if b >= |v| || !IsQuote(v[b]) then None else QuoteRunAt(v[b + 1..])
  }

  /** `([^"']+)["']` at the start of `w`. */
  function QuoteRunAt(w: string): (r: Option<string>)
    ensures r.Some? ==> r.value != [] && All(r.value, IsNotQuote)
  {
    var n := SpanLen(w, IsNotQuote);
    if n >= 1 && n < |w| then Some(w[..n]) else None
  }

  predicate IsNotAmpersand(c: char) { c != '&' }

  /** `[?&](?:pdir_fid|fid)=([^&]+)` at the start of `t`. */
  function LinkIdAt(t: string): (r: Option<string>)
    ensures r.Some? ==> r.value != [] && '&' !in r.value
  {
    if t == [] || (t[0] != '?' && t[0] != '&') then None
    else
      var rest := t[1..];
      var k := if StartsWith(rest, "pdir_fid=") then 9 else if StartsWith(rest, "fid=") then 4 else 0;
      if k == 0 then None
      else
        var n := SpanLen(rest[k..], IsNotAmpersand);
        if n >= 1 then
          assert forall i :: 0 <= i < n ==> rest[k..][..n][i] != '&';
          Some(rest[k..][..n])
        else None
  }

  /** `(\w{20,})` at the start of `t`. */
  function WordRunAt(t: string): (r: Option<string>)
    ensures r.Some? ==> |r.value| >= 20 && All(r.value, IsWordChar) && StartsWith(t, r.value)
  {
    var n := SpanLen(t, IsWordChar);
    if n >= 20 then Some(t[..n]) else None
  }

  // ---------------------------------------------------------------------
  // Each matcher against the regular expression it stands for: a match of
  // the expression at the start of `t` whose capture has length `n`, and
  // the proof that the matcher succeeds exactly when there is one and
  // captures what JavaScript's greedy, backtracking matcher captures.

  /** `<prefix>([a-zA-Z0-9_-]{min,})` matches with an `n`-character capture. */
  ghost predicate PrefixedMatch(t: string, prefix: string, min: nat, n: nat) {
    && StartsWith(t, prefix) && min <= n && |prefix| + n <= |t|
    && forall i :: |prefix| <= i < |prefix| + n ==> IsIdChar(t[i])
  }

  lemma PrefixedIdAtSpec(t: string, prefix: string, min: nat)
    ensures PrefixedIdAt(t, prefix, min).Some? <==> exists n: nat :: PrefixedMatch(t, prefix, min, n)
    ensures PrefixedIdAt(t, prefix, min).Some? ==>
      && PrefixedMatch(t, prefix, min, |PrefixedIdAt(t, prefix, min).value|)
      && PrefixedIdAt(t, prefix, min).value == t[|prefix|..|prefix| + |PrefixedIdAt(t, prefix, min).value|]
      && forall n: nat :: PrefixedMatch(t, prefix, min, n) ==> n <= |PrefixedIdAt(t, prefix, min).value|
  {
    if StartsWith(t, prefix) {
      var u := t[|prefix|..];
      var span := SpanLen(u, IsIdChar);
      assert forall i :: |prefix| <= i < |prefix| + span ==> t[i] == u[i - |prefix|];
      forall n: nat | PrefixedMatch(t, prefix, min, n)
        ensures n <= span
      {
        SpanLenFrom(t, IsIdChar, |prefix|, n);
      }
      if span >= min {
        assert PrefixedMatch(t, prefix, min, span);
        assert u[..span] == t[|prefix|..|prefix| + span];
      }
    }
  }

  /** `\/([a-zA-Z0-9_-]{20,})\/` matches with an `n`-character capture. */
  ghost predicate SlashedMatch(t: string, n: nat) {
    && 20 <= n && n + 2 <= |t| && t[0] == '/' && t[n + 1] == '/'
    && forall i :: 1 <= i <= n ==> IsIdChar(t[i])
  }

  /** The closing slash cannot be an id character, so the match, when there
      is one, is unique and is what the matcher returns. */
  lemma SlashedIdAtSpec(t: string)
    ensures SlashedIdAt(t).Some? <==> exists n: nat :: SlashedMatch(t, n)
    ensures SlashedIdAt(t).Some? ==>
      && SlashedMatch(t, |SlashedIdAt(t).value|)
      && SlashedIdAt(t).value == t[1..1 + |SlashedIdAt(t).value|]
      && forall n: nat :: SlashedMatch(t, n) ==> n == |SlashedIdAt(t).value|
  {
    if t != [] && t[0] == '/' {
      var u := t[1..];
      var span := SpanLen(u, IsIdChar);
      assert forall i :: 1 <= i <= span ==> t[i] == u[i - 1];
      forall n: nat | SlashedMatch(t, n)
        ensures n == span
      {
        SpanLenExactFrom(t, IsIdChar, 1, n);
      }
      if span >= 20 && 1 + span < |t| && t[1 + span] == '/' {
        assert SlashedMatch(t, span);
        assert u[..span] == t[1..1 + span];
      }
    }
  }

  /** `#\/list\/all\/(.+)` matches with an `n`-character capture. */
  ghost predicate HashRouteMatch(t: string, n: nat) {
    && StartsWith(t, "#/list/all/") && 1 <= n && 11 + n <= |t|
    && forall i :: 11 <= i < 11 + n ==> IsDotChar(t[i])
  }

  lemma HashRouteAtSpec(t: string)
    ensures HashRouteAt(t).Some? <==> exists n: nat :: HashRouteMatch(t, n)
    ensures HashRouteAt(t).Some? ==>
      && HashRouteMatch(t, |HashRouteAt(t).value|)
      && HashRouteAt(t).value == t[11..11 + |HashRouteAt(t).value|]
      && forall n: nat :: HashRouteMatch(t, n) ==> n <= |HashRouteAt(t).value|
  {
    if StartsWith(t, "#/list/all/") {
      var u := t[11..];
      var span := SpanLen(u, IsDotChar);
      assert forall i :: 11 <= i < 11 + span ==> t[i] == u[i - 11];
      forall n: nat | HashRouteMatch(t, n)
        ensures n <= span
      {
        SpanLenFrom(t, IsDotChar, 11, n);
      }
      if span >= 1 {
        assert HashRouteMatch(t, span);
        assert u[..span] == t[11..11 + span];
      }
    }
  }

  /** `(\w{20,})` matches with an `n`-character capture. */
  ghost predicate WordRunMatch(t: string, n: nat) {
    20 <= n <= |t| && forall i :: 0 <= i < n ==> IsWordChar(t[i])
  }

  lemma WordRunAtSpec(t: string)
    ensures WordRunAt(t).Some? <==> exists n: nat :: WordRunMatch(t, n)
    ensures WordRunAt(t).Some? ==>
      && WordRunMatch(t, |WordRunAt(t).value|)
      && WordRunAt(t).value == t[..|WordRunAt(t).value|]
      && forall n: nat :: WordRunMatch(t, n) ==> n <= |WordRunAt(t).value|
  {
    var span := SpanLen(t, IsWordChar);
    forall n: nat | WordRunMatch(t, n)
      ensures n <= span
    {
      SpanLenFrom(t, IsWordChar, 0, n);
      assert t[0..] == t;
    }
    if span >= 20 {
      assert WordRunMatch(t, span);
    }
  }

  /** `[?&](?:pdir_fid|fid)=([^&]+)` matches through `key` (`pdir_fid=` or
      `fid=`) with an `n`-character capture. */
  ghost predicate LinkMatch(t: string, key: string, n: nat) {
    && (key == "pdir_fid=" || key == "fid=")
    && 1 <= n && 1 + |key| + n <= |t| && (t[0] == '?' || t[0] == '&') && t[1..1 + |key|] == key
    && forall i :: 1 + |key| <= i < 1 + |key| + n ==> t[i] != '&'
  }

  lemma LinkIdAtSpec(t: string)
    ensures LinkIdAt(t).Some? <==> exists key: string, n: nat :: LinkMatch(t, key, n)
    ensures LinkIdAt(t).Some? ==>
      exists key :: && LinkMatch(t, key, |LinkIdAt(t).value|)
                    && LinkIdAt(t).value == t[1 + |key|..1 + |key| + |LinkIdAt(t).value|]
                    && forall n: nat :: LinkMatch(t, key, n) ==> n <= |LinkIdAt(t).value|
  {
    if t != [] && (t[0] == '?' || t[0] == '&') {
      var rest := t[1..];
      if StartsWith(rest, "pdir_fid=") {
        LinkPdirKey(t);
        LinkIdAtKeyed(t, "pdir_fid=");
      } else if StartsWith(rest, "fid=") {
        LinkFidKey(t);
        LinkIdAtKeyed(t, "fid=");
      } else {
        LinkNoKey(t);
      }
    }
  }

  /** Once the only key that can match is known, the matcher reads the
      whole run after it. */
  lemma LinkIdAtKeyed(t: string, key: string)
    requires key == "pdir_fid=" || key == "fid="
    requires t != [] && (t[0] == '?' || t[0] == '&') && StartsWith(t[1..], key)
    requires forall k: string, n: nat :: LinkMatch(t, k, n) ==> k == key
    requires var span := SpanLen(t[1..][|key|..], IsNotAmpersand);
      LinkIdAt(t) == if span >= 1 then Some(t[1..][|key|..][..span]) else None
    ensures LinkIdAt(t).Some? <==> exists k: string, n: nat :: LinkMatch(t, k, n)
    ensures LinkIdAt(t).Some? ==>
      && LinkMatch(t, key, |LinkIdAt(t).value|)
      && LinkIdAt(t).value == t[1 + |key|..1 + |key| + |LinkIdAt(t).value|]
      && forall n: nat :: LinkMatch(t, key, n) ==> n <= |LinkIdAt(t).value|
  {
    LinkKeySpan(t, key);
  }

  /** Without either key after the separator, nothing matches. */
  lemma LinkNoKey(t: string)
    requires t != [] && !StartsWith(t[1..], "pdir_fid=") && !StartsWith(t[1..], "fid=")
    ensures LinkIdAt(t).None?
    ensures forall k: string, n: nat :: !LinkMatch(t, k, n)
  {
  }

  /** With `pdir_fid=` after the separator, only that key can match and the
      value after it is read. */
  lemma LinkPdirKey(t: string)
    requires t != [] && (t[0] == '?' || t[0] == '&') && StartsWith(t[1..], "pdir_fid=")
    ensures forall k: string, n: nat :: LinkMatch(t, k, n) ==> k == "pdir_fid="
    ensures var span := SpanLen(t[1..][9..], IsNotAmpersand);
      LinkIdAt(t) == if span >= 1 then Some(t[1..][9..][..span]) else None
  {
    assert t[1] == 'p';
  }

  /** With `fid=` after the separator, only that key can match and the
      value after it is read. */
  lemma LinkFidKey(t: string)
    requires t != [] && (t[0] == '?' || t[0] == '&') && StartsWith(t[1..], "fid=")
    ensures forall k: string, n: nat :: LinkMatch(t, k, n) ==> k == "fid="
    ensures var span := SpanLen(t[1..][4..], IsNotAmpersand);
      LinkIdAt(t) == if span >= 1 then Some(t[1..][4..][..span]) else None
  {
    assert t[1] == 'f';
  }

  /** Once the key is fixed, the value is the whole run up to the next `&`. */
  lemma LinkKeySpan(t: string, key: string)
    requires key == "pdir_fid=" || key == "fid="
    requires t != [] && (t[0] == '?' || t[0] == '&') && StartsWith(t[1..], key)
    ensures var span := SpanLen(t[1..][|key|..], IsNotAmpersand);
      && (forall n: nat :: LinkMatch(t, key, n) ==> n <= span)
      && (span >= 1 ==> LinkMatch(t, key, span) && t[1..][|key|..][..span] == t[1 + |key|..1 + |key| + span])
  {
    var k := |key|;
    var u := t[1..][k..];
    assert u == t[1 + k..];
    var span := SpanLen(u, IsNotAmpersand);
    assert forall i :: 1 + k <= i < 1 + k + span ==> t[i] == u[i - 1 - k];
    assert t[1..1 + k] == t[1..][..k];
    forall n: nat | LinkMatch(t, key, n)
      ensures n <= span
    {
      SpanLenFrom(t, IsNotAmpersand, 1 + k, n);
    }
  }

  /** `([^"']+)["']` matches with an `n`-character capture. */
  ghost predicate QuoteRunMatch(w: string, n: nat) {
    1 <= n < |w| && (forall i :: 0 <= i < n ==> IsNotQuote(w[i])) && IsQuote(w[n])
  }

  /** `\s*["']([^"']+)["']` matches with `b` spaces and an `n`-character capture. */
  ghost predicate QuotedMatch(v: string, b: nat, n: nat) {
    b < |v| && (forall i :: 0 <= i < b ==> IsJsSpace(v[i])) && IsQuote(v[b]) && QuoteRunMatch(v[b + 1..], n)
  }

  /** `\s*:\s*["']([^"']+)["']` matches with `a` spaces before the colon,
      `b` after it and an `n`-character capture. */
  ghost predicate ColonMatch(u: string, a: nat, b: nat, n: nat) {
    a < |u| && (forall i :: 0 <= i < a ==> IsJsSpace(u[i])) && u[a] == ':' && QuotedMatch(u[a + 1..], b, n)
  }

  /** The whole script pattern, the quoted `pdir_fid` key first. */
  ghost predicate ScriptMatch(t: string, a: nat, b: nat, n: nat) {
    |t| >= 10 && IsQuote(t[0]) && t[1..9] == "pdir_fid" && IsQuote(t[9]) && ColonMatch(t[10..], a, b, n)
  }

  /** The closing quote is not part of the run, so a match is unique and is
      what the matcher returns. */
  lemma QuoteRunAtSpec(w: string)
    ensures QuoteRunAt(w).Some? <==> exists n: nat :: QuoteRunMatch(w, n)
    ensures forall n: nat :: QuoteRunMatch(w, n) ==> QuoteRunAt(w) == Some(w[..n])
  {
    var span := SpanLen(w, IsNotQuote);
    forall n: nat | QuoteRunMatch(w, n)
      ensures span == n
    {
      SpanLenExactFrom(w, IsNotQuote, 0, n);
      assert w[0..] == w;
    }
    if QuoteRunAt(w).Some? {
      assert QuoteRunMatch(w, span);
    }
  }

  /** No space is a quote, so the spaces before the opening quote are
      unique. */
  lemma QuotedValueAtSpec(v: string)
    ensures QuotedValueAt(v).Some? <==> exists b: nat, n: nat :: QuotedMatch(v, b, n)
    ensures forall b: nat, n: nat :: QuotedMatch(v, b, n) ==> QuotedValueAt(v) == Some(v[b + 1..][..n])
  {
    var span := SpanLen(v, IsJsSpace);
    forall b: nat, n: nat | QuotedMatch(v, b, n)
      ensures QuotedValueAt(v) == Some(v[b + 1..][..n])
    {
      SpanLenExactFrom(v, IsJsSpace, 0, b);
      assert v[0..] == v;
      QuoteRunAtSpec(v[b + 1..]);
    }
    if QuotedValueAt(v).Some? {
      QuoteRunAtSpec(v[span + 1..]);
      var n: nat :| QuoteRunMatch(v[span + 1..], n);
      assert QuotedMatch(v, span, n);
    }
  }

  /** No space is a colon, so the spaces before the colon are unique. */
  lemma ColonValueAtSpec(u: string)
    ensures ColonValueAt(u).Some? <==> exists a: nat, b: nat, n: nat :: ColonMatch(u, a, b, n)
    ensures forall a: nat, b: nat, n: nat :: ColonMatch(u, a, b, n) ==>
      ColonValueAt(u) == Some(u[a + 1..][b + 1..][..n])
  {
    var span := SpanLen(u, IsJsSpace);
    forall a: nat, b: nat, n: nat | ColonMatch(u, a, b, n)
      ensures ColonValueAt(u) == Some(u[a + 1..][b + 1..][..n])
    {
      ColonSpaces(u, a, b, n);
      QuotedValueAtSpec(u[a + 1..]);
    }
    if ColonValueAt(u).Some? {
      QuotedValueAtSpec(u[span + 1..]);
      var b: nat, n: nat :| QuotedMatch(u[span + 1..], b, n);
      assert ColonMatch(u, span, b, n);
    }
  }

  /** The spaces before the colon are all the leading spaces. */
  lemma ColonSpaces(u: string, a: nat, b: nat, n: nat)
    requires ColonMatch(u, a, b, n)
    ensures a == SpanLen(u, IsJsSpace) && ColonValueAt(u) == QuotedValueAt(u[a + 1..])
  {
    SpanLenExactFrom(u, IsJsSpace, 0, a);
    assert u[0..] == u;
  }

  /** The script matcher succeeds exactly when the pattern matches, and
      then captures the run between the quotes after the colon. */
  lemma ScriptPdirAtSpec(t: string)
    ensures ScriptPdirAt(t).Some? <==> exists a: nat, b: nat, n: nat :: ScriptMatch(t, a, b, n)
    ensures forall a: nat, b: nat, n: nat :: ScriptMatch(t, a, b, n) ==>
      ScriptPdirAt(t) == Some(t[10..][a + 1..][b + 1..][..n])
  {
    if |t| >= 10 {
      ColonValueAtSpec(t[10..]);
      if ScriptPdirAt(t).Some? {
        var a: nat, b: nat, n: nat :| ColonMatch(t[10..], a, b, n);
        assert ScriptMatch(t, a, b, n);
      }
    }
  }

  /** A run of word characters is longer by one when it starts one
      character earlier. */
  lemma WordRunOneEarlier(s: string, q: nat)
    requires 0 < q <= |s| && IsWordChar(s[q - 1])
    ensures SpanLen(s[q - 1..], IsWordChar) == 1 + SpanLen(s[q..], IsWordChar)
  {
    assert s[q - 1..][1..] == s[q..];
  }

  /** A title match starts where a run of word characters starts and takes
      the whole run: no word character precedes or follows it. */
  lemma WordRunIsWholeRun(s: string, q: nat)
    requires q <= |s| && WordRunAt(s[q..]).Some?
    requires forall q' :: 0 <= q' < q ==> WordRunAt(s[q'..]).None?
    ensures q == 0 || !IsWordChar(s[q - 1])
    ensures q + |WordRunAt(s[q..]).value| == |s| || !IsWordChar(s[q + |WordRunAt(s[q..]).value|])
  {
    if q > 0 && IsWordChar(s[q - 1]) {
      WordRunOneEarlier(s, q);
    }
    var n := SpanLen(s[q..], IsWordChar);
    assert q + n < |s| ==> s[q..][n] == s[q + n];
  }

  // ---------------------------------------------------------------------
  // Query strings (URLSearchParams.get, without percent-decoding).

  /** The name of a `name=value` pair: up to the first `=`. */
  function ParamName(pair: string): string {
    match IndexOfChar(pair, '=')
    case None => pair
    case Some(k) => pair[..k]
  }

  /** The value of a pair: after the first `=`, empty without one. */
  function ParamValue(pair: string): string {
    match IndexOfChar(pair, '=')
    case None => []
    case Some(k) => pair[k + 1..]
  }

  function FirstParam(pairs: seq<string>, key: string): Option<string>
    decreases |pairs|
  {
    if pairs == [] then None
    else if pairs[0] != [] && ParamName(pairs[0]) == key then Some(ParamValue(pairs[0]))
    else FirstParam(pairs[1..], key)
  }

  /** `new URLSearchParams(query).get(key)`; a leading `?` is dropped. */
  function ParamGet(query: string, key: string): Option<string> {
    var q := if query != [] && query[0] == '?' then query[1..] else query;
    FirstParam(Split(q, '&'), key)
  }

  /** A single pair reads back. */
  lemma ParamGetSingle(key: string, v: string)
    requires key != [] && key[0] != '?' && '=' !in key && '&' !in key && '&' !in v
    ensures ParamGet(key + "=" + v, key) == Some(v)
  {
    var s := key + "=" + v;
    assert s[|key|] == '=';
    assert forall j :: 0 <= j < |key| ==> s[j] == key[j];
    assert '&' !in s;
    assert Split(s, '&') == [s];
    assert IndexOfChar(s, '=') == Some(|key|);
    assert s[..|key|] == key && s[|key| + 1..] == v;
  }

  /** The query part of a URL: after the first `?` and before the fragment. */
  function UrlQuery(url: string): (q: string)
    ensures '#' !in q
  {
    var u := match IndexOfChar(url, '#') case None => url case Some(k) => url[..k];
    assert '#' !in u;
    match IndexOfChar(u, '?')
    case None => []
    case Some(k) => u[k + 1..]
  }

  /** The text between the first and the second `?` of a hash, or empty. */
  function HashQuery(hash: string): string {
    var parts := Split(hash, '?');
    if |parts| > 1 then parts[1] else []
  }

  /** The hash query exists exactly when the hash contains a `?`. */
  lemma HashQueryIff(hash: string)
    ensures |Split(hash, '?')| > 1 <==> '?' in hash
  {
    SplitLastPiece(hash, '?');
  }
}
