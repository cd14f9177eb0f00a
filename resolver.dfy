/**
  The current-directory resolver: getCurrentDirectoryId's cascade of
  strategies behind a single-slot cache with a 30-second lifetime, the
  cache writes of the request interceptors, and the cache reset on
  navigation. The page is an explicit snapshot and the clock an argument.
 */
module Resolver {
  import opened Text
  import opened Json
  import opened Extractors

  /** How long (in milliseconds) a cached id is trusted. */
  const CacheTtlMs: int := 30000

  /** One `localStorage` entry; `value` is what `JSON.parse` made of the
      stored text, `None` where the text is empty or not JSON. */
  datatype StorageItem = StorageItem(key: string, value: Option<Json>)

  /** What getCurrentDirectoryId reads from the page at the moment it runs. */
  datatype Snapshot = Snapshot(
    search: string,                       // location.search, with its `?`
    hash: string,                         // location.hash, with its `#`, or empty
    pathname: string,
    globals: string -> Option<Json>,      // window[name]; `None` is undefined
    scripts: seq<string>,                 // text of each <script>, document order
    storage: seq<StorageItem>,            // localStorage, in key order
    anchors: seq<string>,                 // href of each <a>, document order
    title: string,
    decode: string -> Option<string>)     // decodeURIComponent; `None` where it throws

  /** Where an id came from. */
  datatype Source = Cache | QueryParam | HashRoute | HashParams | PathPattern | PageData | PageLink | TitleGuess

  /** What one call of getCurrentDirectoryId produces: an id, `null`, or
      the exception of decoding a malformed hash, which it does not catch. */
  datatype Resolution = Resolved(id: string, source: Source) | Unresolved | HashUndecodable

  /** `dirId && dirId !== '0' && dirId.length > 5` */
  predicate Acceptable(v: Option<string>) {
    v.Some? && v.value != "0" && |v.value| > 5
  }

  function Accept(v: Option<string>): (r: Option<string>)
    ensures r.Some? <==> Acceptable(v)
    ensures r.Some? ==> r == v
  {
    if Acceptable(v) then v else None
  }

  // ---------------------------------------------------------------------
  // The strategies, each with its own acceptance test.

  /** Strategy 1: `pdir_fid` of the query string, longer than five. */
  function QueryId(search: string): (r: Option<string>)
    ensures r.Some? <==> Acceptable(ParamGet(search, "pdir_fid"))
    ensures r.Some? ==> |r.value| > 5 && r == ParamGet(search, "pdir_fid")
  {
    Accept(ParamGet(search, "pdir_fid"))
  }

  /** Strategy 2: the last segment of a `#/list/all/…` route in the decoded
      hash, read by extractIdFromPath and kept when at least ten long. */
  function HashRouteId(hash: string, decode: string -> Option<string>): (r: Option<string>)
    requires ShrinksWhenChanging(decode)
    ensures r.Some? ==> |r.value| >= 20 && All(r.value, IsIdChar)
  {
    match Leftmost(hash, HashRouteAt, 0)
    case None => None
    case Some(route) =>
      var id := ExtractIdFromPath(LastSegment(route), decode);
      if id.Some? && id.value != "0" && |id.value| >= 10 then id else None
  }

  /** `route.split('/').pop()` */
  function LastSegment(route: string): (seg: string)
    ensures '/' !in seg
  {
    var parts := Split(route, '/');
    parts[|parts| - 1]
  }

  /** `a || b` on two optional strings, where the empty string is falsy. */
  function OrElse(a: Option<string>, b: Option<string>): Option<string> {
    if a.Some? && a.value != [] then a else b
  }

  /** Strategy 3: `pdir_fid`, else `fid`, else `dir` in the query after the
      `?` of the decoded hash, longer than five. */
  function HashQueryId(hash: string): (r: Option<string>)
    ensures r.Some? ==> |r.value| > 5 && r.value != "0"
  {
    var q := HashQuery(hash);
    Accept(OrElse(ParamGet(q, "pdir_fid"), OrElse(ParamGet(q, "fid"), ParamGet(q, "dir"))))
  }

  /** Strategy 4: the first of the path patterns that matches the pathname. */
  function PathId(pathname: string): (r: Option<string>)
    ensures r.Some? ==> |r.value| >= 10 && All(r.value, IsIdChar)
  {
    var list := Leftmost(pathname, ListIdAt, 0);
    var folder := Leftmost(pathname, FolderIdAt, 0);
    var dir := Leftmost(pathname, DirIdAt, 0);
    var slashed := Leftmost(pathname, SlashedIdAt, 0);
    if list.Some? then list
    else if folder.Some? then folder
    else if dir.Some? then dir
    else slashed
  }

  /** The page globals searched, in this order. */
  const GlobalNames: seq<string> := ["__INITIAL_STATE__", "__NEXT_DATA__", "pageData", "appData"]

  /** The first truthy global from the `i`-th on in which findDirIdInObject
      finds an id. */
  function FromGlobals(globals: string -> Option<Json>, i: nat): (r: Option<string>)
    decreases |GlobalNames| - i
    ensures r.Some? ==> |r.value| > 5 && r.value != "0"
  {
    if i >= |GlobalNames| then None
    else
      var found := GlobalHit(globals, GlobalNames[i]);
      if found.Some? then found else FromGlobals(globals, i + 1)
  }

  /** What one global yields: the search of its value when it is truthy. */
  function GlobalHit(globals: string -> Option<Json>, name: string): Option<string> {
    var v := globals(name);
    if TruthyOpt(v) then FindDirIdInObject(v.value, 0) else None
  }

  /** The capture of the first script, from the `i`-th on, whose text holds
      a quoted `pdir_fid` entry with a value other than "0"; its length is
      not tested here. */
  function FromScripts(scripts: seq<string>, i: nat): (r: Option<string>)
    decreases |scripts| - i
    ensures r.Some? ==> r.value != [] && r.value != "0"
  {
    if i >= |scripts| then None
    else
      var m := ScriptHit(scripts[i]);
      if ScriptAccepted(m) then m else FromScripts(scripts, i + 1)
  }

  /** The leftmost `pdir_fid` capture in a non-empty script text. */
  function ScriptHit(text: string): Option<string> {
    if text == [] then None else Leftmost(text, ScriptPdirAt, 0)
  }

  /** `dirIdMatch && dirIdMatch[1] && dirIdMatch[1] !== '0'` */
  predicate ScriptAccepted(m: Option<string>) {
    m.Some? && m.value != "0"
  }

  /** The first storage entry, from the `i`-th on, whose key mentions `dir`
      or `fid` and whose parsed value holds an id. */
  function FromStorage(storage: seq<StorageItem>, i: nat): (r: Option<string>)
    decreases |storage| - i
    ensures r.Some? ==> |r.value| > 5 && r.value != "0"
  {
    if i >= |storage| then None
    else
      var found := StorageHit(storage[i]);
      if found.Some? then found else FromStorage(storage, i + 1)
  }

  /** What one entry yields: the search of its parsed value when its key
      mentions `dir` or `fid`. */
  function StorageHit(e: StorageItem): Option<string> {
    if (Contains(e.key, "dir") || Contains(e.key, "fid")) && e.value.Some?
    then FindDirIdInObject(e.value.value, 0) else None
  }

  /** extractDirIdFromPageData: globals, then scripts, then storage. */
  function PageDataRaw(snap: Snapshot): Option<string> {
    var g := FromGlobals(snap.globals, 0);
    if g.Some? then g
    else
      var s := FromScripts(snap.scripts, 0);
      if s.Some? then s else FromStorage(snap.storage, 0)
  }

  /** Strategy 5: the page data, longer than five. */
  function PageDataId(snap: Snapshot): (r: Option<string>)
    ensures r.Some? ==> |r.value| > 5 && r.value != "0"
  {
    Accept(PageDataRaw(snap))
  }

  /** Strategy 6: the first anchor whose href mentions `fid` and carries a
      `pdir_fid=` or `fid=` parameter longer than five. */
  function LinkId(anchors: seq<string>, i: nat): (r: Option<string>)
    decreases |anchors| - i
    ensures r.Some? ==> |r.value| > 5 && r.value != "0" && '&' !in r.value
  {
    if i >= |anchors| then None
    else
      var m := AnchorHit(anchors[i]);
      if Acceptable(m) then m else LinkId(anchors, i + 1)
  }

  /** The leftmost parameter capture of an href that mentions `fid`. */
  function AnchorHit(href: string): Option<string> {
    if Contains(href, "fid") then Leftmost(href, LinkIdAt, 0) else None
  }

  /** Strategy 7: the first run of at least twenty word characters in the
      title. */
  function TitleId(title: string): (r: Option<string>)
    ensures r.Some? ==> |r.value| >= 20 && All(r.value, IsIdChar)
  {
    var m := Leftmost(title, WordRunAt, 0);
    if m.Some? && |m.value| >= 10 && All(m.value, IsIdChar) then m else None
  }

  // ---------------------------------------------------------------------
  // What each strategy finds.

  /** The route is the text after the leftmost `#/list/all/` that is followed
      by a character `.` matches; the strategy answers with what
      extractIdFromPath reads from the route's last segment, and its own
      test (not "0", at least ten long) never rejects that. */
  lemma HashRouteIdSpec(hash: string, decode: string -> Option<string>)
    requires ShrinksWhenChanging(decode)
    ensures !MatchesIn(hash, HashRouteAt) ==> HashRouteId(hash, decode).None?
    ensures MatchesIn(hash, HashRouteAt) ==>
      HashRouteId(hash, decode) == ExtractIdFromPath(LastSegment(Leftmost(hash, HashRouteAt, 0).value), decode)
  {
    LeftmostFound(hash, HashRouteAt);
  }

  /** `a || b`: a present, non-empty value. */
  predicate Filled(v: Option<string>) {
    v.Some? && v.value != []
  }

  /** The hash parameters are read as `pdir_fid || fid || dir` before the
      length test, so the first filled one decides: a short `pdir_fid` hides
      a good `fid`. */
  lemma HashQueryIdSpec(hash: string)
    ensures Filled(ParamGet(HashQuery(hash), "pdir_fid")) ==>
      HashQueryId(hash) == Accept(ParamGet(HashQuery(hash), "pdir_fid"))
    ensures !Filled(ParamGet(HashQuery(hash), "pdir_fid")) && Filled(ParamGet(HashQuery(hash), "fid")) ==>
      HashQueryId(hash) == Accept(ParamGet(HashQuery(hash), "fid"))
    ensures !Filled(ParamGet(HashQuery(hash), "pdir_fid")) && !Filled(ParamGet(HashQuery(hash), "fid")) ==>
      HashQueryId(hash) == Accept(ParamGet(HashQuery(hash), "dir"))
  {
  }

  /** A pattern matches somewhere in `s`. */
  ghost predicate MatchesIn(s: string, at: string -> Option<string>) {
    exists q :: 0 <= q <= |s| && at(s[q..]).Some?
  }

  /** The path patterns are tried in the order list, folder, dir, slashed:
      the first that matches anywhere in the pathname supplies its leftmost
      capture, and there is no answer only when none matches. */
  lemma PathIdSpec(pathname: string)
    ensures MatchesIn(pathname, ListIdAt) ==> PathId(pathname) == Leftmost(pathname, ListIdAt, 0)
    ensures !MatchesIn(pathname, ListIdAt) && MatchesIn(pathname, FolderIdAt) ==>
      PathId(pathname) == Leftmost(pathname, FolderIdAt, 0)
    ensures !MatchesIn(pathname, ListIdAt) && !MatchesIn(pathname, FolderIdAt) && MatchesIn(pathname, DirIdAt) ==>
      PathId(pathname) == Leftmost(pathname, DirIdAt, 0)
    ensures !MatchesIn(pathname, ListIdAt) && !MatchesIn(pathname, FolderIdAt) && !MatchesIn(pathname, DirIdAt) ==>
      PathId(pathname) == Leftmost(pathname, SlashedIdAt, 0)
    ensures PathId(pathname).None? <==>
      !MatchesIn(pathname, ListIdAt) && !MatchesIn(pathname, FolderIdAt)
      && !MatchesIn(pathname, DirIdAt) && !MatchesIn(pathname, SlashedIdAt)
  {
    LeftmostFound(pathname, ListIdAt);
    LeftmostFound(pathname, FolderIdAt);
    LeftmostFound(pathname, DirIdAt);
    LeftmostFound(pathname, SlashedIdAt);
  }

  /** A leftmost search succeeds exactly when the pattern matches somewhere. */
  lemma LeftmostFound(s: string, at: string -> Option<string>)
    ensures Leftmost(s, at, 0).Some? <==> MatchesIn(s, at)
  {
    if MatchesIn(s, at) {
      var q :| 0 <= q <= |s| && at(s[q..]).Some?;
    }
  }

  /** The hit of the first element, from the `i`-th on, that `ok` accepts:
      the shape of each search over a list of page sources below. */
  ghost function FirstAccepted<T>(xs: seq<T>, i: nat, hit: T -> Option<string>,
                                  ok: Option<string> -> bool): Option<string>
    decreases |xs| - i
  {
    if i >= |xs| then None
    else if ok(hit(xs[i])) then hit(xs[i])
    else FirstAccepted(xs, i + 1, hit, ok)
  }

  /** The search answers with the first accepted hit, and with nothing when
      no element's hit is accepted. */
  lemma {:induction false} FirstAcceptedSpec<T>(xs: seq<T>, i: nat, hit: T -> Option<string>,
                                                ok: Option<string> -> bool)
    decreases |xs| - i
    ensures (exists k :: i <= k < |xs| && ok(hit(xs[k]))) ==>
      exists k :: i <= k < |xs| && ok(hit(xs[k])) && FirstAccepted(xs, i, hit, ok) == hit(xs[k])
        && forall m :: i <= m < k ==> !ok(hit(xs[m]))
    ensures (forall k :: i <= k < |xs| ==> !ok(hit(xs[k]))) ==> FirstAccepted(xs, i, hit, ok) == None
  {
    if i < |xs| && !ok(hit(xs[i])) {
      FirstAcceptedSpec(xs, i + 1, hit, ok);
      if exists k :: i <= k < |xs| && ok(hit(xs[k])) {
        var k :| i <= k < |xs| && ok(hit(xs[k]));
        assert k != i;
      }
    }
  }

  /** A global is accepted when the search of its value finds an id. */
  predicate Found(m: Option<string>) {
    m.Some?
  }

  lemma {:induction false} FromGlobalsIsFirst(globals: string -> Option<Json>, i: nat)
    decreases |GlobalNames| - i
    ensures FromGlobals(globals, i) == FirstAccepted(GlobalNames, i, name => GlobalHit(globals, name), Found)
  {
    if i < |GlobalNames| && !Found(GlobalHit(globals, GlobalNames[i])) {
      FromGlobalsIsFirst(globals, i + 1);
    }
  }

  /** The globals are searched in order: the answer is what the first
      global, from the `i`-th on, yields, and there is none exactly when no
      global yields one. */
  lemma FromGlobalsFirstHit(globals: string -> Option<Json>, i: nat)
    ensures FromGlobals(globals, i).Some? ==>
      exists k :: i <= k < |GlobalNames| && GlobalHit(globals, GlobalNames[k]) == FromGlobals(globals, i)
        && forall m :: i <= m < k ==> GlobalHit(globals, GlobalNames[m]).None?
    ensures FromGlobals(globals, i).None? <==>
      forall k :: i <= k < |GlobalNames| ==> GlobalHit(globals, GlobalNames[k]).None?
  {
    FromGlobalsIsFirst(globals, i);
    FirstAcceptedSpec(GlobalNames, i, name => GlobalHit(globals, name), Found);
  }

  lemma {:induction false} FromScriptsIsFirst(scripts: seq<string>, i: nat)
    decreases |scripts| - i
    ensures FromScripts(scripts, i) == FirstAccepted(scripts, i, ScriptHit, ScriptAccepted)
  {
    if i < |scripts| && !ScriptAccepted(ScriptHit(scripts[i])) {
      FromScriptsIsFirst(scripts, i + 1);
    }
  }

  /** The scripts are searched in document order: the answer is the capture
      of the first script, from the `i`-th on, whose capture is not "0",
      and there is none exactly when no capture is accepted. */
  lemma FromScriptsFirstHit(scripts: seq<string>, i: nat)
    ensures FromScripts(scripts, i).Some? ==>
      exists k :: i <= k < |scripts| && ScriptHit(scripts[k]) == FromScripts(scripts, i)
        && forall m :: i <= m < k ==> !ScriptAccepted(ScriptHit(scripts[m]))
    ensures FromScripts(scripts, i).None? <==>
      forall k :: i <= k < |scripts| ==> !ScriptAccepted(ScriptHit(scripts[k]))
  {
    FromScriptsIsFirst(scripts, i);
    FirstAcceptedSpec(scripts, i, ScriptHit, ScriptAccepted);
  }

  lemma {:induction false} FromStorageIsFirst(storage: seq<StorageItem>, i: nat)
    decreases |storage| - i
    ensures FromStorage(storage, i) == FirstAccepted(storage, i, StorageHit, Found)
  {
    if i < |storage| && !Found(StorageHit(storage[i])) {
      FromStorageIsFirst(storage, i + 1);
    }
  }

  /** The storage entries are searched in key order: the answer is what the
      first entry, from the `i`-th on, yields, and there is none exactly
      when no entry yields one. */
  lemma FromStorageFirstHit(storage: seq<StorageItem>, i: nat)
    ensures FromStorage(storage, i).Some? ==>
      exists k :: i <= k < |storage| && StorageHit(storage[k]) == FromStorage(storage, i)
        && forall m :: i <= m < k ==> StorageHit(storage[m]).None?
    ensures FromStorage(storage, i).None? <==>
      forall k :: i <= k < |storage| ==> StorageHit(storage[k]).None?
  {
    FromStorageIsFirst(storage, i);
    FirstAcceptedSpec(storage, i, StorageHit, Found);
  }

  /** Page data is consulted globals first, then scripts, then storage; a
      script capture ends the search even when it is too short to be
      accepted, and then the strategy yields nothing. */
  lemma PageDataIdSpec(snap: Snapshot)
    ensures FromGlobals(snap.globals, 0).Some? ==> PageDataId(snap) == FromGlobals(snap.globals, 0)
    ensures FromGlobals(snap.globals, 0).None? && FromScripts(snap.scripts, 0).Some? ==>
      PageDataId(snap) == Accept(FromScripts(snap.scripts, 0))
    ensures FromGlobals(snap.globals, 0).None? && FromScripts(snap.scripts, 0).None? ==>
      PageDataId(snap) == FromStorage(snap.storage, 0)
  {
  }

  lemma {:induction false} LinkIdIsFirst(anchors: seq<string>, i: nat)
    decreases |anchors| - i
    ensures LinkId(anchors, i) == FirstAccepted(anchors, i, AnchorHit, Acceptable)
  {
    if i < |anchors| && !Acceptable(AnchorHit(anchors[i])) {
      LinkIdIsFirst(anchors, i + 1);
    }
  }

  /** The anchors are searched in document order: the answer is the capture
      of the first anchor, from the `i`-th on, whose capture is acceptable,
      and there is none exactly when no capture is. */
  lemma LinkIdFirstHit(anchors: seq<string>, i: nat)
    ensures LinkId(anchors, i).Some? ==>
      exists k :: i <= k < |anchors| && AnchorHit(anchors[k]) == LinkId(anchors, i)
        && forall m :: i <= m < k ==> !Acceptable(AnchorHit(anchors[m]))
    ensures LinkId(anchors, i).None? <==>
      forall k :: i <= k < |anchors| ==> !Acceptable(AnchorHit(anchors[k]))
  {
    LinkIdIsFirst(anchors, i);
    FirstAcceptedSpec(anchors, i, AnchorHit, Acceptable);
  }

  /** The title guess is the leftmost run of at least twenty word
      characters, whenever there is one: its second test (ten or more id
      characters) never rejects such a run. */
  lemma TitleIdSpec(title: string)
    ensures TitleId(title) == Leftmost(title, WordRunAt, 0)
    ensures TitleId(title).Some? <==> MatchesIn(title, WordRunAt)
  {
    LeftmostFound(title, WordRunAt);
    var m := Leftmost(title, WordRunAt, 0);
    if m.Some? {
      assert All(m.value, IsIdChar) by {
        assert forall i :: 0 <= i < |m.value| ==> IsWordChar(m.value[i]);
      }
    }
  }

  /** The hash after decodeURIComponent; `None` when there is no hash or it
      does not decode. */
  function DecodedHash(snap: Snapshot): Option<string> {
    if snap.hash == [] then None else snap.decode(snap.hash)
  }

  /** The result of each strategy on its own. */
  function StrategyResult(snap: Snapshot, s: Source): (r: Option<string>)
    requires ShrinksWhenChanging(snap.decode)
    ensures r.Some? ==> |r.value| > 5 && r.value != "0"
  {
    match s
    case Cache => None
    case QueryParam => QueryId(snap.search)
    case HashRoute => if DecodedHash(snap).Some? then HashRouteId(DecodedHash(snap).value, snap.decode) else None
    case HashParams => if DecodedHash(snap).Some? then HashQueryId(DecodedHash(snap).value) else None
    case PathPattern => PathId(snap.pathname)
    case PageData => PageDataId(snap)
    case PageLink => LinkId(snap.anchors, 0)
    case TitleGuess => TitleId(snap.title)
  }

  /** The order in which the strategies run. */
  function Rank(s: Source): nat {
    match s
    case Cache => 0
    case QueryParam => 1
    case HashRoute => 2
    case HashParams => 3
    case PathPattern => 4
    case PageData => 5
    case PageLink => 6
    case TitleGuess => 7
  }

  /** getCurrentDirectoryId after a cache miss. */
  function Cascade(snap: Snapshot): (r: Resolution)
    requires ShrinksWhenChanging(snap.decode)
    ensures r.Resolved? ==> r.source != Cache && |r.id| > 5 && r.id != "0"
    ensures r.HashUndecodable? <==>
      QueryId(snap.search).None? && snap.hash != [] && snap.decode(snap.hash).None?
  {
    var query := QueryId(snap.search);
    if query.Some? then Resolved(query.value, QueryParam)
    else if snap.hash != [] && snap.decode(snap.hash).None? then HashUndecodable
    else
      var route := StrategyResult(snap, HashRoute);
      var hashQuery := StrategyResult(snap, HashParams);
      var path := StrategyResult(snap, PathPattern);
      var page := StrategyResult(snap, PageData);
      var link := StrategyResult(snap, PageLink);
      var title := StrategyResult(snap, TitleGuess);
      if route.Some? then Resolved(route.value, HashRoute)
      else if hashQuery.Some? then Resolved(hashQuery.value, HashParams)
      else if path.Some? then Resolved(path.value, PathPattern)
      else if page.Some? then Resolved(page.value, PageData)
      else if link.Some? then Resolved(link.value, PageLink)
      else if title.Some? then Resolved(title.value, TitleGuess)
      else Unresolved
  }

  /** The cascade answers with the first strategy, in order, that finds an
      id; it is unresolved only when none does. */
  lemma CascadeIsFirstSuccess(snap: Snapshot)
    requires ShrinksWhenChanging(snap.decode)
    ensures Cascade(snap).Resolved? ==>
      StrategyResult(snap, Cascade(snap).source) == Some(Cascade(snap).id)
    ensures Cascade(snap).Resolved? ==>
      forall s :: Rank(s) < Rank(Cascade(snap).source) ==> StrategyResult(snap, s).None?
    ensures Cascade(snap).Unresolved? <==>
      (forall s :: StrategyResult(snap, s).None?) && (snap.hash == [] || snap.decode(snap.hash).Some?)
  {
    CascadeSource(snap);
    CascadeEarlierFail(snap);
    CascadeUnresolved(snap);
  }

  lemma CascadeSource(snap: Snapshot)
    requires ShrinksWhenChanging(snap.decode)
    ensures Cascade(snap).Resolved? ==>
      StrategyResult(snap, Cascade(snap).source) == Some(Cascade(snap).id)
  {
    if QueryId(snap.search).None? && !(snap.hash != [] && snap.decode(snap.hash).None?) {
      if StrategyResult(snap, HashRoute).Some? {
      } else if StrategyResult(snap, HashParams).Some? {
      } else if StrategyResult(snap, PathPattern).Some? {
      } else if StrategyResult(snap, PageData).Some? {
      } else if StrategyResult(snap, PageLink).Some? {
      }
    }
  }

  lemma CascadeEarlierFail(snap: Snapshot)
    requires ShrinksWhenChanging(snap.decode)
    ensures Cascade(snap).Resolved? ==>
      forall s :: Rank(s) < Rank(Cascade(snap).source) ==> StrategyResult(snap, s).None?
  {
    var r := Cascade(snap);
    if r.Resolved? {
      forall s | Rank(s) < Rank(r.source) ensures StrategyResult(snap, s).None? {
        match s
        case Cache =>
        case QueryParam =>
        case HashRoute =>
        case HashParams =>
        case PathPattern =>
        case PageData =>
        case PageLink =>
        case TitleGuess =>
      }
    }
  }

  lemma CascadeUnresolved(snap: Snapshot)
    requires ShrinksWhenChanging(snap.decode)
    ensures Cascade(snap).Unresolved? <==>
      (forall s :: StrategyResult(snap, s).None?) && (snap.hash == [] || snap.decode(snap.hash).Some?)
  {
    var r := Cascade(snap);
    if r.Unresolved? {
      forall s ensures StrategyResult(snap, s).None? {
        match s
        case Cache =>
        case QueryParam =>
        case HashRoute =>
        case HashParams =>
        case PathPattern =>
        case PageData =>
        case PageLink =>
        case TitleGuess =>
      }
    }
    if !r.Unresolved? && (snap.hash == [] || snap.decode(snap.hash).Some?) {
      CascadeSource(snap);
      assert StrategyResult(snap, r.source).Some?;
    }
  }


  /** A route is read from the start of the hash up to its end. */
  lemma RouteOfHash(route: string)
    requires route != [] && All(route, IsDotChar)
    ensures Leftmost("#/list/all/" + route, HashRouteAt, 0) == Some(route)
  {
    var hash := "#/list/all/" + route;
    assert hash[0..] == hash;
    assert hash[..11] == "#/list/all/";
    assert hash[11..] == route;
    assert SpanLen(route, IsDotChar) == |route|;
    assert route[..|route|] == route;
  }

  /** The last `/`-separated segment after a run of ancestors that ends in
      a slash. */
  lemma LastSegmentOf(ancestors: string, last: string)
    requires ancestors == [] || ancestors[|ancestors| - 1] == '/'
    requires '/' !in last
    ensures LastSegment(ancestors + last) == last
  {
    var route := ancestors + last;
    SplitLastPiece(route, '/');
    if ancestors == [] {
      assert route == last;
    } else {
      var k := |ancestors| - 1;
      assert route[k] == '/';
      assert route[k + 1..] == last;
      LastAfterFirst(route, '/', k);
    }
  }

  lemma AllConcat(a: string, b: string, p: char -> bool)
    requires All(a, p) && All(b, p)
    ensures All(a + b, p)
  {
    assert forall i :: 0 <= i < |a + b| ==> (a + b)[i] == if i < |a| then a[i] else b[i - |a|];
  }

  /** A segment `<id>-<name>` built from route characters has no slash. */
  lemma DashSegment(id: string, name: string)
    requires All(id, IsAsciiAlnum)
    requires All(name, IsDotChar) && '/' !in name
    ensures '/' !in id + "-" + name && All(id + "-" + name, IsDotChar)
  {
    var last := id + "-" + name;
    assert '/' !in last by {
      assert forall i :: 0 <= i < |id| ==> last[i] == id[i];
      assert forall i :: |id| < i < |last| ==> last[i] == name[i - |id| - 1];
    }
    assert All(id + "-", IsDotChar) by {
      assert forall i :: 0 <= i < |id| ==> (id + "-")[i] == id[i];
    }
    AllConcat(id + "-", name, IsDotChar);
  }

  /** The last segment `<id>-<name>` of a route is read as the id. */
  lemma RouteIdOfHash(hash: string, decode: string -> Option<string>, ancestors: string, id: string, name: string)
    requires ShrinksWhenChanging(decode)
    requires hash == "#/list/all/" + ancestors + id + "-" + name
    requires ancestors == [] || ancestors[|ancestors| - 1] == '/'
    requires All(ancestors, IsDotChar)
    requires |id| >= 20 && All(id, IsAsciiAlnum)
    requires name != [] && All(name, IsDotChar) && '/' !in name
    ensures HashRouteId(hash, decode) == Some(id)
  {
    var last := id + "-" + name;
    var route := ancestors + last;
    DashSegment(id, name);
    AllConcat(ancestors, last, IsDotChar);
    LastSegmentOf(ancestors, last);
    RegroupHash(ancestors, id, name);
    RouteSegmentId(route, decode, id, name);
  }

  lemma RegroupHash(ancestors: string, id: string, name: string)
    ensures "#/list/all/" + ancestors + id + "-" + name == "#/list/all/" + (ancestors + (id + "-" + name))
  {
  }

  /** A route whose last segment is `<id>-<name>` gives the id. */
  lemma RouteSegmentId(route: string, decode: string -> Option<string>, id: string, name: string)
    requires ShrinksWhenChanging(decode)
    requires route != [] && All(route, IsDotChar)
    requires LastSegment(route) == id + "-" + name
    requires |id| >= 20 && All(id, IsAsciiAlnum)
    requires name != [] && All(name, IsDotChar)
    ensures HashRouteId("#/list/all/" + route, decode) == Some(id)
  {
    RouteOfHash(route);
    SegmentId(id, name, decode);
  }

  /** The segment `<id>-<name>` passes the strategy's own test. */
  lemma SegmentId(id: string, name: string, decode: string -> Option<string>)
    requires ShrinksWhenChanging(decode)
    requires |id| >= 20 && All(id, IsAsciiAlnum)
    requires name != [] && All(name, IsDotChar)
    ensures var found := ExtractIdFromPath(id + "-" + name, decode);
      found == Some(id) && found.value != "0" && |found.value| >= 10
  {
    ExtractDashSeparated(id, name, decode);
    assert |"0"| == 1;
  }

  /** The drive's own route `#/list/all/…/<id>-<name>` resolves to the id,
      when the query string names no directory. */
  lemma RouteResolvesToFolder(snap: Snapshot, ancestors: string, id: string, name: string)
    requires ShrinksWhenChanging(snap.decode)
    requires QueryId(snap.search).None?
    requires snap.hash == "#/list/all/" + ancestors + id + "-" + name
    requires snap.decode(snap.hash) == Some(snap.hash)
    requires ancestors == [] || ancestors[|ancestors| - 1] == '/'
    requires All(ancestors, IsDotChar)
    requires |id| >= 20 && All(id, IsAsciiAlnum)
    requires name != [] && All(name, IsDotChar) && '/' !in name
    ensures Cascade(snap) == Resolved(id, HashRoute)
  {
    RouteIdOfHash(snap.hash, snap.decode, ancestors, id, name);
    assert DecodedHash(snap) == Some(snap.hash);
    assert StrategyResult(snap, HashRoute) == Some(id);
  }

  // ---------------------------------------------------------------------
  // The cache slot: `cachedCurrentDirId` and `dirIdUpdateTime`.

  datatype Slot = Slot(id: Option<string>, updatedAt: int)

  const EmptySlot := Slot(None, 0)

  /** `cachedCurrentDirId && Date.now() - dirIdUpdateTime < 30000` */
  predicate IsFresh(slot: Slot, now: int) {
    slot.id.Some? && slot.id.value != [] && now - slot.updatedAt < CacheTtlMs
  }

  /** Whether a result is written to the cache: every strategy but the
      title guess writes it. */
  predicate IsCachedResult(r: Resolution) {
    r.Resolved? && r.source != TitleGuess
  }

  /** One call of getCurrentDirectoryId on a slot at time `now`. */
  function ResolveStep(slot: Slot, now: int, snap: Snapshot): (Resolution, Slot)
    requires ShrinksWhenChanging(snap.decode)
  {
    if IsFresh(slot, now) then (Resolved(slot.id.value, Cache), slot)
    else
      var r := Cascade(snap);
      (r, if IsCachedResult(r) then Slot(Some(r.id), now) else slot)
  }

  /** The cache answers, without consulting the page, exactly while it is
      fresh; otherwise the cascade answers and a found id is cached with
      the current time, except a title guess. */
  lemma ResolveStepSpec(slot: Slot, now: int, snap: Snapshot, other: Snapshot)
    requires ShrinksWhenChanging(snap.decode) && ShrinksWhenChanging(other.decode)
    ensures ResolveStep(slot, now, snap).0.Resolved? && ResolveStep(slot, now, snap).0.source == Cache
      <==> IsFresh(slot, now)
    ensures IsFresh(slot, now) ==>
      ResolveStep(slot, now, snap) == ResolveStep(slot, now, other) && ResolveStep(slot, now, snap).1 == slot
    ensures !IsFresh(slot, now) ==> ResolveStep(slot, now, snap).0 == Cascade(snap)
    ensures !IsFresh(slot, now) && IsCachedResult(ResolveStep(slot, now, snap).0) ==>
      ResolveStep(slot, now, snap).1 == Slot(Some(ResolveStep(slot, now, snap).0.id), now)
    ensures !IsCachedResult(ResolveStep(slot, now, snap).0) ==> ResolveStep(slot, now, snap).1 == slot
  {
  }

  /** The interceptor's side effect for a request URL seen at `now`: a file
      listing request's `pdir_fid`, when non-empty, not "0" and different
      from the cached id, replaces it and restarts the clock. */
  function ObserveStep(slot: Slot, url: string, now: int): (s: Slot)
    ensures s == slot || (s.id.Some? && s.id.value != [] && s.id.value != "0" && s.updatedAt == now)
  {
    var pdir := ParamGet(UrlQuery(url), "pdir_fid");
    if Contains(url, "clouddrive/file") && pdir.Some? && pdir.value != [] && pdir.value != "0"
       && Some(pdir.value) != slot.id
    then Slot(pdir, now)
    else slot
  }

  /** The interceptor stores exactly when the request lists a folder whose
      `pdir_fid` is filled, not "0" and not the cached id; it then stores
      that id with the current time. */
  lemma ObserveStepSpec(slot: Slot, url: string, now: int)
    ensures ObserveStep(slot, url, now) != slot <==>
      && Contains(url, "clouddrive/file")
      && Filled(ParamGet(UrlQuery(url), "pdir_fid"))
      && ParamGet(UrlQuery(url), "pdir_fid").value != "0"
      && ParamGet(UrlQuery(url), "pdir_fid") != slot.id
    ensures ObserveStep(slot, url, now) != slot ==>
      ObserveStep(slot, url, now) == Slot(ParamGet(UrlQuery(url), "pdir_fid"), now)
  {
  }

  /** Observing the same request again changes nothing, in particular not
      the time: a repeat observation does not extend the cache's life. */
  lemma ObserveIdempotent(slot: Slot, url: string, t1: int, t2: int)
    ensures ObserveStep(ObserveStep(slot, url, t1), url, t2) == ObserveStep(slot, url, t1)
  {
  }

  /** An observed directory is what the resolver answers for the next
      thirty seconds, whatever the page shows. */
  lemma ObservedIdIsServed(slot: Slot, url: string, t: int, now: int, snap: Snapshot)
    requires ShrinksWhenChanging(snap.decode)
    requires ObserveStep(slot, url, t) != slot
    requires t <= now < t + CacheTtlMs
    ensures ResolveStep(ObserveStep(slot, url, t), now, snap).0
      == Resolved(ParamGet(UrlQuery(url), "pdir_fid").value, Cache)
  {
  }

  /** After the slot is cleared, the next call always consults the page. */
  lemma ClearedSlotMisses(now: int, snap: Snapshot)
    requires ShrinksWhenChanging(snap.decode)
    ensures ResolveStep(EmptySlot, now, snap).0 == Cascade(snap)
  {
  }

  // ---------------------------------------------------------------------
  // The module globals as an object.

  class DirectoryResolver {
    var cachedId: Option<string>
    var updatedAt: int
    var lastUrl: string       // monitorUrlChanges' last seen address

    function State(): Slot
      reads this
    {
      Slot(cachedId, updatedAt)
    }

    constructor(url: string)
      ensures State() == EmptySlot && lastUrl == url
    {
      cachedId := None;
      updatedAt := 0;
      lastUrl := url;
    }

    /** getCurrentDirectoryId() */
    method Resolve(now: int, snap: Snapshot) returns (r: Resolution)
      requires ShrinksWhenChanging(snap.decode)
      modifies this
      ensures (r, State()) == ResolveStep(old(State()), now, snap)
      ensures lastUrl == old(lastUrl)
    {
      if cachedId.Some? && cachedId.value != [] && now - updatedAt < CacheTtlMs {
        return Resolved(cachedId.value, Cache);
      }
      r := Cascade(snap);
      if r.Resolved? && r.source != TitleGuess {
        cachedId := Some(r.id);
        updatedAt := now;
      }
    }

    /** The XMLHttpRequest and fetch interceptors on a request to `url`. */
    method Observe(url: string, now: int)
      modifies this
      ensures State() == ObserveStep(old(State()), url, now)
      ensures lastUrl == old(lastUrl)
    {
      if Contains(url, "clouddrive/file") {
        var pdir := ParamGet(UrlQuery(url), "pdir_fid");
        if pdir.Some? && pdir.value != [] && pdir.value != "0" && Some(pdir.value) != cachedId {
          cachedId := pdir;
          updatedAt := now;
        }
      }
    }

    /** checkUrlChange: a new address empties the cache. */
    method CheckUrlChange(url: string)
      modifies this
      ensures lastUrl == url
      ensures State() == if url != old(lastUrl) then EmptySlot else old(State())
    {
      if url != lastUrl {
        lastUrl := url;
        cachedId := None;
        updatedAt := 0;
      }
    }

    /** The forced re-detection before a rename-and-move. */
    method Clear()
      modifies this
      ensures State() == EmptySlot && lastUrl == old(lastUrl)
    {
      cachedId := None;
      updatedAt := 0;
    }
  }
}
