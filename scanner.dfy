/**
  The recursive video scan (recursiveScanForVideos, scanAllVideos): a
  depth-first walk of the remote folder tree that appends every video file
  it meets to one shared list. The remote drive is an oracle of listing
  replies per folder id; the operator's answer to "skip this folder or
  abort?" is an oracle indexed by the number of earlier questions.
 */
module Scanner {
  import opened Text
  import opened Json
  import opened Naming
  import opened Transport

  /** An item as the scan handles it: a root taken from the page, or a
      child built from a listing entry. */
  datatype ItemInfo = ItemInfo(id: string, name: string, dir: bool)

  /** An entry of the result list (its `fid` and `file_name`). */
  datatype Video = Video(fid: string, fileName: string)

  /** A listing request issued for folder `id` at nesting depth `depth`. */
  datatype Listing = Listing(id: string, depth: nat)

  /** The cookie and, per folder id, the replies its successive attempts get. */
  datatype Remote = Remote(cookie: string, server: string -> nat -> Reply)

  /** The default `maxDepth`. */
  const MaxDepth: nat := 10

  // ---------------------------------------------------------------------
  // Reading a listing answer.

  /** The entries of an accepted answer: `data.list` if truthy, else `list`
      if truthy, else `data` if it is an array, else none. */
  function Payload(result: Json): Json {
    var data := Get(result, "data");
    var dataList := GetOpt(data, "list");
    if TruthyOpt(dataList) then dataList.value
    else if TruthyOpt(Get(result, "list")) then Get(result, "list").value
    else if data.Some? && data.value.JArr? then data.value
    else JArr([])
  }

  /** The entries are taken by the fallback `data.list || list || (an array
      `data`) || none`: the first truthy list wins whatever its kind, an
      array `data` is used only when both lists are falsy, and an array at
      `data.list` (what the acceptance test looks for) always wins. */
  lemma PayloadSpec(result: Json)
    ensures Payload(result).JArr? || Truthy(Payload(result))
    ensures GetOpt(Get(result, "data"), "list").Some? && GetOpt(Get(result, "data"), "list").value.JArr?
            ==> Payload(result) == GetOpt(Get(result, "data"), "list").value
    ensures TruthyOpt(GetOpt(Get(result, "data"), "list"))
            ==> Payload(result) == GetOpt(Get(result, "data"), "list").value
    ensures !TruthyOpt(GetOpt(Get(result, "data"), "list")) && TruthyOpt(Get(result, "list"))
            ==> Some(Payload(result)) == Get(result, "list")
    ensures !TruthyOpt(GetOpt(Get(result, "data"), "list")) && !TruthyOpt(Get(result, "list"))
            ==> Payload(result) ==
                  if Get(result, "data").Some? && Get(result, "data").value.JArr?
                  then Get(result, "data").value else JArr([])
  {
  }

  /** What `for (const item of items)` walks over once the empty-length
      early return is passed, or `None` where the loop throws: an array
      yields its elements, a string its characters, an object whose
      `length` is 0 returns before the loop, and anything else is not
      iterable. */
  function Iterated(items: Json): Option<seq<Json>> {
    match items
    case JArr(xs) => Some(xs)
    case JStr(s) => Some(seq(|s|, k requires 0 <= k < |s| => JStr([s[k]])))
    case JObj(_) => if IsNum(Get(items, "length"), 0) then Some([]) else None
    case _ => None
  }

  /** A string payload yields one-character strings, none of which has an
      id, so a folder whose payload is a string contributes nothing. */
  lemma IteratedString(s: string)
    ensures Iterated(JStr(s)).Some? && |Iterated(JStr(s)).value| == |s|
    ensures forall k :: 0 <= k < |s| ==> NormaliseItem(Iterated(JStr(s)).value[k]).None?
  {
    forall k | 0 <= k < |s|
      ensures NormaliseItem(Iterated(JStr(s)).value[k]).None?
    {
      assert Iterated(JStr(s)).value[k] == JStr([s[k]]);
      FirstTruthySpec(JStr([s[k]]), ["fid", "id"]);
    }
  }

  /** `item.k1 || item.k2 || …` when it is truthy: the first truthy field. */
  function FirstTruthy(item: Json, keys: seq<string>): Option<Json> {
    if keys == [] then None
    else if TruthyOpt(Get(item, keys[0])) then Get(item, keys[0])
    else FirstTruthy(item, keys[1..])
  }

  /** `FirstTruthy` finds the first key whose value is truthy. */
  lemma {:induction false} FirstTruthySpec(item: Json, keys: seq<string>)
    ensures FirstTruthy(item, keys).Some? ==> Truthy(FirstTruthy(item, keys).value)
    ensures FirstTruthy(item, keys).Some? ==>
      exists k :: (0 <= k < |keys| && Get(item, keys[k]) == FirstTruthy(item, keys)
                   && forall m :: 0 <= m < k ==> !TruthyOpt(Get(item, keys[m])))
    ensures FirstTruthy(item, keys).None? ==> forall k :: 0 <= k < |keys| ==> !TruthyOpt(Get(item, keys[k]))
  {
    if keys != [] && !TruthyOpt(Get(item, keys[0])) {
      FirstTruthySpec(item, keys[1..]);
      assert forall k :: 1 <= k < |keys| ==> keys[1..][k - 1] == keys[k];
      if FirstTruthy(item, keys[1..]).Some? {
        var k :| 0 <= k < |keys[1..]| && Get(item, keys[1..][k]) == FirstTruthy(item, keys[1..])
                 && forall m :: 0 <= m < k ==> !TruthyOpt(Get(item, keys[1..][m]));
        assert Get(item, keys[k + 1]) == FirstTruthy(item, keys);
        assert forall m :: 0 <= m < k + 1 ==> !TruthyOpt(Get(item, keys[m]));
      }
    }
  }

  /** `dir === true || dir === 1 || file_type === 0` */
  predicate IsFolderEntry(item: Json) {
    Get(item, "dir") == Some(JBool(true)) || IsNum(Get(item, "dir"), 1) || IsNum(Get(item, "file_type"), 0)
  }

  /** The child built from a listing entry, or `None` when the entry is
      skipped for lacking an id or a name. */
  function NormaliseItem(item: Json): Option<ItemInfo> {
    var id := FirstTruthy(item, ["fid", "id"]);
    var name := FirstTruthy(item, ["file_name", "name", "filename"]);
    if id.Some? && id.value.JStr? && name.Some? && name.value.JStr? then
      Some(ItemInfo(id.value.s, name.value.s, IsFolderEntry(item)))
    else None
  }

  /** An entry is kept exactly when its first truthy id field and its first
      truthy name field are strings; `fid` takes precedence over `id`,
      `file_name` over `name` and `filename`, and the child is a folder
      exactly when `dir === true || dir === 1 || file_type === 0`. */
  lemma NormaliseItemSpec(item: Json)
    ensures NormaliseItem(item).Some? <==>
      && FirstTruthy(item, ["fid", "id"]).Some? && FirstTruthy(item, ["fid", "id"]).value.JStr?
      && FirstTruthy(item, ["file_name", "name", "filename"]).Some?
      && FirstTruthy(item, ["file_name", "name", "filename"]).value.JStr?
    ensures NormaliseItem(item).Some? ==> NormaliseItem(item).value.id != [] && NormaliseItem(item).value.name != []
    ensures NormaliseItem(item).Some? ==> (NormaliseItem(item).value.dir <==> IsFolderEntry(item))
    ensures forall f :: Get(item, "fid") == Some(JStr(f)) && f != [] && NormaliseItem(item).Some?
                        ==> NormaliseItem(item).value.id == f
    ensures forall f :: Get(item, "file_name") == Some(JStr(f)) && f != [] && NormaliseItem(item).Some?
                        ==> NormaliseItem(item).value.name == f
    ensures !TruthyOpt(Get(item, "fid")) && !TruthyOpt(Get(item, "id")) ==> NormaliseItem(item).None?
  {
    FirstTruthySpec(item, ["fid", "id"]);
    FirstTruthySpec(item, ["file_name", "name", "filename"]);
  }

  // ---------------------------------------------------------------------
  // The scan as a function of the state it updates.

  /** What the scan has produced so far: the result list, the listing
      requests issued, and how many questions the operator has answered. */
  datatype ScanState = ScanState(found: seq<Video>, listed: seq<Listing>, asked: nat)

  /** The state after a call, and whether the call threw. */
  datatype ScanOut = ScanOut(st: ScanState, threw: bool)

  /** Remaining recursion budget: the measure `maxDepth + 1 - depth`. */
  function Budget(depth: nat, maxDepth: nat): nat {
    if depth > maxDepth then 0 else maxDepth + 1 - depth
  }

  /** The catch block of a folder: the operator is asked (answer number
      `st.asked`); "skip" swallows the error, "abort" throws anew. */
  function Caught(skip: nat -> bool, st: ScanState): ScanOut {
    ScanOut(st.(asked := st.asked + 1), !skip(st.asked))
  }

  /** The entries of folder `id` that the scan loops over, or `None` when
      the listing request fails or the loop over its payload throws at once. */
  function Entries(remote: Remote, id: string): Option<seq<Json>> {
    var fetch := ListFolder(remote.cookie, remote.server(id));
    if fetch.outcome.Failed? then None else Iterated(Payload(fetch.outcome.data))
  }

  /** recursiveScanForVideos(item, list, depth, maxDepth) */
  function ScanNode(remote: Remote, skip: nat -> bool, item: ItemInfo, depth: nat, maxDepth: nat,
                    st: ScanState): ScanOut
    decreases Budget(depth, maxDepth), 1, 0
  {
    if depth > maxDepth then ScanOut(st, false)
    else if !item.dir then
      if IsVideoName(item.name) then ScanOut(st.(found := st.found + [Video(item.id, item.name)]), false)
      else ScanOut(st, false)
    else
      var st1 := st.(listed := st.listed + [Listing(item.id, depth)]);
      match Entries(remote, item.id)
      case None => Caught(skip, st1)
      case Some(items) =>
        var r := ScanChildren(remote, skip, items, 0, depth, maxDepth, st1);
        if r.threw then Caught(skip, r.st) else r
  }

  /** The loop over a folder's entries from position `i` on: a `null` entry
      throws, an entry without id or name is skipped, a child that throws
      ends the loop. */
  function ScanChildren(remote: Remote, skip: nat -> bool, items: seq<Json>, i: nat, depth: nat,
                        maxDepth: nat, st: ScanState): ScanOut
    requires i <= |items| && depth <= maxDepth
    decreases Budget(depth, maxDepth), 0, |items| - i
  {
    if i == |items| then ScanOut(st, false)
    else if items[i].JNull? then ScanOut(st, true)
    else
      match NormaliseItem(items[i])
      case None => ScanChildren(remote, skip, items, i + 1, depth, maxDepth, st)
      case Some(child) =>
        var r := ScanNode(remote, skip, child, depth + 1, maxDepth, st);
        if r.threw then r else ScanChildren(remote, skip, items, i + 1, depth, maxDepth, r.st)
  }

  /** The scan of the page's items in order, stopping at the first that throws. */
  function ScanRoots(remote: Remote, skip: nat -> bool, roots: seq<ItemInfo>, maxDepth: nat,
                     st: ScanState): ScanOut
    decreases |roots|
  {
    if roots == [] then ScanOut(st, false)
    else
      var r := ScanNode(remote, skip, roots[0], 0, maxDepth, st);
      if r.threw then r else ScanRoots(remote, skip, roots[1..], maxDepth, r.st)
  }

  datatype ScanError = NothingToScan | Aborted
  datatype ScanResult = Videos(videos: seq<Video>) | ScanFailed(error: ScanError)

  /** scanAllVideos, given the page's items and the operator's answer to
      the opening confirmation. */
  function ScanAll(remote: Remote, skip: nat -> bool, roots: seq<ItemInfo>, proceed: bool): ScanResult {
    if roots == [] then ScanFailed(NothingToScan)
    else if !proceed then Videos([])
    else
      var r := ScanRoots(remote, skip, roots, MaxDepth, ScanState([], [], 0));
      if r.threw then ScanFailed(Aborted) else Videos(r.st.found)
  }

  // ---------------------------------------------------------------------
  // The scan as the script runs it: one shared list, updated in place.

  class VideoScan {
    const remote: Remote
    const skip: nat -> bool
    const maxDepth: nat
    var found: seq<Video>
    var listed: seq<Listing>
    var asked: nat

    function State(): ScanState
      reads this
    {
      ScanState(found, listed, asked)
    }

    constructor(remote: Remote, skip: nat -> bool, maxDepth: nat)
      ensures this.remote == remote && this.skip == skip && this.maxDepth == maxDepth
      ensures State() == ScanState([], [], 0)
    {
      this.remote := remote;
      this.skip := skip;
      this.maxDepth := maxDepth;
      found := [];
      listed := [];
      asked := 0;
    }

    /** The catch block: ask, and rethrow unless the answer is "skip". */
    method AskOperator() returns (threw: bool)
      modifies this
      ensures ScanOut(State(), threw) == Caught(skip, old(State()))
    {
      threw := !skip(asked);
      asked := asked + 1;
    }

    /** recursiveScanForVideos(item, found, depth, maxDepth) */
    method Scan(item: ItemInfo, depth: nat) returns (threw: bool)
      modifies this
      decreases Budget(depth, maxDepth)
      ensures ScanOut(State(), threw) == ScanNode(remote, skip, item, depth, maxDepth, old(State()))
    {
      if depth > maxDepth {
        return false;
      }
      if !item.dir {
        if IsVideoName(item.name) {
          found := found + [Video(item.id, item.name)];
        }
        return false;
      }
      listed := listed + [Listing(item.id, depth)];
      var fetch := ListFolder(remote.cookie, remote.server(item.id));
      if fetch.outcome.Failed? {
        threw := AskOperator();
        return;
      }
      var iter := Iterated(Payload(fetch.outcome.data));
      if iter.None? {
        threw := AskOperator();
        return;
      }
      threw := ScanEntries(iter.value, depth);
      if threw {
        threw := AskOperator();
      }
    }

    /** The `for` loop over a folder's entries, inside the folder's `try`. */
    method ScanEntries(items: seq<Json>, depth: nat) returns (threw: bool)
      requires depth <= maxDepth
      modifies this
      decreases Budget(depth, maxDepth), 0
      ensures ScanOut(State(), threw) == ScanChildren(remote, skip, items, 0, depth, maxDepth, old(State()))
    {
      ghost var spec := ScanChildren(remote, skip, items, 0, depth, maxDepth, State());
      var i := 0;
      threw := false;
      while i < |items|
        invariant 0 <= i <= |items|
        invariant spec == ScanChildren(remote, skip, items, i, depth, maxDepth, State())
      {
        if items[i].JNull? {
          return true;
        }
        var child := NormaliseItem(items[i]);
        if child.Some? {
          threw := Scan(child.value, depth + 1);
          if threw {
            return;
          }
        }
        i := i + 1;
      }
    }
  }

  /** scanAllVideos: `proceed` is the operator's answer to the opening
      confirmation. */
  method ScanAllVideos(remote: Remote, skip: nat -> bool, roots: seq<ItemInfo>, proceed: bool)
    returns (r: ScanResult)
    ensures r == ScanAll(remote, skip, roots, proceed)
  {
    if roots == [] {
      return ScanFailed(NothingToScan);
    }
    if !proceed {
      return Videos([]);
    }
    var scan := new VideoScan(remote, skip, MaxDepth);
    var i := 0;
    while i < |roots|
      invariant 0 <= i <= |roots|
      invariant scan.remote == remote && scan.skip == skip && scan.maxDepth == MaxDepth
      invariant ScanRoots(remote, skip, roots, MaxDepth, ScanState([], [], 0))
             == ScanRoots(remote, skip, roots[i..], MaxDepth, scan.State())
    {
      var threw := scan.Scan(roots[i], 0);
      if threw {
        return ScanFailed(Aborted);
      }
      assert roots[i..][1..] == roots[i + 1..];
      i := i + 1;
    }
    return Videos(scan.found);
  }

  // ---------------------------------------------------------------------
  // What the scan guarantees.

  /** `st2` extends `st`: nothing produced before is lost or reordered, every
      new result entry is a video, and every new listing lies at a depth in
      `lo..maxDepth`. */
  ghost predicate Grows(st: ScanState, st2: ScanState, lo: nat, maxDepth: nat) {
    && |st.found| <= |st2.found| && st2.found[..|st.found|] == st.found
    && |st.listed| <= |st2.listed| && st2.listed[..|st.listed|] == st.listed
    && st.asked <= st2.asked
    && (forall k :: |st.found| <= k < |st2.found| ==> IsVideoName(st2.found[k].fileName))
    && (forall k :: |st.listed| <= k < |st2.listed| ==> lo <= st2.listed[k].depth <= maxDepth)
  }

  lemma GrowsTrans(a: ScanState, b: ScanState, c: ScanState, lo: nat, maxDepth: nat)
    requires Grows(a, b, lo, maxDepth) && Grows(b, c, lo, maxDepth)
    ensures Grows(a, c, lo, maxDepth)
  {
    assert c.found[..|a.found|] == c.found[..|b.found|][..|a.found|];
    assert c.listed[..|a.listed|] == c.listed[..|b.listed|][..|a.listed|];
    forall k | |a.found| <= k < |b.found|
      ensures c.found[k] == b.found[k]
    {
      assert c.found[..|b.found|][k] == c.found[k];
    }
    forall k | |a.listed| <= k < |b.listed|
      ensures c.listed[k] == b.listed[k]
    {
      assert c.listed[..|b.listed|][k] == c.listed[k];
    }
  }

  /** The scan only appends: the result list and the request log keep what
      they held, new entries are videos, and listings happen only at depths
      from the starting depth up to `maxDepth`. */
  lemma {:induction false} ScanNodeGrows(remote: Remote, skip: nat -> bool, item: ItemInfo,
                                          depth: nat, maxDepth: nat, st: ScanState)
    decreases Budget(depth, maxDepth), 1, 0
    ensures Grows(st, ScanNode(remote, skip, item, depth, maxDepth, st).st, depth, maxDepth)
  {
    if depth <= maxDepth && item.dir {
      var st1 := st.(listed := st.listed + [Listing(item.id, depth)]);
      assert st1.listed[..|st.listed|] == st.listed;
      assert Grows(st, st1, depth, maxDepth);
      var entries := Entries(remote, item.id);
      if entries.Some? {
        ScanChildrenGrows(remote, skip, entries.value, 0, depth, maxDepth, st1);
        var r := ScanChildren(remote, skip, entries.value, 0, depth, maxDepth, st1);
        GrowsTrans(st, st1, r.st, depth, maxDepth);
      }
    }
  }

  lemma {:induction false} ScanChildrenGrows(remote: Remote, skip: nat -> bool, items: seq<Json>,
                                              i: nat, depth: nat, maxDepth: nat, st: ScanState)
    requires i <= |items| && depth <= maxDepth
    decreases Budget(depth, maxDepth), 0, |items| - i
    ensures Grows(st, ScanChildren(remote, skip, items, i, depth, maxDepth, st).st, depth + 1, maxDepth)
  {
    if i < |items| && !items[i].JNull? {
      match NormaliseItem(items[i])
      case None =>
        ScanChildrenGrows(remote, skip, items, i + 1, depth, maxDepth, st);
      case Some(child) =>
        ScanNodeGrows(remote, skip, child, depth + 1, maxDepth, st);
        var r := ScanNode(remote, skip, child, depth + 1, maxDepth, st);
        if !r.threw {
          ScanChildrenGrows(remote, skip, items, i + 1, depth, maxDepth, r.st);
          var r2 := ScanChildren(remote, skip, items, i + 1, depth, maxDepth, r.st);
          GrowsTrans(st, r.st, r2.st, depth + 1, maxDepth);
        }
    }
  }

  /** `child` is an entry of folder `id` as the scan reads its listing. */
  ghost predicate ChildOf(remote: Remote, id: string, child: ItemInfo) {
    var entries := Entries(remote, id);
    entries.Some? && exists j :: 0 <= j < |entries.value| && NormaliseItem(entries.value[j]) == Some(child)
  }

  /** `v` is a video file at the end of a chain of folders that starts at
      `item` (at `depth`), goes from each folder to one of its entries, and
      never goes below `maxDepth`. */
  ghost predicate Reaches(remote: Remote, item: ItemInfo, depth: nat, maxDepth: nat, v: Video)
    decreases Budget(depth, maxDepth)
  {
    && depth <= maxDepth
    && if !item.dir then IsVideoName(item.name) && v == Video(item.id, item.name)
       else exists child :: ChildOf(remote, item.id, child) && Reaches(remote, child, depth + 1, maxDepth, v)
  }

  /** Some entry of `items` from position `i` on reaches `v`. */
  ghost predicate EntryReaches(remote: Remote, items: seq<Json>, i: nat, depth: nat, maxDepth: nat, v: Video) {
    exists j :: i <= j < |items| && NormaliseItem(items[j]).Some?
      && Reaches(remote, NormaliseItem(items[j]).value, depth + 1, maxDepth, v)
  }

  lemma EntryReachesWiden(remote: Remote, items: seq<Json>, i: nat, depth: nat, maxDepth: nat, v: Video)
    requires EntryReaches(remote, items, i + 1, depth, maxDepth, v)
    ensures EntryReaches(remote, items, i, depth, maxDepth, v)
  {
    var j :| i + 1 <= j < |items| && NormaliseItem(items[j]).Some?
      && Reaches(remote, NormaliseItem(items[j]).value, depth + 1, maxDepth, v);
  }

  /** A folder reaches what any entry of its listing reaches. */
  lemma ReachesThroughEntry(remote: Remote, item: ItemInfo, depth: nat, maxDepth: nat, items: seq<Json>,
                            v: Video)
    requires depth <= maxDepth && item.dir
    requires Entries(remote, item.id) == Some(items)
    requires EntryReaches(remote, items, 0, depth, maxDepth, v)
    ensures Reaches(remote, item, depth, maxDepth, v)
  {
    var j :| 0 <= j < |items| && NormaliseItem(items[j]).Some?
      && Reaches(remote, NormaliseItem(items[j]).value, depth + 1, maxDepth, v);
    var child := NormaliseItem(items[j]).value;
    assert NormaliseItem(Entries(remote, item.id).value[j]) == Some(child);
    assert ChildOf(remote, item.id, child);
    assert Reaches(remote, child, depth + 1, maxDepth, v);
  }

  /** Every entry the scan appends is a video file reachable from the item
      scanned: its `fid` and `file_name` are that file's id and name. */
  lemma {:induction false} ScanNodeSound(remote: Remote, skip: nat -> bool, item: ItemInfo,
                                          depth: nat, maxDepth: nat, st: ScanState)
    decreases Budget(depth, maxDepth), 1, 0
    ensures forall k :: |st.found| <= k < |ScanNode(remote, skip, item, depth, maxDepth, st).st.found| ==>
      Reaches(remote, item, depth, maxDepth, ScanNode(remote, skip, item, depth, maxDepth, st).st.found[k])
  {
    if depth <= maxDepth && item.dir {
      var st1 := st.(listed := st.listed + [Listing(item.id, depth)]);
      var entries := Entries(remote, item.id);
      if entries.Some? {
        var items := entries.value;
        ScanChildrenSound(remote, skip, items, 0, depth, maxDepth, st1);
        var rc := ScanChildren(remote, skip, items, 0, depth, maxDepth, st1);
        forall k | |st1.found| <= k < |rc.st.found|
          ensures Reaches(remote, item, depth, maxDepth, rc.st.found[k])
        {
          ReachesThroughEntry(remote, item, depth, maxDepth, items, rc.st.found[k]);
        }
      }
    }
  }

  lemma {:induction false} ScanChildrenSound(remote: Remote, skip: nat -> bool, items: seq<Json>,
                                              i: nat, depth: nat, maxDepth: nat, st: ScanState)
    requires i <= |items| && depth <= maxDepth
    decreases Budget(depth, maxDepth), 0, |items| - i
    ensures forall k :: |st.found| <= k < |ScanChildren(remote, skip, items, i, depth, maxDepth, st).st.found| ==>
      EntryReaches(remote, items, i, depth, maxDepth, ScanChildren(remote, skip, items, i, depth, maxDepth, st).st.found[k])
  {
    var out := ScanChildren(remote, skip, items, i, depth, maxDepth, st);
    if i < |items| && !items[i].JNull? {
      match NormaliseItem(items[i])
      case None =>
        ScanChildrenSound(remote, skip, items, i + 1, depth, maxDepth, st);
        assert out == ScanChildren(remote, skip, items, i + 1, depth, maxDepth, st);
        forall k | |st.found| <= k < |out.st.found|
          ensures EntryReaches(remote, items, i, depth, maxDepth, out.st.found[k])
        {
          EntryReachesWiden(remote, items, i, depth, maxDepth, out.st.found[k]);
        }
      case Some(child) =>
        ScanNodeSound(remote, skip, child, depth + 1, maxDepth, st);
        var r := ScanNode(remote, skip, child, depth + 1, maxDepth, st);
        if !r.threw {
          ScanChildrenSound(remote, skip, items, i + 1, depth, maxDepth, r.st);
          ScanChildrenGrows(remote, skip, items, i + 1, depth, maxDepth, r.st);
          assert out == ScanChildren(remote, skip, items, i + 1, depth, maxDepth, r.st);
          forall k | |st.found| <= k < |out.st.found|
            ensures EntryReaches(remote, items, i, depth, maxDepth, out.st.found[k])
          {
            if k < |r.st.found| {
              assert out.st.found[..|r.st.found|][k] == out.st.found[k];
              assert Reaches(remote, child, depth + 1, maxDepth, out.st.found[k]);
            } else {
              EntryReachesWiden(remote, items, i, depth, maxDepth, out.st.found[k]);
            }
          }
        }
    }
  }

  lemma AppendAssoc(a: seq<Video>, b: seq<Video>, c: seq<Video>)
    ensures a + b + c == a + (b + c)
  {
  }

  /** Reference pre-order: the videos under `item` in the order a
      depth-first walk meets them, or `None` when some folder on the way
      cannot be listed or its loop throws. */
  function Leaves(remote: Remote, item: ItemInfo, depth: nat, maxDepth: nat): Option<seq<Video>>
    decreases Budget(depth, maxDepth), 1, 0
  {
    if depth > maxDepth then Some([])
    else if !item.dir then Some(if IsVideoName(item.name) then [Video(item.id, item.name)] else [])
    else
      match Entries(remote, item.id)
      case None => None
      case Some(items) => LeavesOf(remote, items, 0, depth, maxDepth)
  }

  /** The videos under the entries `items[i..]`, concatenated in order. */
  function LeavesOf(remote: Remote, items: seq<Json>, i: nat, depth: nat, maxDepth: nat): Option<seq<Video>>
    requires i <= |items| && depth <= maxDepth
    decreases Budget(depth, maxDepth), 0, |items| - i
  {
    if i == |items| then Some([])
    else if items[i].JNull? then None
    else
      match NormaliseItem(items[i])
      case None => LeavesOf(remote, items, i + 1, depth, maxDepth)
      case Some(child) =>
        var here := Leaves(remote, child, depth + 1, maxDepth);
        var rest := LeavesOf(remote, items, i + 1, depth, maxDepth);
        if here.Some? && rest.Some? then Some(here.value + rest.value) else None
  }

  /** When nothing fails, the scan appends exactly the pre-order sequence
      of video files, asks the operator nothing and returns normally. */
  lemma {:induction false} ScanNodePreorder(remote: Remote, skip: nat -> bool, item: ItemInfo,
                                             depth: nat, maxDepth: nat, st: ScanState)
    requires Leaves(remote, item, depth, maxDepth).Some?
    decreases Budget(depth, maxDepth), 1, 0
    ensures !ScanNode(remote, skip, item, depth, maxDepth, st).threw
    ensures ScanNode(remote, skip, item, depth, maxDepth, st).st.found
         == st.found + Leaves(remote, item, depth, maxDepth).value
    ensures ScanNode(remote, skip, item, depth, maxDepth, st).st.asked == st.asked
  {
    if depth <= maxDepth && item.dir {
      var st1 := st.(listed := st.listed + [Listing(item.id, depth)]);
      ScanChildrenPreorder(remote, skip, Entries(remote, item.id).value, 0, depth, maxDepth, st1);
    }
  }

  /** One step of the loop specification at an entry that is not `null`. */
  lemma ScanChildrenUnfold(remote: Remote, skip: nat -> bool, items: seq<Json>, i: nat, depth: nat,
                           maxDepth: nat, st: ScanState)
    requires i < |items| && depth <= maxDepth && !items[i].JNull?
    ensures NormaliseItem(items[i]).None? ==>
      ScanChildren(remote, skip, items, i, depth, maxDepth, st)
        == ScanChildren(remote, skip, items, i + 1, depth, maxDepth, st)
    ensures NormaliseItem(items[i]).Some? ==>
      var r := ScanNode(remote, skip, NormaliseItem(items[i]).value, depth + 1, maxDepth, st);
      ScanChildren(remote, skip, items, i, depth, maxDepth, st)
        == if r.threw then r else ScanChildren(remote, skip, items, i + 1, depth, maxDepth, r.st)
  {
  }

  /** One step of the reference pre-order: entry `i` is not `null`, and its
      leaves come before those of the entries after it. */
  lemma LeavesOfUnfold(remote: Remote, items: seq<Json>, i: nat, depth: nat, maxDepth: nat)
    requires i < |items| && depth <= maxDepth
    requires LeavesOf(remote, items, i, depth, maxDepth).Some?
    ensures !items[i].JNull?
    ensures LeavesOf(remote, items, i + 1, depth, maxDepth).Some?
    ensures NormaliseItem(items[i]).None? ==>
      LeavesOf(remote, items, i, depth, maxDepth) == LeavesOf(remote, items, i + 1, depth, maxDepth)
    ensures NormaliseItem(items[i]).Some? ==>
      && Leaves(remote, NormaliseItem(items[i]).value, depth + 1, maxDepth).Some?
      && LeavesOf(remote, items, i, depth, maxDepth).value
         == Leaves(remote, NormaliseItem(items[i]).value, depth + 1, maxDepth).value
            + LeavesOf(remote, items, i + 1, depth, maxDepth).value
  {
  }

  lemma {:induction false} ScanChildrenPreorder(remote: Remote, skip: nat -> bool, items: seq<Json>,
                                                 i: nat, depth: nat, maxDepth: nat, st: ScanState)
    requires i <= |items| && depth <= maxDepth
    requires LeavesOf(remote, items, i, depth, maxDepth).Some?
    decreases Budget(depth, maxDepth), 0, |items| - i
    ensures !ScanChildren(remote, skip, items, i, depth, maxDepth, st).threw
    ensures ScanChildren(remote, skip, items, i, depth, maxDepth, st).st.found
         == st.found + LeavesOf(remote, items, i, depth, maxDepth).value
    ensures ScanChildren(remote, skip, items, i, depth, maxDepth, st).st.asked == st.asked
  {
    if i < |items| {
      LeavesOfUnfold(remote, items, i, depth, maxDepth);
      ScanChildrenUnfold(remote, skip, items, i, depth, maxDepth, st);
      match NormaliseItem(items[i])
      case None =>
        ScanChildrenPreorder(remote, skip, items, i + 1, depth, maxDepth, st);
      case Some(child) =>
        ScanNodePreorder(remote, skip, child, depth + 1, maxDepth, st);
        var r := ScanNode(remote, skip, child, depth + 1, maxDepth, st);
        ScanChildrenPreorder(remote, skip, items, i + 1, depth, maxDepth, r.st);
        var here := Leaves(remote, child, depth + 1, maxDepth).value;
        var rest := LeavesOf(remote, items, i + 1, depth, maxDepth).value;
        AppendAssoc(st.found, here, rest);
    }
  }

  /** With an operator who always answers "abort", a scan returns normally
      exactly when it asked no question, that is when no listing on its way
      failed: the abort travels up through every enclosing folder. */
  lemma {:induction false} AbortingOperatorNode(remote: Remote, skip: nat -> bool, item: ItemInfo,
                                                 depth: nat, maxDepth: nat, st: ScanState)
    requires forall n :: !skip(n)
    decreases Budget(depth, maxDepth), 1, 0
    ensures ScanNode(remote, skip, item, depth, maxDepth, st).threw
        <==> ScanNode(remote, skip, item, depth, maxDepth, st).st.asked > st.asked
  {
    if depth <= maxDepth && item.dir {
      var st1 := st.(listed := st.listed + [Listing(item.id, depth)]);
      var entries := Entries(remote, item.id);
      if entries.Some? {
        AbortingOperatorChildren(remote, skip, entries.value, 0, depth, maxDepth, st1);
        ScanChildrenGrows(remote, skip, entries.value, 0, depth, maxDepth, st1);
      }
    }
  }

  lemma {:induction false} AbortingOperatorChildren(remote: Remote, skip: nat -> bool, items: seq<Json>,
                                                     i: nat, depth: nat, maxDepth: nat, st: ScanState)
    requires forall n :: !skip(n)
    requires i <= |items| && depth <= maxDepth
    decreases Budget(depth, maxDepth), 0, |items| - i
    ensures !ScanChildren(remote, skip, items, i, depth, maxDepth, st).threw ==>
      ScanChildren(remote, skip, items, i, depth, maxDepth, st).st.asked == st.asked
  {
    if i < |items| && !items[i].JNull? {
      match NormaliseItem(items[i])
      case None =>
        AbortingOperatorChildren(remote, skip, items, i + 1, depth, maxDepth, st);
        assert ScanChildren(remote, skip, items, i, depth, maxDepth, st)
            == ScanChildren(remote, skip, items, i + 1, depth, maxDepth, st);
      case Some(child) =>
        AbortingOperatorNode(remote, skip, child, depth + 1, maxDepth, st);
        ScanNodeGrows(remote, skip, child, depth + 1, maxDepth, st);
        var r := ScanNode(remote, skip, child, depth + 1, maxDepth, st);
        if !r.threw {
          AbortingOperatorChildren(remote, skip, items, i + 1, depth, maxDepth, r.st);
          assert ScanChildren(remote, skip, items, i, depth, maxDepth, st)
              == ScanChildren(remote, skip, items, i + 1, depth, maxDepth, r.st);
        }
    }
  }

  /** `v` is reachable from one of the page's items. */
  ghost predicate FromRoots(remote: Remote, roots: seq<ItemInfo>, maxDepth: nat, v: Video) {
    exists root :: root in roots && Reaches(remote, root, 0, maxDepth, v)
  }

  /** Every video of a whole scan is reachable from one of the page's
      items, and the list only grows from root to root. */
  lemma {:induction false} ScanRootsSound(remote: Remote, skip: nat -> bool, roots: seq<ItemInfo>,
                                           maxDepth: nat, st: ScanState)
    decreases |roots|
    ensures |st.found| <= |ScanRoots(remote, skip, roots, maxDepth, st).st.found|
    ensures ScanRoots(remote, skip, roots, maxDepth, st).st.found[..|st.found|] == st.found
    ensures forall k :: |st.found| <= k < |ScanRoots(remote, skip, roots, maxDepth, st).st.found| ==>
      FromRoots(remote, roots, maxDepth, ScanRoots(remote, skip, roots, maxDepth, st).st.found[k])
  {
    if roots != [] {
      var r := ScanNode(remote, skip, roots[0], 0, maxDepth, st);
      ScanNodeGrows(remote, skip, roots[0], 0, maxDepth, st);
      ScanNodeSound(remote, skip, roots[0], 0, maxDepth, st);
      if !r.threw {
        ScanRootsSound(remote, skip, roots[1..], maxDepth, r.st);
        var out := ScanRoots(remote, skip, roots[1..], maxDepth, r.st);
        assert out.st.found[..|st.found|] == out.st.found[..|r.st.found|][..|st.found|];
        forall k | |st.found| <= k < |out.st.found|
          ensures FromRoots(remote, roots, maxDepth, out.st.found[k])
        {
          if k < |r.st.found| {
            assert out.st.found[..|r.st.found|][k] == out.st.found[k];
            assert Reaches(remote, roots[0], 0, maxDepth, out.st.found[k]);
          } else {
            assert FromRoots(remote, roots[1..], maxDepth, out.st.found[k]);
            var root :| root in roots[1..] && Reaches(remote, root, 0, maxDepth, out.st.found[k]);
            assert root in roots;
          }
        }
      }
    }
  }

  /** Every file scanAllVideos returns is a video reachable from one of the
      page's items through folders no deeper than `MaxDepth`. */
  lemma ScanAllSound(remote: Remote, skip: nat -> bool, roots: seq<ItemInfo>, proceed: bool)
    ensures ScanAll(remote, skip, roots, proceed).Videos? ==>
      forall k :: 0 <= k < |ScanAll(remote, skip, roots, proceed).videos| ==>
        FromRoots(remote, roots, MaxDepth, ScanAll(remote, skip, roots, proceed).videos[k])
  {
    if roots != [] && proceed {
      ScanRootsSound(remote, skip, roots, MaxDepth, ScanState([], [], 0));
      var r := ScanRoots(remote, skip, roots, MaxDepth, ScanState([], [], 0));
      if !r.threw {
        assert ScanAll(remote, skip, roots, proceed).videos == r.st.found;
      }
    }
  }

  /** With an operator who always answers "skip", no scan ever throws. */
  lemma {:induction false} SkippingOperatorRoots(remote: Remote, skip: nat -> bool, roots: seq<ItemInfo>,
                                                  maxDepth: nat, st: ScanState)
    requires forall n :: skip(n)
    decreases |roots|
    ensures !ScanRoots(remote, skip, roots, maxDepth, st).threw
  {
    if roots != [] {
      var r := ScanNode(remote, skip, roots[0], 0, maxDepth, st);
      SkippingOperatorRoots(remote, skip, roots[1..], maxDepth, r.st);
    }
  }

  /** The whole scan fails only for an empty page or an "abort" answer: an
      operator who always skips gets a list, whatever fails on the way. */
  lemma ScanAllSkipping(remote: Remote, skip: nat -> bool, roots: seq<ItemInfo>, proceed: bool)
    requires forall n :: skip(n)
    ensures ScanAll(remote, skip, roots, proceed).ScanFailed? <==> roots == []
  {
    SkippingOperatorRoots(remote, skip, roots, MaxDepth, ScanState([], [], 0));
  }

  /** The pre-order sequence over the page's items, in page order. */
  function RootLeaves(remote: Remote, roots: seq<ItemInfo>, maxDepth: nat): Option<seq<Video>>
    decreases |roots|
  {
    if roots == [] then Some([])
    else
      var here := Leaves(remote, roots[0], 0, maxDepth);
      var rest := RootLeaves(remote, roots[1..], maxDepth);
      if here.Some? && rest.Some? then Some(here.value + rest.value) else None
  }

  lemma {:induction false} ScanRootsPreorder(remote: Remote, skip: nat -> bool, roots: seq<ItemInfo>,
                                              maxDepth: nat, st: ScanState)
    requires RootLeaves(remote, roots, maxDepth).Some?
    decreases |roots|
    ensures !ScanRoots(remote, skip, roots, maxDepth, st).threw
    ensures ScanRoots(remote, skip, roots, maxDepth, st).st.found
         == st.found + RootLeaves(remote, roots, maxDepth).value
  {
    if roots != [] {
      ScanNodePreorder(remote, skip, roots[0], 0, maxDepth, st);
      var r := ScanNode(remote, skip, roots[0], 0, maxDepth, st);
      ScanRootsPreorder(remote, skip, roots[1..], maxDepth, r.st);
      var here := Leaves(remote, roots[0], 0, maxDepth).value;
      var rest := RootLeaves(remote, roots[1..], maxDepth).value;
      assert RootLeaves(remote, roots, maxDepth).value == here + rest;
      assert ScanRoots(remote, skip, roots, maxDepth, st) == ScanRoots(remote, skip, roots[1..], maxDepth, r.st);
      AppendAssoc(st.found, here, rest);
    }
  }

  /** When every listing succeeds, scanAllVideos returns the video files
      of the page's items in pre-order, the items taken in page order. */
  lemma ScanAllPreorder(remote: Remote, skip: nat -> bool, roots: seq<ItemInfo>, proceed: bool)
    requires roots != [] && proceed && RootLeaves(remote, roots, MaxDepth).Some?
    ensures ScanAll(remote, skip, roots, proceed) == Videos(RootLeaves(remote, roots, MaxDepth).value)
  {
    ScanRootsPreorder(remote, skip, roots, MaxDepth, ScanState([], [], 0));
  }
}
