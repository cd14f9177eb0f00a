# kuake-rename, modelled in Dafny

`kuake-rename.js` is a userscript for the Quark cloud drive web app. It
renames every video under the folders the user has open to `<n>-<clean name>`
and can then move the renamed files into the current folder. This project
models the script's logic with the browser, the network and the operator
taken out and supplied as inputs:

- **Names and media test** (`naming.dfy`, module `Naming`). `generateStandardFileName`
  strips one leading `<digits>[-.]` ordinal and one `第N课/讲/节` lesson marker,
  then prepends the new ordinal. The video test checks the suffix after the last
  dot against the 21 known extensions, ignoring case.
- **Listing requests** (`transport.dfy`, module `Transport`). `sendApiRequest`
  needs a `ctoken=` cookie. It accepts an answer by the rule the script uses and
  retries three times, with pauses that grow by half. The rename and move
  requests are reduced to their success test. Each attempt's reply comes from
  an oracle.
- **Recursive scan** (`scanner.dfy`, module `Scanner`). `recursiveScanForVideos`
  and `scanAllVideos` run as a class that appends to one shared list. They are
  proved equal to a recursive specification. That specification is shown to be
  depth-bounded and append-only, to keep only video files found in the tree, to
  produce the pre-order sequence of video leaves when every listing succeeds,
  and to follow the operator's skip-or-abort answers.
- **Id extractors** (`extractors.dfy`, module `Extractors`). It models
  `extractIdFromPath` and `findDirIdInObject`. Each regular expression the
  resolver uses becomes an anchored matcher plus a leftmost search.
  `URLSearchParams.get` is written out by hand.
- **Directory resolver** (`resolver.dfy`, module `Resolver`). This is
  `getCurrentDirectoryId`: seven strategies tried in order, behind a one-slot
  cache that is trusted for 30 000 ms. The request interceptors write the
  cache; a change of address clears it. The cache is a class whose methods are
  proved against pure step functions.
- **Orchestration** (`orchestrator.dfy`, module `Orchestrator`). It covers the
  rename plan and `executeRenameAndMove`: detection with three attempts, the
  manual fallback, per-item renames and one all-or-nothing batch move. It also
  covers `executeRename`.
- **Shared helpers.** `text.dfy` (module `Text`) holds character classes,
  splitting, trimming and decimal rendering. `json.dfy` (module `Json`) holds
  JSON values and JavaScript truthiness.

## Model

| member | source | states |
|---|---|---|
| Naming.OrdinalPrefixLenIsLongestMatch | kuake-rename.js:944 | the replacement removes exactly the longest leading `\d+[-.]\s*`, and nothing when no prefix matches |
| Naming.LessonPrefixLenIsLongestMatch | kuake-rename.js:945 | the replacement removes exactly the longest leading `第\d+[课讲节][-.\s]*`, and nothing when no prefix matches |
| Naming.OrdinalMatchCovered | kuake-rename.js:944 | every prefix matching the ordinal pattern lies within what is removed |
| Naming.LessonMatchCovered | kuake-rename.js:945 | every prefix matching the lesson pattern lies within what is removed |
| Naming.GeneratedNameShape | kuake-rename.js:941-948 | the new name is the decimal index, a dash, and an unaltered suffix of the old name |
| Naming.GeneratedNameVerbatim | kuake-rename.js:941-948 | a name with neither prefix is kept verbatim after `<index>-` |
| Naming.LeadingOrdinalOfGenerated | kuake-rename.js:947 | the index can be read back from the front of the generated name |
| Naming.GeneratedNamesDistinct | kuake-rename.js:941-948 | different indices always give different names, whatever the old names |
| Naming.ReapplyReplacesOrdinal | kuake-rename.js:941-948 | renaming a renamed file with index j gives what the original name gives with j, unless the cleaned name starts with whitespace or another lesson marker |
| Naming.IsVideoNameIff | kuake-rename.js:24-28 | a name is a video iff it has a dot, and the text after the last dot is 1 to 4 ASCII letters or digits whose lower-case form is one of the 21 extensions |
| Naming.IsVideoNameIgnoresCase | kuake-rename.js:768-779 | lower-casing the name does not change the test (`clip.MKV` counts) |
| Naming.VideoSuffixIgnoresCase | kuake-rename.js:774-775 | the suffix test gives the same answer on a suffix and on its lower-case form |
| Naming.VideoNameByLastDot | kuake-rename.js:768-779 | a name whose last dot is at a given position is a video iff the text after that dot is a video suffix |
| Naming.VideoNameOfParts | kuake-rename.js:768-779 | `<stem>.<suffix>` with a dot-free suffix is a video iff the suffix is one, whatever the stem |
| Naming.OtherSuffixesNotListed | kuake-rename.js:24-28 | `txt`, `srt`, `jpg` and `pdf` are not among the listed extensions |
| Naming.SampleSuffixes | kuake-rename.js:768-787 | any `<stem>.mp4` and `<stem>.MKV` is a video and no `<stem>.txt` is, so `video.mp4`, `clip.MKV` and `ep1.mp4` are kept and `notes.txt` is not |
| Naming.SampleNewNames | kuake-rename.js:941-948 | numbered 1 to 3, `video.mp4`, `clip.MKV` and `ep1.mp4` become `1-video.mp4`, `2-clip.MKV` and `3-ep1.mp4`: the extension keeps its case |
| Naming.PlainNameKept | kuake-rename.js:941-948 | a name that starts with neither a digit nor `第` is kept whole after `<index>-` |
| Naming.LessonMarkerLen | kuake-rename.js:945 | the lesson replacement removes exactly `第<n><课/讲/节>` and one following space when no other separator follows |
| Naming.LessonMarkerReplaced | kuake-rename.js:941-948 | `第<n>课 <rest>` is renamed to `<index>-<rest>` |
| Transport.AttemptOutcome | kuake-rename.js:647-665 | an attempt succeeds iff it gets HTTP 200 and a JSON object with `code === 0`, `status === 200` or an array at `data.list`; the data is then the parsed body |
| Transport.Backoff | kuake-rename.js:669-672 | the pauses before the retries start at the first delay and each is 1.5 times the one before; there is one pause per retry |
| Transport.SendApiRequestShape | kuake-rename.js:617-676 | with a credential: between 1 and retries+1 attempts with back-off pauses between them; every earlier attempt failed; a success carries the last attempt's data; a failure carries the error of the last allowed attempt |
| Transport.ListFolderPolicy | kuake-rename.js:617-676 | no `ctoken=` gives a failure with no attempt; otherwise at most 4 attempts with pauses of 1500, 2250 and 3375 ms; the listing succeeds iff one of the four attempts is accepted, and then with the first accepted answer |
| Transport.BackoffPrefix | kuake-rename.js:669-672 | the pauses of a request cut short by an early success are the first pauses of the full back-off |
| Transport.WriteAcceptedSpec | kuake-rename.js:695-701 | a rename or move answer is judged by its body alone, never by its HTTP status; every accepted write answer would also pass the listing test, but `code === 0` without `status === 200` does not pass |
| Scanner.PayloadSpec | kuake-rename.js:805-812 | the entries are a truthy `data.list` whatever its kind, else a truthy `list`, else `data` when it is an array, else none; the result is always an array or truthy, and an array at `data.list` always wins |
| Scanner.IteratedString | kuake-rename.js:816-834 | a string payload yields one-character entries, all of which are skipped |
| Scanner.FirstTruthySpec | kuake-rename.js:823-824 | `a \|\| b \|\| …` yields the first truthy field, and nothing when none is truthy |
| Scanner.NormaliseItemSpec | kuake-rename.js:822-834 | an entry is kept iff its id and name are non-empty strings; `fid` beats `id`, `file_name` beats the others; it is a folder iff `dir === true \|\| dir === 1 \|\| file_type === 0`; an entry with no id is skipped |
| Scanner.VideoScan.AskOperator | kuake-rename.js:839-843 | the catch block asks one more question and rethrows iff the answer is "abort" |
| Scanner.VideoScan.Scan | kuake-rename.js:758-844 | the in-place scan of one item leaves exactly the state and throw flag of the recursive specification |
| Scanner.VideoScan.ScanEntries | kuake-rename.js:821-838 | the loop over a folder's entries matches the specification's loop; a `null` entry throws and a throwing child stops the loop |
| Scanner.ScanAllVideos | kuake-rename.js:951-987 | scanAllVideos equals its specification: no items is an error, a declined confirmation gives no videos, and an abort at a root fails the whole scan |
| Scanner.ScanNodeGrows | kuake-rename.js:762-837 | a scan only appends: earlier results and listings are kept in order; every new result is a video name; every listing is at a depth between the call's depth and maxDepth |
| Scanner.ScanChildrenGrows | kuake-rename.js:821-838 | the loop over entries only appends, and its listings lie one level deeper or more, up to maxDepth |
| Scanner.ScanNodeSound | kuake-rename.js:768-837 | every appended video is a file reachable from the item through successful listings within the depth bound, carrying that file's id and name |
| Scanner.ScanChildrenSound | kuake-rename.js:821-838 | every video appended by the loop is reachable through one of the remaining entries |
| Scanner.ScanNodePreorder | kuake-rename.js:758-844 | when every listing below the item succeeds, the scan appends exactly the pre-order sequence of its video leaves, asks nothing and does not throw |
| Scanner.ScanChildrenPreorder | kuake-rename.js:821-838 | the loop appends the concatenated pre-order leaves of the remaining entries in listing order |
| Scanner.AbortingOperatorNode | kuake-rename.js:839-843 | if the operator always aborts, a scan throws iff it asked a question |
| Scanner.AbortingOperatorChildren | kuake-rename.js:821-843 | if the operator always aborts, the loop completes only when nothing was asked |
| Scanner.ScanRootsSound | kuake-rename.js:969-977 | scanning the roots keeps earlier results, and each new result is a video reachable from some root |
| Scanner.ScanAllSound | kuake-rename.js:951-987 | every video returned by scanAllVideos is reachable from one of the page's items |
| Scanner.SkippingOperatorRoots | kuake-rename.js:839-843 | if the operator always skips, scanning the roots never throws |
| Scanner.ScanAllSkipping | kuake-rename.js:951-987 | if the operator always skips, the scan fails iff the page offers no items |
| Scanner.ScanRootsPreorder | kuake-rename.js:969-977 | with all listings successful, the roots contribute their pre-order video leaves in page order |
| Scanner.ScanAllPreorder | kuake-rename.js:951-987 | with all listings successful and the scan confirmed, the result is exactly the pre-order sequence of video leaves under the page's items |
| Extractors.ExtractIdFromPath | kuake-rename.js:575-614 | any id found is at least 20 characters of `[A-Za-z0-9_-]`; when decoding does not change the input, the id is a prefix of it |
| Extractors.ExtractDashSeparated | kuake-rename.js:582-587 | `<20 or more alphanumerics>-<name>` yields the alphanumeric id |
| Extractors.ExtractPlainId | kuake-rename.js:589-593 | a dash-free string of at least 20 id characters is returned whole |
| Extractors.FieldHitSpec | kuake-rename.js:398-403 | the six id fields are tried in order; the first string other than "0" longer than five wins; nothing is found iff none qualifies |
| Extractors.FindDirIdInObject | kuake-rename.js:393-417 | a found id is longer than five and not "0"; a bound only, and FieldsBeforeChildren states which id wins |
| Extractors.FindInChildren | kuake-rename.js:406-411 | the loop over own keys returns only ids longer than five and not "0"; a bound only, and FirstChildWins and NoChildYields state which child answers |
| Extractors.FieldsBeforeChildren | kuake-rename.js:393-417 | within depth 3, an object or array with an acceptable id field answers with the first one, whatever its children hold; beyond depth 3, and for anything that is not an object or array, nothing is found |
| Extractors.FirstChildWins | kuake-rename.js:406-411 | the loop answers with the search of the first child, in key order, whose search succeeds; every earlier child yields nothing |
| Extractors.NoChildYields | kuake-rename.js:406-411 | the loop finds nothing iff no remaining child yields an id |
| Extractors.FindDirIdSound | kuake-rename.js:393-417 | a found id is held by an id field at most 3 − depth levels below the object, so nothing deeper than depth 3 is inspected |
| Extractors.FindInChildrenSound | kuake-rename.js:406-411 | an id found by the loop is held within the remaining children's reach |
| Extractors.FindDirIdComplete | kuake-rename.js:393-417 | conversely, when no object in reach has an own `hasOwnProperty` member, an acceptable id field within depth 3 is always found |
| Extractors.FindInChildrenComplete | kuake-rename.js:406-411 | the loop finds an id when one of the remaining children holds one |
| Extractors.PrefixedIdAt | kuake-rename.js:522-524 | a `/list/`, `/folder/` or `/dir/` match captures at least 10 id characters that follow the prefix; a bound only, and PrefixedIdAtSpec states when it answers and with what |
| Extractors.PrefixedIdAtSpec | kuake-rename.js:522-524 | the matcher succeeds iff `<prefix>` is followed by at least `min` id characters, and then captures the longest such run, greedily as `{10,}` does |
| Extractors.SlashedIdAt | kuake-rename.js:525 | a match captures at least 20 id characters between two slashes; a bound only, and SlashedIdAtSpec states when it answers and with what |
| Extractors.SlashedIdAtSpec | kuake-rename.js:525 | the matcher succeeds iff `/<20 or more id characters>/` starts here; the match is then unique and is the capture |
| Extractors.HashRouteAt | kuake-rename.js:488 | a match captures the non-empty rest of the line after `#/list/all/`; a bound only, and HashRouteAtSpec states when it answers and with what |
| Extractors.HashRouteAtSpec | kuake-rename.js:488 | the matcher succeeds iff `#/list/all/` is followed by at least one character other than a line break, and then captures the longest such run |
| Extractors.ScriptPdirAt | kuake-rename.js:358 | a match captures a non-empty run without quotes; a bound only, and ScriptPdirAtSpec states when it answers and with what |
| Extractors.ScriptPdirAtSpec | kuake-rename.js:358 | the matcher succeeds iff `["']pdir_fid["']\s*:\s*["']([^"']+)["']` matches here, and every such match has the capture it returns |
| Extractors.ColonValueAtSpec | kuake-rename.js:358 | `\s*:\s*["']([^"']+)["']` matches iff the stage succeeds, and then with its capture |
| Extractors.QuotedValueAtSpec | kuake-rename.js:358 | `\s*["']([^"']+)["']` matches iff the stage succeeds, and then with its capture |
| Extractors.QuoteRunAtSpec | kuake-rename.js:358 | `([^"']+)["']` matches iff the stage succeeds, and then with its capture |
| Extractors.LinkIdAt | kuake-rename.js:550 | a match captures a non-empty value without `&`; a bound only, and LinkIdAtSpec states when it answers and with what |
| Extractors.LinkIdAtSpec | kuake-rename.js:550 | the matcher succeeds iff `?` or `&`, then `pdir_fid=` or `fid=`, then a non-empty run without `&` starts here, and then captures the longest such run |
| Extractors.WordRunAt | kuake-rename.js:561 | a match captures at least 20 word characters at the start; a bound only, and WordRunAtSpec states when it answers and with what |
| Extractors.WordRunAtSpec | kuake-rename.js:561 | the matcher succeeds iff at least 20 word characters start here, and then captures the longest such run |
| Extractors.Leftmost | kuake-rename.js:488 | a regular-expression search returns the match at the leftmost position where one exists, and nothing when there is none |
| Extractors.WordRunIsWholeRun | kuake-rename.js:561 | the title match is a whole run of word characters: none precedes or follows it |
| Extractors.ParamGetSingle | kuake-rename.js:471-474 | `key=value` reads back as `value` |
| Extractors.UrlQuery | kuake-rename.js:310-311 | the query of a URL never includes its fragment |
| Extractors.HashQueryIff | kuake-rename.js:510 | the hash has a query part iff it contains `?` |
| Resolver.QueryId | kuake-rename.js:471-480 | the query-string strategy yields an id iff the `pdir_fid` parameter is present, not "0" and longer than five, and then yields that parameter |
| Resolver.HashRouteId | kuake-rename.js:487-507 | the hash-route strategy yields at least 20 id characters; a bound only, and HashRouteIdSpec states when it answers and with what |
| Resolver.HashRouteIdSpec | kuake-rename.js:487-507 | no `#/list/all/` route gives nothing; otherwise the answer is what extractIdFromPath reads from the last `/` segment of the leftmost route, so the strategy's own "0" and length test never rejects it |
| Resolver.HashQueryId | kuake-rename.js:509-517 | the hash-parameter strategy yields a value longer than five and not "0"; a bound only, and HashQueryIdSpec states when it answers and with what |
| Resolver.HashQueryIdSpec | kuake-rename.js:509-517 | the first non-empty of `pdir_fid`, `fid` and `dir` decides, and is then accepted or rejected alone: a short `pdir_fid` hides a good `fid` |
| Resolver.PathId | kuake-rename.js:520-537 | the path strategy yields at least 10 id characters; a bound only, and PathIdSpec states when it answers and with what |
| Resolver.PathIdSpec | kuake-rename.js:520-537 | the patterns are tried in the order list, folder, dir, slashed; the first that matches anywhere in the path gives its leftmost capture; there is no answer iff none matches |
| Resolver.FromGlobals | kuake-rename.js:343-352 | the globals yield ids longer than five and not "0"; a bound only, and FromGlobalsFirstHit states when it answers and with what |
| Resolver.FromGlobalsFirstHit | kuake-rename.js:343-352 | the four globals are tried in order and the first truthy one whose search finds an id answers; nothing is found iff no global yields an id |
| Resolver.FromScripts | kuake-rename.js:355-364 | the scripts yield a non-empty capture other than "0", of any length; a bound only, and FromScriptsFirstHit states when it answers and with what |
| Resolver.FromScriptsFirstHit | kuake-rename.js:355-364 | the scripts are tried in document order and the first non-empty one whose leftmost capture is not "0" answers; nothing is found iff no script has such a capture |
| Resolver.FromStorage | kuake-rename.js:367-383 | storage entries yield ids longer than five and not "0"; a bound only, and FromStorageFirstHit states when it answers and with what |
| Resolver.FromStorageFirstHit | kuake-rename.js:367-383 | the entries are tried in order and the first one, with `dir` or `fid` in its key and a parsed value, whose search finds an id answers; nothing is found iff no entry yields one |
| Resolver.PageDataId | kuake-rename.js:539-545 | the page-data strategy yields ids longer than five and not "0"; a bound only, and PageDataIdSpec states when it answers and with what |
| Resolver.PageDataIdSpec | kuake-rename.js:339-389 | the globals answer first; failing them, a script capture decides alone, so a capture of five characters or fewer ends the strategy with nothing; storage answers only when neither globals nor scripts give anything |
| Resolver.LinkId | kuake-rename.js:547-558 | the link strategy yields a value longer than five, not "0" and without `&`; a bound only, and LinkIdFirstHit states when it answers and with what |
| Resolver.LinkIdFirstHit | kuake-rename.js:547-558 | the anchors are tried in document order and the first whose href mentions `fid` and whose leftmost capture is acceptable answers; nothing is found iff no anchor has one |
| Resolver.TitleId | kuake-rename.js:560-568 | the title guess is at least 20 id characters; a bound only, and TitleIdSpec states when it answers and with what |
| Resolver.TitleIdSpec | kuake-rename.js:560-568 | the title guess is exactly the leftmost run of 20 or more word characters, because the second test never rejects such a run; there is a guess iff such a run exists |
| Resolver.Accept | kuake-rename.js:475 | the `dirId && dirId !== '0' && dirId.length > 5` filter keeps exactly the acceptable values |
| Resolver.Cascade | kuake-rename.js:471-572 | a resolved id never comes from the cache here, and is longer than five and not "0"; the call throws iff the query yields nothing and a non-empty hash fails to decode |
| Resolver.CascadeIsFirstSuccess | kuake-rename.js:471-572 | the answer is the first strategy, in order, that yields an id; the call is unresolved iff none does and the hash decodes |
| Resolver.RouteIdOfHash | kuake-rename.js:487-507 | the last segment `<id>-<name>` of a `#/list/all/` route yields the id |
| Resolver.RouteResolvesToFolder | kuake-rename.js:471-507 | with no query id, the drive's route `#/list/all/…/<id>-<name>` resolves to the id |
| Resolver.ResolveStepSpec | kuake-rename.js:464-572 | the cache answers, independently of the page and without change, iff it is non-empty and younger than 30000 ms; otherwise the cascade answers; every found id except the title guess is cached with the current time |
| Resolver.ObserveStep | kuake-rename.js:309-316 | the interceptor either leaves the slot alone or stores a non-empty id other than "0" with the current time |
| Resolver.ObserveStepSpec | kuake-rename.js:309-316 | the slot changes iff the URL contains `clouddrive/file` and its `pdir_fid` is non-empty, not "0" and different from the cached id; it then holds that id with the current time |
| Resolver.ObserveIdempotent | kuake-rename.js:312-314 | observing the same request again changes nothing, so the time is not refreshed |
| Resolver.ObservedIdIsServed | kuake-rename.js:312-314 | an id taken from a request is what the resolver answers for the next 30000 ms |
| Resolver.ClearedSlotMisses | kuake-rename.js:428-429 | after the slot is cleared, the next call consults the page |
| Resolver.DirectoryResolver.Resolve | kuake-rename.js:464-572 | getCurrentDirectoryId updates the two globals as the step function says |
| Resolver.DirectoryResolver.Observe | kuake-rename.js:307-336 | the XMLHttpRequest and fetch interceptors update the globals as `ObserveStep` says, and `ObserveStepSpec` states when that stores an id and which one |
| Resolver.DirectoryResolver.CheckUrlChange | kuake-rename.js:423-440 | a new address empties the cache and is remembered; the same address changes nothing |
| Resolver.DirectoryResolver.Clear | kuake-rename.js:1120 | the forced re-detection empties the cache |
| Orchestrator.RenamePlanSpec | kuake-rename.js:1029-1032 | the plan keeps each video's id and old name; the i-th new name is generateStandardFileName of the old name with number i + 1, in scan order; no two files get the same name |
| Orchestrator.FirstLookup | kuake-rename.js:1123-1137 | a detected id never comes from the cache and is longer than five |
| Orchestrator.DetectFromEmpty | kuake-rename.js:1120-1137 | after the cache is cleared, detection yields the first attempt whose page names a directory or throws; the cache then holds that id unless it was a title guess |
| Orchestrator.ManualDestination | kuake-rename.js:1140-1165 | a manual id is accepted iff the operator chose to type one and it is longer than five after trimming; it is the trimmed text, whatever characters it holds |
| Orchestrator.Destination | kuake-rename.js:1140-1168 | a detected id is the target; otherwise the manual answer is; a target is never empty or "0" |
| Orchestrator.AcceptedIndices | kuake-rename.js:1174-1191 | the positions of accepted renames, ascending, and all of them |
| Orchestrator.SucceededAtAcceptedIndices | kuake-rename.js:1174-1191 | `renamedFiles` is the plan-order subsequence at exactly the accepted positions |
| Orchestrator.RenamePhase | kuake-rename.js:1174-1191 | successes plus failures equal the plan length; `renamedFiles` is the accepted items in plan order |
| Orchestrator.Fids | kuake-rename.js:1202 | the move request lists the renamed files' ids in order |
| Orchestrator.TwoOfThreeRenamed | kuake-rename.js:1174-1202 | when the second of three renames is refused, `renamedFiles` and the move request hold exactly the first and third files |
| Orchestrator.MovePhase | kuake-rename.js:1194-1213 | one move request iff files were renamed and a target exists, with exactly their ids; then all succeed or all fail; no move leaves both counters at 0 |
| Orchestrator.DetectDestination | kuake-rename.js:1119-1137 | the detection loop ends in the state and with the result of the specification; the last observed request URL is left as it was |
| Orchestrator.ExecuteRenameAndMove | kuake-rename.js:1102-1229 | it throws before renaming anything iff detection throws; otherwise the target, the renamed list, the counters and the single move are as above |
| Orchestrator.ExecuteRename | kuake-rename.js:1044-1099 | the rename-only run sends exactly the plan's requests in order; successes plus failures equal the number of videos; successes equal the accepted renames |

## Left out

- The page and the operator interface are not modelled: modals, progress bars, status overlays, styles, buttons, the `MutationObserver` and `scanPageFiles`. The page's items reach the scan as an input sequence.
- The network, `GM_xmlhttpRequest` and `JSON.parse` are replaced by oracles. A reply carries the HTTP status and the parsed body, with `None` for text that does not parse. The rename and move bodies and headers are not modelled.
- Timers are not modelled: `delay`, `setTimeout` and `setInterval`. The listing back-off is returned as a list of pauses. The 100/200/500/1000 ms pauses between scans, renames and detection attempts are not recorded.
- The 500 ms re-detection that `checkUrlChange` schedules is not part of `CheckUrlChange`. It is a separate `Resolve` call.
- Monkey-patching of `XMLHttpRequest`, `fetch` and `history` is not modelled; only its effect on the cache is (`Observe`, `CheckUrlChange`). Interceptor events that arrive during an `await` are not interleaved with the scan or the rename run.
- `confirm`, `prompt` and `alert` are inputs. The scan's questions come from `skip: nat -> bool`, indexed by the number of earlier questions. The detection fallback comes from `Operator`.
- `decodeURIComponent` is an abstract function (`None` where it throws). It is required to shorten every string it changes, which percent-decoding does.
- URL handling is simplified. `new URL` resolution and its exceptions are not modelled.
- Extractors.ParamGet: no percent-decoding or `+` decoding of parameter values.
- Lengths count Unicode scalar values, not UTF-16 code units; the two differ only for characters outside the Basic Multilingual Plane.
- Scanner.NormaliseItem: an entry whose first truthy id or name is not a string (a number, an object or `true`) is skipped, with its whole subtree. The script does otherwise:
  - A file entry with such a name makes `itemInfo.name.split('.')` throw (kuake-rename.js:769). The parent folder's catch (kuake-rename.js:839-843) then asks the operator, and a cancel aborts the whole scan.
  - A folder entry with such a name is listed and scanned as usual.
  - A non-string id is pushed as it is (kuake-rename.js:782), not converted to a string.
- Scanner.ScanNode: the credential is read once per scan (`Remote.cookie`). `sendApiRequest` reads `document.cookie` again on every attempt (kuake-rename.js:618), so a credential lost between retries cannot be expressed.
- Scanner.ScanNode: the replies are a function of the folder id and the attempt number. A folder id met twice in one scan therefore gets the same replies both times.
- Resolver.AnchorHit: one string stands for each anchor's `href`. The selector (kuake-rename.js:548) tests the attribute as written, while the match (kuake-rename.js:550) reads the resolved `link.href`. An anchor such as `href="#top"` on a page whose address carries `fid=` is skipped by the script, but would be matched if the model were given resolved hrefs.
- `size`, `path` and `pdir_fid` of scanned entries are not modelled, and neither is `formatFileSize`.
- JSON objects are member lists in enumeration order. Duplicate keys (the first one wins here) and the integer-key-first order of `for…in` are not modelled.
- Transport.Backoff: pauses are real numbers of milliseconds, as `delayMs * 1.5` computes them.
- `window.location.reload`, `GM_setClipboard` and `createPreviewTable` are not modelled. The preview table shows `i+1-file_name` without cleaning; the names applied are the cleaned ones.
- Resolver.DirectoryResolver.Resolve: the clock is an argument, so `Date.now()` is read once per call.
