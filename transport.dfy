/**
  The three requests the script sends to the drive's API, with the network
  replaced by an oracle of replies: the folder listing with its retry policy
  (sendApiRequest), and the rename and move writes (renameFile, moveFiles),
  of which only the success test matters.
 */
module Transport {
  import opened Text
  import opened Json

  /** What one request attempt produced. `body` is the parsed response text;
      `None` stands for a text that `JSON.parse` rejects. */
  datatype Reply =
    | Response(httpStatus: int, body: Option<Json>)
    | NetworkError
    | TimedOut

  /** Why a listing attempt (or the whole listing) failed. */
  datatype ListError =
    | NoCredential          // the cookie carries no `ctoken=`
    | HttpStatus(status: int)
    | Unparsable            // the body is not JSON, or is `null`
    | Rejected              // JSON that passes none of the acceptance tests
    | Network
    | Timeout

  datatype ListOutcome = Listed(data: Json) | Failed(error: ListError)

  /** A finished listing request: its outcome, how many attempts were sent
      and the pauses (in milliseconds) taken between them. */
  datatype Fetch = Fetch(outcome: ListOutcome, attempts: nat, waits: seq<real>)

  /** The acceptance test of one listing answer: a JSON object with
      `code === 0`, or `status === 200`, or an array at `data.list`. */
  predicate ListBodyAccepted(data: Json) {
    data.JObj? &&
    (IsNum(Get(data, "code"), 0) || IsNum(Get(data, "status"), 200)
     || (TruthyOpt(Get(data, "data")) && GetOpt(Get(data, "data"), "list").Some?
         && GetOpt(Get(data, "data"), "list").value.JArr?))
  }

  /** The outcome of one listing attempt. */
  function AttemptOutcome(reply: Reply): (o: ListOutcome)
    ensures o.Listed? <==> reply.Response? && reply.httpStatus == 200 && reply.body.Some?
                           && ListBodyAccepted(reply.body.value)
    ensures o.Listed? ==> o.data.JObj? && Some(o.data) == reply.body
    ensures o != Failed(NoCredential)
  {
    match reply
    case NetworkError => Failed(Network)
    case TimedOut => Failed(Timeout)
    case Response(st, body) =>
      if st != 200 then Failed(HttpStatus(st))
      else if body.None? || body.value.JNull? then Failed(Unparsable)   // `null.code` throws into the same catch
      else if ListBodyAccepted(body.value) then Listed(body.value)
      else Failed(Rejected)
  }

  /** sendApiRequest(pdir_fid, retries, delayMs): `replies(k)` is what the
      attempt numbered `k` receives. A missing credential is reported before
      any request and is not retried; a failed attempt is retried while
      retries remain, after a pause that grows by half each time. */
  function SendApiRequest(cookie: string, replies: nat -> Reply, retries: nat, delayMs: real,
                          attempt: nat): Fetch
    decreases retries
  {
    if !Contains(cookie, "ctoken=") then Fetch(Failed(NoCredential), 0, [])
    else
      match AttemptOutcome(replies(attempt))
      case Listed(data) => Fetch(Listed(data), 1, [])
      case Failed(e) =>
        if retries > 0 then
          var rest := SendApiRequest(cookie, replies, retries - 1, delayMs * 1.5, attempt + 1);
          Fetch(rest.outcome, rest.attempts + 1, [delayMs] + rest.waits)
        else Fetch(Failed(e), 1, [])
  }

  /** The first `n` pauses of a back-off that starts at `d` and grows by half. */
  function Backoff(d: real, n: nat): (ws: seq<real>)
    decreases n
    ensures |ws| == n
    ensures n > 0 ==> ws[0] == d
    ensures forall k :: 0 <= k < n - 1 ==> ws[k + 1] == ws[k] * 1.5
  {
    if n == 0 then [] else [d] + Backoff(d * 1.5, n - 1)
  }

  /** The shape of every retried request with a credential: between one and
      `retries + 1` attempts with the back-off pauses between them; every
      attempt before the last failed; a success carries the answer of the
      last attempt, a failure the error of attempt `retries`, the last one
      allowed. */
  lemma SendApiRequestShape(cookie: string, replies: nat -> Reply, retries: nat, d: real, a: nat)
    requires Contains(cookie, "ctoken=")
    ensures var f := SendApiRequest(cookie, replies, retries, d, a);
      && 1 <= f.attempts <= retries + 1
      && f.waits == Backoff(d, f.attempts - 1)
      && (forall k :: a <= k < a + f.attempts - 1 ==> AttemptOutcome(replies(k)).Failed?)
      && (f.outcome.Listed? ==> f.outcome == AttemptOutcome(replies(a + f.attempts - 1)))
      && (f.outcome.Failed? ==>
            f.attempts == retries + 1 && f.outcome == AttemptOutcome(replies(a + retries)))
  {
    SendApiRequestPauses(cookie, replies, retries, d, a);
    SendApiRequestEarlierFailed(cookie, replies, retries, d, a);
    SendApiRequestLast(cookie, replies, retries, d, a);
  }

  /** Between one and `retries + 1` attempts, with the back-off pauses
      between them. */
  lemma {:induction false} SendApiRequestPauses(cookie: string, replies: nat -> Reply,
                                                 retries: nat, d: real, a: nat)
    requires Contains(cookie, "ctoken=")
    decreases retries
    ensures 1 <= SendApiRequest(cookie, replies, retries, d, a).attempts <= retries + 1
    ensures SendApiRequest(cookie, replies, retries, d, a).waits
         == Backoff(d, SendApiRequest(cookie, replies, retries, d, a).attempts - 1)
  {
    if AttemptOutcome(replies(a)).Failed? && retries > 0 {
      SendApiRequestPauses(cookie, replies, retries - 1, d * 1.5, a + 1);
    }
  }

  /** Every attempt before the last failed. */
  lemma {:induction false} SendApiRequestEarlierFailed(cookie: string, replies: nat -> Reply,
                                                        retries: nat, d: real, a: nat)
    requires Contains(cookie, "ctoken=")
    decreases retries
    ensures forall k :: a <= k < a + SendApiRequest(cookie, replies, retries, d, a).attempts - 1 ==>
      AttemptOutcome(replies(k)).Failed?
  {
    if AttemptOutcome(replies(a)).Failed? && retries > 0 {
      SendApiRequestEarlierFailed(cookie, replies, retries - 1, d * 1.5, a + 1);
    }
  }

  /** A success is the last attempt's answer; a failure means every allowed
      attempt was made, and carries the last one's error. */
  lemma {:induction false} SendApiRequestLast(cookie: string, replies: nat -> Reply,
                                               retries: nat, d: real, a: nat)
    requires Contains(cookie, "ctoken=")
    decreases retries
    ensures var f := SendApiRequest(cookie, replies, retries, d, a);
      && (f.outcome.Listed? ==> f.outcome == AttemptOutcome(replies(a + f.attempts - 1)))
      && (f.outcome.Failed? ==>
            f.attempts == retries + 1 && f.outcome == AttemptOutcome(replies(a + retries)))
  {
    if AttemptOutcome(replies(a)).Failed? && retries > 0 {
      SendApiRequestLast(cookie, replies, retries - 1, d * 1.5, a + 1);
    }
  }

  /** The listing request as the scanner issues it: three retries, a first
      pause of 1500 ms. */
  function ListFolder(cookie: string, replies: nat -> Reply): Fetch {
    SendApiRequest(cookie, replies, 3, 1500.0, 0)
  }

  /** The listing policy: no request without a `ctoken=` cookie; otherwise
      at most four attempts with pauses of 1500, 2250 and 3375 ms between
      them; the listing succeeds exactly when one of the four attempts is
      accepted, and then carries the first accepted answer. */
  lemma ListFolderPolicy(cookie: string, replies: nat -> Reply)
    ensures var f := ListFolder(cookie, replies);
      && (!Contains(cookie, "ctoken=") <==> f.outcome == Failed(NoCredential))
      && (!Contains(cookie, "ctoken=") ==> f.attempts == 0 && f.waits == [])
      && (Contains(cookie, "ctoken=") ==>
            && 1 <= f.attempts <= 4
            && f.waits == [1500.0, 2250.0, 3375.0][..f.attempts - 1]
            && (f.outcome.Listed? <==> exists k :: 0 <= k < 4 && AttemptOutcome(replies(k)).Listed?)
            && (f.outcome.Listed? ==>
                  f.outcome == AttemptOutcome(replies(f.attempts - 1))
                  && forall k :: 0 <= k < f.attempts - 1 ==> AttemptOutcome(replies(k)).Failed?))
  {
    if Contains(cookie, "ctoken=") {
      ListFolderAttempts(cookie, replies);
    }
  }

  /** With a credential, the listing makes its four attempts at most. */
  lemma ListFolderAttempts(cookie: string, replies: nat -> Reply)
    requires Contains(cookie, "ctoken=")
    ensures var f := ListFolder(cookie, replies);
      && 1 <= f.attempts <= 4
      && f.waits == [1500.0, 2250.0, 3375.0][..f.attempts - 1]
      && (f.outcome.Listed? <==> exists k :: 0 <= k < 4 && AttemptOutcome(replies(k)).Listed?)
      && (f.outcome.Listed? ==>
            f.outcome == AttemptOutcome(replies(f.attempts - 1))
            && forall k :: 0 <= k < f.attempts - 1 ==> AttemptOutcome(replies(k)).Failed?)
    ensures ListFolder(cookie, replies).outcome != Failed(NoCredential)
  {
    var f := ListFolder(cookie, replies);
    SendApiRequestPauses(cookie, replies, 3, 1500.0, 0);
    ListFolderBackoff();
    BackoffPrefix(1500.0, f.attempts - 1, 3);
    ListFolderFirstAccepted(cookie, replies);
  }

  /** With a credential, the listing succeeds exactly when one of its four
      attempts is accepted, and then with the first accepted answer. */
  lemma ListFolderFirstAccepted(cookie: string, replies: nat -> Reply)
    requires Contains(cookie, "ctoken=")
    ensures var f := ListFolder(cookie, replies);
      && (f.outcome.Listed? <==> exists k :: 0 <= k < 4 && AttemptOutcome(replies(k)).Listed?)
      && (f.outcome.Listed? ==>
            f.outcome == AttemptOutcome(replies(f.attempts - 1))
            && forall k :: 0 <= k < f.attempts - 1 ==> AttemptOutcome(replies(k)).Failed?)
    ensures ListFolder(cookie, replies).outcome != Failed(NoCredential)
  {
    var f := ListFolder(cookie, replies);
    SendApiRequestPauses(cookie, replies, 3, 1500.0, 0);
    SendApiRequestEarlierFailed(cookie, replies, 3, 1500.0, 0);
    SendApiRequestLast(cookie, replies, 3, 1500.0, 0);
    if f.outcome.Failed? {
      assert f.attempts == 4;
    } else {
      assert AttemptOutcome(replies(f.attempts - 1)).Listed?;
    }
  }

  /** A shorter back-off is a prefix of a longer one. */
  lemma {:induction false} BackoffPrefix(d: real, m: nat, n: nat)
    requires m <= n
    decreases m
    ensures Backoff(d, n)[..m] == Backoff(d, m)
  {
    if m > 0 {
      BackoffPrefix(d * 1.5, m - 1, n - 1);
      assert Backoff(d, n)[..m] == [d] + Backoff(d * 1.5, n - 1)[..m - 1];
    }
  }

  /** The three pauses of the listing request. */
  lemma ListFolderBackoff()
    ensures Backoff(1500.0, 3) == [1500.0, 2250.0, 3375.0]
  {
  }

  /** The success test of a rename or move answer: a JSON object with
      `status === 200` and `code === 0`; the HTTP status itself is not
      looked at, and a network error or a timeout is a failure. */
  predicate WriteAccepted(reply: Reply) {
    && reply.Response? && reply.body.Some? && reply.body.value.JObj?
    && IsNum(Get(reply.body.value, "status"), 200) && IsNum(Get(reply.body.value, "code"), 0)
  }

  /** The write test ignores the HTTP status and is stricter than the
      listing test: an accepted rename or move answer would also be an
      accepted listing answer, but not conversely. */
  lemma WriteAcceptedSpec(reply: Reply, status: int)
    ensures reply.Response? ==>
      WriteAccepted(reply) == WriteAccepted(Response(status, reply.body))
    ensures WriteAccepted(reply) ==> ListBodyAccepted(reply.body.value)
    ensures !WriteAccepted(Response(200, Some(JObj([Member("code", JNum(0))]))))
  {
    var partial := JObj([Member("code", JNum(0))]);
    assert Get(partial, "status") == None;
  }
}
