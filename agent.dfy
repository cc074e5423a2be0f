/**
 * The key-rotating pagination client of pkg/runner/agent.go.
 *
 * The HTTP round trip (request creation, `Client.Do`, gzip and JSON
 * decoding) is an oracle `server: Request -> Response`. `Run` is the
 * specification of one `Dork` call: one recursion step per loop iteration
 * of the Go code. The class `Agent` holds the rotation cursor and runs the
 * loop itself; its methods are proved against `Rotate` and `Run`.
 */
module SearchAgent {
  import opened Wrappers

  /** Google CSE returns no results past the 100th. */
  const MaxResults := 100
  /** Google CSE returns 10 results per page. */
  const ResultsPerPage := 10

  const StatusOK := 200
  const StatusForbidden := 403
  const StatusTooManyRequests := 429

  /** The parameters of one customsearch GET request. */
  datatype Request = Request(key: string, searchId: string, query: string, start: int)

  /** A response body: undecodable, or the `link` of every item. */
  datatype Body = Undecodable | Items(links: seq<string>)

  /** What one request comes back with. */
  datatype Response =
    | RequestInvalid             // http.NewRequest failed
    | TransportFailure           // Client.Do failed (connection, timeout)
    | Reply(status: int, body: Body)

  type Server = Request -> Response

  datatype DorkError =
    | CreateRequestFailed        // "failed to create request"
    | ExecuteRequestFailed       // "failed to execute request"
    | KeysExhausted              // "all API keys exhausted"
    | UnexpectedStatus(code: int)// "unexpected status code"
    | DecodeFailed               // "failed to decode response"

  /** A quota response: the current key is used up. */
  predicate IsQuota(status: int)
  {
    status == StatusForbidden || status == StatusTooManyRequests
  }

  // ---------------------------------------------------------------------
  // Key rotation

  datatype Rotation = Rotation(rotated: bool, keyIdx: nat)

  /** `rotateAPIKey` on a cursor over `keyCount` keys. */
  function Rotate(keyIdx: nat, keyCount: nat): (r: Rotation)
    ensures r.rotated <==> keyIdx + 1 < keyCount
    ensures r.rotated <==> r.keyIdx != keyIdx
    ensures keyIdx <= r.keyIdx <= keyIdx + 1
    ensures keyIdx < keyCount ==> r.keyIdx < keyCount
  {
    if keyIdx + 1 < keyCount then Rotation(true, keyIdx + 1) else Rotation(false, keyIdx)
  }

  /** The cursor after `k` calls of `rotateAPIKey`. */
  function Rotations(keyIdx: nat, keyCount: nat, k: nat): nat
    decreases k
  {
    if k == 0 then keyIdx else Rotations(Rotate(keyIdx, keyCount).keyIdx, keyCount, k - 1)
  }

  function Min(a: int, b: int): int
  {
    if a < b then a else b
  }

  /** The cursor moves forward one key per call and stops on the last key. */
  lemma {:induction false} RotationsClamp(keyIdx: nat, keyCount: nat, k: nat)
    requires keyIdx < keyCount
    ensures Rotations(keyIdx, keyCount, k) == Min(keyIdx + k, keyCount - 1)
    ensures keyIdx <= Rotations(keyIdx, keyCount, k) < keyCount
    decreases k
  {
    if k > 0 {
      RotationsClamp(Rotate(keyIdx, keyCount).keyIdx, keyCount, k - 1);
    }
  }

  /** From the first of `keyCount` keys, call number `j + 1` succeeds iff `j + 1 < keyCount`. */
  lemma RotateSucceedsIff(keyCount: nat, j: nat)
    requires keyCount >= 1
    ensures Rotate(Rotations(0, keyCount, j), keyCount).rotated <==> j + 1 < keyCount
  {
    RotationsClamp(0, keyCount, j);
  }

  /** After `keyCount - 1` successful rotations the pool is exhausted for good. */
  lemma ExhaustedForever(keyCount: nat, k: nat)
    requires 1 <= keyCount && keyCount - 1 <= k
    ensures Rotations(0, keyCount, k) == keyCount - 1
    ensures Rotate(Rotations(0, keyCount, k), keyCount) == Rotation(false, keyCount - 1)
  {
    RotationsClamp(0, keyCount, k);
  }

  // ---------------------------------------------------------------------
  // The pagination protocol of one Dork call

  /** What one `Dork` call works with: the key/id lists, the query, the API. */
  datatype Search = Search(keys: seq<string>, searchIds: seq<string>, query: string, server: Server)
  {
    /** The lists are index-aligned and `keyIdx` names a key. */
    predicate Usable(keyIdx: nat)
    {
      |keys| == |searchIds| && keyIdx < |keys|
    }

    /** The request made with the key and search id at the same index. */
    function RequestFor(a: Attempt): Request
      requires Usable(a.keyIdx)
    {
      Request(keys[a.keyIdx], searchIds[a.keyIdx], query, a.start)
    }

    function Respond(a: Attempt): Response
      requires Usable(a.keyIdx)
    {
      server(RequestFor(a))
    }

    predicate AllUsable(attempts: seq<Attempt>)
    {
      forall i :: 0 <= i < |attempts| ==> Usable(attempts[i].keyIdx)
    }

    /**
     * `requests` are the requests of `attempts`, each built with the API key and
     * the search engine id at the same index.
     */
    predicate Records(requests: seq<Request>, attempts: seq<Attempt>)
    {
      |requests| == |attempts| &&
      forall i :: 0 <= i < |requests| ==>
        attempts[i].keyIdx < |keys| && attempts[i].keyIdx < |searchIds| &&
        requests[i] == Request(keys[attempts[i].keyIdx], searchIds[attempts[i].keyIdx], query, attempts[i].start)
    }
  }

  /** One request: the key index and the 1-based start index it used. */
  datatype Attempt = Attempt(keyIdx: nat, start: int)

  /**
   * The result of (the rest of) a Dork call: the links it returns, its
   * error, the final key cursor, and the requests it built, in order.
   */
  datatype Outcome = Outcome(links: seq<string>, err: Option<DorkError>, keyIdx: nat, attempts: seq<Attempt>)

  /** Errors after which Dork returns nil links instead of the links so far. */
  predicate Discards(err: Option<DorkError>)
  {
    err.Some? && err.value != KeysExhausted
  }

  /** The outcome of a loop that has already gathered `acc` with the requests `done`. */
  function Resume(acc: seq<string>, done: seq<Attempt>, rest: Outcome): Outcome
  {
    Outcome(if Discards(rest.err) then [] else acc + rest.links, rest.err, rest.keyIdx, done + rest.attempts)
  }

  lemma RecordsAppend(s: Search, requests: seq<Request>, attempts: seq<Attempt>, a: Attempt)
    requires s.Records(requests, attempts) && s.Usable(a.keyIdx)
    ensures s.Records(requests + [s.RequestFor(a)], attempts + [a])
  {
  }

  lemma ResumeResume(acc1: seq<string>, done1: seq<Attempt>, acc2: seq<string>, done2: seq<Attempt>, rest: Outcome)
    ensures Resume(acc1, done1, Resume(acc2, done2, rest)) == Resume(acc1 + acc2, done1 + done2, rest)
  {
    assert acc1 + (acc2 + rest.links) == acc1 + acc2 + rest.links;
    assert done1 + (done2 + rest.attempts) == done1 + done2 + rest.attempts;
  }

  /** Result slots still open from page cursor `start` on. */
  function PagesLeft(start: int): nat
  {
    if start > MaxResults then 0 else (MaxResults - start) / ResultsPerPage + 1
  }

  /** What one loop iteration of `Dork` does after a response. */
  datatype Move =
    | Stop(err: Option<DorkError>)   // return (or break, when err is None)
    | Retry(keyIdx: nat)             // rotated: same page, next key
    | NextPage(links: seq<string>)   // append the page and advance

  /**
   * The branches of the loop body for one response, on key `keyIdx` of
   * `keyCount`. Only a quota response with a key left retries, and it
   * retries on the next key.
   */
  function Decide(r: Response, keyIdx: nat, keyCount: nat): (m: Move)
    ensures m.Retry? <==> r.Reply? && IsQuota(r.status) && keyIdx + 1 < keyCount
    ensures m.Retry? ==> m.keyIdx == keyIdx + 1
    ensures m.NextPage? ==> |m.links| > 0
  {
    match r
    case RequestInvalid => Stop(Some(CreateRequestFailed))
    case TransportFailure => Stop(Some(ExecuteRequestFailed))
    case Reply(status, body) =>
      if IsQuota(status) then
        var rot := Rotate(keyIdx, keyCount);
        if rot.rotated then Retry(rot.keyIdx) else Stop(Some(KeysExhausted))
      else if status != StatusOK then Stop(Some(UnexpectedStatus(status)))
      else match body
        case Undecodable => Stop(Some(DecodeFailed))
        case Items(links) => if |links| == 0 then Stop(None) else NextPage(links)
  }

  /** The links a response carries: those of a decoded 200 page, else none. */
  function PageLinks(r: Response): seq<string>
  {
    if r.Reply? && r.status == StatusOK && r.body.Items? then r.body.links else []
  }

  /** A page's links are kept exactly when the step moves on to the next page. */
  lemma DecideLinks(r: Response, keyIdx: nat, keyCount: nat)
    ensures var m := Decide(r, keyIdx, keyCount);
      (m.NextPage? <==> PageLinks(r) != []) &&
      (m.NextPage? ==> m.links == PageLinks(r))
  {
  }

  /**
   * The loop of `Dork` from key cursor `keyIdx` and page cursor `start`:
   * each step asks the server once and then returns, rotates the key and
   * retries the same page, or appends a non-empty page and moves on.
   */
  function Run(s: Search, keyIdx: nat, start: int): Outcome
    requires s.Usable(keyIdx)
    decreases PagesLeft(start), |s.keys| - keyIdx
  {
    if start > MaxResults then Outcome([], None, keyIdx, [])
    else
      var a := Attempt(keyIdx, start);
      match Decide(s.Respond(a), keyIdx, |s.keys|)
      case Stop(err) => Outcome([], err, keyIdx, [a])
      case Retry(next) => Resume([], [a], Run(s, next, start))
      case NextPage(links) => Resume(links, [a], Run(s, keyIdx, start + ResultsPerPage))
  }

  /** A call that fails other than by exhaustion returns no links: `Resume` drops them. */
  lemma RunDiscards(s: Search, keyIdx: nat, start: int)
    requires s.Usable(keyIdx)
    ensures var o := Run(s, keyIdx, start);
      Discards(o.err) ==> o.links == []
  {
  }

  /** One iteration of the loop, seen from a loop that has gathered `acc` with the requests `done`. */
  lemma RunStep(s: Search, acc: seq<string>, done: seq<Attempt>, keyIdx: nat, start: int)
    requires s.Usable(keyIdx) && start <= MaxResults
    ensures var a := Attempt(keyIdx, start);
      var o := Resume(acc, done, Run(s, keyIdx, start));
      match Decide(s.Respond(a), keyIdx, |s.keys|)
      case Stop(e) => o == Outcome(if Discards(e) then [] else acc, e, keyIdx, done + [a])
      case Retry(next) => o == Resume(acc, done + [a], Run(s, next, start))
      case NextPage(l) => o == Resume(acc + l, done + [a], Run(s, keyIdx, start + ResultsPerPage))
  {
    var a := Attempt(keyIdx, start);
    match Decide(s.Respond(a), keyIdx, |s.keys|)
    case Stop(e) =>
      assert acc + [] == acc;
    case Retry(next) =>
      ResumeResume(acc, done, [], [a], Run(s, next, start));
      assert acc + [] == acc;
    case NextPage(l) =>
      ResumeResume(acc, done, l, [a], Run(s, keyIdx, start + ResultsPerPage));
  }

  /** One request leads to the next: a rotation retrying the page, or a full page and the next page. */
  predicate Advances(r: Response, a: Attempt, b: Attempt)
  {
    r.Reply? &&
    ((IsQuota(r.status) && b == Attempt(a.keyIdx + 1, a.start)) ||
     (r.status == StatusOK && r.body.Items? && |r.body.links| > 0 && b == Attempt(a.keyIdx, a.start + ResultsPerPage)))
  }

  /** How the last request of a Dork call ends it, with `keyCount` keys. */
  predicate Ends(r: Response, a: Attempt, keyCount: nat, err: Option<DorkError>)
  {
    match r
    case RequestInvalid => err == Some(CreateRequestFailed)
    case TransportFailure => err == Some(ExecuteRequestFailed)
    case Reply(status, body) =>
      if IsQuota(status) then a.keyIdx + 1 == keyCount && err == Some(KeysExhausted)
      else if status != StatusOK then err == Some(UnexpectedStatus(status))
      else if body.Undecodable? then err == Some(DecodeFailed)
      else if |body.links| == 0 then err == None
      else err == None && a.start + ResultsPerPage > MaxResults
  }

  /** The links of every 200 page among `attempts`, concatenated in request order. */
  function Harvest(s: Search, attempts: seq<Attempt>): seq<string>
    requires s.AllUsable(attempts)
  {
    if |attempts| == 0 then []
    else
      PageLinks(s.Respond(attempts[0])) + Harvest(s, attempts[1..])
  }

  /** The number of non-empty 200 pages among `attempts`. */
  function PagesRead(s: Search, attempts: seq<Attempt>): nat
    requires s.AllUsable(attempts)
  {
    if |attempts| == 0 then 0
    else
      (if PageLinks(s.Respond(attempts[0])) != [] then 1 else 0) + PagesRead(s, attempts[1..])
  }

  /**
   * The key cursor never moves backward and stays on a key; every request
   * uses a key between the first and the final cursor and a page cursor
   * between `start` and the cap; exhaustion leaves the cursor on the last key.
   */
  lemma {:induction false} RunCursor(s: Search, keyIdx: nat, start: int)
    requires s.Usable(keyIdx)
    ensures var o := Run(s, keyIdx, start);
      keyIdx <= o.keyIdx < |s.keys| &&
      (forall i :: 0 <= i < |o.attempts| ==>
         keyIdx <= o.attempts[i].keyIdx <= o.keyIdx && start <= o.attempts[i].start <= MaxResults) &&
      (o.err == Some(KeysExhausted) ==> o.keyIdx == |s.keys| - 1)
    decreases PagesLeft(start), |s.keys| - keyIdx
  {
    if start <= MaxResults {
      var a := Attempt(keyIdx, start);
      match Decide(s.Respond(a), keyIdx, |s.keys|)
      case Stop(_) =>
      case Retry(next) => RunCursor(s, next, start);
      case NextPage(_) => RunCursor(s, keyIdx, start + ResultsPerPage);
    }
  }

  /** `Ends` describes exactly the responses on which `Decide` stops the loop. */
  lemma DecideEnds(r: Response, a: Attempt, keyCount: nat)
    requires a.keyIdx < keyCount
    ensures var m := Decide(r, a.keyIdx, keyCount);
      (m.Stop? ==> Ends(r, a, keyCount, m.err)) &&
      (m.NextPage? && a.start + ResultsPerPage > MaxResults ==> Ends(r, a, keyCount, None))
  {
  }

  /**
   * Requests form a chain: the first uses (keyIdx, start), and each next one
   * either retries the same page with the next key after a quota response,
   * or reads the next page with the same key after a non-empty 200 page.
   */
  lemma {:induction false} RunChain(s: Search, keyIdx: nat, start: int)
    requires s.Usable(keyIdx)
    ensures var o := Run(s, keyIdx, start);
      (start > MaxResults ==> o == Outcome([], None, keyIdx, [])) &&
      (start <= MaxResults ==>
         |o.attempts| > 0 && o.attempts[0] == Attempt(keyIdx, start) &&
         forall i :: 0 <= i < |o.attempts| - 1 ==>
           s.Usable(o.attempts[i].keyIdx) &&
           Advances(s.Respond(o.attempts[i]), o.attempts[i], o.attempts[i + 1]))
    decreases PagesLeft(start), |s.keys| - keyIdx
  {
    if start <= MaxResults {
      var a := Attempt(keyIdx, start);
      var o := Run(s, keyIdx, start);
      match Decide(s.Respond(a), keyIdx, |s.keys|)
      case Stop(_) =>
        assert o.attempts == [a];
      case Retry(next) =>
        RunChain(s, next, start);
        var rest := Run(s, next, start);
        assert o.attempts == [a] + rest.attempts;
        assert forall i :: 0 < i < |o.attempts| ==> o.attempts[i] == rest.attempts[i - 1];
      case NextPage(_) =>
        var next := start + ResultsPerPage;
        RunChain(s, keyIdx, next);
        var rest := Run(s, keyIdx, next);
        assert o.attempts == [a] + rest.attempts;
        assert forall i :: 0 < i < |o.attempts| ==> o.attempts[i] == rest.attempts[i - 1];
    }
  }

  /**
   * The last request's response decides the error, and the call ends on
   * that request's key: exhaustion only on the last key, success only on
   * an empty page or on a full page at the cap.
   */
  lemma {:induction false} RunEnds(s: Search, keyIdx: nat, start: int)
    requires s.Usable(keyIdx) && start <= MaxResults
    ensures var o := Run(s, keyIdx, start);
      |o.attempts| > 0 &&
      var last := o.attempts[|o.attempts| - 1];
      o.keyIdx == last.keyIdx && s.Usable(last.keyIdx) && Ends(s.Respond(last), last, |s.keys|, o.err)
    decreases PagesLeft(start), |s.keys| - keyIdx
  {
    var a := Attempt(keyIdx, start);
    var o := Run(s, keyIdx, start);
    DecideEnds(s.Respond(a), a, |s.keys|);
    match Decide(s.Respond(a), keyIdx, |s.keys|)
    case Stop(_) =>
      assert o.attempts == [a];
    case Retry(next) =>
      RunEnds(s, next, start);
      var rest := Run(s, next, start);
      assert o.attempts == [a] + rest.attempts;
      assert o.attempts[|o.attempts| - 1] == rest.attempts[|rest.attempts| - 1];
    case NextPage(_) =>
      var next := start + ResultsPerPage;
      if next <= MaxResults {
        RunEnds(s, keyIdx, next);
        var rest := Run(s, keyIdx, next);
        assert o.attempts == [a] + rest.attempts;
        assert o.attempts[|o.attempts| - 1] == rest.attempts[|rest.attempts| - 1];
      } else {
        assert o.attempts == [a];
      }
  }

  /**
   * A quota-exhausted or successful call returns the links of all 200 pages
   * it read, in order (quota responses add nothing); any other error
   * returns no links at all, whatever earlier pages held.
   */
  lemma {:induction false} RunLinks(s: Search, keyIdx: nat, start: int)
    requires s.Usable(keyIdx)
    ensures var o := Run(s, keyIdx, start);
      s.AllUsable(o.attempts) &&
      o.links == if Discards(o.err) then [] else Harvest(s, o.attempts)
    decreases PagesLeft(start), |s.keys| - keyIdx
  {
    if start <= MaxResults {
      var a := Attempt(keyIdx, start);
      var o := Run(s, keyIdx, start);
      var r := s.Respond(a);
      DecideLinks(r, keyIdx, |s.keys|);
      match Decide(r, keyIdx, |s.keys|)
      case Stop(e) =>
        assert o == Outcome([], e, keyIdx, [a]);
        assert o.attempts[1..] == [];
        assert Harvest(s, o.attempts) == PageLinks(r) + Harvest(s, []) == [];
      case Retry(next) =>
        RunLinks(s, next, start);
        var rest := Run(s, next, start);
        assert o == Resume([], [a], rest);
        assert o.attempts[1..] == rest.attempts;
        assert Harvest(s, o.attempts) == [] + Harvest(s, rest.attempts);
      case NextPage(l) =>
        var next := start + ResultsPerPage;
        RunLinks(s, keyIdx, next);
        var rest := Run(s, keyIdx, next);
        assert o == Resume(l, [a], rest);
        assert o.attempts[1..] == rest.attempts;
        assert Harvest(s, o.attempts) == l + Harvest(s, rest.attempts);
    }
  }

  /**
   * At most one non-empty page per open result slot (ten from start index
   * 1), and at most one request per slot plus one per spare key: a Dork
   * call always terminates after a bounded number of requests.
   */
  lemma {:induction false} RunBounded(s: Search, keyIdx: nat, start: int)
    requires s.Usable(keyIdx)
    ensures var o := Run(s, keyIdx, start);
      s.AllUsable(o.attempts) &&
      PagesRead(s, o.attempts) <= PagesLeft(start) &&
      |o.attempts| <= PagesLeft(start) + |s.keys| - keyIdx &&
      (start == 1 ==> PagesRead(s, o.attempts) <= MaxResults / ResultsPerPage)
    decreases PagesLeft(start), |s.keys| - keyIdx
  {
    if start <= MaxResults {
      var a := Attempt(keyIdx, start);
      var o := Run(s, keyIdx, start);
      match Decide(s.Respond(a), keyIdx, |s.keys|)
      case Stop(_) =>
        assert o.attempts == [a] && o.attempts[1..] == [];
      case Retry(next) =>
        RunBounded(s, next, start);
        var rest := Run(s, next, start);
        assert o.attempts == [a] + rest.attempts && o.attempts[1..] == rest.attempts;
      case NextPage(_) =>
        var next := start + ResultsPerPage;
        RunBounded(s, keyIdx, next);
        var rest := Run(s, keyIdx, next);
        assert o.attempts == [a] + rest.attempts && o.attempts[1..] == rest.attempts;
    }
  }

  /** Attempts with every key from `keyIdx` on, all at page cursor `start`. */
  function KeysFrom(keyIdx: nat, keyCount: nat, start: int): seq<Attempt>
    decreases keyCount - keyIdx
  {
    if keyIdx < keyCount then [Attempt(keyIdx, start)] + KeysFrom(keyIdx + 1, keyCount, start) else []
  }

  /**
   * When the API answers every request with a quota error, Dork tries each
   * remaining key once on the same page and returns no links with the
   * "all API keys exhausted" error, on the last key.
   */
  lemma {:induction false} AllQuotaExhausts(s: Search, keyIdx: nat, start: int)
    requires s.Usable(keyIdx) && start <= MaxResults
    requires forall r :: s.server(r).Reply? && IsQuota(s.server(r).status)
    ensures Run(s, keyIdx, start) ==
      Outcome([], Some(KeysExhausted), |s.keys| - 1, KeysFrom(keyIdx, |s.keys|, start))
    decreases |s.keys| - keyIdx
  {
    var a := Attempt(keyIdx, start);
    assert s.Respond(a).Reply? && IsQuota(s.Respond(a).status);
    if keyIdx + 1 < |s.keys| {
      AllQuotaExhausts(s, keyIdx + 1, start);
    } else {
      assert KeysFrom(keyIdx + 1, |s.keys|, start) == [];
    }
  }

  // ---------------------------------------------------------------------
  // The agent

  class Agent {
    const APIKey: seq<string>
    const SearchEngineID: seq<string>
    var currentKeyIdx: nat

    /** The lists are index-aligned and the cursor names a key. */
    ghost predicate Valid()
      reads this
    {
      |APIKey| == |SearchEngineID| && currentKeyIdx < |APIKey|
    }

    /** `NewAgent`, without the HTTP client. */
    constructor (apiKey: seq<string>, searchId: seq<string>)
      ensures APIKey == apiKey && SearchEngineID == searchId && currentKeyIdx == 0
      ensures |apiKey| == |searchId| && |apiKey| > 0 ==> Valid()
    {
      APIKey := apiKey;
      SearchEngineID := searchId;
      currentKeyIdx := 0;
    }

    /** `rotateAPIKey`: move to the next key if there is one. */
    method RotateAPIKey() returns (ok: bool)
      modifies this
      ensures ok <==> old(currentKeyIdx) + 1 < |APIKey|
      ensures currentKeyIdx == if ok then old(currentKeyIdx) + 1 else old(currentKeyIdx)
      ensures Rotation(ok, currentKeyIdx) == Rotate(old(currentKeyIdx), |APIKey|)
      ensures old(Valid()) ==> Valid()
    {
      if currentKeyIdx + 1 < |APIKey| {
        currentKeyIdx := currentKeyIdx + 1;
        return true;
      }
      return false;
    }

    /**
     * `Dork`: gather the links for `query` page by page, rotating keys on
     * quota errors. `requests` is every request built, in order; the last one
     * is never sent when building it failed (`RequestInvalid`).
     */
    method Dork(query: string, server: Server) returns (links: seq<string>, err: Option<DorkError>, ghost requests: seq<Request>)
      requires Valid()
      modifies this
      ensures Valid()
      ensures var s := Search(APIKey, SearchEngineID, query, server);
        var o := Run(s, old(currentKeyIdx), 1);
        links == o.links && err == o.err && currentKeyIdx == o.keyIdx && s.Records(requests, o.attempts)
      ensures old(currentKeyIdx) <= currentKeyIdx
      ensures err == Some(KeysExhausted) ==> currentKeyIdx == |APIKey| - 1
      ensures Discards(err) ==> links == []
    {
      ghost var s := Search(APIKey, SearchEngineID, query, server);
      ghost var idx0 := currentKeyIdx;
      ghost var attempts: seq<Attempt> := [];
      ghost var goal := Run(s, idx0, 1);
      assert idx0 <= goal.keyIdx < |APIKey| && (goal.err == Some(KeysExhausted) ==> goal.keyIdx == |APIKey| - 1) by {
        RunCursor(s, idx0, 1);
      }
      assert goal == Resume([], [], goal) by {
        RunDiscards(s, idx0, 1);
        assert [] + goal.links == goal.links && [] + goal.attempts == goal.attempts;
      }
      requests := [];
      var allURLs: seq<string> := [];
      var startIndex := 1;
      while startIndex <= MaxResults
        invariant Valid() && idx0 <= currentKeyIdx
        invariant goal == Resume(allURLs, attempts, Run(s, currentKeyIdx, startIndex))
        invariant s.Records(requests, attempts)
        decreases PagesLeft(startIndex), |APIKey| - currentKeyIdx
      {
        ghost var a := Attempt(currentKeyIdx, startIndex);
        var req := Request(APIKey[currentKeyIdx], SearchEngineID[currentKeyIdx], query, startIndex);
        assert s.Records(requests + [req], attempts + [a]) by {
          RecordsAppend(s, requests, attempts, a);
        }
        requests := requests + [req];
        var resp := server(req);
        assert resp == s.Respond(a);
        if resp.RequestInvalid? {
          assert goal == Outcome([], Some(CreateRequestFailed), currentKeyIdx, attempts + [a]) by {
            RunStep(s, allURLs, attempts, currentKeyIdx, startIndex);
          }
          return [], Some(CreateRequestFailed), requests;
        }
        if resp.TransportFailure? {
          assert goal == Outcome([], Some(ExecuteRequestFailed), currentKeyIdx, attempts + [a]) by {
            RunStep(s, allURLs, attempts, currentKeyIdx, startIndex);
          }
          return [], Some(ExecuteRequestFailed), requests;
        }
        if IsQuota(resp.status) {
          ghost var k := currentKeyIdx;
          var ok := RotateAPIKey();
          if !ok {
            assert goal == Outcome(allURLs, Some(KeysExhausted), k, attempts + [a]) by {
              RunStep(s, allURLs, attempts, k, startIndex);
            }
            return allURLs, Some(KeysExhausted), requests;
          }
          assert goal == Resume(allURLs, attempts + [a], Run(s, currentKeyIdx, startIndex)) by {
            RunStep(s, allURLs, attempts, k, startIndex);
          }
          attempts := attempts + [a];
          assert goal == Resume(allURLs, attempts, Run(s, currentKeyIdx, startIndex));
          continue;
        }
        if resp.status != StatusOK {
          assert goal == Outcome([], Some(UnexpectedStatus(resp.status)), currentKeyIdx, attempts + [a]) by {
            RunStep(s, allURLs, attempts, currentKeyIdx, startIndex);
          }
          return [], Some(UnexpectedStatus(resp.status)), requests;
        }
        if resp.body.Undecodable? {
          assert goal == Outcome([], Some(DecodeFailed), currentKeyIdx, attempts + [a]) by {
            RunStep(s, allURLs, attempts, currentKeyIdx, startIndex);
          }
          return [], Some(DecodeFailed), requests;
        }
        if |resp.body.links| == 0 {
          assert goal == Outcome(allURLs, None, currentKeyIdx, attempts + [a]) by {
            RunStep(s, allURLs, attempts, currentKeyIdx, startIndex);
          }
          attempts := attempts + [a];
          break;
        }
        assert goal == Resume(allURLs + resp.body.links, attempts + [a], Run(s, currentKeyIdx, startIndex + ResultsPerPage)) by {
          RunStep(s, allURLs, attempts, currentKeyIdx, startIndex);
        }
        attempts := attempts + [a];
        allURLs := allURLs + resp.body.links;
        startIndex := startIndex + ResultsPerPage;
        assert goal == Resume(allURLs, attempts, Run(s, currentKeyIdx, startIndex));
      }
      if startIndex > MaxResults {
        assert goal == Outcome(allURLs, None, currentKeyIdx, attempts) by {
          assert allURLs + [] == allURLs && attempts + [] == attempts;
        }
      }
      return allURLs, None, requests;
    }
  }
}
