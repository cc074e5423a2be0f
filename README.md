# pagode runner core, modelled in Dafny

pagode enumerates Google "dorks" (search queries) through the Google
Custom Search JSON API. This project models the two sequential parts of
its `pkg/runner` package:

- **The search agent** (`pkg/runner/agent.go`, module `SearchAgent`).
  An `Agent` holds index-aligned API-key and search-engine-id lists and
  a forward-only cursor `currentKeyIdx`. `RotateAPIKey` moves the cursor
  to the next key if there is one. `Dork` walks the result pages of one
  query. The page cursor starts at 1, steps by 10 and is capped at 100.
  - On a quota response (403 or 429) it rotates the key and retries the
    same page. When no key is left, it returns the links gathered so far
    with "all API keys exhausted".
  - Any other failure returns no links at all.
  - An empty page ends the call successfully.

  The HTTP round trip is an oracle `server: Request -> Response`. The pure
  function `Run` is the reference definition of one `Dork` call; the
  `Dork` method is a `while` loop proved equal to it. Lemmas about `Run`
  state the protocol:
  - cursor bounds and monotonicity;
  - the chain of requests (retry on the same page, advance only after a
    non-empty 200 page);
  - how the last response ends the call;
  - which links come back;
  - the bound on pages and requests.
- **The runner rules** (`pkg/runner/runner.go`, module `Runner`):
  - the `NewRunner` loop that turns `google` entries `"key:id"` into two
    index-aligned lists, failing with "no valid google dork found" when
    none parses;
  - the `" site:" + domain` suffix and the per-line query;
  - the `result + "\n"` framing of the output;
  - the input priority of `RunEnumeration`.

  Go's `strings.Split` and `strings.Join` with a one-character separator
  are modelled in module `Text`, with their round-trip lemmas.

## Model

| member | source | states |
|---|---|---|
| `Text.Split` | pkg/runner/runner.go:47 | `strings.Split`: one more part than separators, and no part contains the separator |
| `Text.Join` | pkg/runner/runner.go:68 | `strings.Join`: separator-free parts are glued with exactly one separator fewer than there are parts |
| `Text.JoinSplit` | pkg/runner/runner.go:47 | joining the parts with the separator gives back the split string |
| `Text.SplitJoin` | pkg/runner/runner.go:68 | splitting a join of separator-free parts gives back the parts |
| `SearchAgent.Agent.constructor` | pkg/runner/agent.go:33-52 | `NewAgent` stores both lists and starts the cursor at key 0; equal non-empty lists give a valid agent |
| `SearchAgent.Rotate` | pkg/runner/agent.go:54-60 | `rotateAPIKey` on a cursor: it succeeds iff a next key exists, it moves the cursor exactly when it succeeds, by one step at most, and a cursor on a key stays on a key |
| `SearchAgent.Agent.RotateAPIKey` | pkg/runner/agent.go:54-60 | returns true and advances the cursor by exactly one iff `currentKeyIdx + 1 < len(APIKey)`, else returns false and leaves it; keeps the agent valid |
| `SearchAgent.RotationsClamp` | pkg/runner/agent.go:54-60 | after k rotations from key i the cursor is `min(i + k, N - 1)`: it never decreases and stays in `[0, N)` |
| `SearchAgent.RotateSucceedsIff` | pkg/runner/agent.go:50-60 | from key 0, rotation call number j + 1 succeeds iff j + 1 < N |
| `SearchAgent.ExhaustedForever` | pkg/runner/agent.go:50-60 | after N - 1 rotations from key 0 the cursor is on the last key and every further call returns false |
| `SearchAgent.Agent.Dork` | pkg/runner/agent.go:62-123 | returns the links and error of `Run` from the current key and start index 1 and leaves the cursor where `Run` ends; every request built uses the key and the search id at the same index; the cursor never decreases; exhaustion leaves it on the last key; errors other than exhaustion return no links |
| `SearchAgent.Run` | pkg/runner/agent.go:62-123 | the reference definition of one `Dork` call and has no contract of its own; its properties are the `Run…` lemmas below, and `Agent.Dork` is proved equal to it |
| `SearchAgent.Decide` | pkg/runner/agent.go:74-117 | the branches for one response: only a 403/429 with a key left retries, and it retries on the next key; moving to the next page always carries links |
| `SearchAgent.DecideLinks` | pkg/runner/agent.go:102-117 | a response's 200 page links are appended exactly when the loop moves to the next page |
| `SearchAgent.RunCursor` | pkg/runner/agent.go:64-66 | the final cursor is between the first one and the last key; every request's key index lies between the two and its start index is between the start and 100; exhaustion ends on the last key |
| `SearchAgent.RunChain` | pkg/runner/agent.go:66-120 | past the cap there is no request; otherwise the first request is at the current key and start index, and each next request either retries the same page with the next key after a 403/429, or asks for the next page (+10) with the same key after a non-empty 200 page |
| `SearchAgent.DecideEnds` | pkg/runner/agent.go:74-117 | a response that stops the loop maps to its error: request and transport failures, exhaustion only on the last key, the other status codes, decode failure, and success on an empty page; a full page on the last slot ends in success |
| `SearchAgent.RunEnds` | pkg/runner/agent.go:66-122 | at least one request is built; the call ends on the key of the last request, and its error is the one that last response calls for (success on an empty page or when the next page would pass 100) |
| `SearchAgent.RunDiscards` | pkg/runner/agent.go:75-107 | a request, transport, status or decode error returns no links |
| `SearchAgent.RunLinks` | pkg/runner/agent.go:82-122 | on success or exhaustion the links are the in-order concatenation of every 200 page's links; on a request, transport, status or decode error the links are empty |
| `SearchAgent.RunBounded` | pkg/runner/agent.go:16-17 | with `maxResults` = 100 and `resultsPerPage` = 10 (the constants `SearchAgent.MaxResults` and `SearchAgent.ResultsPerPage`): at most one non-empty page per open result slot (10 from start index 1), and at most the slots plus the remaining keys in requests: the loop terminates |
| `SearchAgent.AllQuotaExhausts` | pkg/runner/agent.go:88-95 | if every response is 403/429, each remaining key is tried once on the same page and the call ends with no links, the exhausted error and the cursor on the last key |
| `Runner.GoogleEntries` | pkg/runner/runner.go:46 | only `source["google"]` is read: entries exist only when that key does, and removing any other provider changes nothing |
| `Runner.GoogleOnly` | pkg/runner/runner.go:46 | adding or replacing another provider's entries leaves the `google` entries unchanged |
| `Runner.ParseEntry` | pkg/runner/runner.go:47-55 | an entry is kept iff it holds exactly one colon; then it is `key + ":" + id` and neither part holds a colon |
| `Runner.ParseEncoded` | pkg/runner/runner.go:47-55 | a colon-free key and id written as `"key:id"` parse back to the same credential |
| `Runner.Credentials` | pkg/runner/runner.go:46-55 | the credentials of the entries that parse, in entry order, never more than there are entries |
| `Runner.CredentialsAppend` | pkg/runner/runner.go:46-55 | entries are parsed one by one, so the parsed list keeps the input order |
| `Runner.CredentialsColonFree` | pkg/runner/runner.go:47-55 | no parsed key or search id contains a colon |
| `Runner.CredentialsEmptyIff` | pkg/runner/runner.go:46-57 | no credential survives iff no entry holds exactly one colon |
| `Runner.CredentialsRoundTrip` | pkg/runner/runner.go:46-55 | colon-free credentials written as `"key:id"` entries parse back to the same credentials |
| `Runner.CollectCredentials` | pkg/runner/runner.go:44-55 | the loop builds two equal-length lists whose i-th elements are the key and the id of the i-th entry that parses |
| `Runner.NewRunner` | pkg/runner/runner.go:44-60 | only the `google` entry is read; the result is the "no valid google dork found" error iff no entry parses, otherwise a fresh valid agent on key 0 whose lists are the parsed credentials |
| `Runner.SiteSuffix` | pkg/runner/runner.go:99-102 | the suffix is empty iff no domain is set; otherwise it is the `" site:"` operator followed by exactly the domain |
| `Runner.DorkQuery` | pkg/runner/runner.go:137 | the query for a scanned line and the `-d` domain: stripping the site suffix from it gives back exactly that line |
| `Runner.QueryLine` | pkg/runner/runner.go:137 | not in the source: the inverse of `DorkQuery` that its contract uses; whatever line it recovers, followed by the site suffix, is the query |
| `Runner.QueryInjective` | pkg/runner/runner.go:137 | distinct input lines give distinct queries |
| `Runner.Frame` | pkg/runner/runner.go:117 | writing one result adds exactly one newline; a newline-free result becomes one line, splitting into the result and the empty piece after it |
| `Runner.Framed` | pkg/runner/runner.go:115-124 | the output is empty iff there are no results, and otherwise ends with a newline |
| `Runner.FramedLines` | pkg/runner/runner.go:117 | the output of newline-free results has one newline per result and splits back into those results, followed by the empty piece after the last newline |
| `Runner.SelectInput` | pkg/runner/runner.go:66-84 | strict priority: the dork flags when set (even if empty), else the dorks file when named, else piped stdin, else nothing |
| `Runner.FlagDorksRoundTrip` | pkg/runner/runner.go:67-68 | the joined dork flags split back, line by line, into exactly the flag values |

## Left out

- HTTP, gzip and JSON: `http.NewRequest`, `Client.Do`, the 10-second timeout, proxy parsing, the headers, `url.QueryEscape` and the URL template become the `server` oracle. `RequestInvalid`, `TransportFailure` and a `Reply` with an `Undecodable` body stand for the three failures. The oracle is deterministic: the same request always gets the same response. So two requests with equal content get equal answers: with a duplicated `google` entry, two keys can build the same request.
- A body that is not gzip: the Go code ignores the error of `gzip.NewReader` and decodes from a nil reader, so it would panic. A panic has no counterpart here; `Undecodable` only stands for a JSON decode failure.
- `nil` versus empty slices: both are the empty sequence here.
- Concurrency in `EnumerateDorks` (pkg/runner/runner.go:104-169): the goroutines, the wait group, the semaphore, the results channel and the one-slot error channel. Their purpose is concurrency. The agent is modelled sequentially. This also leaves out the unsynchronised sharing of `currentKeyIdx` between goroutines.
- `Runner.Framed` concatenates results in the order the writer goroutine drains them. The interleaving of the queries is not modelled.
- `io.MultiWriter` to the output file, and writer failures, are not modelled.
- File and stream I/O: creating the configuration file, `UnmarshalFrom` (YAML), opening the dorks file, `bufio.Scanner` line splitting (`\r` stripping, no final empty line), and stdin detection. The configuration reaches `NewRunner` as an already-decoded map. Input lines reach `DorkQuery` one at a time.
- `SearchAgent.Agent.Dork`: requires `Valid()`. The Go `Dork` indexes both lists with the cursor and would panic on empty or misaligned lists. `NewRunner` builds the only agent from aligned, non-empty lists (pkg/runner/runner.go:56-59), and `RotateAPIKey` keeps the cursor below `len(APIKey)`, so `Valid()` holds at every `Dork` call.
- `Runner.NewRunner`: returns the agent in place of the `Runner` struct. The struct's `options` field is configuration plumbing.
- pkg/runner/options.go (flag parsing, `preProcessOptions`, whose `sanitize` is not part of this model) and pkg/runner/banner.go, pkg/runner/banners.go (banner and version printing): configuration and I/O only.
- Logging through `gologger`.
