/**
 * The sequential rules of pkg/runner/runner.go: turning the `google`
 * credential entries into index-aligned key and search-id lists
 * (`NewRunner`), the `site:` suffix and per-line query (`EnumerateDorks`),
 * the newline framing of every result, and the input choice of
 * `RunEnumeration`.
 */
module Runner {
  import opened Wrappers
  import opened Text
  import SearchAgent

  /** The only provider entry of the configuration that is read. */
  const GoogleProvider := "google"
  const NoValidDorkFound := "no valid google dork found"

  datatype Credential = Credential(key: string, searchId: string)

  /** `source["google"]`: a missing entry reads as an empty list. */
  function GoogleEntries(source: map<string, seq<string>>): (values: seq<string>)
    ensures values != [] ==> GoogleProvider in source
    ensures forall p :: p in source && p != GoogleProvider ==> GoogleEntries(source - {p}) == values
  {
    if GoogleProvider in source then source[GoogleProvider] else []
  }

  /** Entries under any other provider never matter. */
  lemma GoogleOnly(source: map<string, seq<string>>, provider: string, entries: seq<string>)
    requires provider != GoogleProvider
    ensures GoogleEntries(source[provider := entries]) == GoogleEntries(source)
  {
  }

  /**
   * One configuration entry: kept only when `strings.Split(value, ":")`
   * yields exactly two parts, i.e. when it holds exactly one colon.
   */
  function ParseEntry(value: string): (r: Option<Credential>)
    ensures r.Some? <==> Count(value, ':') == 1
    ensures r.Some? ==> value == r.value.key + ":" + r.value.searchId
    ensures r.Some? ==> ':' !in r.value.key && ':' !in r.value.searchId
  {
    var parts := Split(value, ':');
    JoinSplit(value, ':');
    if |parts| == 2 then
      assert Join(parts, ':') == parts[0] + [':'] + Join(parts[1..], ':');
      Some(Credential(parts[0], parts[1]))
    else None
  }

  /** The credentials of the entries that parse, in entry order. */
  function Credentials(values: seq<string>): (cs: seq<Credential>)
    ensures |cs| <= |values|
  {
    if |values| == 0 then []
    else
      var init := Credentials(values[..|values| - 1]);
      match ParseEntry(values[|values| - 1])
      case Some(c) => init + [c]
      case None => init
  }

  /** The entry a credential is written as in the configuration. */
  function Encode(c: Credential): string
  {
    c.key + ":" + c.searchId
  }

  function EncodeAll(cs: seq<Credential>): (values: seq<string>)
    ensures |values| == |cs|
    ensures forall i :: 0 <= i < |cs| ==> values[i] == Encode(cs[i])
  {
    if |cs| == 0 then [] else EncodeAll(cs[..|cs| - 1]) + [Encode(cs[|cs| - 1])]
  }

  /** A colon-free credential written as "key:id" parses back to itself. */
  lemma ParseEncoded(c: Credential)
    requires ':' !in c.key && ':' !in c.searchId
    ensures ParseEntry(Encode(c)) == Some(c)
  {
    SplitAppend(c.key, ':', c.searchId);
    SplitNoSeparator(c.searchId, ':');
    assert Encode(c) == c.key + [':'] + c.searchId;
  }

  /** Parsing is applied entry by entry: the order of entries is kept. */
  lemma {:induction false} CredentialsAppend(a: seq<string>, b: seq<string>)
    ensures Credentials(a + b) == Credentials(a) + Credentials(b)
    decreases |b|
  {
    if |b| > 0 {
      var ab := a + b;
      assert ab[..|ab| - 1] == a + b[..|b| - 1];
      assert ab[|ab| - 1] == b[|b| - 1];
      CredentialsAppend(a, b[..|b| - 1]);
    } else {
      assert a + b == a;
    }
  }

  /** No parsed key or search id holds a colon. */
  lemma {:induction false} CredentialsColonFree(values: seq<string>)
    ensures forall i :: 0 <= i < |Credentials(values)| ==>
      ':' !in Credentials(values)[i].key && ':' !in Credentials(values)[i].searchId
    decreases |values|
  {
    if |values| > 0 {
      CredentialsColonFree(values[..|values| - 1]);
    }
  }

  /** No credential survives iff no entry holds exactly one colon. */
  lemma {:induction false} CredentialsEmptyIff(values: seq<string>)
    ensures Credentials(values) == [] <==> forall j :: 0 <= j < |values| ==> Count(values[j], ':') != 1
    decreases |values|
  {
    if |values| > 0 {
      var init := values[..|values| - 1];
      CredentialsEmptyIff(init);
      assert forall j :: 0 <= j < |init| ==> init[j] == values[j];
    }
  }

  /** Writing colon-free credentials as "key:id" entries and parsing them gives them back. */
  lemma {:induction false} CredentialsRoundTrip(cs: seq<Credential>)
    requires forall i :: 0 <= i < |cs| ==> ':' !in cs[i].key && ':' !in cs[i].searchId
    ensures Credentials(EncodeAll(cs)) == cs
    decreases |cs|
  {
    if |cs| > 0 {
      var init, c := cs[..|cs| - 1], cs[|cs| - 1];
      var values := EncodeAll(cs);
      assert values[..|values| - 1] == EncodeAll(init) && values[|values| - 1] == Encode(c);
      ParseEncoded(c);
      assert Credentials(values) == Credentials(EncodeAll(init)) + [c];
      CredentialsRoundTrip(init);
      assert init + [c] == cs;
    }
  }

  /**
   * The parsing loop of `NewRunner`: split each entry on ":" and keep the
   * two parts of every entry that has exactly two.
   */
  method CollectCredentials(values: seq<string>) returns (apiKeys: seq<string>, searchIds: seq<string>)
    ensures |apiKeys| == |searchIds| == |Credentials(values)|
    ensures forall i :: 0 <= i < |apiKeys| ==> Credentials(values)[i] == Credential(apiKeys[i], searchIds[i])
  {
    apiKeys, searchIds := [], [];
    for i := 0 to |values|
      invariant |apiKeys| == |searchIds| == |Credentials(values[..i])|
      invariant forall j :: 0 <= j < |apiKeys| ==> Credentials(values[..i])[j] == Credential(apiKeys[j], searchIds[j])
    {
      assert values[..i + 1][..i] == values[..i];
      var keys := Split(values[i], ':');
      if |keys| != 2 {
        continue;
      }
      apiKeys := apiKeys + [keys[0]];
      searchIds := searchIds + [keys[1]];
    }
    assert values[..|values|] == values;
  }

  /**
   * `NewRunner` from the decoded configuration: fails when no `google`
   * entry parses, and otherwise builds an agent on the first key.
   */
  method NewRunner(source: map<string, seq<string>>) returns (r: Result<SearchAgent.Agent, string>)
    ensures r.Failure? <==> Credentials(GoogleEntries(source)) == []
    ensures r.Failure? ==> r.error == NoValidDorkFound
    ensures r.Success? ==>
      var cs := Credentials(GoogleEntries(source));
      var agent := r.value;
      fresh(agent) && agent.Valid() && agent.currentKeyIdx == 0 &&
      |agent.APIKey| == |cs| &&
      forall i :: 0 <= i < |cs| ==> cs[i] == Credential(agent.APIKey[i], agent.SearchEngineID[i])
  {
    var apiKeys, searchIds := CollectCredentials(GoogleEntries(source));
    if |apiKeys| == 0 || |searchIds| == 0 {
      return Failure(NoValidDorkFound);
    }
    var agent := new SearchAgent.Agent(apiKeys, searchIds);
    return Success(agent);
  }

  // ---------------------------------------------------------------------
  // Queries and output

  /** The suffix that restricts every query to `domain`, if one is set. */
  function SiteSuffix(domain: string): (suffix: string)
    ensures suffix == "" <==> domain == ""
    ensures domain != "" ==>
      |suffix| == |" site:"| + |domain| && suffix[..|" site:"|] == " site:" && suffix[|" site:"|..] == domain
  {
    if domain != "" then " site:" + domain else ""
  }

  /**
   * The input line of a query for `domain`: the query without its site
   * suffix, or nothing when the query does not end with that suffix.
   */
  function QueryLine(q: string, domain: string): (line: Option<string>)
    ensures line.Some? ==> q == line.value + SiteSuffix(domain)
  {
    var site := SiteSuffix(domain);
    if |site| <= |q| && q[|q| - |site|..] == site then Some(q[..|q| - |site|]) else None
  }

  /** The query sent for one scanned input line: its line can be read back from it. */
  function DorkQuery(line: string, domain: string): (q: string)
    ensures QueryLine(q, domain) == Some(line)
  {
    var q := line + SiteSuffix(domain);
    assert q[|q| - |SiteSuffix(domain)|..] == SiteSuffix(domain);
    assert q[..|q| - |SiteSuffix(domain)|] == line;
    q
  }

  /** Distinct input lines give distinct queries. */
  lemma QueryInjective(line1: string, line2: string, domain: string)
    requires DorkQuery(line1, domain) == DorkQuery(line2, domain)
    ensures line1 == line2
  {
    assert Some(line1) == QueryLine(DorkQuery(line1, domain), domain) == Some(line2);
  }

  /**
   * What is written for one result: a newline-free result becomes exactly
   * one line, and the written text holds one more newline than the result.
   */
  function Frame(result: string): (f: string)
    ensures Count(f, '\n') == Count(result, '\n') + 1
    ensures '\n' !in result ==> Split(f, '\n') == [result, ""]
  {
    CountAppend(result, "\n", '\n');
    assert Count("\n", '\n') == 1;
    if '\n' !in result then
      SplitAppend(result, '\n', "");
      assert result + ['\n'] + "" == result + "\n";
      result + "\n"
    else result + "\n"
  }

  /** Everything written for `results`, in the order they are drained. */
  function Framed(results: seq<string>): (out: string)
    ensures results == [] <==> out == ""
    ensures results != [] ==> out[|out| - 1] == '\n'
  {
    if |results| == 0 then "" else Frame(results[0]) + Framed(results[1..])
  }

  /**
   * The output holds one line per result: split on newlines it gives the
   * results back, followed by the empty text after the last newline.
   */
  lemma {:induction false} FramedLines(results: seq<string>)
    requires forall i :: 0 <= i < |results| ==> '\n' !in results[i]
    ensures Split(Framed(results), '\n') == results + [""]
    ensures Count(Framed(results), '\n') == |results|
  {
    if |results| > 0 {
      FramedLines(results[1..]);
      assert Frame(results[0]) + Framed(results[1..]) == results[0] + ['\n'] + Framed(results[1..]);
      SplitAppend(results[0], '\n', Framed(results[1..]));
      assert [results[0]] + (results[1..] + [""]) == results + [""];
    }
  }

  // ---------------------------------------------------------------------
  // Input selection

  datatype InputSource =
    | DorkFlags(text: string)    // the -dork values, joined with "\n"
    | DorksFile(path: string)    // the -list file
    | Stdin                      // piped standard input
    | NoInput                    // nothing to enumerate: nil error

  /**
   * `RunEnumeration`: the dork flags win over the dorks file, which wins
   * over piped standard input.
   */
  function SelectInput(dork: Option<seq<string>>, dorksFile: string, stdin: bool): (src: InputSource)
    ensures src.DorkFlags? <==> dork.Some?
    ensures src.DorksFile? <==> dork.None? && dorksFile != ""
    ensures src.Stdin? <==> dork.None? && dorksFile == "" && stdin
    ensures src.NoInput? <==> dork.None? && dorksFile == "" && !stdin
    ensures src.DorksFile? ==> src.path == dorksFile
  {
    if dork.Some? then DorkFlags(Join(dork.value, '\n'))
    else if dorksFile != "" then DorksFile(dorksFile)
    else if stdin then Stdin
    else NoInput
  }

  /**
   * `strings.Split` on "\n" gives back exactly the joined dork flag values.
   * The `bufio.Scanner` that reads the text also strips a trailing '\r' and
   * drops a final empty value; that reader is not part of this model.
   */
  lemma FlagDorksRoundTrip(dorks: seq<string>, dorksFile: string, stdin: bool)
    requires |dorks| > 0
    requires forall i :: 0 <= i < |dorks| ==> '\n' !in dorks[i]
    ensures Split(SelectInput(Some(dorks), dorksFile, stdin).text, '\n') == dorks
  {
    SplitJoin(dorks, '\n');
  }
}
