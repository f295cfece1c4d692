/** The request inspector: stateless queries over the headers of an inbound
    htmx request. Three queries answer whether a marker header says "true";
    five return the first value of a header together with a presence flag. */
module Request {
  import Lo
  import opened Headers

  /** The inbound request's headers: each name maps to the values received
      under it, in the order they arrived. */
  type HeaderMap = map<string, seq<string>>

  /** Indexing the header map. A name that was not received gives the empty
      list, as indexing a Go map of slices gives a nil slice. */
  function Values(h: HeaderMap, name: string): (r: seq<string>)
    ensures name in h ==> r == h[name]
    ensures name !in h ==> r == []
  {
    if name in h then h[name] else []
  }

  /** True iff one of the values is exactly the string "true": no case
      folding, no trimming. */
  function HasHeaderTrue(header: seq<string>): (r: bool)
    ensures r <==> "true" in header
  {
    Lo.ContainsBy(header, (item: string) => item == "true")
  }

  /** The first value and whether there is one; "" when there is none. */
  function GetHeaderValue(header: seq<string>): (r: (string, bool))
    ensures r.1 <==> header != []
    ensures r.0 == if header != [] then header[0] else ""
  {
    Lo.First(header, "")
  }

  /** Was the request made by htmx? */
  function IsHTMX(h: HeaderMap): (r: bool)
    ensures r <==> HeaderRequest in h && "true" in h[HeaderRequest]
  {
    HasHeaderTrue(Values(h, HeaderRequest))
  }

  /** Was the request made through an element using hx-boost? */
  function IsBoosted(h: HeaderMap): (r: bool)
    ensures r <==> HeaderBoosted in h && "true" in h[HeaderBoosted]
  {
    HasHeaderTrue(Values(h, HeaderBoosted))
  }

  /** Is the request restoring history after a miss in the local history cache? */
  function IsHistoryRestoreRequest(h: HeaderMap): (r: bool)
    ensures r <==> HeaderHistoryRestoreRequest in h && "true" in h[HeaderHistoryRestoreRequest]
  {
    HasHeaderTrue(Values(h, HeaderHistoryRestoreRequest))
  }

  /** The URL of the page htmx made the request from. */
  function GetCurrentURL(h: HeaderMap): (r: (string, bool))
    ensures r.1 <==> HeaderCurrentURL in h && h[HeaderCurrentURL] != []
    ensures r.1 ==> r.0 == h[HeaderCurrentURL][0]
    ensures !r.1 ==> r.0 == ""
  {
    Lo.First(Values(h, HeaderCurrentURL), "")
  }

  /** The user's answer to an hx-prompt. */
  function GetPrompt(h: HeaderMap): (r: (string, bool))
    ensures r.1 <==> HeaderPrompt in h && h[HeaderPrompt] != []
    ensures r.1 ==> r.0 == h[HeaderPrompt][0]
    ensures !r.1 ==> r.0 == ""
  {
    Lo.First(Values(h, HeaderPrompt), "")
  }

  /** The id of the target element. */
  function GetTarget(h: HeaderMap): (r: (string, bool))
    ensures r.1 <==> HeaderTarget in h && h[HeaderTarget] != []
    ensures r.1 ==> r.0 == h[HeaderTarget][0]
    ensures !r.1 ==> r.0 == ""
  {
    Lo.First(Values(h, HeaderTarget), "")
  }

  /** The name attribute of the element that triggered the request. */
  function GetTriggerName(h: HeaderMap): (r: (string, bool))
    ensures r.1 <==> HeaderTriggerName in h && h[HeaderTriggerName] != []
    ensures r.1 ==> r.0 == h[HeaderTriggerName][0]
    ensures !r.1 ==> r.0 == ""
  {
    Lo.First(Values(h, HeaderTriggerName), "")
  }

  /** The id of the element that triggered the request. */
  function GetTrigger(h: HeaderMap): (r: (string, bool))
    ensures r.1 <==> HeaderTrigger in h && h[HeaderTrigger] != []
    ensures r.1 ==> r.0 == h[HeaderTrigger][0]
    ensures !r.1 ==> r.0 == ""
  {
    Lo.First(Values(h, HeaderTrigger), "")
  }

  // ---------------------------------------------------------------------
  // Properties of the boolean queries

  /** Spellings that are not exactly "true" never count. */
  lemma HasHeaderTrueIsExact()
    ensures !HasHeaderTrue(["TRUE", "True", " true", "true ", "false", "1", ""])
    ensures HasHeaderTrue(["false", "true"])
  {
    assert ["false", "true"][1] == "true";
  }

  /** Only which values occur matters: reordering the values does not change
      the answer, and appending values can only turn false into true. */
  lemma HasHeaderTrueOrderAndAppend(xs: seq<string>, ys: seq<string>)
    ensures multiset(xs) == multiset(ys) ==> HasHeaderTrue(xs) == HasHeaderTrue(ys)
    ensures HasHeaderTrue(xs + ys) <==> HasHeaderTrue(xs) || HasHeaderTrue(ys)
  {
    var isTrue := (item: string) => item == "true";
    if multiset(xs) == multiset(ys) {
      Lo.ContainsByPermutation(xs, ys, isTrue);
    }
    Lo.ContainsByAppend(xs, ys, isTrue);
  }

  // ---------------------------------------------------------------------
  // Properties of the value queries

  /** GetHeaderValue, which the getters do not call, computes exactly what
      each getter computes from that getter's own header. */
  lemma GettersAreGetHeaderValue(h: HeaderMap)
    ensures GetCurrentURL(h) == GetHeaderValue(Values(h, HeaderCurrentURL))
    ensures GetPrompt(h) == GetHeaderValue(Values(h, HeaderPrompt))
    ensures GetTarget(h) == GetHeaderValue(Values(h, HeaderTarget))
    ensures GetTriggerName(h) == GetHeaderValue(Values(h, HeaderTriggerName))
    ensures GetTrigger(h) == GetHeaderValue(Values(h, HeaderTrigger))
  {
  }

  /** When a header repeats, the first value wins and later ones are ignored. */
  lemma GettersTakeFirstValue(h: HeaderMap, v: string, rest: seq<string>)
    ensures GetCurrentURL(h[HeaderCurrentURL := [v] + rest]) == (v, true)
    ensures GetPrompt(h[HeaderPrompt := [v] + rest]) == (v, true)
    ensures GetTarget(h[HeaderTarget := [v] + rest]) == (v, true)
    ensures GetTriggerName(h[HeaderTriggerName := [v] + rest]) == (v, true)
    ensures GetTrigger(h[HeaderTrigger := [v] + rest]) == (v, true)
  {
  }

  /** A header name present with an empty list of values is reported exactly
      as a header that was never sent. */
  lemma EmptyValueListReadsAsAbsent(h: HeaderMap)
    ensures GetCurrentURL(h[HeaderCurrentURL := []]) == GetCurrentURL(h - {HeaderCurrentURL}) == ("", false)
    ensures GetPrompt(h[HeaderPrompt := []]) == GetPrompt(h - {HeaderPrompt}) == ("", false)
    ensures GetTarget(h[HeaderTarget := []]) == GetTarget(h - {HeaderTarget}) == ("", false)
    ensures GetTriggerName(h[HeaderTriggerName := []]) == GetTriggerName(h - {HeaderTriggerName}) == ("", false)
    ensures GetTrigger(h[HeaderTrigger := []]) == GetTrigger(h - {HeaderTrigger}) == ("", false)
    ensures !IsHTMX(h[HeaderRequest := []]) && !IsHTMX(h - {HeaderRequest})
    ensures !IsBoosted(h[HeaderBoosted := []]) && !IsBoosted(h - {HeaderBoosted})
    ensures !IsHistoryRestoreRequest(h[HeaderHistoryRestoreRequest := []])
    ensures !IsHistoryRestoreRequest(h - {HeaderHistoryRestoreRequest})
  {
  }

  // ---------------------------------------------------------------------
  // Each query reads its own header and nothing else

  /** Two header maps that agree on a query's header give the same answer to
      that query, whatever else they hold. */
  lemma QueriesReadOnlyOwnHeader(h: HeaderMap, g: HeaderMap)
    ensures Values(h, HeaderRequest) == Values(g, HeaderRequest) ==> IsHTMX(h) == IsHTMX(g)
    ensures Values(h, HeaderBoosted) == Values(g, HeaderBoosted) ==> IsBoosted(h) == IsBoosted(g)
    ensures Values(h, HeaderHistoryRestoreRequest) == Values(g, HeaderHistoryRestoreRequest) ==>
              IsHistoryRestoreRequest(h) == IsHistoryRestoreRequest(g)
    ensures Values(h, HeaderCurrentURL) == Values(g, HeaderCurrentURL) ==> GetCurrentURL(h) == GetCurrentURL(g)
    ensures Values(h, HeaderPrompt) == Values(g, HeaderPrompt) ==> GetPrompt(h) == GetPrompt(g)
    ensures Values(h, HeaderTarget) == Values(g, HeaderTarget) ==> GetTarget(h) == GetTarget(g)
    ensures Values(h, HeaderTriggerName) == Values(g, HeaderTriggerName) ==> GetTriggerName(h) == GetTriggerName(g)
    ensures Values(h, HeaderTrigger) == Values(g, HeaderTrigger) ==> GetTrigger(h) == GetTrigger(g)
  {
  }

  /** All eight queries give the same answers on both header maps. */
  predicate SameAnswers(h: HeaderMap, g: HeaderMap)
  {
    && IsHTMX(h) == IsHTMX(g)
    && IsBoosted(h) == IsBoosted(g)
    && IsHistoryRestoreRequest(h) == IsHistoryRestoreRequest(g)
    && GetCurrentURL(h) == GetCurrentURL(g)
    && GetPrompt(h) == GetPrompt(g)
    && GetTarget(h) == GetTarget(g)
    && GetTriggerName(h) == GetTriggerName(g)
    && GetTrigger(h) == GetTrigger(g)
  }

  /** Setting or removing any header that no query reads changes no answer. */
  lemma OtherHeadersAreIgnored(h: HeaderMap, name: string, vs: seq<string>)
    requires name !in RequestHeaders
    ensures SameAnswers(h, h[name := vs])
    ensures SameAnswers(h, h - {name})
  {
    forall k | k in RequestHeaders
      ensures Values(h, k) == Values(h[name := vs], k) == Values(h - {name}, k)
    {
      assert k != name;
    }
    QueriesReadOnlyOwnHeader(h, h[name := vs]);
    QueriesReadOnlyOwnHeader(h, h - {name});
  }

  /** HX-Trigger and HX-Trigger-Name are different headers: either may be
      present while the other is absent, despite the shared prefix. */
  lemma TriggerAndTriggerNameAreIndependent()
    ensures exists h: HeaderMap :: GetTrigger(h).1 && !GetTriggerName(h).1
    ensures exists h: HeaderMap :: GetTriggerName(h).1 && !GetTrigger(h).1
  {
    var onlyTrigger: HeaderMap := map[HeaderTrigger := ["save-button"]];
    assert GetTrigger(onlyTrigger).1 && !GetTriggerName(onlyTrigger).1;
    var onlyName: HeaderMap := map[HeaderTriggerName := ["save"]];
    assert GetTriggerName(onlyName).1 && !GetTrigger(onlyName).1;
  }
}
