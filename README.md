# htmx-gofiber request inspector, in Dafny

This project models the request side of htmx-gofiber, a Go helper library for
serving htmx from the fiber web framework. The modelled part is the request
inspector in `request.go`: stateless queries that read the protocol headers of
an inbound request.

- Three queries answer whether a marker header says "true": `IsHTMX`
  (`HX-Request`), `IsBoosted` (`HX-Boosted`) and `IsHistoryRestoreRequest`
  (`HX-History-Restore-Request`). They hold iff some value of that header is
  exactly the string `true`.
- Five getters return `(first value, true)` for a header that has a value and
  `("", false)` otherwise: `GetCurrentURL` (`HX-Current-URL`), `GetPrompt`
  (`HX-Prompt`), `GetTarget` (`HX-Target`), `GetTriggerName`
  (`HX-Trigger-Name`) and `GetTrigger` (`HX-Trigger`).

The request's headers are a `map<string, seq<string>>` from header name to the
values received under it. A missing name reads as the empty list, as a Go map
of slices gives a nil slice. The two samber/lo helpers the code calls,
`ContainsBy` and `First`, are modelled by their observable results in module
`Lo`. Go's zero value for `First` on an empty slice is passed in explicitly.

Modules:
- `lo.dfy` (`Lo`): `ContainsBy`, `First` and their lemmas.
- `headers.dfy` (`Headers`): the eight request header names.
- `request.dfy` (`Request`): the ten functions of `request.go` and their properties.

The doc comments of `request.go` say that each getter returns false if its
header does not exist. The code also returns false for a name that is present
with an empty list of values, a case the header map admits; the marker queries
likewise read such a name as false. `EmptyValueListReadsAsAbsent` states this
for all eight queries.

## Model

| member | source | states |
|---|---|---|
| Lo.ContainsBy | request.go:9-11 | the result is true iff some element of the list satisfies the predicate |
| Lo.First | request.go:15 | the flag is true iff the list is non-empty; the value is then the first element, otherwise the zero value |
| Lo.ContainsByAppend | request.go:9-11 | searching `xs + ys` finds a match iff searching `xs` or searching `ys` does |
| Lo.ContainsBySameElements | request.go:9-11 | two lists with the same elements give the same answer, whatever the order or repetition |
| Lo.ContainsByPermutation | request.go:9-11 | reordering the list (same multiset) does not change the answer |
| Lo.FirstOfAppend | request.go:15 | for a non-empty `xs`, `First(xs + ys)` is `(xs[0], true)`, as is `First(xs)` |
| Request.Values | request.go:24-89 | indexing the header map: a received name gives its list of values, a missing name gives the empty list (Go's nil slice); every query reads its header through it |
| Request.HasHeaderTrue | request.go:8-12 | true iff the exact string "true" is among the values |
| Request.GetHeaderValue | request.go:14-16 | the flag is true iff there is a value; the value is the first one, or "" when there is none |
| Request.IsHTMX | request.go:24-26 | true iff `HX-Request` was received and one of its values is exactly "true" |
| Request.IsBoosted | request.go:36-38 | true iff `HX-Boosted` was received and one of its values is exactly "true" |
| Request.IsHistoryRestoreRequest | request.go:44-46 | true iff `HX-History-Restore-Request` was received and one of its values is exactly "true" |
| Request.GetCurrentURL | request.go:51-53 | flag true iff `HX-Current-URL` has a value; then its first value, otherwise "" |
| Request.GetPrompt | request.go:60-62 | flag true iff `HX-Prompt` has a value; then its first value, otherwise "" |
| Request.GetTarget | request.go:69-71 | flag true iff `HX-Target` has a value; then its first value, otherwise "" |
| Request.GetTriggerName | request.go:78-80 | flag true iff `HX-Trigger-Name` has a value; then its first value, otherwise "" |
| Request.GetTrigger | request.go:87-89 | flag true iff `HX-Trigger` has a value; then its first value, otherwise "" |
| Request.HasHeaderTrueIsExact | request.go:10 | concrete instances: a list of the near misses "TRUE", "True", " true", "true ", "false", "1" and "" reads false, and a list with "true" in second place reads true; the all-lists statement is `HasHeaderTrue`'s contract |
| Request.HasHeaderTrueOrderAndAppend | request.go:9-11 | reordering the values does not change the answer; a concatenation holds "true" iff one of its parts does, so appending values can only turn false into true |
| Request.GettersAreGetHeaderValue | request.go:14-16 | each getter's result equals `GetHeaderValue` applied to its own header's values |
| Request.GettersTakeFirstValue | request.go:51-89 | when a header carries `[v] + rest`, every getter returns `(v, true)` whatever `rest` holds |
| Request.EmptyValueListReadsAsAbsent | request.go:24-89 | for each of the eight queries, a header name present with no values reads like a header never sent: `("", false)` from each of the five getters, false from each of the three marker queries |
| Request.QueriesReadOnlyOwnHeader | request.go:24-89 | two header maps with the same values under a query's header give that query the same answer |
| Request.OtherHeadersAreIgnored | request.go:24-89 | setting or removing a header that no query reads leaves all eight answers unchanged |
| Request.TriggerAndTriggerNameAreIndependent | request.go:78-89 | there are requests where `GetTrigger` finds its header and `GetTriggerName` does not, and the reverse |

## Left out

- The Go file declaring the header-name constants is not part of this model. The names are the ones the doc comments of `request.go` give.
- The fiber context (`c.Req().GetHeaders()`) is HTTP I/O. It is replaced by a plain header map. Any canonicalisation of header-name case done by the host framework is not modelled: keys are compared exactly.
- The samber/lo library is modelled only by the results of `ContainsBy` and `First`, not by their loops.
- The response builder, swap specification, location directive and trigger encoding are not in `request.go`, and their source is not part of this model. `response_test.go` only exercises them; `example/main.go` demonstrates them and also calls `IsHTMX` once, at example/main.go:33, as a handler guard.
