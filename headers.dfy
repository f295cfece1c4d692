/** Names of the request headers the inspector reads. The Go file that declares
    these constants is not part of this model; the names are the ones the doc
    comments of request.go give for each query. */
module Headers {

  const HeaderRequest: string := "HX-Request"
  const HeaderBoosted: string := "HX-Boosted"
  const HeaderHistoryRestoreRequest: string := "HX-History-Restore-Request"
  const HeaderCurrentURL: string := "HX-Current-URL"
  const HeaderPrompt: string := "HX-Prompt"
  const HeaderTarget: string := "HX-Target"
  const HeaderTriggerName: string := "HX-Trigger-Name"
  const HeaderTrigger: string := "HX-Trigger"

  /** Every header name some request query reads. */
  const RequestHeaders: set<string> := {
    HeaderRequest, HeaderBoosted, HeaderHistoryRestoreRequest, HeaderCurrentURL,
    HeaderPrompt, HeaderTarget, HeaderTriggerName, HeaderTrigger
  }
}
