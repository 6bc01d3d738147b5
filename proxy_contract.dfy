/** The value the proxy hands back to its callers (`APIResponse` in the WCF contract). */
module ProxyContract {
  import opened Wrappers

  /** `Status` is the HTTP status code; `body` is the `Reponse` property, `None` when never assigned. */
  datatype ApiResponse = ApiResponse(status: int, body: Option<string>)
}
