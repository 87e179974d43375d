/** The parts of an axios request that the two refresh interceptors read and write. */
module Http {
  import opened Wrappers
  import opened Text

  /**
   * A request configuration: its URL, its `Authorization` header as the interceptor sees it
   * (None when absent) and the `_retry` marker the interceptors attach.
   */
  datatype Request = Request(url: string, authorization: Option<string>, retry: bool)

  /** The credential-refresh endpoint. */
  const RefreshPath := "/api/auth/refresh"

  /** `originalRequest.url?.includes("/api/auth/refresh")`. */
  predicate IsRefreshCall(r: Request) {
    Contains(r.url, RefreshPath)
  }

  /** The header value for a bearer credential. */
  function Bearer(token: string): string {
    "Bearer " + token
  }

  /** The status code of a 401 response. */
  const Unauthorized := 401
}
