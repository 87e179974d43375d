/**
 * Where the two refresh interceptors part ways on the same failed response
 * (src/app/api/axios.ts:46-66 against src/utils/apiClient.ts:39-59).
 */
module PipelineDivergence {
  import opened Wrappers
  import opened Http
  import BearerPipeline
  import CookiePipeline

  /**
   * On a 401 in a browser, a retried request or a call to the refresh endpoint is rejected
   * unchanged by the bearer pipeline but logs the user out in the cookie pipeline; on every
   * other failed response the two make the same choice.
   */
  lemma Divergence(req: Request, status: Option<int>, inBrowser: bool, refreshing: bool)
    ensures var b := BearerPipeline.Decide(req, status, inBrowser, refreshing);
            var c := CookiePipeline.Decide(req, status, inBrowser, refreshing);
      && (c == CookiePipeline.ForceLogin <==> b == BearerPipeline.PassThrough && inBrowser && status == Some(Unauthorized))
      && (c == CookiePipeline.PassThrough <==> b == BearerPipeline.PassThrough && !(inBrowser && status == Some(Unauthorized)))
      && (c == CookiePipeline.Enqueue <==> b == BearerPipeline.Enqueue)
      && (c == CookiePipeline.StartRefresh <==> b == BearerPipeline.StartRefresh)
  {
  }
}
