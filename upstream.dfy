/**
 * The upstream research/generation provider, seen from a handler: each call
 * either resolves to a response (a status and a parsed body) or throws.
 */
module Upstream {

  /** What one `fetch` call does: resolve to a response, or throw. */
  datatype Fetched<B> = Response(status: int, body: B) | Threw

  /** `res.ok` */
  predicate IsOk(status: int) {
    200 <= status <= 299
  }
}
