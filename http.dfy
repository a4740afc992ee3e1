/** What a `fetch(url)` followed by `response.json()` hands back to the scripts.
    The network itself is not modelled: callers receive these values as canned
    answers, one per URL. */
module Http {

  /** `Rejected`: the promise of `fetch` or of `response.json()` rejected
      (transport failure, body that is not JSON).
      `Answered`: a response arrived with this status and this parsed body. */
  datatype Fetched<T> = Rejected | Answered(status: int, body: T) {

    /** `response.ok`, which the Fetch standard defines as a status in 200..299. */
    predicate Ok() {
      Answered? && 200 <= status <= 299
    }
  }
}
