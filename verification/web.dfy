/** What every handler shares: the outcome of a request (the response and the store
    it leaves behind) and fiber's query-string lookup. */
module Web {
  import opened Store
  import opened Response

  datatype Outcome = Outcome(response: HttpResponse, db: Db)

  /** `c.Query(key, default)`: the default stands in for an absent or empty value. */
  function QueryValue(q: map<string, string>, key: string, default: string): string {
    if key in q && q[key] != "" then q[key] else default
  }
}
