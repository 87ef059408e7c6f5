/** The call to the Currency Beacon API made by `fetchRates`: one GET of the
    latest USD-based rates, a status check, and the copy of `response.rates`
    into a plain table. The HTTP client itself is not modelled: the request
    it would send is an output and the response it returns is an input. */
module Upstream {
  import opened Wrappers
  import opened Rates

  /** A request handed to the HTTP client. */
  datatype Request = Request(verb: string, path: string, params: map<string, string>)

  /** The only request the provider ever sends: the latest rates against USD. */
  const LatestRequest: Request := Request("GET", "/v1/latest", map["base" := "USD"])

  /** The status code and the already decoded `response.rates` members.
      The body is only read when the status is 200. */
  datatype Response = Response(status: int, rates: seq<Entry>)

  /** The status check and the copy of the decoded rates. */
  function Fetch(resp: Response): (r: Result<RateMap, Error>)
    ensures r.Failure? <==> resp.status != 200
    ensures r.Failure? ==> r.error == FetchFailed
    ensures r.Success? ==> r.value.Keys == Codes(resp.rates)
    ensures r.Success? ==> forall i :: IsLast(resp.rates, i) ==> r.value[resp.rates[i].code] == resp.rates[i].rate
  {
    if resp.status != 200 then Failure(FetchFailed)
    else
      AllLastWin(resp.rates);
      Success(Flatten(resp.rates))
  }

  /** Every member that is the last with its code is kept in the table. */
  lemma AllLastWin(es: seq<Entry>)
    ensures forall i :: IsLast(es, i) ==> es[i].code in Flatten(es) && Flatten(es)[es[i].code] == es[i].rate
  {
    forall i | IsLast(es, i) ensures es[i].code in Flatten(es) && Flatten(es)[es[i].code] == es[i].rate {
      FlattenLastWins(es, i);
    }
  }

  /** The `foreach` that copies each member of `response.rates` into a fresh
      array: the result is the table `Flatten` describes, keyed by exactly
      the codes of the response. */
  method CopyRates(es: seq<Entry>) returns (m: RateMap)
    ensures m == Flatten(es)
    ensures m.Keys == Codes(es)
  {
    m := map[];
    for i := 0 to |es|
      invariant m == Flatten(es[..i])
    {
      assert es[..i + 1][..i] == es[..i];
      m := m[es[i].code := es[i].rate];
    }
    assert es[..|es|] == es;
  }
}
