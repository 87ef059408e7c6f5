/** Properties of the cache-aside lookup, each relating the step functions to
    the conditions the provider documents: when a table is served, what a miss
    emits, how failures surface, and what repeated calls do. */
module BeaconProperties {
  import opened Wrappers
  import opened Rates
  import opened Upstream
  import opened CurrencyBeacon

  /** The name is the same for every state of the instance. */
  lemma NameIgnoresState(p: Provider, q: Provider)
    ensures Name(p) == Name(q) == "Currency Beacon"
  {
  }

  /** No request is sent exactly when the stored table is non-empty, the
      stored timestamp is set and non-zero, and it is at most 4 hours old. */
  lemma HitIffFresh(p: Provider, checkNow: int, saveNow: int, resp: Response)
    ensures GetRates(p, checkNow, saveNow, resp).sent == [] <==>
      && p.rates.Some? && |p.rates.value| > 0
      && p.updatedAt.Some? && p.updatedAt.value != 0
      && p.updatedAt.value + 14400 >= checkNow
  {
  }

  /** A cache hit returns the stored table unchanged and emits nothing. */
  lemma CacheHit(u: int, m: RateMap, checkNow: int, saveNow: int, resp: Response)
    requires |m| > 0 && u != 0 && u + 14400 >= checkNow
    ensures var p := Provider(Some(u), Some(m));
      GetRates(p, checkNow, saveNow, resp) == Step(Success(m), [], [], p)
  {
  }

  /** The boundary is inclusive: exactly 4 hours old is still served, one
      second more is fetched. */
  lemma FreshnessBoundary(u: int, m: RateMap, saveNow: int, resp: Response)
    requires |m| > 0 && u != 0
    ensures GetRates(Provider(Some(u), Some(m)), u + 14400, saveNow, resp).sent == []
    ensures GetRates(Provider(Some(u), Some(m)), u + 14401, saveNow, resp).sent == [LatestRequest]
  {
  }

  /** Without a usable table or timestamp, every call fetches, whatever the clock. */
  lemma ColdStart(p: Provider, checkNow: int, saveNow: int, resp: Response)
    requires p.rates == None || p.rates == Some(map[]) || p.updatedAt == None || p.updatedAt == Some(0)
    ensures GetRates(p, checkNow, saveNow, resp).sent == [LatestRequest]
  {
  }

  /** A miss followed by a 200 response returns exactly the fetched table and
      emits exactly one save of it under "currency-beacon", stamped `saveNow`. */
  lemma MissThenSave(p: Provider, checkNow: int, saveNow: int, resp: Response)
    requires !IsFresh(p, checkNow) && resp.status == 200
    ensures var s := GetRates(p, checkNow, saveNow, resp);
      && s.sent == [LatestRequest]
      && s.result == Success(Flatten(resp.rates))
      && |s.dispatched| == 1
      && s.dispatched[0] == SaveOption("currency-beacon", Snapshot(saveNow, Flatten(resp.rates)))
  {
  }

  /** A miss followed by a non-200 response fails with `FetchFailed` and
      emits no save, even when a stale non-empty table is stored. */
  lemma FailureHasNoFallback(u: int, m: RateMap, checkNow: int, saveNow: int, resp: Response)
    requires m != map[] && u != 0 && u + 14400 < checkNow && resp.status != 200
    ensures var s := GetRates(Provider(Some(u), Some(m)), checkNow, saveNow, resp);
      s.result == Failure(FetchFailed) && s.dispatched == [] && s.sent == [LatestRequest]
  {
  }

  /** A stale instance fetches again on every later call, and saves again on
      every later successful call, because its own fields never change. */
  lemma StaleInstanceAlwaysFetches(p: Provider, calls: seq<Call>)
    requires |calls| > 0 && !IsFresh(p, calls[0].checkNow)
    requires forall i :: 0 <= i < |calls| ==> calls[0].checkNow <= calls[i].checkNow
    ensures forall i :: 0 <= i < |calls| ==> Run(p, calls)[i].sent == [LatestRequest]
    ensures forall i :: 0 <= i < |calls| && calls[i].response.status == 200 ==>
      Run(p, calls)[i].dispatched == [SaveOption(LookupKey, Snapshot(calls[i].saveNow, Flatten(calls[i].response.rates)))]
  {
  }

  /** Saving a fetched snapshot and constructing a new instance from it gives
      the same tables and cross rates, without a fetch, for 4 hours after the
      stamp (when the fetched table was non-empty). */
  lemma SaveRoundTrip(p: Provider, checkNow: int, saveNow: int, resp: Response,
                      later: int, laterSave: int, laterResp: Response, from: Code, to: Code)
    requires !IsFresh(p, checkNow) && resp.status == 200
    requires Flatten(resp.rates) != map[] && saveNow != 0 && later <= saveNow + 14400
    ensures var s := GetRates(p, checkNow, saveNow, resp);
      var q := Restore(s.dispatched[0]);
      && GetRates(q, later, laterSave, laterResp) == Step(s.result, [], [], q)
      && GetRate(q, from, to, later, laterSave, laterResp).result == GetRate(p, from, to, checkNow, saveNow, resp).result
  {
  }

  /** `getRate` divides two entries of the table `getRates` returned. */
  lemma RateOverReturnedTable(p: Provider, from: Code, to: Code, checkNow: int, saveNow: int, resp: Response)
    requires GetRates(p, checkNow, saveNow, resp).result.Success?
    ensures var m := GetRates(p, checkNow, saveNow, resp).result.value;
      from in m && to in m && m[from] != 0.0 ==>
        GetRate(p, from, to, checkNow, saveNow, resp).result == Success(m[to] / m[from])
  {
  }

  /** A code missing from a successfully fetched table, whether `from` or
      `to`, fails as `UnknownCurrency`, not as a fetch failure, and the save
      of the fetched table has already been emitted. */
  lemma MissingCodeAfterFetch(p: Provider, from: Code, to: Code, checkNow: int, saveNow: int, resp: Response)
    requires !IsFresh(p, checkNow) && resp.status == 200
    requires to !in Codes(resp.rates) || from !in Codes(resp.rates)
    ensures var s := GetRate(p, from, to, checkNow, saveNow, resp);
      && s.result.Failure?
      && s.result.error.UnknownCurrency?
      && s.dispatched == [SaveOption(LookupKey, Snapshot(saveNow, Flatten(resp.rates)))]
  {
  }

  /** Cross rates compose: going from a to b and then b to c is going from a to c. */
  lemma RatioChains(m: RateMap, a: Code, b: Code, c: Code)
    requires Ratio(m, a, b).Success? && Ratio(m, b, c).Success?
    ensures Ratio(m, a, c) == Success(Ratio(m, a, b).value * Ratio(m, b, c).value)
  {
    assert Ratio(m, a, b) == Success(m[b] / m[a]);
    assert Ratio(m, b, c) == Success(m[c] / m[b]);
    QuotientsCompose(m[a], m[b], m[c]);
    assert Ratio(m, a, c) == Success(m[c] / m[a]);
    var v := Ratio(m, a, b).value * Ratio(m, b, c).value;
    assert v == m[c] / m[a];
  }

  /** Dividing y by x and then z by y multiplies out to z over x. */
  lemma QuotientsCompose(x: real, y: real, z: real)
    requires x != 0.0 && y != 0.0
    ensures (y / x) * (z / y) == z / x
  {
  }

  /** On a USD-based table, the rate from USD to a code is that code's entry. */
  lemma RatioFromBase(m: RateMap, c: Code)
    requires "USD" in m && m["USD"] == 1.0 && c in m
    ensures Ratio(m, "USD", c) == Success(m[c])
  {
  }

  /** The worked example of a three-currency table. */
  lemma RatioExample()
    ensures var m := map["USD" := 1.0, "EUR" := 0.9, "GBP" := 0.8];
      && Ratio(m, "EUR", "GBP") == Success(0.8 / 0.9)
      && Ratio(m, "USD", "EUR") == Success(0.9)
      && Ratio(m, "EUR", "JPY") == Failure(UnknownCurrency("JPY"))
  {
  }
}
