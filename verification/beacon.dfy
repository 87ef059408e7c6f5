/** The `CurrencyBeacon` rate provider: a cache-aside lookup over a rate table
    injected at construction. Every public operation is a pure step function
    from the instance's state, the clock readings and the upstream response to
    a `Step`: the value returned (or the error thrown), the requests handed to
    the HTTP client, the commands handed to the dispatcher, and the instance's
    state afterwards. */
module CurrencyBeacon {
  import opened Wrappers
  import opened Rates
  import opened Upstream

  /** The option key under which a fresh snapshot is saved. */
  const LookupKey: string := "currency-beacon"

  /** How long, in seconds, a stored table is served without a fetch: 4 hours. */
  const FreshnessWindow: int := 3600 * 4

  /** The value saved under `LookupKey`: when the table was fetched, and the table. */
  datatype Snapshot = Snapshot(updatedAt: int, rates: RateMap)

  /** A command emitted to the dispatcher. Only saving an option exists here. */
  datatype Command = SaveOption(key: string, value: Snapshot)

  /** The instance's state: the two options injected at construction, both
      optional. `updatedAt` is the stored timestamp read as an integer;
      `Some(0)` stands for the stored string "0". */
  datatype Provider = Provider(updatedAt: Option<int>, rates: Option<RateMap>)

  /** What one call observably does. */
  datatype Step<T> = Step(
    result: Result<T, Error>,
    sent: seq<Request>,
    dispatched: seq<Command>,
    after: Provider)

  /** PHP truthiness of the injected timestamp: null and "0" are false. */
  predicate HasTimestamp(u: Option<int>)
  {
    u.Some? && u.value != 0
  }

  /** PHP truthiness of the injected table: null and the empty array are false. */
  predicate HasTable(r: Option<RateMap>)
  {
    r.Some? && r.value != map[]
  }

  /** The three-part test guarding the cache hit, at clock reading `now`. */
  predicate IsFresh(p: Provider, now: int)
  {
    HasTimestamp(p.updatedAt) && HasTable(p.rates) && p.updatedAt.value + FreshnessWindow >= now
  }

  /** The provider's fixed display name; it reads no state. */
  function Name(p: Provider): string
  {
    "Currency Beacon"
  }

  /** `getRates`: serve the stored table while it is fresh; otherwise fetch,
      emit a save of the fetched table stamped with `saveNow`, and return the
      fetched table. `checkNow` is the clock reading of the freshness test and
      `saveNow` the later one written into the snapshot. The instance's own
      fields are never reassigned. */
  function GetRates(p: Provider, checkNow: int, saveNow: int, resp: Response): (s: Step<RateMap>)
    ensures s.after == p
    ensures s.sent == [] || s.sent == [LatestRequest]
    ensures s.sent == [] ==> p.rates.Some? && s.result == Success(p.rates.value) && s.dispatched == []
    ensures s.sent != [] ==> s.result == Fetch(resp)
    ensures s.result.Failure? ==> s.result.error == FetchFailed && s.dispatched == []
    ensures s.sent != [] && s.result.Success? ==>
      s.dispatched == [SaveOption(LookupKey, Snapshot(saveNow, s.result.value))]
  {
    if IsFresh(p, checkNow) then
      Step(Success(p.rates.value), [], [], p)
    else
      match Fetch(resp)
      case Failure(e) => Step(Failure(e), [LatestRequest], [], p)
      case Success(m) => Step(Success(m), [LatestRequest], [SaveOption(LookupKey, Snapshot(saveNow, m))], p)
  }

  /** The cross rate `m[to] / m[from]`. The source indexes and divides with no
      check; here a missing code and a zero divisor are explicit errors, the
      `to` code being read first. */
  function Ratio(m: RateMap, from: Code, to: Code): (r: Result<real, Error>)
    ensures r.Success? <==> from in m && to in m && m[from] != 0.0
    ensures r.Success? ==> r.value * m[from] == m[to]
    ensures to !in m ==> r == Failure(UnknownCurrency(to))
    ensures to in m && from !in m ==> r == Failure(UnknownCurrency(from))
    ensures to in m && from in m && m[from] == 0.0 ==> r == Failure(DivisionByZero)
  {
    if to !in m then Failure(UnknownCurrency(to))
    else if from !in m then Failure(UnknownCurrency(from))
    else if m[from] == 0.0 then Failure(DivisionByZero)
    else Success(m[to] / m[from])
  }

  /** `getRate`: the cross rate over whatever table `getRates` produced. Its
      effects are exactly those of `getRates`, including a save emitted
      before a lookup that then fails. */
  function GetRate(p: Provider, from: Code, to: Code, checkNow: int, saveNow: int, resp: Response): (s: Step<real>)
    ensures var g := GetRates(p, checkNow, saveNow, resp);
      && s.sent == g.sent && s.dispatched == g.dispatched && s.after == g.after
      && (g.result.Failure? ==> s.result == Failure(g.result.error))
      && (g.result.Success? ==> s.result == Ratio(g.result.value, from, to))
  {
    var g := GetRates(p, checkNow, saveNow, resp);
    match g.result
    case Failure(e) => Step(Failure(e), g.sent, g.dispatched, g.after)
    case Success(m) => Step(Ratio(m, from, to), g.sent, g.dispatched, g.after)
  }

  /** The inputs of one `getRates` call. */
  datatype Call = Call(checkNow: int, saveNow: int, response: Response)

  /** Successive calls on one instance, each starting from the state the
      previous one left. Because no call reassigns the fields, every call
      behaves exactly as the first call on a new instance would. */
  function Run(p: Provider, calls: seq<Call>): (steps: seq<Step<RateMap>>)
    ensures |steps| == |calls|
    ensures forall i :: 0 <= i < |calls| ==>
      steps[i] == GetRates(p, calls[i].checkNow, calls[i].saveNow, calls[i].response)
    decreases |calls|
  {
    if calls == [] then []
    else
      var s := GetRates(p, calls[0].checkNow, calls[0].saveNow, calls[0].response);
      [s] + Run(s.after, calls[1..])
  }

  /** A new instance constructed from the options a save command wrote. */
  function Restore(c: Command): Provider
  {
    Provider(Some(c.value.updatedAt), Some(c.value.rates))
  }
}
