# Currency Beacon rate provider, modelled in Dafny

This project models the rate provider of the Currency Beacon plugin for a host
billing system. The provider answers "how many units of `to` per unit of
`from`" from a table of USD-based rates. It uses a cache-aside read path:

- The instance is constructed with two optional options: the last-fetch
  timestamp `updatedAt` and the last-fetched table `rates`.
- A lookup serves that table while it is at most 4 hours (14400 s) old.
- Otherwise it fetches `/v1/latest?base=USD` from the upstream API.
- After a fetch it dispatches a `SaveOption` command under the key
  `"currency-beacon"` with the fetched table, stamped with the clock.
- It returns the fetched table. The instance's own fields are never
  reassigned.

Every operation is a pure step function. Its inputs are the instance state,
the clock readings and the upstream response. Its `Step` result holds:

- the value, or the error the PHP would throw;
- the requests handed to the HTTP client;
- the commands handed to the dispatcher;
- the instance state afterwards.

Files:

- `wrappers.dfy`: `Option` and `Result`.
- `rates.dfy`: currency codes, the rate table, the errors, and `Flatten`. `Flatten` is the table built from the members of `response.rates`, where the last of repeated codes wins.
- `upstream.dfy`: the request sent, the response received, the status check (`Fetch`), and the copy loop (`CopyRates`).
- `beacon.dfy`: the provider state, `GetRates`, `Ratio`, `GetRate`, `Name`, and `Run`. `Run` is a sequence of calls on one instance.
- `properties.dfy`: the lemmas relating these to the documented behaviour.

Modelling choices:

- **Clock.** `time()` is read twice in `getRates`: once in the freshness test (`checkNow`) and once in the saved payload (`saveNow`). The model takes both as separate inputs and does not assume they are equal.
- **`updatedAt`.** It is injected as a nullable string and used as a number. The model takes it as `Option<int>`. `None` stands for `null` and `""`. `Some(0)` stands for `"0"`, which PHP treats as false, so it counts as absent.
- **Stored `rates`.** An empty array is false in PHP. So `Some(map[])` forces a fetch, just as `None` does.
- **Upstream body.** It is given as the sequence of `code: rate` members of `response.rates` as they appear in the JSON text, repeats included. `json_decode` keeps the last of repeated members, and the copy loop never meets a code twice, so the table is a left fold where a later member replaces an earlier one. Rates are exact `real`s.
- **Behaviour of the code that is easy to overlook:**
  - A cache hit needs a non-empty table and a non-zero timestamp, as well as a timestamp at most 4 hours old.
  - `getRate` has no designed error for an unknown currency; PHP only indexes and divides. The model makes a missing code an explicit `UnknownCurrency` error and a zero `from` rate an explicit `DivisionByZero` error. Reporting the `to` code first when both are missing is the model's own choice.
  - When the fetch succeeds but the lookup then fails, the save command has still been dispatched.

## Model

| member | source | states |
|---|---|---|
| Rates.Flatten | src/CurrencyBeacon.php:84-89 | the copied table is keyed by exactly the codes present in `response.rates`, no more and no fewer |
| Rates.FlattenLastWins | src/CurrencyBeacon.php:84-89 | the last member carrying a code decides that code's rate in the copied table |
| Rates.FlattenValueFromLast | src/CurrencyBeacon.php:84-89 | every rate in the copied table is the rate of the last member with that code; no value is invented |
| Rates.FlattenDistinct | src/CurrencyBeacon.php:84-89 | without repeated codes the table has one entry per member, each with that member's rate |
| Upstream.Fetch | src/CurrencyBeacon.php:72-90 | fails with `FetchFailed` exactly when the status is not 200; otherwise it yields the table of the response's codes, with the last rate per code |
| Upstream.CopyRates | src/CurrencyBeacon.php:84-89 | the `foreach` copy loop builds exactly the table `Flatten` describes, keyed by the response's codes |
| CurrencyBeacon.GetRates | src/CurrencyBeacon.php:44-70 | the state is unchanged; at most the one latest-rates request is sent; without a request the stored table is returned and nothing is dispatched; with a request the result is the fetch's; an error dispatches nothing; a successful fetch dispatches exactly one save of the returned table stamped `saveNow` |
| CurrencyBeacon.Ratio | src/CurrencyBeacon.php:41 | succeeds exactly when both codes are present and the `from` rate is non-zero, and then the result times the `from` rate is the `to` rate; a missing `to`, a missing `from` and a zero divisor are distinct errors |
| CurrencyBeacon.GetRate | src/CurrencyBeacon.php:37-42 | has exactly the effects of `getRates`; passes a fetch failure through; otherwise it is the cross rate over the table `getRates` returned |
| CurrencyBeacon.Run | src/CurrencyBeacon.php:19-70 | in successive calls on one instance, every call behaves exactly as the first call on a new instance with the injected options |
| BeaconProperties.NameIgnoresState | src/CurrencyBeacon.php:31-35 | the name is "Currency Beacon" whatever the instance's state |
| BeaconProperties.HitIffFresh | src/CurrencyBeacon.php:46-54 | no request is sent if and only if the stored table is non-empty, the timestamp is present and non-zero, and timestamp + 14400 >= now |
| BeaconProperties.CacheHit | src/CurrencyBeacon.php:46-52 | a fresh non-empty table is returned unchanged, with no request and no command, and the state is untouched |
| BeaconProperties.FreshnessBoundary | src/CurrencyBeacon.php:49 | a table exactly 14400 s old is served; one 14401 s old is refetched |
| BeaconProperties.ColdStart | src/CurrencyBeacon.php:46-54 | with no table, an empty table, no timestamp or timestamp "0", a fetch is attempted at every clock value |
| BeaconProperties.MissThenSave | src/CurrencyBeacon.php:54-69 | a miss with a 200 response returns exactly the fetched table and dispatches exactly one save under "currency-beacon" of {saveNow, that table} |
| BeaconProperties.FailureHasNoFallback | src/CurrencyBeacon.php:44-80 | a miss with a non-200 response fails with `FetchFailed`, dispatches nothing and does not return the stale stored table |
| BeaconProperties.StaleInstanceAlwaysFetches | src/CurrencyBeacon.php:44-70 | once an instance is stale, every later call fetches again, and every successful one dispatches another save |
| BeaconProperties.SaveRoundTrip | src/CurrencyBeacon.php:19-70 | an instance built from the saved options serves the same table and the same cross rates without fetching, for 14400 s after the stamp, when the table is non-empty |
| BeaconProperties.RateOverReturnedTable | src/CurrencyBeacon.php:40-41 | with both codes present and a non-zero `from` rate, `getRate` is `rates[to] / rates[from]` over the table `getRates` returned |
| BeaconProperties.MissingCodeAfterFetch | src/CurrencyBeacon.php:40-41 | when the `from` or the `to` code is absent from a fetched table, the lookup fails as `UnknownCurrency`, which is distinct from `FetchFailed`, and the one save of the fetched table under "currency-beacon" has already been dispatched |
| BeaconProperties.RatioChains | src/CurrencyBeacon.php:41 | cross rates compose: the rate from a to b times the rate from b to c is the rate from a to c |
| BeaconProperties.RatioFromBase | src/CurrencyBeacon.php:41 | on a table whose USD entry is 1, the rate from USD to a code is that code's entry |
| BeaconProperties.RatioExample | src/CurrencyBeacon.php:41 | for {USD: 1.0, EUR: 0.9, GBP: 0.8}: EUR to GBP is 0.8/0.9, USD to EUR is 0.9, and JPY is unknown |

## Left out

- The settings page handler (src/SettingsRequestHandler.php): it only returns a fixed template view and has no logic.
- The HTTP client: the base URL, authentication, transport and timeouts. The request is an output and the response is an input.
- JSON decoding of the response body, apart from its last-wins rule for repeated members. The body is given as the list of members of `response.rates`. A malformed body, which PHP would turn into warnings and an empty table, is not modelled.
- JSON encoding of the save payload: the command carries the snapshot as a value.
- How the dispatcher runs the save, and the host option store. `Restore` stands for the store handing the saved options back to a new instance.
- Dependency-injection wiring, and PHP's string-to-number coercion of `updatedAt`. Timestamp strings that are not integers, such as "00" or "1.5e9", are not modelled.
- PHP's conversion of numeric-string array keys to integers: codes stay strings.
- Floating-point rounding in the division: rates are exact reals, and no IEEE behaviour is claimed.
- Concurrent callers and duplicate fetches across them: the model is about single calls and sequences of calls on one instance.
- CurrencyBeacon.Ratio: a missing code and a zero divisor are explicit errors, which differs from PHP 8 at src/CurrencyBeacon.php:41. There, a missing `to` only raises a warning and reads as null, so with `from` present and non-zero PHP returns 0. A missing `from`, whether or not `to` is also missing, reads as null and throws DivisionByZeroError, as does a zero `from` rate.
