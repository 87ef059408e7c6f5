/** The USD-based rate table and the errors a rate lookup can end in. */
module Rates {

  /** A currency code such as "EUR", used only as a key of the rate table. */
  type Code = string

  /** Rates per code, base currency USD. PHP holds these as int|float;
      the model uses exact reals. */
  type RateMap = map<Code, real>

  /** One member `"<code>": <rate>` of the `response.rates` object, as it
      appears in the JSON text of the response, repeats included. */
  datatype Entry = Entry(code: Code, rate: real)

  /** What can go wrong in a rate lookup. */
  datatype Error =
    | FetchFailed              // upstream answered with a status other than 200
    | UnknownCurrency(code: Code) // a requested code is not in the table
    | DivisionByZero           // the `from` rate is zero

  /** The codes named by the members of a rates object. */
  function Codes(es: seq<Entry>): set<Code>
  {
    set i | 0 <= i < |es| :: es[i].code
  }

  /** Entry `i` is the last member carrying its code, so its rate is the one kept. */
  predicate IsLast(es: seq<Entry>, i: int)
  {
    0 <= i < |es| && forall j :: i < j < |es| ==> es[j].code != es[i].code
  }

  /** No code appears twice. */
  predicate Distinct(es: seq<Entry>)
  {
    forall i, j :: 0 <= i < j < |es| ==> es[i].code != es[j].code
  }

  /** The table the provider ends up with: `json_decode` keeps the last of
      repeated members with one code, and the copy loop then assigns each
      remaining member into an empty array. Folding the members from the
      left, a later one replacing an earlier one with the same code, gives
      exactly that table. */
  function Flatten(es: seq<Entry>): (m: RateMap)
    ensures m.Keys == Codes(es)
    decreases |es|
  {
    if es == [] then map[]
    else
      var init := es[..|es| - 1];
      assert Codes(es) == Codes(init) + {es[|es| - 1].code} by {
        forall c | c in Codes(es) ensures c in Codes(init) + {es[|es| - 1].code} {
          var i :| 0 <= i < |es| && es[i].code == c;
          if i < |es| - 1 { assert init[i] == es[i]; }
        }
        forall c | c in Codes(init) ensures c in Codes(es) {
          var i :| 0 <= i < |init| && init[i].code == c;
          assert es[i] == init[i];
        }
      }
      Flatten(init)[es[|es| - 1].code := es[|es| - 1].rate]
  }

  /** The last member with a given code decides that code's rate. */
  lemma {:induction false} FlattenLastWins(es: seq<Entry>, i: int)
    requires IsLast(es, i)
    ensures es[i].code in Flatten(es)
    ensures Flatten(es)[es[i].code] == es[i].rate
    decreases |es|
  {
    var n := |es| - 1;
    if i < n {
      var init := es[..n];
      assert es[n].code != es[i].code;
      assert IsLast(init, i) by {
        forall j | i < j < |init| ensures init[j].code != init[i].code {
          assert init[j] == es[j] && init[i] == es[i];
        }
      }
      FlattenLastWins(init, i);
      assert init[i] == es[i];
    }
  }

  /** Every code in the table carries the rate of the last member with that
      code: no value is invented. */
  lemma {:induction false} FlattenValueFromLast(es: seq<Entry>, c: Code)
    requires c in Flatten(es)
    ensures exists i :: IsLast(es, i) && es[i].code == c && Flatten(es)[c] == es[i].rate
  {
    var i :| 0 <= i < |es| && es[i].code == c;
    var k := LastIndexOf(es, c, i);
    FlattenLastWins(es, k);
  }

  /** The index of the last member with code `c`, searching from a known one. */
  function LastIndexOf(es: seq<Entry>, c: Code, from: int): (k: int)
    requires 0 <= from < |es| && es[from].code == c
    ensures from <= k && IsLast(es, k) && es[k].code == c
    decreases |es| - from
  {
    if exists j :: from < j < |es| && es[j].code == c then
      var j :| from < j < |es| && es[j].code == c;
      LastIndexOf(es, c, j)
    else from
  }

  /** When no code repeats, the table holds exactly one entry per member. */
  lemma {:induction false} FlattenDistinct(es: seq<Entry>)
    requires Distinct(es)
    ensures |Flatten(es)| == |es|
    ensures forall i :: 0 <= i < |es| ==> es[i].code in Flatten(es) && Flatten(es)[es[i].code] == es[i].rate
    decreases |es|
  {
    if es != [] {
      var n := |es| - 1;
      var init := es[..n];
      assert Distinct(init) by {
        forall i, j | 0 <= i < j < |init| ensures init[i].code != init[j].code {
          assert init[i] == es[i] && init[j] == es[j];
        }
      }
      FlattenDistinct(init);
      assert es[n].code !in Flatten(init);
    }
    forall i | 0 <= i < |es| ensures es[i].code in Flatten(es) && Flatten(es)[es[i].code] == es[i].rate {
      FlattenLastWins(es, i);
    }
  }
}
