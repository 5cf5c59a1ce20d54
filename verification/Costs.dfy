/**
  Currency-keyed amounts (`CostLimits` and `KnownCosts` of budget.rs).

  Both collections are arrays in strictly ascending currency order holding at
  most sixteen entries, so an array is the canonical form of the amounts it
  records (`Canonical`). A `BTreeMap<CurrencyCode, Money>` that the source fills
  in a loop is such an array too, kept in order by insertion.
 */
module Costs {
  import opened Prelude

  const MAX_COST_CURRENCIES: nat := 16

  /** A three-letter code, as its position among all codes in byte order. */
  type Currency = int

  datatype Money = Money(currency: Currency, microUnits: int)

  predicate Ascending(s: seq<Money>) {
    forall i, j :: 0 <= i < j < |s| ==> s[i].currency < s[j].currency
  }

  predicate Distinct(s: seq<Money>) {
    forall i, j :: 0 <= i < j < |s| ==> s[i].currency != s[j].currency
  }

  predicate InRange(s: seq<Money>) {
    forall i :: 0 <= i < |s| ==> IsU64(s[i].microUnits)
  }

  predicate IsTable(s: seq<Money>) {
    Ascending(s) && InRange(s) && |s| <= MAX_COST_CURRENCIES
  }

  /** `CostLimits` and `KnownCosts`: every constructor of the source yields one. */
  type CostTable = s: seq<Money> | IsTable(s) witness []

  // ----- reading --------------------------------------------------------------

  predicate Has(s: seq<Money>, c: Currency) {
    s != [] && (s[|s| - 1].currency == c || Has(s[..|s| - 1], c))
  }

  /** The amount recorded for a currency, zero when there is none. */
  function Amount(s: seq<Money>, c: Currency): int {
    if s == [] then 0
    else if s[|s| - 1].currency == c then s[|s| - 1].microUnits
    else Amount(s[..|s| - 1], c)
  }

  /** The same currencies at the same amounts. */
  ghost predicate SameCosts(s: seq<Money>, t: seq<Money>) {
    forall c :: Has(s, c) == Has(t, c) && Amount(s, c) == Amount(t, c)
  }

  /** Every currency of `s`, at no more than its amount in `t`. */
  ghost predicate WithinCosts(s: seq<Money>, t: seq<Money>) {
    forall c :: (Has(s, c) ==> Has(t, c)) && Amount(s, c) <= Amount(t, c)
  }

  ghost predicate IsSum(total: seq<Money>, s: seq<Money>, t: seq<Money>) {
    forall c :: Has(total, c) == (Has(s, c) || Has(t, c)) && Amount(total, c) == Amount(s, c) + Amount(t, c)
  }

  ghost predicate AmountsFit(s: seq<Money>) {
    forall c :: IsU64(Amount(s, c))
  }

  ghost predicate SumFits(s: seq<Money>, t: seq<Money>) {
    forall c :: Amount(s, c) + Amount(t, c) <= U64_MAX
  }

  lemma {:induction false} HasIndex(s: seq<Money>, c: Currency)
    ensures Has(s, c) <==> exists i :: 0 <= i < |s| && s[i].currency == c
    ensures !Has(s, c) ==> Amount(s, c) == 0
  {
    if |s| > 0 {
      var n := |s| - 1;
      HasIndex(s[..n], c);
      if Has(s[..n], c) {
        var i :| 0 <= i < n && s[..n][i].currency == c;
        assert s[i].currency == c;
      }
      if i :| 0 <= i < |s| && s[i].currency == c {
        if i < n { assert s[..n][i].currency == c; }
      }
    }
  }

  lemma {:induction false} AmountAt(s: seq<Money>, i: nat)
    requires Distinct(s) && i < |s|
    ensures Has(s, s[i].currency) && Amount(s, s[i].currency) == s[i].microUnits
  {
    var n := |s| - 1;
    if i < n { AmountAt(s[..n], i); }
  }

  lemma {:induction false} AmountRange(s: seq<Money>, c: Currency)
    requires InRange(s)
    ensures IsU64(Amount(s, c))
  {
    if |s| > 0 { AmountRange(s[..|s| - 1], c); }
  }

  /** Ascending arrays with the same currencies and amounts are equal. */
  lemma {:induction false} Canonical(s: seq<Money>, t: seq<Money>)
    requires Ascending(s) && Ascending(t) && SameCosts(s, t)
    ensures s == t
  {
    assert |s| > 0 ==> Has(s, s[|s| - 1].currency);
    assert |t| > 0 ==> Has(t, t[|t| - 1].currency);
    if |s| > 0 && |t| > 0 {
      var s', t' := s[..|s| - 1], t[..|t| - 1];
      SameLast(s, t);
      forall c ensures Has(s', c) == Has(t', c) && Amount(s', c) == Amount(t', c) {
        DropLast(s, c);
        DropLast(t, c);
      }
      Canonical(s', t');
      assert s == s' + [s[|s| - 1]];
      assert t == t' + [t[|t| - 1]];
    }
  }

  lemma SameLast(s: seq<Money>, t: seq<Money>)
    requires Ascending(s) && Ascending(t) && s != [] && t != [] && SameCosts(s, t)
    ensures s[|s| - 1] == t[|t| - 1]
  {
    var c, d := s[|s| - 1].currency, t[|t| - 1].currency;
    assert Has(t, c) && Has(s, d);
    HasIndex(t, c);
    HasIndex(s, d);
    assert c == d;
    assert Amount(s, c) == Amount(t, c);
  }

  lemma DropLast(s: seq<Money>, c: Currency)
    requires Ascending(s) && s != []
    ensures Has(s[..|s| - 1], c) == (Has(s, c) && c != s[|s| - 1].currency)
    ensures Amount(s[..|s| - 1], c) == if c == s[|s| - 1].currency then 0 else Amount(s, c)
  {
    HasIndex(s[..|s| - 1], c);
  }

  /** A table whose currencies all occur in another is no longer than it. */
  lemma {:induction false} Shorter(s: seq<Money>, t: seq<Money>)
    requires Ascending(s) && Ascending(t)
    requires forall c :: Has(s, c) ==> Has(t, c)
    ensures |s| <= |t|
  {
    if |s| > 0 {
      var n := |s| - 1;
      var c := s[n].currency;
      assert Has(s, c);
      HasIndex(t, c);
      var j :| 0 <= j < |t| && t[j].currency == c;
      forall d | Has(s[..n], d) ensures Has(t[..j], d) {
        DropLast(s, d);
        BelowIndex(s, t, j, d);
      }
      Shorter(s[..n], t[..j]);
    }
  }

  lemma BelowIndex(s: seq<Money>, t: seq<Money>, j: nat, d: Currency)
    requires Ascending(s) && Ascending(t) && s != [] && j < |t|
    requires t[j].currency == s[|s| - 1].currency && d != t[j].currency
    requires Has(s, d) && Has(t, d)
    ensures Has(t[..j], d)
  {
    HasIndex(s, d);
    HasIndex(t, d);
    HasIndex(t[..j], d);
    var i :| 0 <= i < |t| && t[i].currency == d;
    assert i < j;
    assert t[..j][i].currency == d;
  }

  /** Binary search by currency. */
  method Get(s: CostTable, currency: Currency) returns (r: Option<Money>)
    ensures r.Some? <==> Has(s, currency)
    ensures r.Some? ==> r.value == Money(currency, Amount(s, currency))
  {
    var lo, hi := 0, |s|;
    while lo < hi
      invariant 0 <= lo <= hi <= |s|
      invariant forall i :: 0 <= i < lo ==> s[i].currency < currency
      invariant forall i :: hi <= i < |s| ==> currency < s[i].currency
    {
      var mid := (lo + hi) / 2;
      if s[mid].currency < currency {
        lo := mid + 1;
      } else if currency < s[mid].currency {
        hi := mid;
      } else {
        AmountAt(s, mid);
        return Some(s[mid]);
      }
    }
    HasIndex(s, currency);
    r := None;
  }

  // ----- insertion ------------------------------------------------------------

  /** Adds one entry to an ordered array, merging an equal currency. */
  function Charge(s: seq<Money>, m: Money): seq<Money> {
    if s == [] then [m]
    else
      var last, init := s[|s| - 1], s[..|s| - 1];
      if last.currency < m.currency then s + [m]
      else if last.currency == m.currency then init + [Money(m.currency, last.microUnits + m.microUnits)]
      else Charge(init, m) + [last]
  }

  lemma HasAppend(s: seq<Money>, m: Money, c: Currency)
    ensures Has(s + [m], c) <==> Has(s, c) || c == m.currency
    ensures Amount(s + [m], c) == if c == m.currency then m.microUnits else Amount(s, c)
  {}

  lemma {:induction false} ChargeAmount(s: seq<Money>, m: Money, c: Currency)
    requires Ascending(s)
    ensures Has(Charge(s, m), c) <==> Has(s, c) || c == m.currency
    ensures Amount(Charge(s, m), c) == Amount(s, c) + if c == m.currency then m.microUnits else 0
  {
    if s == [] {
      HasAppend([], m, c);
    } else {
      var last, init := s[|s| - 1], s[..|s| - 1];
      DropLast(s, m.currency);
      if last.currency < m.currency {
        HasIndex(s, m.currency);
        HasAppend(s, m, c);
      } else if last.currency == m.currency {
        HasAppend(init, Money(m.currency, last.microUnits + m.microUnits), c);
      } else {
        ChargeAmount(init, m, c);
        HasAppend(Charge(init, m), last, c);
        DropLast(s, c);
      }
    }
  }

  lemma {:induction false} ChargeBelow(s: seq<Money>, m: Money, bound: Currency)
    requires m.currency < bound && forall i :: 0 <= i < |s| ==> s[i].currency < bound
    ensures forall i :: 0 <= i < |Charge(s, m)| ==> Charge(s, m)[i].currency < bound
  {
    if s != [] { ChargeBelow(s[..|s| - 1], m, bound); }
  }

  lemma {:induction false} ChargeAscending(s: seq<Money>, m: Money)
    requires Ascending(s)
    ensures Ascending(Charge(s, m))
    ensures |Charge(s, m)| == |s| + if Has(s, m.currency) then 0 else 1
  {
    if s != [] {
      var last, init := s[|s| - 1], s[..|s| - 1];
      HasIndex(s, m.currency);
      if last.currency > m.currency {
        ChargeAscending(init, m);
        ChargeBelow(init, m, last.currency);
      }
    }
  }

  /** Adding up entries one by one, with repeated currencies merged. */
  function Tally(s: seq<Money>): seq<Money> {
    if s == [] then [] else Charge(Tally(s[..|s| - 1]), s[|s| - 1])
  }

  lemma TallyAppend(s: seq<Money>, m: Money)
    ensures Tally(s + [m]) == Charge(Tally(s), m)
  {}

  lemma TallySnoc(s: seq<Money>, k: nat)
    requires k < |s|
    ensures Tally(s[..k + 1]) == Charge(Tally(s[..k]), s[k])
  {
    assert s[..k + 1][..k] == s[..k];
  }

  lemma {:induction false} TallyAscending(s: seq<Money>)
    ensures Ascending(Tally(s))
  {
    if |s| > 0 {
      TallyAscending(s[..|s| - 1]);
      ChargeAscending(Tally(s[..|s| - 1]), s[|s| - 1]);
    }
  }

  lemma {:induction false} TallyDistinct(s: seq<Money>, c: Currency)
    requires Distinct(s)
    ensures Has(Tally(s), c) == Has(s, c) && Amount(Tally(s), c) == Amount(s, c)
  {
    if |s| > 0 {
      var n := |s| - 1;
      TallyDistinct(s[..n], c);
      TallyAscending(s[..n]);
      ChargeAmount(Tally(s[..n]), s[n], c);
      HasIndex(s[..n], c);
    }
  }

  predicate Storable(s: seq<Money>) {
    InRange(s) && |s| <= MAX_COST_CURRENCIES
  }

  lemma ChargeStorable(s: seq<Money>, m: Money)
    requires Ascending(s) && Storable(s) && IsU64(m.microUnits)
    ensures Storable(Charge(s, m)) <==>
            if Has(s, m.currency) then Amount(s, m.currency) + m.microUnits <= U64_MAX
            else |s| < MAX_COST_CURRENCIES
  {
    var r, c := Charge(s, m), m.currency;
    ChargeAscending(s, m);
    forall i | 0 <= i < |r| ensures r[i].microUnits == Amount(s, r[i].currency) +
                                      if r[i].currency == c then m.microUnits else 0 {
      AmountAt(r, i);
      ChargeAmount(s, m, r[i].currency);
    }
    forall d ensures IsU64(Amount(s, d)) { AmountRange(s, d); }
    ChargeAmount(s, m, c);
    HasIndex(r, c);
    HasIndex(s, c);
  }

  /** Once a running tally cannot be stored, neither can the whole. */
  lemma {:induction false} TallyGrows(s: seq<Money>, k: nat)
    requires k <= |s| && InRange(s) && !Storable(Tally(s[..k]))
    requires forall c :: Amount(Tally(s[..k]), c) >= 0
    ensures !Storable(Tally(s))
    decreases |s| - k
  {
    if k == |s| {
      assert s[..k] == s;
    } else {
      var t := Tally(s[..k]);
      TallySnoc(s, k);
      TallyAscending(s[..k]);
      ChargeAscending(t, s[k]);
      forall c ensures Amount(Charge(t, s[k]), c) >= Amount(t, c) { ChargeAmount(t, s[k], c); }
      NotStorable(t, Charge(t, s[k]));
      TallyGrows(s, k + 1);
    }
  }

  lemma TallyRefused(s: seq<Money>, k: nat)
    requires k < |s| && InRange(s) && Storable(Tally(s[..k]))
    requires !Storable(Charge(Tally(s[..k]), s[k]))
    ensures !Storable(Tally(s))
  {
    var t := Tally(s[..k]);
    TallySnoc(s, k);
    TallyAscending(s[..k]);
    forall c ensures Amount(Charge(t, s[k]), c) >= 0 {
      ChargeAmount(t, s[k], c);
      AmountRange(t, c);
    }
    TallyGrows(s, k + 1);
  }

  lemma NotStorable(s: seq<Money>, t: seq<Money>)
    requires Ascending(s) && Ascending(t) && |s| <= |t| && !Storable(s)
    requires forall c :: 0 <= Amount(s, c) <= Amount(t, c)
    ensures !Storable(t)
  {
    if Storable(t) {
      forall i | 0 <= i < |s| ensures IsU64(s[i].microUnits) {
        AmountAt(s, i);
        AmountRange(t, s[i].currency);
      }
    }
  }

  /** The sum of two tables, refused when an amount overflows 64 bits or the
      union names more than sixteen currencies. */
  function AccumulateCosts(a: CostTable, b: CostTable): (r: Option<CostTable>) {
    var total := Tally(a + b);
    TallyAscending(a + b);
    if Storable(total) then Some(total) else None
  }

  /** `KnownCosts::checked_accumulate`: one pass over both arrays. */
  method CheckedAccumulateCosts(a: CostTable, b: CostTable) returns (r: Option<CostTable>)
    ensures r == AccumulateCosts(a, b)
  {
    var chain := a + b;
    var values: seq<Money> := [];
    var k := 0;
    while k < |chain|
      invariant 0 <= k <= |chain|
      invariant values == Tally(chain[..k]) && Storable(values)
    {
      var money := chain[k];
      TallySnoc(chain, k);
      TallyAscending(chain[..k]);
      ChargeStorable(values, money);
      if Has(values, money.currency) {
        if Amount(values, money.currency) + money.microUnits > U64_MAX {
          TallyRefused(chain, k);
          return None;
        }
      } else if |values| == MAX_COST_CURRENCIES {
        TallyRefused(chain, k);
        return None;
      }
      values := Charge(values, money);
      k := k + 1;
    }
    assert chain[..k] == chain;
    TallyAscending(chain);
    r := Some(values);
  }

  /** Charging the entries of one array onto another. */
  function Charges(s: seq<Money>, t: seq<Money>): seq<Money> {
    if t == [] then s else Charge(Charges(s, t[..|t| - 1]), t[|t| - 1])
  }

  lemma {:induction false} TallyChain(a: seq<Money>, b: seq<Money>)
    ensures Tally(a + b) == Charges(Tally(a), b)
  {
    if b == [] {
      assert a + b == a;
    } else {
      var init, last := b[..|b| - 1], b[|b| - 1];
      calc {
        Tally(a + b);
        { assert a + b == a + init + [last]; }
        Tally(a + init + [last]);
        { TallyAppend(a + init, last); }
        Charge(Tally(a + init), last);
        { TallyChain(a, init); }
        Charge(Charges(Tally(a), init), last);
      }
    }
  }

  /** Amounts add up currency by currency. */
  lemma {:induction false} ChargesAmount(s: seq<Money>, t: seq<Money>, c: Currency)
    requires Ascending(s) && Distinct(t)
    ensures Ascending(Charges(s, t))
    ensures Has(Charges(s, t), c) == (Has(s, c) || Has(t, c))
    ensures Amount(Charges(s, t), c) == Amount(s, c) + Amount(t, c)
  {
    if t != [] {
      var init, last := t[..|t| - 1], t[|t| - 1];
      ChargesAmount(s, init, c);
      ChargeAscending(Charges(s, init), last);
      ChargeAmount(Charges(s, init), last, c);
      HasIndex(init, c);
    }
  }

  lemma InRangeExact(s: seq<Money>)
    requires Ascending(s)
    ensures InRange(s) <==> AmountsFit(s)
  {
    if InRange(s) {
      forall c ensures IsU64(Amount(s, c)) { AmountRange(s, c); }
    }
    if AmountsFit(s) {
      forall i | 0 <= i < |s| ensures IsU64(s[i].microUnits) { AmountAt(s, i); }
    }
  }

  lemma TallyIsSum(a: CostTable, b: CostTable)
    ensures Ascending(Tally(a + b)) && IsSum(Tally(a + b), a, b)
  {
    TallyAscending(a + b);
    TallyAscending(a);
    forall c ensures && Has(Tally(a + b), c) == (Has(a, c) || Has(b, c))
                     && Amount(Tally(a + b), c) == Amount(a, c) + Amount(b, c) {
      TallyChain(a, b);
      TallyDistinct(a, c);
      ChargesAmount(Tally(a), b, c);
    }
  }

  lemma SumsFit(total: seq<Money>, a: CostTable, b: CostTable)
    requires IsSum(total, a, b)
    ensures AmountsFit(total) <==> SumFits(a, b)
  {
    if AmountsFit(total) {
      forall c ensures Amount(a, c) + Amount(b, c) <= U64_MAX { assert IsU64(Amount(total, c)); }
    }
    if SumFits(a, b) {
      forall c ensures IsU64(Amount(total, c)) {
        AmountRange(a, c);
        AmountRange(b, c);
      }
    }
  }

  lemma AccumulateStored(a: CostTable, b: CostTable)
    ensures AccumulateCosts(a, b).Some? <==> |Tally(a + b)| <= MAX_COST_CURRENCIES && SumFits(a, b)
    ensures AccumulateCosts(a, b).Some? ==> IsSum(AccumulateCosts(a, b).value, a, b)
  {
    TallyIsSum(a, b);
    InRangeExact(Tally(a + b));
    SumsFit(Tally(a + b), a, b);
  }

  ghost function Currencies(s: seq<Money>): set<Currency> {
    set i | 0 <= i < |s| :: s[i].currency
  }

  lemma CurrenciesExact(s: seq<Money>, c: Currency)
    ensures c in Currencies(s) <==> Has(s, c)
  {
    HasIndex(s, c);
  }

  lemma {:induction false} CurrencyCount(s: seq<Money>)
    requires Ascending(s)
    ensures |Currencies(s)| == |s|
  {
    if s != [] {
      var n := |s| - 1;
      CurrencyCount(s[..n]);
      assert Currencies(s) == Currencies(s[..n]) + {s[n].currency} by {
        forall c ensures c in Currencies(s) <==> c in Currencies(s[..n]) + {s[n].currency} {
          CurrenciesExact(s, c);
          CurrenciesExact(s[..n], c);
        }
      }
    }
  }

  lemma SumCurrencies(total: seq<Money>, a: seq<Money>, b: seq<Money>)
    requires IsSum(total, a, b)
    ensures Currencies(total) == Currencies(a) + Currencies(b)
  {
    forall c ensures c in Currencies(total) <==> c in Currencies(a) + Currencies(b) {
      CurrenciesExact(total, c);
      CurrenciesExact(a, c);
      CurrenciesExact(b, c);
    }
  }

  /** Two tables have a sum exactly when no amount overflows and their currencies
      together are no more than sixteen. The sum records every one of them. */
  lemma AccumulateExact(a: CostTable, b: CostTable)
    ensures AccumulateCosts(a, b).Some? <==>
            |Currencies(a) + Currencies(b)| <= MAX_COST_CURRENCIES && SumFits(a, b)
    ensures AccumulateCosts(a, b).Some? ==> IsSum(AccumulateCosts(a, b).value, a, b)
  {
    AccumulateStored(a, b);
    TallyIsSum(a, b);
    SumCurrencies(Tally(a + b), a, b);
    CurrencyCount(Tally(a + b));
  }

  /** A table holding the sum is the sum: nothing overflows, nothing widens. */
  lemma SumIsAccumulate(a: CostTable, b: CostTable, total: CostTable)
    requires IsSum(total, a, b)
    ensures AccumulateCosts(a, b) == Some(total)
  {
    TallyIsSum(a, b);
    Canonical(Tally(a + b), total);
  }

  /** Two tables whose sum is within a budget can be added. */
  lemma AccumulateWithin(a: CostTable, b: CostTable, limits: CostTable)
    requires forall c :: (Has(a, c) || Has(b, c) ==> Has(limits, c)) && Amount(a, c) + Amount(b, c) <= Amount(limits, c)
    ensures AccumulateCosts(a, b).Some?
  {
    forall c ensures Amount(limits, c) <= U64_MAX { AmountRange(limits, c); }
    TallyIsSum(a, b);
    Shorter(Tally(a + b), limits);
    AccumulateStored(a, b);
  }

  lemma AccumulateCommutes(a: CostTable, b: CostTable)
    ensures AccumulateCosts(a, b) == AccumulateCosts(b, a)
  {
    TallyIsSum(a, b);
    TallyIsSum(b, a);
    Canonical(Tally(a + b), Tally(b + a));
  }

  lemma AccumulateEmpty(a: CostTable)
    ensures AccumulateCosts(a, []) == Some(a) == AccumulateCosts([], a)
  {
    SumIsAccumulate(a, [], a);
    SumIsAccumulate([], a, a);
  }

  /** Regrouping to the right keeps both definedness and value. */
  lemma AccumulateRegroups(a: CostTable, b: CostTable, c: CostTable)
    requires AccumulateCosts(a, b).Some?
    requires AccumulateCosts(AccumulateCosts(a, b).value, c).Some?
    ensures AccumulateCosts(b, c).Some?
    ensures AccumulateCosts(a, AccumulateCosts(b, c).value) ==
            AccumulateCosts(AccumulateCosts(a, b).value, c)
  {
    var ab := AccumulateCosts(a, b).value;
    var abc := AccumulateCosts(ab, c).value;
    AccumulateStored(a, b);
    AccumulateStored(ab, c);
    forall d ensures Amount(a, d) >= 0 { AmountRange(a, d); }
    AccumulateWithin(b, c, abc);
    AccumulateStored(b, c);
    SumIsAccumulate(a, AccumulateCosts(b, c).value, abc);
  }

  /** Collects distinct currencies into a table, whatever their order. */
  method CollectCosts(values: seq<Money>) returns (r: Option<CostTable>)
    requires InRange(values)
    ensures r.Some? <==> Distinct(values) && |values| <= MAX_COST_CURRENCIES
    ensures r.Some? ==> |r.value| == |values| && SameCosts(r.value, values)
  {
    var collected: seq<Money> := [];
    var k := 0;
    while k < |values|
      invariant 0 <= k <= |values|
      invariant Distinct(values[..k]) && collected == Tally(values[..k])
      invariant |collected| == k <= MAX_COST_CURRENCIES
    {
      var money := values[k];
      CollectStep(values, k);
      if Has(collected, money.currency) || |collected| == MAX_COST_CURRENCIES {
        return None;
      }
      collected := Charge(collected, money);
      k := k + 1;
    }
    assert values[..k] == values;
    CollectedTable(values);
    r := Some(collected);
  }

  lemma CollectStep(values: seq<Money>, k: nat)
    requires k < |values| && Distinct(values[..k])
    ensures var before := Tally(values[..k]);
            if Has(before, values[k].currency) then !Distinct(values)
            else && Distinct(values[..k + 1]) && Tally(values[..k + 1]) == Charge(before, values[k])
                 && |Charge(before, values[k])| == |before| + 1
  {
    Repeated(values, k);
    TallySnoc(values, k);
    TallyAscending(values[..k]);
    ChargeAscending(Tally(values[..k]), values[k]);
  }

  lemma Repeated(values: seq<Money>, k: nat)
    requires k < |values| && Distinct(values[..k])
    ensures if Has(Tally(values[..k]), values[k].currency) then !Distinct(values) else Distinct(values[..k + 1])
  {
    TallyDistinct(values[..k], values[k].currency);
    HasIndex(values[..k], values[k].currency);
    if Has(values[..k], values[k].currency) {
      var i :| 0 <= i < k && values[..k][i].currency == values[k].currency;
      assert values[i].currency == values[k].currency;
    } else {
      var longer := values[..k + 1];
      forall i, j | 0 <= i < j < |longer| ensures longer[i].currency != longer[j].currency {
        assert values[..k][i].currency == longer[i].currency;
      }
    }
  }

  lemma CollectedTable(values: seq<Money>)
    requires InRange(values) && Distinct(values) && |Tally(values)| <= MAX_COST_CURRENCIES
    ensures IsTable(Tally(values)) && SameCosts(Tally(values), values)
  {
    var t := Tally(values);
    TallyAscending(values);
    forall c ensures Has(t, c) == Has(values, c) && Amount(t, c) == Amount(values, c) {
      TallyDistinct(values, c);
    }
    forall i | 0 <= i < |t| ensures IsU64(t[i].microUnits) {
      AmountAt(t, i);
      AmountRange(values, t[i].currency);
    }
  }

  // ----- limits ---------------------------------------------------------------

  /** `CostLimits::most_restrictive`: the common currencies at the smaller ceiling. */
  function Restrict(a: seq<Money>, b: CostTable): seq<Money> {
    if a == [] then []
    else
      var last, rest := a[|a| - 1], Restrict(a[..|a| - 1], b);
      if Has(b, last.currency) then rest + [Money(last.currency, Min(last.microUnits, Amount(b, last.currency)))]
      else rest
  }

  function Min(x: int, y: int): int {
    if x <= y then x else y
  }

  lemma {:induction false} RestrictAmount(a: seq<Money>, b: CostTable, c: Currency)
    requires Distinct(a)
    ensures Has(Restrict(a, b), c) <==> Has(a, c) && Has(b, c)
    ensures Has(Restrict(a, b), c) ==> Amount(Restrict(a, b), c) == Min(Amount(a, c), Amount(b, c))
  {
    if a != [] {
      var last, init := a[|a| - 1], a[..|a| - 1];
      RestrictAmount(init, b, c);
      HasIndex(init, last.currency);
      if Has(b, last.currency) {
        HasAppend(Restrict(init, b), Money(last.currency, Min(last.microUnits, Amount(b, last.currency))), c);
      }
    }
  }

  lemma {:induction false} RestrictTable(a: CostTable, b: CostTable)
    ensures IsTable(Restrict(a, b))
  {
    if a != [] {
      var last, init := a[|a| - 1], a[..|a| - 1];
      RestrictTable(init, b);
      AmountRange(b, last.currency);
      var r := Restrict(init, b);
      forall i | 0 <= i < |r| ensures r[i].currency < last.currency {
        HasIndex(r, r[i].currency);
        RestrictAmount(init, b, r[i].currency);
        HasIndex(init, r[i].currency);
      }
      RestrictLength(a, b);
    }
  }

  lemma {:induction false} RestrictLength(a: seq<Money>, b: CostTable)
    ensures |Restrict(a, b)| <= |a|
  {
    if a != [] { RestrictLength(a[..|a| - 1], b); }
  }

  /** Subtracts from every entry what the other table records for its currency. */
  function Deduct(a: seq<Money>, b: seq<Money>): seq<Money> {
    seq(|a|, i requires 0 <= i < |a| => Money(a[i].currency, a[i].microUnits - Amount(b, a[i].currency)))
  }

  lemma DeductTable(a: CostTable, b: CostTable)
    requires forall c :: Amount(b, c) <= Amount(a, c)
    ensures IsTable(Deduct(a, b))
  {
    forall i | 0 <= i < |a| ensures IsU64(a[i].microUnits - Amount(b, a[i].currency)) {
      AmountAt(a, i);
      AmountRange(b, a[i].currency);
    }
  }

  lemma DeductAmount(a: CostTable, b: CostTable, c: Currency)
    ensures Has(Deduct(a, b), c) == Has(a, c)
    ensures Has(a, c) ==> Amount(Deduct(a, b), c) == Amount(a, c) - Amount(b, c)
  {
    var r := Deduct(a, b);
    HasIndex(a, c);
    HasIndex(r, c);
    if Has(a, c) {
      var i :| 0 <= i < |a| && a[i].currency == c;
      assert r[i].currency == c;
      AmountAt(a, i);
      AmountAt(r, i);
    }
  }

  /** Every recorded currency is budgeted, at no more than its ceiling. */
  predicate Affordable(limits: CostTable, costs: CostTable) {
    forall i :: 0 <= i < |costs| ==>
      Has(limits, costs[i].currency) && costs[i].microUnits <= Amount(limits, costs[i].currency)
  }

  lemma AffordableExact(limits: CostTable, costs: CostTable)
    ensures Affordable(limits, costs) <==> WithinCosts(costs, limits)
  {
    if Affordable(limits, costs) {
      forall c ensures (Has(costs, c) ==> Has(limits, c)) && Amount(costs, c) <= Amount(limits, c) {
        HasIndex(costs, c);
        AmountRange(limits, c);
        if Has(costs, c) {
          var i :| 0 <= i < |costs| && costs[i].currency == c;
          AmountAt(costs, i);
        }
      }
    }
    if WithinCosts(costs, limits) {
      forall i | 0 <= i < |costs| ensures
          Has(limits, costs[i].currency) && costs[i].microUnits <= Amount(limits, costs[i].currency) {
        AmountAt(costs, i);
      }
    }
  }
}
