/**
 * The exchange-rate store of the point-of-sale transaction manager: one rate
 * trend per non-base currency, every stored rate meaning "units of that
 * currency per one unit of the base currency", and the two ways of inserting
 * a rate for a period (bounded and open-ended).
 */
module PosTransactions {
  import opened RateTrend
  import opened ResultCodes
  import opened Conversion

  /**
   * checkCurrency: a rate must be given between the base currency and another
   * one.  Neither side being the base is reported before both sides being equal.
   */
  function CheckCurrency(base: string, fromCurrency: string, toCurrency: string): (r: Result)
    ensures r == CurrencyNotMatch <==> base != fromCurrency && base != toCurrency
    ensures r == SameCurrency <==> (base == fromCurrency || base == toCurrency) && fromCurrency == toCurrency
    ensures r == Success <==> (base == fromCurrency) != (base == toCurrency)
  {
    if base != fromCurrency && base != toCurrency then CurrencyNotMatch
    else if fromCurrency == toCurrency then SameCurrency
    else Success
  }

  /**
   * getCurrencyAndRate: the currency whose trend receives the rate (the side
   * that is not the base) and the rate turned into "base -> that currency",
   * inverted when the base is the "to" side.
   */
  method GetCurrencyAndRate(base: string, fromCurrency: string, toCurrency: string, rate: real)
    returns (currency: string, baseRate: real)
    requires base == toCurrency ==> rate != 0.0
    ensures CheckCurrency(base, fromCurrency, toCurrency) == Success ==>
              currency != base && {currency, base} == {fromCurrency, toCurrency}
    ensures base == fromCurrency && base != toCurrency ==> currency == toCurrency && baseRate == rate
    ensures base == toCurrency && base != fromCurrency ==> currency == fromCurrency && baseRate * rate == 1.0
  {
    currency, baseRate := "", rate;
    if base == toCurrency {
      currency := fromCurrency;
      baseRate := 1.0 / rate;
    }
    if base == fromCurrency {
      currency := toCurrency;
    }
  }

  /** The entry in force at `fromDate` already carries `rate`: it is extended instead of adding one. */
  ghost predicate ReuseFrom(t: seq<Point>, fromDate: int, rate: real)
    requires Sorted(t)
  {
    Floor(t, fromDate) == Some(rate)
  }

  /**
   * The rate in force at `toDate` equals `rate` and an entry follows `toDate`:
   * that following entry already ends the new period, so nothing is written at `toDate`.
   */
  ghost predicate ReuseTo(t: seq<Point>, toDate: int, rate: real)
    requires Sorted(t)
  {
    Floor(t, toDate) == Some(rate) && exists q :: q in t && toDate < q.date
  }

  /**
   * The entries a period starting at `fromDate` leaves at or before `fromDate`:
   * the older ones, and at `fromDate` either the entry already there (when the
   * rate in force is reused) or the new `(fromDate, rate)`.
   */
  ghost predicate FromBoundary(t: seq<Point>, fromDate: int, rate: real, p: Point)
    requires Sorted(t)
  {
    || (p in t && p.date < fromDate)
    || (p.date == fromDate && if ReuseFrom(t, fromDate, rate) then p in t else p == Point(fromDate, rate))
  }

  /** The entry written at `toDate`: the rate that was in force there (unknown if none). */
  ghost predicate ToBoundary(t: seq<Point>, toDate: int, rate: real, p: Point)
    requires Sorted(t)
  {
    !ReuseTo(t, toDate, rate) && p == Point(toDate, Continuation(t, toDate))
  }

  /**
   * `u` is `t` after a bounded insert of `rate` for [fromDate, toDate): the
   * entries at or before `fromDate` given by FromBoundary, the `toDate` entry
   * given by ToBoundary, the entries after `toDate` unchanged, nothing else.
   */
  ghost predicate BoundedInserted(t: seq<Point>, u: seq<Point>, fromDate: int, toDate: int, rate: real)
    requires Sorted(t)
  {
    && Sorted(u)
    && forall p :: p in u <==>
         || FromBoundary(t, fromDate, rate, p)
         || ToBoundary(t, toDate, rate, p)
         || (p in t && toDate < p.date)
  }

  /** `u` is `t` after an open-ended insert of `rate` from `fromDate` on. */
  ghost predicate OpenInserted(t: seq<Point>, u: seq<Point>, fromDate: int, rate: real)
    requires Sorted(t)
  {
    && Sorted(u)
    && forall p :: p in u <==> FromBoundary(t, fromDate, rate, p)
  }

  /** FromBoundary only looks at the entries at or before `fromDate`. */
  lemma FromBoundaryAgree(t: seq<Point>, u: seq<Point>, fromDate: int, rate: real)
    requires Sorted(t) && Sorted(u)
    requires forall p: Point :: p.date <= fromDate ==> (p in t <==> p in u)
    ensures forall p :: FromBoundary(t, fromDate, rate, p) <==> FromBoundary(u, fromDate, rate, p)
  {
    FloorAgree(t, u, fromDate);
  }

  /** The `from` boundary when the entry in force at `fromDate`, t[k], already carries `rate`. */
  lemma FromReused(t: seq<Point>, fromDate: int, rate: real, k: nat)
    requires Sorted(t) && k < |t| && IsFloor(t, fromDate, t[k]) && t[k].rate == rate
    ensures ReuseFrom(t, fromDate, rate)
    ensures forall p :: p in t && p.date <= t[k].date <==> FromBoundary(t, fromDate, rate, p)
    ensures forall p :: p in t && t[k].date < p.date <==> p in t && fromDate < p.date
  {
    FloorPrefix(t, fromDate, k);
  }

  /** The `from` boundary when `(fromDate, rate)` is written into `t`, giving `u`. */
  lemma FromWritten(t: seq<Point>, fromDate: int, rate: real, u: seq<Point>)
    requires Sorted(t) && !ReuseFrom(t, fromDate, rate)
    requires forall p :: p in u <==> (p in t && p.date != fromDate) || p == Point(fromDate, rate)
    ensures forall p :: p in u && p.date <= fromDate <==> FromBoundary(t, fromDate, rate, p)
    ensures forall p :: p in u && fromDate < p.date <==> p in t && fromDate < p.date
  {
  }

  /**
   * insertFromUnsafe: makes the entry in force at `fromDate` carry `rate`,
   * reusing the entry in force when it already does, and otherwise writing
   * `(fromDate, rate)` (adding it or overwriting the value at `fromDate`).
   * Returns the updated trend and the position of that entry.
   */
  method InsertFromUnsafe(t: seq<Point>, fromDate: int, rate: real) returns (t': seq<Point>, fromIt: nat)
    requires Sorted(t)
    ensures Sorted(t') && fromIt < |t'|
    ensures t'[fromIt].date <= fromDate && t'[fromIt].rate == rate
    ensures forall p :: p in t' && p.date <= t'[fromIt].date <==> FromBoundary(t, fromDate, rate, p)
    ensures forall p :: p in t' && t'[fromIt].date < p.date <==> p in t && fromDate < p.date
    ensures ReuseFrom(t, fromDate, rate) ==> t' == t
    ensures |t| <= |t'| <= |t| + 1
    ensures |t'| == |t| ==> forall j :: 0 <= j < |t| && fromDate < t[j].date ==> t'[j] == t[j]
    ensures |t'| == |t| + 1 ==> forall j :: 0 <= j < |t| && fromDate < t[j].date ==> t'[j + 1] == t[j]
  {
    fromIt := |t|;
    var nextFromIt := UpperBound(t, fromDate);
    if nextFromIt != 0 {
      var prevFromIt := nextFromIt - 1;
      if t[prevFromIt].rate == rate {
        fromIt := prevFromIt;
      }
    }
    t' := t;
    if fromIt == |t'| {
      assert !ReuseFrom(t, fromDate, rate);
      var res := Emplace(t', fromDate, rate);
      t' := res.trend;
      if !res.inserted {
        t' := t'[res.pos := Point(fromDate, rate)];
      }
      EmplaceAssign(t, fromDate, rate, res, t');
      fromIt := res.pos;
      FromWritten(t, fromDate, rate, t');
    } else {
      assert IsFloor(t, fromDate, t[fromIt]);
      FromReused(t, fromDate, rate, fromIt);
    }
  }

  /**
   * The `to` boundary when the entry t[k] following `toDate` is reused: t[k]
   * is `upper_bound(toDate)` and its predecessor, in force at `toDate`, carries `rate`.
   */
  lemma ToReused(t: seq<Point>, toDate: int, rate: real, k: nat)
    requires Sorted(t) && 0 < k < |t| && t[k - 1].date <= toDate < t[k].date && t[k - 1].rate == rate
    ensures ReuseTo(t, toDate, rate)
    ensures forall p :: p in t && t[k].date <= p.date <==> p in t && toDate < p.date
  {
    assert k == UpperBound(t, toDate);
    assert t[k] in t;
    AfterUpperBound(t, toDate, k);
  }

  /** The `to` boundary when `(toDate, c)`, c the rate in force, is written into `t`, giving `u`. */
  lemma ToWritten(t: seq<Point>, toDate: int, rate: real, u: seq<Point>)
    requires Sorted(t) && !ReuseTo(t, toDate, rate)
    requires forall p :: p in u <==> (p in t && p.date != toDate) || p == Point(toDate, Continuation(t, toDate))
    ensures forall p :: p in u && toDate <= p.date <==> ToBoundary(t, toDate, rate, p) || (p in t && toDate < p.date)
    ensures forall p: Point :: p.date < toDate ==> (p in u <==> p in t)
  {
  }

  /**
   * insertToUnsafe: keeps the rate in force at `toDate` (unknown if none) in
   * force from `toDate` on.  When that rate is `rate` and an entry follows
   * `toDate`, the following entry is returned; otherwise `(toDate, rate in
   * force)` is written (added or overwritten) and returned.
   */
  method InsertToUnsafe(t: seq<Point>, toDate: int, rate: real) returns (t': seq<Point>, toIt: nat)
    requires Sorted(t)
    ensures Sorted(t') && toIt < |t'| && toDate <= t'[toIt].date
    ensures forall p :: p in t' && t'[toIt].date <= p.date <==>
              ToBoundary(t, toDate, rate, p) || (p in t && toDate < p.date)
    ensures forall p: Point :: p.date < toDate ==> (p in t' <==> p in t)
    ensures ReuseTo(t, toDate, rate) ==> t' == t
    ensures !ReuseTo(t, toDate, rate) ==> t'[toIt] == Point(toDate, Continuation(t, toDate))
  {
    toIt := |t|;
    var toRate := Unknown;
    var nextToIt := UpperBound(t, toDate);
    if nextToIt != 0 {
      toRate := t[nextToIt - 1].rate;
      if toRate == rate {
        toIt := nextToIt;
      }
    }
    t' := t;
    if toIt == |t'| {
      assert toRate == Continuation(t, toDate);
      assert !ReuseTo(t, toDate, rate);
      var res := Emplace(t', toDate, toRate);
      t' := res.trend;
      if !res.inserted {
        t' := t'[res.pos := Point(toDate, toRate)];
      }
      EmplaceAssign(t, toDate, toRate, res, t');
      toIt := res.pos;
      ToWritten(t, toDate, rate, t');
    } else {
      ToReused(t, toDate, rate, toIt);
    }
  }

  /** The entry t1[k], after `fromDate`, is at position k or k + 1 of t2, as t2 is one longer. */
  lemma ToEntryMoved(t1: seq<Point>, t2: seq<Point>, fromDate: int, k: nat, k2: nat)
    requires k < |t1| && fromDate < t1[k].date && |t1| <= |t2| <= |t1| + 1
    requires k2 == if |t2| == |t1| then k else k + 1
    requires |t2| == |t1| ==> forall j :: 0 <= j < |t1| && fromDate < t1[j].date ==> t2[j] == t1[j]
    requires |t2| == |t1| + 1 ==> forall j :: 0 <= j < |t1| && fromDate < t1[j].date ==> t2[j + 1] == t1[j]
    ensures k2 < |t2| && t2[k2] == t1[k]
  {
  }

  /** The range erased by a bounded insert, (fromIt, toIt), is well formed. */
  lemma EraseRangeWellFormed(t: seq<Point>, fromIt: nat, toIt: nat, fromDate: int, toDate: int)
    requires Sorted(t) && fromIt < |t| && toIt < |t|
    requires t[fromIt].date <= fromDate < toDate <= t[toIt].date
    ensures fromIt < toIt
  {
  }

  /**
   * The erase step of a bounded insert: given what insertToUnsafe produced
   * (`t1`, `toIt`) from `t` and what insertFromUnsafe produced (`t2`, `fromIt`)
   * from `t1`, with `toIt2` the position of the `to` entry in `t2`, erasing
   * (fromIt, toIt2) leaves exactly the bounded insert of `t`.
   */
  lemma BoundedErase(t: seq<Point>, t1: seq<Point>, toIt: nat, t2: seq<Point>, fromIt: nat, toIt2: nat,
                     fromDate: int, toDate: int, rate: real)
    requires Sorted(t) && Sorted(t1) && Sorted(t2) && fromDate < toDate
    requires toIt < |t1| && toDate <= t1[toIt].date
    requires forall p :: p in t1 && t1[toIt].date <= p.date <==>
               ToBoundary(t, toDate, rate, p) || (p in t && toDate < p.date)
    requires forall p: Point :: p.date < toDate ==> (p in t1 <==> p in t)
    requires fromIt < |t2| && t2[fromIt].date <= fromDate
    requires forall p :: p in t2 && p.date <= t2[fromIt].date <==> FromBoundary(t1, fromDate, rate, p)
    requires forall p :: p in t2 && t2[fromIt].date < p.date <==> p in t1 && fromDate < p.date
    requires toIt2 < |t2| && t2[toIt2] == t1[toIt]
    ensures fromIt < toIt2
    ensures BoundedInserted(t, t2[..fromIt + 1] + t2[toIt2..], fromDate, toDate, rate)
  {
    EraseRangeWellFormed(t2, fromIt, toIt2, fromDate, toDate);
    EraseBetween(t2, fromIt, toIt2);
    FromBoundaryAgree(t, t1, fromDate, rate);
    var u := t2[..fromIt + 1] + t2[toIt2..];
    forall p
      ensures p in u <==> FromBoundary(t, fromDate, rate, p) || ToBoundary(t, toDate, rate, p) || (p in t && toDate < p.date)
    {
      if FromBoundary(t, fromDate, rate, p) {
        assert p in t2 && p.date <= t2[fromIt].date;
      }
      if ToBoundary(t, toDate, rate, p) || (p in t && toDate < p.date) {
        assert p in t1 && t1[toIt].date <= p.date;
        assert p in t2;
      }
    }
  }

  /**
   * The bounded insert of addExchangeRate on one trend: into an empty trend
   * `(fromDate, rate)` and `(toDate, unknown)`; otherwise the `to` boundary,
   * then the `from` boundary, then everything strictly between them erased.
   */
  method InsertIntervalUnsafe(t: seq<Point>, fromDate: int, toDate: int, rate: real) returns (t': seq<Point>)
    requires Sorted(t) && fromDate < toDate
    ensures BoundedInserted(t, t', fromDate, toDate, rate)
  {
    if t == [] {
      var first := Emplace(t, fromDate, rate);
      var second := Emplace(first.trend, toDate, Unknown);
      t' := second.trend;
      assert first.trend == [Point(fromDate, rate)];
      assert t' == [Point(fromDate, rate), Point(toDate, Unknown)];
      return;
    }
    var t1, toIt := InsertToUnsafe(t, toDate, rate);
    var t2, fromIt := InsertFromUnsafe(t1, fromDate, rate);
    // an entry added by insertFromUnsafe lies before the `to` entry, which moves one place on
    ghost var toIt1 := toIt;
    if |t2| != |t1| {
      toIt := toIt + 1;
    }
    ToEntryMoved(t1, t2, fromDate, toIt1, toIt);
    BoundedErase(t, t1, toIt1, t2, fromIt, toIt, fromDate, toDate, rate);
    t' := t2[..fromIt + 1] + t2[toIt..];
  }

  /**
   * The open-ended insert of addExchangeRate on one trend: into an empty trend
   * just `(fromDate, rate)`; otherwise the `from` boundary, then everything
   * after it erased.
   */
  method InsertOpenEndedUnsafe(t: seq<Point>, fromDate: int, rate: real) returns (t': seq<Point>)
    requires Sorted(t)
    ensures OpenInserted(t, t', fromDate, rate)
    ensures t' != [] && t'[|t'| - 1].date <= fromDate && t'[|t'| - 1].rate == rate
  {
    if t == [] {
      t' := Emplace(t, fromDate, rate).trend;
      assert t' == [Point(fromDate, rate)];
      return;
    }
    var t1, fromIt := InsertFromUnsafe(t, fromDate, rate);
    t' := t1[..fromIt + 1];
    EraseAfter(t1, fromIt);
  }

  /** `after` is `before` with only `c`'s trend possibly added or replaced. */
  ghost predicate OnlyTrendChanged(before: map<string, seq<Point>>, after: map<string, seq<Point>>, c: string)
  {
    && after.Keys == before.Keys + {c}
    && forall d :: d in before && d != c ==> after[d] == before[d]
  }

  /** The exchange-rate store: a base currency fixed at construction and one trend per other currency. */
  class POSTransactionManager {
    const baseCurrency: string
    var trends: map<string, seq<Point>>

    ghost predicate Valid()
      reads this
    {
      && baseCurrency != ""
      && baseCurrency !in trends
      && AllSorted(trends)
    }

    /** The trend of `currency`, empty when none was created yet. */
    ghost function TrendOf(currency: string): seq<Point>
      reads this
    {
      if currency in trends then trends[currency] else []
    }

    constructor (baseCurrency: string)
      requires baseCurrency != ""
      ensures Valid() && this.baseCurrency == baseCurrency && trends == map[]
    {
      this.baseCurrency := baseCurrency;
      trends := map[];
    }

    /** Construction: an empty base currency throws (None here); any other string is accepted. */
    static method Create(baseCurrency: string) returns (m: Option<POSTransactionManager>)
      ensures m.None? <==> baseCurrency == ""
      ensures m.Some? ==> fresh(m.value) && m.value.Valid()
      ensures m.Some? ==> m.value.baseCurrency == baseCurrency && m.value.trends == map[]
    {
      if baseCurrency == "" {
        return None;
      }
      var mng := new POSTransactionManager(baseCurrency);
      return Some(mng);
    }

    /** getExchangeRates: a copy of the whole currency map. */
    method GetExchangeRates() returns (snapshot: map<string, seq<Point>>)
      requires Valid()
      ensures snapshot == trends
      ensures AllSorted(snapshot) && baseCurrency !in snapshot
    {
      snapshot := trends;
    }

    /**
     * convertPOSTransaction: a const member, i.e. a read-only view of the
     * store; its meaning is that of Conversion.Convert on the current state.
     */
    function ConvertPOSTransaction(out: POSTransaction, src: POSTransaction, toCurrency: string): (c: Converted)
      reads this
      requires Valid()
      ensures src.currency == toCurrency ==> c == Converted(Success, src)
      ensures c.code != Success ==> c.output == out
      ensures c.code == Success && src.currency != toCurrency ==>
                c.output.currency == toCurrency && c.output.date == src.date
    {
      Convert(baseCurrency, trends, out, src, toCurrency)
    }

    /** getCurrencyTrendUnsafe: the trend of `currency`, created empty when absent. */
    method GetCurrencyTrendUnsafe(currency: string) returns (trend: seq<Point>)
      requires Valid() && currency != baseCurrency
      modifies this
      ensures Valid()
      ensures trends == if currency in old(trends) then old(trends) else old(trends)[currency := []]
      ensures currency in trends && trend == trends[currency]
    {
      if currency !in trends {
        trends := trends[currency := []];
      }
      trend := trends[currency];
    }

    /**
     * addExchangeRate(from, to, fromDate, toDate, rate): `rate` units of `to`
     * per unit of `from` hold on [fromDate, toDate).
     */
    method AddExchangeRate(fromCurrency: string, toCurrency: string, fromDate: int, toDate: int, rate: real)
      returns (r: Result)
      requires Valid()
      requires (CheckCurrency(baseCurrency, fromCurrency, toCurrency) == Success && fromDate < toDate
                && toCurrency == baseCurrency) ==> rate != 0.0
      modifies this
      ensures Valid()
      ensures r == if CheckCurrency(baseCurrency, fromCurrency, toCurrency) != Success
                   then CheckCurrency(baseCurrency, fromCurrency, toCurrency)
                   else if toDate <= fromDate then InvalidDate
                   else Success
      ensures r != Success ==> trends == old(trends)
      ensures r == Success && fromCurrency == baseCurrency ==>
                && OnlyTrendChanged(old(trends), trends, toCurrency)
                && BoundedInserted(old(TrendOf(toCurrency)), trends[toCurrency], fromDate, toDate, rate)
      ensures r == Success && toCurrency == baseCurrency ==>
                && OnlyTrendChanged(old(trends), trends, fromCurrency)
                && BoundedInserted(old(TrendOf(fromCurrency)), trends[fromCurrency], fromDate, toDate, 1.0 / rate)
    {
      r := CheckCurrency(baseCurrency, fromCurrency, toCurrency);
      if r != Success {
        return;
      }
      if fromDate >= toDate {
        return InvalidDate;
      }
      var currency, baseRate := GetCurrencyAndRate(baseCurrency, fromCurrency, toCurrency, rate);
      assert toCurrency == baseCurrency ==> baseRate == 1.0 / rate;
      var trend := GetCurrencyTrendUnsafe(currency);
      trend := InsertIntervalUnsafe(trend, fromDate, toDate, baseRate);
      trends := trends[currency := trend];
      return Success;
    }

    /** addExchangeRate(from, to, fromDate, rate): the rate holds from `fromDate` on, with no end. */
    method AddOpenExchangeRate(fromCurrency: string, toCurrency: string, fromDate: int, rate: real)
      returns (r: Result)
      requires Valid()
      requires (CheckCurrency(baseCurrency, fromCurrency, toCurrency) == Success
                && toCurrency == baseCurrency) ==> rate != 0.0
      modifies this
      ensures Valid()
      ensures r == CheckCurrency(baseCurrency, fromCurrency, toCurrency)
      ensures r != Success ==> trends == old(trends)
      ensures r == Success && fromCurrency == baseCurrency ==>
                && OnlyTrendChanged(old(trends), trends, toCurrency)
                && OpenInserted(old(TrendOf(toCurrency)), trends[toCurrency], fromDate, rate)
      ensures r == Success && toCurrency == baseCurrency ==>
                && OnlyTrendChanged(old(trends), trends, fromCurrency)
                && OpenInserted(old(TrendOf(fromCurrency)), trends[fromCurrency], fromDate, 1.0 / rate)
    {
      r := CheckCurrency(baseCurrency, fromCurrency, toCurrency);
      if r != Success {
        return;
      }
      var currency, baseRate := GetCurrencyAndRate(baseCurrency, fromCurrency, toCurrency, rate);
      assert toCurrency == baseCurrency ==> baseRate == 1.0 / rate;
      var trend := GetCurrencyTrendUnsafe(currency);
      trend := InsertOpenEndedUnsafe(trend, fromDate, baseRate);
      trends := trends[currency := trend];
      return Success;
    }
  }
}
