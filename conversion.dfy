/**
 * Converting a point-of-sale transaction into another currency with the rates
 * in force at the transaction's own instant.  Every stored rate reads "units
 * of that currency per one unit of the base currency"; the base currency
 * itself has rate 1.
 */
module Conversion {
  import opened RateTrend
  import opened ResultCodes

  /** A transaction: its total, the currency of the total and its instant. */
  datatype POSTransaction = POSTransaction(total: real, currency: string, date: int)

  /** Outcome of looking up one side's rate: the rate, or the error code to report. */
  datatype Lookup = Found(rate: real) | Failed(code: Result)

  /** Outcome of a conversion: the result code and the output record afterwards. */
  datatype Converted = Converted(code: Result, output: POSTransaction)

  /**
   * One side's rate at `date`: 1 for the base currency; otherwise the floor
   * lookup in that currency's trend, which must exist (NoCurrency) and give a
   * positive rate (NoRate: no entry at or before `date`, or unknown/non-positive).
   */
  function RateAt(base: string, trends: map<string, seq<Point>>, currency: string, date: int): (r: Lookup)
    requires AllSorted(trends)
    ensures currency == base ==> r == Found(1.0)
    ensures currency != base && currency !in trends ==> r == Failed(NoCurrency)
    ensures currency != base && currency in trends ==>
              (r.Found? <==> exists p :: IsFloor(trends[currency], date, p) && 0.0 < p.rate)
    ensures currency != base && currency in trends && r.Found? ==>
              exists p :: IsFloor(trends[currency], date, p) && p.rate == r.rate
    ensures currency != base && currency in trends ==> r.Found? || r == Failed(NoRate)
    ensures r.Found? ==> 0.0 < r.rate
  {
    if currency == base then Found(1.0)
    else if currency !in trends then Failed(NoCurrency)
    else
      match Floor(trends[currency], date)
      case None => Failed(NoRate)
      case Some(rate) => if rate <= 0.0 then Failed(NoRate) else Found(rate)
  }

  /**
   * convertPOSTransaction: into the same currency the source is copied as is;
   * otherwise both rates are looked up at the source's date, the source side
   * first, and the total becomes `total / fromRate * toRate`.  On an error the
   * output record `out` is returned untouched.
   */
  function Convert(base: string, trends: map<string, seq<Point>>, out: POSTransaction,
                   src: POSTransaction, toCurrency: string): (c: Converted)
    requires AllSorted(trends)
    ensures src.currency == toCurrency ==> c == Converted(Success, src)
    ensures c.code != Success ==> c.output == out
    ensures c.code == Success <==>
              || src.currency == toCurrency
              || (RateAt(base, trends, src.currency, src.date).Found? &&
                  RateAt(base, trends, toCurrency, src.date).Found?)
    ensures src.currency != toCurrency && RateAt(base, trends, src.currency, src.date).Failed? ==>
              c.code == RateAt(base, trends, src.currency, src.date).code
    ensures src.currency != toCurrency && RateAt(base, trends, src.currency, src.date).Found? &&
            RateAt(base, trends, toCurrency, src.date).Failed? ==>
              c.code == RateAt(base, trends, toCurrency, src.date).code
    ensures c.code == Success && src.currency != toCurrency ==>
              && c.output.currency == toCurrency
              && c.output.date == src.date
              && c.output.total == Rescaled(src.total, RateAt(base, trends, src.currency, src.date).rate,
                                            RateAt(base, trends, toCurrency, src.date).rate)
  {
    if src.currency == toCurrency then Converted(Success, src)
    else
      match RateAt(base, trends, src.currency, src.date)
      case Failed(code) => Converted(code, out)
      case Found(fromRate) =>
        match RateAt(base, trends, toCurrency, src.date)
        case Failed(code) => Converted(code, out)
        case Found(toRate) =>
          Converted(Success, POSTransaction(Rescaled(src.total, fromRate, toRate), toCurrency, src.date))
  }

  /** A total in one currency expressed in another: back to the base (divide), then out of it (multiply). */
  function Rescaled(total: real, fromRate: real, toRate: real): real
    requires 0.0 < fromRate
  {
    total / fromRate * toRate
  }

  /** The base currency's rate is 1: leaving the base only multiplies. */
  lemma RescaledFromBase(total: real, toRate: real)
    ensures Rescaled(total, 1.0, toRate) == total * toRate
  {
    assert total / 1.0 == total;
  }

  /** The base currency's rate is 1: entering the base only divides. */
  lemma RescaledToBase(total: real, fromRate: real)
    requires 0.0 < fromRate
    ensures Rescaled(total, fromRate, 1.0) == total / fromRate
  {
  }

  /** Rescaling there and back again is the identity. */
  lemma RescaleBack(total: real, fromRate: real, toRate: real)
    requires 0.0 < fromRate && 0.0 < toRate
    ensures Rescaled(Rescaled(total, fromRate, toRate), toRate, fromRate) == total
  {
    var q := total / fromRate;
    assert q * toRate / toRate == q;
  }

  /** Converting a converted transaction back into its original currency gives the original back. */
  lemma ConvertRoundTrip(base: string, trends: map<string, seq<Point>>, out: POSTransaction,
                         back: POSTransaction, src: POSTransaction, toCurrency: string)
    requires AllSorted(trends)
    requires Convert(base, trends, out, src, toCurrency).code == Success
    ensures Convert(base, trends, back, Convert(base, trends, out, src, toCurrency).output, src.currency)
            == Converted(Success, src)
  {
    if src.currency != toCurrency {
      var mid := Convert(base, trends, out, src, toCurrency).output;
      var fromRate := RateAt(base, trends, src.currency, src.date).rate;
      var toRate := RateAt(base, trends, toCurrency, src.date).rate;
      RescaleBack(src.total, fromRate, toRate);
    }
  }

  /** From the base currency the total is multiplied by the target's rate in force at the source's date. */
  lemma ConvertFromBase(base: string, trends: map<string, seq<Point>>, out: POSTransaction,
                        src: POSTransaction, toCurrency: string, rate: real)
    requires AllSorted(trends) && src.currency == base && toCurrency != base && toCurrency in trends
    requires Floor(trends[toCurrency], src.date) == Some(rate) && 0.0 < rate
    ensures Convert(base, trends, out, src, toCurrency)
            == Converted(Success, POSTransaction(src.total * rate, toCurrency, src.date))
  {
    RescaledFromBase(src.total, rate);
    assert RateAt(base, trends, toCurrency, src.date) == Found(rate);
  }

  /** Into the base currency the total is divided by the source's rate in force at its date. */
  lemma ConvertToBase(base: string, trends: map<string, seq<Point>>, out: POSTransaction,
                      src: POSTransaction, rate: real)
    requires AllSorted(trends) && src.currency != base && src.currency in trends
    requires Floor(trends[src.currency], src.date) == Some(rate) && 0.0 < rate
    ensures Convert(base, trends, out, src, base)
            == Converted(Success, POSTransaction(src.total / rate, base, src.date))
  {
    RescaledToBase(src.total, rate);
    assert RateAt(base, trends, src.currency, src.date) == Found(rate);
  }
}
