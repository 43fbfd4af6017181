/**
 * What the two inserts mean for the step function a trend denotes, and what
 * a conversion sees afterwards.  The inserts' new states are pinned down by
 * BoundedInserted / OpenInserted; the lemmas here read them back as floor
 * lookups.
 */
module InsertProperties {
  import opened RateTrend
  import opened ResultCodes
  import opened Conversion
  import opened PosTransactions

  /** Inside [fromDate, toDate) a bounded insert's rate is in force. */
  lemma BoundedInside(t: seq<Point>, u: seq<Point>, fromDate: int, toDate: int, rate: real, x: int)
    requires Sorted(t) && fromDate < toDate && BoundedInserted(t, u, fromDate, toDate, rate)
    requires fromDate <= x < toDate
    ensures Floor(u, x) == Some(rate)
  {
    if ReuseFrom(t, fromDate, rate) {
      var p :| IsFloor(t, fromDate, p) && p.rate == rate;
      assert FromBoundary(t, fromDate, rate, p);
      assert IsFloor(u, x, p);
    } else {
      var p := Point(fromDate, rate);
      assert FromBoundary(t, fromDate, rate, p);
      assert IsFloor(u, x, p);
    }
  }

  /**
   * From toDate on a bounded insert leaves the rate that was in force before,
   * a date at which no rate was known now reading the unknown rate.
   */
  lemma BoundedAfter(t: seq<Point>, u: seq<Point>, fromDate: int, toDate: int, rate: real, x: int)
    requires Sorted(t) && fromDate < toDate && BoundedInserted(t, u, fromDate, toDate, rate)
    requires toDate <= x
    ensures Floor(u, x) == Some(Continuation(t, x))
  {
    if exists q :: q in t && toDate < q.date <= x {
      AfterLaterEntry(t, u, fromDate, toDate, rate, x);
    } else {
      FloorSkip(t, toDate, x);
      if ReuseTo(t, toDate, rate) {
        BoundedInside(t, u, fromDate, toDate, rate, fromDate);
        FloorSkip(u, fromDate, x);
      } else {
        AfterToEntry(t, u, fromDate, toDate, rate, x);
      }
    }
  }

  /** BoundedAfter when an old entry lies in (toDate, x]: the old floor entry at x is still there. */
  lemma AfterLaterEntry(t: seq<Point>, u: seq<Point>, fromDate: int, toDate: int, rate: real, x: int)
    requires Sorted(t) && fromDate < toDate && BoundedInserted(t, u, fromDate, toDate, rate)
    requires exists q :: q in t && toDate < q.date <= x
    ensures Floor(u, x) == Some(Continuation(t, x))
  {
    var q :| q in t && toDate < q.date <= x;
    assert Floor(t, x).Some?;
    var p :| IsFloor(t, x, p) && p.rate == Floor(t, x).value;
    assert toDate < p.date;
    assert IsFloor(u, x, p);
  }

  /** BoundedAfter when the `to` entry was written and no old entry lies in (toDate, x]. */
  lemma AfterToEntry(t: seq<Point>, u: seq<Point>, fromDate: int, toDate: int, rate: real, x: int)
    requires Sorted(t) && fromDate < toDate && BoundedInserted(t, u, fromDate, toDate, rate)
    requires toDate <= x && !ReuseTo(t, toDate, rate)
    requires forall q :: q in t && toDate < q.date ==> x < q.date
    ensures Floor(u, x) == Some(Continuation(t, toDate))
  {
    var w := Point(toDate, Continuation(t, toDate));
    assert ToBoundary(t, toDate, rate, w);
    assert IsFloor(u, x, w);
  }

  /** Before fromDate the rates in force are those before a bounded insert. */
  lemma BoundedBefore(t: seq<Point>, u: seq<Point>, fromDate: int, toDate: int, rate: real, x: int)
    requires Sorted(t) && fromDate < toDate && BoundedInserted(t, u, fromDate, toDate, rate)
    requires x < fromDate
    ensures Floor(u, x) == Floor(t, x)
  {
    BoundedKeeps(t, u, fromDate, toDate, rate);
    FloorAgree(t, u, x);
  }

  /** Before fromDate and after toDate a bounded insert keeps every entry (key and value) and adds none. */
  lemma BoundedKeeps(t: seq<Point>, u: seq<Point>, fromDate: int, toDate: int, rate: real)
    requires Sorted(t) && fromDate < toDate && BoundedInserted(t, u, fromDate, toDate, rate)
    ensures forall p: Point :: p.date < fromDate || toDate < p.date ==> (p in u <==> p in t)
  {
  }

  /** Into an empty trend a bounded insert writes exactly `rate` at fromDate and the unknown rate at toDate. */
  lemma BoundedIntoEmpty(u: seq<Point>, fromDate: int, toDate: int, rate: real)
    requires fromDate < toDate && BoundedInserted([], u, fromDate, toDate, rate)
    ensures u == [Point(fromDate, rate), Point(toDate, Unknown)]
  {
    var expected := [Point(fromDate, rate), Point(toDate, Unknown)];
    assert !ReuseFrom([], fromDate, rate) && !ReuseTo([], toDate, rate);
    assert Continuation([], toDate) == Unknown;
    SameElementsEqual(u, expected);
  }

  /** BoundedInserted fixes the whole new trend: two results of the same insert are equal. */
  lemma BoundedDeterministic(t: seq<Point>, u: seq<Point>, v: seq<Point>, fromDate: int, toDate: int, rate: real)
    requires Sorted(t)
    requires BoundedInserted(t, u, fromDate, toDate, rate) && BoundedInserted(t, v, fromDate, toDate, rate)
    ensures u == v
  {
    SameElementsEqual(u, v);
  }

  /** Repeating a bounded insert changes no rate in force at any instant. */
  lemma BoundedIdempotent(t: seq<Point>, u: seq<Point>, v: seq<Point>, fromDate: int, toDate: int, rate: real,
                          x: int)
    requires Sorted(t) && fromDate < toDate
    requires BoundedInserted(t, u, fromDate, toDate, rate) && BoundedInserted(u, v, fromDate, toDate, rate)
    ensures Floor(v, x) == Floor(u, x)
  {
    if x < fromDate {
      BoundedBefore(u, v, fromDate, toDate, rate, x);
    } else if x < toDate {
      BoundedInside(t, u, fromDate, toDate, rate, x);
      BoundedInside(u, v, fromDate, toDate, rate, x);
    } else {
      BoundedInside(t, u, fromDate, toDate, rate, fromDate);
      BoundedAfter(u, v, fromDate, toDate, rate, x);
      assert Floor(u, x).Some? by {
        var p :| IsFloor(u, fromDate, p) && p.rate == rate;
      }
    }
  }

  /**
   * Repeating a bounded insert of a known rate leaves the trend exactly as
   * the first insert left it.
   */
  lemma BoundedIdempotentExact(t: seq<Point>, u: seq<Point>, v: seq<Point>, fromDate: int, toDate: int,
                               rate: real)
    requires Sorted(t) && fromDate < toDate && rate != Unknown
    requires BoundedInserted(t, u, fromDate, toDate, rate) && BoundedInserted(u, v, fromDate, toDate, rate)
    ensures v == u
  {
    BoundedInside(t, u, fromDate, toDate, rate, fromDate);
    RepeatReuse(t, u, fromDate, toDate, rate);
    forall p
      ensures p in v <==> p in u
    {
      if p in u && p.date == toDate && !ReuseTo(t, toDate, rate) {
        var w := Point(toDate, Continuation(t, toDate));
        assert w in u;
        SameDateSamePoint(u, p, w);
      }
    }
    SameElementsEqual(v, u);
  }

  /**
   * After a bounded insert of a known rate, the same insert again reuses its
   * `from` entry, and reuses at toDate exactly when the first one did; a
   * written `to` entry is written again with the same rate.
   */
  lemma RepeatReuse(t: seq<Point>, u: seq<Point>, fromDate: int, toDate: int, rate: real)
    requires Sorted(t) && fromDate < toDate && rate != Unknown
    requires BoundedInserted(t, u, fromDate, toDate, rate)
    ensures ReuseFrom(u, fromDate, rate)
    ensures ReuseTo(u, toDate, rate) <==> ReuseTo(t, toDate, rate)
    ensures Continuation(u, toDate) == Continuation(t, toDate)
  {
    BoundedInside(t, u, fromDate, toDate, rate, fromDate);
    BoundedAfter(t, u, fromDate, toDate, rate, toDate);
    ContinuationKnown(t, toDate, rate);
    BoundedKeeps(t, u, fromDate, toDate, rate);
    LaterEntries(t, u, toDate);
  }

  /** Two trends with the same entries after `date` both have one after `date`, or neither has. */
  lemma LaterEntries(t: seq<Point>, u: seq<Point>, date: int)
    requires forall p: Point :: date < p.date ==> (p in u <==> p in t)
    ensures (exists q :: q in u && date < q.date) <==> (exists q :: q in t && date < q.date)
  {
    if exists q :: q in t && date < q.date {
      var q :| q in t && date < q.date;
      assert q in u;
    }
  }

  /**
   * Adjacent entries may carry equal rates: the unknown rate inserted for a
   * period before a trend's first entry is written at both of its ends.
   */
  lemma UnknownBeforeFirstEntry()
    ensures BoundedInserted([Point(10, 5.0)], [Point(0, Unknown), Point(5, Unknown), Point(10, 5.0)], 0, 5, Unknown)
  {
    var t := [Point(10, 5.0)];
    assert Floor(t, 0) == None && Floor(t, 5) == None;
  }

  /**
   * Reuse can merge: the rate in force at toDate equals the new rate and an
   * entry follows, so that entry ends the period and the equal entry at
   * toDate is erased.
   */
  lemma ReuseMergesEqualEntry()
    ensures BoundedInserted([Point(0, 1.0), Point(20, 5.0), Point(30, 9.0)],
                            [Point(0, 1.0), Point(10, 5.0), Point(30, 9.0)], 10, 20, 5.0)
  {
    var t := [Point(0, 1.0), Point(20, 5.0), Point(30, 9.0)];
    assert IsFloor(t, 10, t[0]) && IsFloor(t, 20, t[1]);
    assert Floor(t, 10) == Some(1.0) && Floor(t, 20) == Some(5.0);
    assert t[2] in t;
  }

  /**
   * Consecutive periods: when a trend ends with the unknown rate at fromDate
   * (the end of the previous period), a bounded insert of a known rate for
   * [fromDate, toDate) replaces that last entry and appends the new end.
   */
  lemma AppendPeriod(t: seq<Point>, u: seq<Point>, fromDate: int, toDate: int, rate: real)
    requires Sorted(t) && t != [] && t[|t| - 1] == Point(fromDate, Unknown)
    requires fromDate < toDate && rate != Unknown
    requires BoundedInserted(t, u, fromDate, toDate, rate)
    ensures u == t[..|t| - 1] + [Point(fromDate, rate), Point(toDate, Unknown)]
  {
    var n := |t| - 1;
    var e := t[..n] + [Point(fromDate, rate), Point(toDate, Unknown)];
    assert !ReuseFrom(t, fromDate, rate) && !ReuseTo(t, toDate, rate) && Continuation(t, toDate) == Unknown by {
      assert IsFloor(t, fromDate, t[n]) && IsFloor(t, toDate, t[n]);
    }
    LastEntryMembers(t, fromDate);
    AppendedSorted(t, fromDate, toDate, rate);
    forall p
      ensures p in u <==> p in e
    {
      assert p in u <==> (p in t[..n] || p == Point(fromDate, rate) || p == Point(toDate, Unknown));
    }
    SameElementsEqual(u, e);
  }

  /** All entries but the last are exactly those dated before the last one, and none is after it. */
  lemma LastEntryMembers(t: seq<Point>, lastDate: int)
    requires Sorted(t) && t != [] && t[|t| - 1].date == lastDate
    ensures forall p :: p in t[..|t| - 1] <==> p in t && p.date < lastDate
    ensures forall p :: p in t ==> p.date <= lastDate
  {
    forall p | p in t
      ensures p.date <= lastDate && (p in t[..|t| - 1] <==> p.date < lastDate)
    {
      var k :| 0 <= k < |t| && t[k] == p;
      if k < |t| - 1 {
        assert t[..|t| - 1][k] == p;
      }
    }
    forall p | p in t[..|t| - 1]
      ensures p in t
    {
      var k :| 0 <= k < |t| - 1 && t[..|t| - 1][k] == p;
      assert t[k] == p;
    }
  }

  /** Replacing the last entry by two later-or-equal-dated entries keeps key order. */
  lemma AppendedSorted(t: seq<Point>, fromDate: int, toDate: int, rate: real)
    requires Sorted(t) && t != [] && t[|t| - 1].date == fromDate && fromDate < toDate
    ensures Sorted(t[..|t| - 1] + [Point(fromDate, rate), Point(toDate, Unknown)])
  {
    var n := |t| - 1;
    var e := t[..n] + [Point(fromDate, rate), Point(toDate, Unknown)];
    assert forall k :: 0 <= k < n ==> e[k] == t[k] && t[k].date < fromDate;
    assert e[n] == Point(fromDate, rate) && e[n + 1] == Point(toDate, Unknown);
  }

  /** From fromDate on an open-ended insert's rate is in force, and no entry lies after fromDate. */
  lemma OpenFromOnward(t: seq<Point>, u: seq<Point>, fromDate: int, rate: real, x: int)
    requires Sorted(t) && OpenInserted(t, u, fromDate, rate)
    requires fromDate <= x
    ensures forall p :: p in u ==> p.date <= fromDate
    ensures Floor(u, x) == Some(rate)
  {
    if ReuseFrom(t, fromDate, rate) {
      var p :| IsFloor(t, fromDate, p) && p.rate == rate;
      assert FromBoundary(t, fromDate, rate, p);
      assert IsFloor(u, x, p);
    } else {
      var p := Point(fromDate, rate);
      assert FromBoundary(t, fromDate, rate, p);
      assert IsFloor(u, x, p);
    }
  }

  /** Before fromDate an open-ended insert keeps every entry and every rate in force. */
  lemma OpenBefore(t: seq<Point>, u: seq<Point>, fromDate: int, rate: real, x: int)
    requires Sorted(t) && OpenInserted(t, u, fromDate, rate)
    requires x < fromDate
    ensures forall p: Point :: p.date < fromDate ==> (p in u <==> p in t)
    ensures Floor(u, x) == Floor(t, x)
  {
    FloorAgree(t, u, x);
  }

  /** Into an empty trend an open-ended insert writes exactly `rate` at fromDate. */
  lemma OpenIntoEmpty(u: seq<Point>, fromDate: int, rate: real)
    requires OpenInserted([], u, fromDate, rate)
    ensures u == [Point(fromDate, rate)]
  {
    assert !ReuseFrom([], fromDate, rate);
    SameElementsEqual(u, [Point(fromDate, rate)]);
  }

  /** OpenInserted fixes the whole new trend. */
  lemma OpenDeterministic(t: seq<Point>, u: seq<Point>, v: seq<Point>, fromDate: int, rate: real)
    requires Sorted(t) && OpenInserted(t, u, fromDate, rate) && OpenInserted(t, v, fromDate, rate)
    ensures u == v
  {
    SameElementsEqual(u, v);
  }

  /**
   * After a bounded insert of a positive `rate` into `c`'s trend, a base
   * total converted into `c` at an instant of the period is multiplied by
   * `rate`, and a `c` total converted into the base is divided by it.
   */
  lemma ConvertInsidePeriod(base: string, trends: map<string, seq<Point>>, t: seq<Point>, c: string,
                            fromDate: int, toDate: int, rate: real, out: POSTransaction, src: POSTransaction)
    requires AllSorted(trends) && c != base && c in trends && Sorted(t) && fromDate < toDate
    requires BoundedInserted(t, trends[c], fromDate, toDate, rate)
    requires 0.0 < rate && fromDate <= src.date < toDate
    ensures src.currency == base ==>
              Convert(base, trends, out, src, c) == Converted(Success, POSTransaction(src.total * rate, c, src.date))
    ensures src.currency == c ==>
              Convert(base, trends, out, src, base) == Converted(Success, POSTransaction(src.total / rate, base, src.date))
  {
    BoundedInside(t, trends[c], fromDate, toDate, rate, src.date);
    if src.currency == base {
      ConvertFromBase(base, trends, out, src, c, rate);
    }
    if src.currency == c {
      ConvertToBase(base, trends, out, src, rate);
    }
  }

  /**
   * Inserting the unknown rate for a period makes every conversion involving
   * `c` inside the period fail with NoRate, leaving the output record alone.
   */
  lemma ConvertUnknownPeriod(base: string, trends: map<string, seq<Point>>, t: seq<Point>, c: string,
                             fromDate: int, toDate: int, out: POSTransaction, src: POSTransaction,
                             toCurrency: string)
    requires AllSorted(trends) && c != base && c in trends && Sorted(t) && fromDate < toDate
    requires BoundedInserted(t, trends[c], fromDate, toDate, Unknown)
    requires fromDate <= src.date < toDate && src.currency != toCurrency
    requires src.currency == c || (toCurrency == c && RateAt(base, trends, src.currency, src.date).Found?)
    ensures Convert(base, trends, out, src, toCurrency) == Converted(NoRate, out)
  {
    BoundedInside(t, trends[c], fromDate, toDate, Unknown, src.date);
  }
}
