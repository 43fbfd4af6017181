/**
 * A currency's rate trend: the ordered map from instant to rate that the
 * manager keeps per non-base currency, read as a right-continuous step
 * function.  The map is modelled as the sequence of its entries in key order;
 * an iterator into it is an index, `end()` is the length.
 */
module RateTrend {

  /** One entry of the map: from `date` on (until the next entry) the rate is `rate`. */
  datatype Point = Point(date: int, rate: real)

  datatype Option<T> = None | Some(value: T)

  /** The rate the manager stores for "no rate is known from here on". */
  const Unknown: real := -1.0

  /** Keys of an ordered map: strictly increasing, hence unique. */
  ghost predicate Sorted(t: seq<Point>) {
    forall i, j :: 0 <= i < j < |t| ==> t[i].date < t[j].date
  }

  /** Every trend of a currency map is a well-formed ordered map. */
  ghost predicate AllSorted(trends: map<string, seq<Point>>) {
    forall c :: c in trends ==> Sorted(trends[c])
  }

  /** `p` is the entry with the greatest date not after `date`. */
  ghost predicate IsFloor(t: seq<Point>, date: int, p: Point) {
    && p in t
    && p.date <= date
    && forall q :: q in t && q.date <= date ==> q.date <= p.date
  }

  /** `upper_bound`: the position of the first entry whose date is after `date`. */
  function UpperBound(t: seq<Point>, date: int): (i: nat)
    requires Sorted(t)
    ensures i <= |t|
    ensures forall j :: 0 <= j < i ==> t[j].date <= date
    ensures forall j :: i <= j < |t| ==> date < t[j].date
  {
    if t == [] || t[|t| - 1].date <= date then |t|
    else UpperBound(t[..|t| - 1], date)
  }

  /**
   * The floor lookup `prev(upper_bound(date))->second`: the rate of the entry
   * with the greatest date not after `date`, or None when every entry is later.
   */
  function Floor(t: seq<Point>, date: int): (r: Option<real>)
    requires Sorted(t)
    ensures r.None? <==> forall p :: p in t ==> date < p.date
    ensures forall p :: IsFloor(t, date, p) ==> r == Some(p.rate)
    ensures r.Some? ==> exists p :: IsFloor(t, date, p) && p.rate == r.value
  {
    var i := UpperBound(t, date);
    if i == 0 then None
    else
      assert IsFloor(t, date, t[i - 1]);
      Some(t[i - 1].rate)
  }

  /** The rate in force at `date`, with "no entry" read as the unknown rate. */
  ghost function Continuation(t: seq<Point>, date: int): real
    requires Sorted(t)
  {
    match Floor(t, date)
    case None => Unknown
    case Some(r) => r
  }

  /** A known rate is in force at `date` exactly when the floor lookup finds it. */
  lemma ContinuationKnown(t: seq<Point>, date: int, rate: real)
    requires Sorted(t) && rate != Unknown
    ensures Continuation(t, date) == rate <==> Floor(t, date) == Some(rate)
  {
  }

  /** Result of `std::map::emplace`: the map, the entry's position, whether it was added. */
  datatype Emplaced = Emplaced(trend: seq<Point>, pos: nat, inserted: bool)

  /**
   * `emplace(date, rate)`: adds the entry in key order when the key is absent;
   * when it is present the map is unchanged and the existing entry is returned.
   */
  function Emplace(t: seq<Point>, date: int, rate: real): (r: Emplaced)
    requires Sorted(t)
    ensures Sorted(r.trend) && r.pos < |r.trend| && r.pos <= |t| && r.trend[r.pos].date == date
    ensures r.inserted <==> forall p :: p in t ==> p.date != date
    ensures !r.inserted ==> r.trend == t
    ensures r.inserted ==> r.trend == t[..r.pos] + [Point(date, rate)] + t[r.pos..]
    ensures r.inserted ==> forall j :: 0 <= j < r.pos ==> t[j].date < date
    ensures r.inserted ==> forall j :: r.pos <= j < |t| ==> date < t[j].date
  {
    var i := UpperBound(t, date);
    if 0 < i && t[i - 1].date == date then Emplaced(t, i - 1, false)
    else Emplaced(t[..i] + [Point(date, rate)] + t[i..], i, true)
  }

  /** Two entries of an ordered map with the same key are the same entry. */
  lemma SameDateSamePoint(t: seq<Point>, p: Point, q: Point)
    requires Sorted(t) && p in t && q in t && p.date == q.date
    ensures p == q
  {
    var i :| 0 <= i < |t| && t[i] == p;
    var j :| 0 <= j < |t| && t[j] == q;
    assert i == j;
  }

  lemma HeadIn(s: seq<Point>)
    requires s != []
    ensures s[0] in s
  {
  }

  /** An ordered map is determined by its set of entries. */
  lemma {:induction false} SameElementsEqual(a: seq<Point>, b: seq<Point>)
    requires Sorted(a) && Sorted(b)
    requires forall p :: p in a <==> p in b
    ensures a == b
  {
    if a != [] && b != [] {
      SameFirst(a, b);
      SameRest(a, b);
      SameElementsEqual(a[1..], b[1..]);
      assert a == [a[0]] + a[1..];
      assert b == [b[0]] + b[1..];
    } else if a != [] {
      HeadIn(a);
      assert false;
    } else if b != [] {
      HeadIn(b);
      assert false;
    }
  }

  /** Two ordered maps with the same entries have the same first entry. */
  lemma SameFirst(a: seq<Point>, b: seq<Point>)
    requires Sorted(a) && Sorted(b) && a != [] && b != []
    requires forall p :: p in a <==> p in b
    ensures a[0] == b[0]
  {
    assert a[0] in b && b[0] in a;
    var i :| 0 <= i < |b| && b[i] == a[0];
    var j :| 0 <= j < |a| && a[j] == b[0];
    assert a[0].date <= a[j].date;
    assert b[0].date <= b[i].date;
    SameDateSamePoint(b, a[0], b[0]);
  }

  /** Two ordered maps with the same entries and the same first entry have the same other entries. */
  lemma SameRest(a: seq<Point>, b: seq<Point>)
    requires Sorted(a) && Sorted(b) && a != [] && b != [] && a[0] == b[0]
    requires forall p :: p in a <==> p in b
    ensures forall p :: p in a[1..] <==> p in b[1..]
  {
    forall p | p in a[1..]
      ensures p in b[1..]
    {
      var m :| 0 <= m < |a[1..]| && a[1..][m] == p;
      assert a[m + 1] == p && a[0].date < p.date;
      assert p in b;
      var k :| 0 <= k < |b| && b[k] == p;
      assert k != 0 && b[1..][k - 1] == p;
    }
    forall p | p in b[1..]
      ensures p in a[1..]
    {
      var m :| 0 <= m < |b[1..]| && b[1..][m] == p;
      assert b[m + 1] == p && b[0].date < p.date;
      assert p in a;
      var k :| 0 <= k < |a| && a[k] == p;
      assert k != 0 && a[1..][k - 1] == p;
    }
  }

  /** The floor at `date` depends only on the entries at or before `date`. */
  lemma FloorAgree(t: seq<Point>, u: seq<Point>, date: int)
    requires Sorted(t) && Sorted(u)
    requires forall p: Point :: p.date <= date ==> (p in t <==> p in u)
    ensures Floor(t, date) == Floor(u, date)
  {
    if Floor(t, date).Some? {
      var p :| IsFloor(t, date, p) && p.rate == Floor(t, date).value;
      assert IsFloor(u, date, p);
    }
  }

  /** With no entry in (a, b], the floor at b is the floor at a. */
  lemma FloorSkip(t: seq<Point>, a: int, b: int)
    requires Sorted(t) && a <= b
    requires forall p :: p in t && a < p.date ==> b < p.date
    ensures Floor(t, b) == Floor(t, a)
  {
    if Floor(t, b).Some? {
      var p :| IsFloor(t, b, p) && p.rate == Floor(t, b).value;
      assert IsFloor(t, a, p);
    }
  }

  /**
   * What survives `erase(next(lo), hi)`: the entries up to position `lo` and
   * from position `hi` on, i.e. those dated at most t[lo] or at least t[hi].
   */
  lemma EraseBetween(t: seq<Point>, lo: nat, hi: nat)
    requires Sorted(t) && lo < hi < |t|
    ensures Sorted(t[..lo + 1] + t[hi..])
    ensures forall p :: p in t[..lo + 1] + t[hi..] <==>
      p in t && (p.date <= t[lo].date || t[hi].date <= p.date)
  {
    var r := t[..lo + 1] + t[hi..];
    assert forall k :: 0 <= k <= lo ==> r[k] == t[k];
    assert forall k :: lo < k < |r| ==> r[k] == t[hi + k - lo - 1];
    forall i, j | 0 <= i < j < |r|
      ensures r[i].date < r[j].date
    {
      if lo < i {
        assert r[i] == t[hi + i - lo - 1];
      }
      if lo < j {
        assert r[j] == t[hi + j - lo - 1];
      }
    }
    forall p | p in t && (p.date <= t[lo].date || t[hi].date <= p.date)
      ensures p in r
    {
      EraseKept(t, lo, hi, p);
    }
  }

  /** An entry dated at most t[lo] or at least t[hi] survives `erase(next(lo), hi)`. */
  lemma EraseKept(t: seq<Point>, lo: nat, hi: nat, p: Point)
    requires Sorted(t) && lo < hi < |t|
    requires p in t && (p.date <= t[lo].date || t[hi].date <= p.date)
    ensures p in t[..lo + 1] + t[hi..]
  {
    var k :| 0 <= k < |t| && t[k] == p;
    if p.date <= t[lo].date {
      assert k <= lo;
      assert t[..lo + 1][k] == p;
    } else {
      assert hi <= k;
      assert t[hi..][k - hi] == p;
    }
  }

  /** What survives `erase(next(lo), end())`: the entries dated at most t[lo]. */
  lemma EraseAfter(t: seq<Point>, lo: nat)
    requires Sorted(t) && lo < |t|
    ensures Sorted(t[..lo + 1])
    ensures forall p :: p in t[..lo + 1] <==> p in t && p.date <= t[lo].date
  {
    forall p | p in t && p.date <= t[lo].date
      ensures p in t[..lo + 1]
    {
      var k :| 0 <= k < |t| && t[k] == p;
      assert k <= lo;
      assert t[..lo + 1][k] == p;
    }
  }

  /** Inserting an entry at its place in key order. */
  lemma InsertAt(t: seq<Point>, i: nat, p: Point)
    requires Sorted(t) && i <= |t|
    requires forall j :: 0 <= j < i ==> t[j].date < p.date
    requires forall j :: i <= j < |t| ==> p.date < t[j].date
    ensures Sorted(t[..i] + [p] + t[i..])
    ensures forall q :: q in t[..i] + [p] + t[i..] <==> q in t || q == p
    ensures forall q :: q in t ==> q.date != p.date
    ensures forall j :: i <= j < |t| ==> (t[..i] + [p] + t[i..])[j + 1] == t[j]
  {
    var u := t[..i] + [p] + t[i..];
    assert forall k :: 0 <= k < i ==> u[k] == t[k];
    assert u[i] == p;
    assert forall k :: i <= k < |t| ==> u[k + 1] == t[k];
    InsertSorted(t, i, p);
    forall q | q in t
      ensures q in u && q.date != p.date
    {
      var k :| 0 <= k < |t| && t[k] == q;
      if k < i {
        assert u[k] == q;
      } else {
        assert u[k + 1] == q;
      }
    }
  }

  /** The sequence with an entry inserted at its place in key order is still in key order. */
  lemma InsertSorted(t: seq<Point>, i: nat, p: Point)
    requires Sorted(t) && i <= |t|
    requires forall j :: 0 <= j < i ==> t[j].date < p.date
    requires forall j :: i <= j < |t| ==> p.date < t[j].date
    ensures Sorted(t[..i] + [p] + t[i..])
  {
    var u := t[..i] + [p] + t[i..];
    assert forall k :: 0 <= k < i ==> u[k] == t[k];
    assert u[i] == p;
    assert forall k :: i < k < |u| ==> u[k] == t[k - 1];
    forall a, b | 0 <= a < b < |u|
      ensures u[a].date < u[b].date
    {
      if b < i {
        assert u[a] == t[a] && u[b] == t[b];
      } else if b == i {
        assert u[a] == t[a];
      } else if a < i {
        assert u[a] == t[a] && u[b] == t[b - 1];
      } else if a == i {
        assert u[b] == t[b - 1];
      } else {
        assert u[a] == t[a - 1] && u[b] == t[b - 1];
      }
    }
  }

  /** Overwriting the value of an existing entry. */
  lemma OverwriteAt(t: seq<Point>, i: nat, p: Point)
    requires Sorted(t) && i < |t| && t[i].date == p.date
    ensures Sorted(t[i := p])
    ensures forall q :: q in t[i := p] <==> (q in t && q.date != p.date) || q == p
  {
    var u := t[i := p];
    forall q
      ensures q in u <==> (q in t && q.date != p.date) || q == p
    {
      if q in t && q.date != p.date {
        var k :| 0 <= k < |t| && t[k] == q;
        assert k != i && u[k] == q;
      }
      if q in u && q != p {
        var k :| 0 <= k < |u| && u[k] == q;
        assert k != i && t[k] == q;
        assert t[k].date != t[i].date;
      }
      assert u[i] == p;
    }
  }

  /**
   * `emplace(date, rate)` followed by overwriting the value of the entry it
   * returns: afterwards the map holds exactly one entry at `date`, with `rate`;
   * every later entry keeps its place relative to the end.
   */
  lemma EmplaceAssign(t: seq<Point>, date: int, rate: real, e: Emplaced, u: seq<Point>)
    requires Sorted(t) && e == Emplace(t, date, rate)
    requires u == if e.inserted then e.trend else e.trend[e.pos := Point(date, rate)]
    ensures Sorted(u) && e.pos < |u| && u[e.pos] == Point(date, rate)
    ensures forall p :: p in u <==> (p in t && p.date != date) || p == Point(date, rate)
    ensures |t| <= |u| <= |t| + 1
    ensures |u| == |t| ==> forall j :: 0 <= j < |t| && date < t[j].date ==> u[j] == t[j]
    ensures |u| == |t| + 1 ==> forall j :: 0 <= j < |t| && date < t[j].date ==> u[j + 1] == t[j]
  {
    if e.inserted {
      InsertAt(t, e.pos, Point(date, rate));
      forall j | 0 <= j < |t| && date < t[j].date
        ensures u[j + 1] == t[j]
      {
        assert e.pos <= j;
      }
    } else {
      OverwriteAt(t, e.pos, Point(date, rate));
    }
  }

  /** From the entry at `upper_bound(date)` on lie exactly the entries dated after `date`. */
  lemma AfterUpperBound(t: seq<Point>, date: int, k: nat)
    requires Sorted(t) && k < |t| && k == UpperBound(t, date)
    ensures forall p :: p in t && t[k].date <= p.date <==> p in t && date < p.date
  {
    forall p | p in t && date < p.date
      ensures t[k].date <= p.date
    {
      var j :| 0 <= j < |t| && t[j] == p;
      assert k <= j;
    }
  }

  /** Below the floor entry at `date` lie exactly the entries dated at most `date`. */
  lemma FloorPrefix(t: seq<Point>, date: int, k: nat)
    requires Sorted(t) && k < |t| && IsFloor(t, date, t[k])
    ensures forall p :: p in t && p.date <= t[k].date <==> p in t && p.date <= date
  {
  }
}
