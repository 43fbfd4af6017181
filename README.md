# Exchange-rate store and converter of `pos::POSTransactionManager`

This project models the point-of-sale transaction manager's exchange-rate
store and currency converter in Dafny, and proves properties of the model.

The manager is built around one **base currency**. For every other currency
it keeps a **rate trend**, an ordered map from instant to rate. Each stored
rate reads "units of that currency per one unit of the base currency". A
trend is a right-continuous step function: the rate at instant `x` is the
value at the greatest key `<= x` (the *floor lookup*). The stored value `-1`
means "rate unknown from here on".

Rates are added for a period in one of two ways:
- a **bounded** period `[from, to)`;
- an **open-ended** period `[from, ...)`.

A transaction is converted through the base currency. The total is divided
by the source currency's rate and multiplied by the target's, both taken at
the transaction's own instant.

Files:
- `result_codes.dfy` (`ResultCodes`): the result codes.
- `rate_trend.dfy` (`RateTrend`): the ordered map, modelled as a sequence of
  `Point(date, rate)` entries in strictly increasing date order.
  - Iterators are indices and `end()` is the length.
  - `std::map::upper_bound` and `emplace` are modelled as `UpperBound` and `Emplace`.
  - Erasing a range is modelled as slicing.
  - The floor lookup is `Floor`. It is specified declaratively through `IsFloor`.
  - `SameElementsEqual` shows that a sorted trend is determined by its set of
    entries. So the membership predicates used below pin down whole trends.
- `manager.dfy` (`PosTransactions`): the manager.
  - The currency checks.
  - The two per-trend helpers, `insertFromUnsafe` and `insertToUnsafe`. They
    are imperative methods that return the new trend and the iterator.
  - The bounded and open-ended inserts.
  - The class `POSTransactionManager`, whose field `trends` is updated in place.
  - The insert methods are proved against the predicates `BoundedInserted`
    and `OpenInserted`, which describe the resulting entries.
- `conversion.dfy` (`Conversion`): `convertPOSTransaction` as the pure
  function `Convert` over the base currency and the trend map. The class's
  const member `ConvertPOSTransaction` evaluates it on the current state.
- `insert_properties.dfy` (`InsertProperties`): what the inserts mean for
  floor lookups and conversions.

Behaviour of the code worth knowing:
- **Adjacent entries may carry equal rates.** The inserts do not always merge
  equal neighbours. They reuse an entry only in two cases:
  - the rate in force at `fromDate` equals the new rate;
  - the rate in force at `toDate` equals the new rate and an entry follows `toDate`.

  When a reuse happens, the erase can drop an equal entry (`ReuseMergesEqualEntry`).
  Otherwise equal adjacent entries can remain or arise (`UnknownBeforeFirstEntry`).
- **The `to` boundary is compared with the new rate.** `insertToUnsafe`
  compares the rate in force at `toDate` with the *new* rate, not with the
  value of the entry after `toDate` (include/POSTransactionImpl.hpp:100-103).
  When they are equal and an entry follows `toDate`, that entry is reused.
  `ReuseTo` states this rule. It only applies when some key is at or before
  `toDate`.
- **A missing rate becomes `-1`.** When a non-empty trend has no key
  `<= toDate`, the entry written at `toDate` is `-1` ("no entry" becomes "unknown").
- **The open-ended insert does no date check.**
- **`SAME_CURRECY`** is spelled `SameCurrency` here.

## Model

| member | source | states |
|---|---|---|
| RateTrend.UpperBound | include/POSTransactionImpl.hpp:64 | `upper_bound`: every entry before the returned index is dated at or before `date`, every entry from it on is dated after |
| RateTrend.Floor | include/POSTransactionImpl.hpp:95-99 | floor lookup: None exactly when every entry is after `date`; otherwise the rate of the entry with the greatest date not after `date` |
| RateTrend.Emplace | include/POSTransactionImpl.hpp:75 | `emplace` adds the entry in key order iff the key is absent (otherwise the map is unchanged); the result stays sorted and the returned position holds the key |
| RateTrend.EmplaceAssign | include/POSTransactionImpl.hpp:75-81 | emplace followed by overwriting the value leaves exactly one entry at the key, with the new rate, at the returned position; every other entry is kept; the map grows by at most one, and each entry after the key keeps its position or moves one place on when an entry was added |
| RateTrend.InsertAt | include/POSTransactionImpl.hpp:75 | inserting an absent key at its place keeps the keys sorted, adds exactly that entry and shifts later entries by one |
| RateTrend.OverwriteAt | include/POSTransactionImpl.hpp:76-80 | overwriting the value at an existing key replaces exactly that entry and keeps order |
| RateTrend.SameDateSamePoint | include/POSTransaction.h:26 | keys of the ordered map are unique: two entries with one date are the same entry |
| RateTrend.SameElementsEqual | include/POSTransaction.h:26 | two sorted trends with the same entries are equal, so a trend is determined by its entries |
| RateTrend.FloorAgree | include/POSTransactionImpl.hpp:232-237 | the floor lookup at `date` depends only on the entries dated at or before `date` |
| RateTrend.FloorSkip | include/POSTransactionImpl.hpp:232-237 | with no entry in `(a, b]` the lookups at `a` and `b` agree |
| RateTrend.FloorPrefix | include/POSTransactionImpl.hpp:64-70 | the entries up to the floor entry at `date` are exactly those dated at or before `date` |
| RateTrend.AfterUpperBound | include/POSTransactionImpl.hpp:95-102 | the entries from `upper_bound(date)` on are exactly those dated after `date` |
| RateTrend.ContinuationKnown | include/POSTransactionImpl.hpp:93-99 | for a rate other than `-1`, it is the continuation value at `date` exactly when the floor lookup finds it |
| RateTrend.EraseBetween | include/POSTransactionImpl.hpp:169 | `erase(next(lo), hi)` keeps the trend sorted and keeps exactly the entries dated at most `t[lo]` or at least `t[hi]` |
| RateTrend.EraseAfter | include/POSTransactionImpl.hpp:202 | `erase(next(lo), end())` keeps exactly the entries dated at most `t[lo]` |
| PosTransactions.CheckCurrency | include/POSTransactionImpl.hpp:24-38 | CurrencyNotMatch iff neither side is the base; SameCurrency iff a side is the base and both are equal; Success iff exactly one side is the base |
| PosTransactions.GetCurrencyAndRate | include/POSTransactionImpl.hpp:40-56 | for a valid pair the chosen currency is the non-base side; the rate is kept when the base is `from` and inverted (`baseRate * rate == 1`) when the base is `to` |
| PosTransactions.FromBoundaryAgree | include/POSTransactionImpl.hpp:165-166 | the `from` boundary depends only on the entries at or before `fromDate`, so the earlier `to` insert does not affect it |
| PosTransactions.FromReused | include/POSTransactionImpl.hpp:63-72 | when the floor entry already carries `rate`, it is reused: the entries up to it are exactly the `from` boundary, and the entries after it are those after `fromDate` |
| PosTransactions.FromWritten | include/POSTransactionImpl.hpp:73-82 | when `(fromDate, rate)` is written, the entries up to `fromDate` are exactly the `from` boundary |
| PosTransactions.InsertFromUnsafe | include/POSTransactionImpl.hpp:58-84 | the returned entry has date at most `fromDate` and value `rate`; the entries up to it form the `from` boundary and those after it are the old ones after `fromDate`; the trend is unchanged on reuse; each entry after `fromDate` keeps its position, or moves one place on when an entry was added |
| PosTransactions.ToReused | include/POSTransactionImpl.hpp:95-104 | when the rate in force at `toDate` is `rate` and an entry follows, that entry is returned and the entries from it on are exactly those after `toDate` |
| PosTransactions.ToWritten | include/POSTransactionImpl.hpp:105-114 | when `(toDate, continuation)` is written, the entries from `toDate` on are that entry plus the old ones after `toDate`, and the earlier entries are unchanged |
| PosTransactions.InsertToUnsafe | include/POSTransactionImpl.hpp:86-117 | the returned entry is at or after `toDate`; from it on lie the `to` boundary and the old entries after `toDate`; earlier entries are untouched; when nothing is reused it holds the continuation value (`-1` if no key is at or before `toDate`) |
| PosTransactions.ToEntryMoved | include/POSTransactionImpl.hpp:165-166 | the `to` iterator still denotes the same entry after the `from` insert, at one place later when an entry was added |
| PosTransactions.EraseRangeWellFormed | include/POSTransactionImpl.hpp:165-169 | given the key order `from key <= fromDate < toDate <= to key`, the erased range `(fromIt, toIt)` is well formed (`fromIt < toIt`). The two key inequalities come from the ensures of `InsertFromUnsafe` (`t'[fromIt].date <= fromDate`) and `InsertToUnsafe` (`toDate <= t'[toIt].date`) |
| PosTransactions.BoundedErase | include/POSTransactionImpl.hpp:165-170 | after the two boundary inserts, erasing `(fromIt, toIt)` leaves exactly the bounded-insert result |
| PosTransactions.InsertIntervalUnsafe | include/POSTransactionImpl.hpp:157-170 | the trend after a bounded insert satisfies `BoundedInserted`: the `from` boundary, the `to` boundary, the old entries after `toDate`, and nothing else |
| PosTransactions.InsertOpenEndedUnsafe | include/POSTransactionImpl.hpp:192-203 | the trend after an open-ended insert satisfies `OpenInserted`, and its last entry is dated at most `fromDate` and carries `rate` |
| PosTransactions.POSTransactionManager.constructor | include/POSTransactionImpl.hpp:7-15 | a non-empty base currency gives a valid manager with no trends |
| PosTransactions.POSTransactionManager.Create | include/POSTransactionImpl.hpp:7-15 | construction fails (throws) exactly for the empty base currency |
| PosTransactions.POSTransactionManager.GetExchangeRates | include/POSTransactionImpl.hpp:17-22 | returns the whole currency map as a value; it contains no base-currency trend and every trend is sorted |
| PosTransactions.POSTransactionManager.GetCurrencyTrendUnsafe | include/POSTransactionImpl.hpp:119-130 | returns the currency's trend, creating an empty one only when it is absent; for a non-base currency the store stays valid (no base trend, every trend sorted) |
| PosTransactions.POSTransactionManager.AddExchangeRate | include/POSTransactionImpl.hpp:132-171 | the result code is the currency check's failure, then InvalidDate for `from >= to`, then Success; on failure nothing changes; on success only the non-base side's trend changes (created if missing), by a bounded insert of `rate` or `1/rate` |
| PosTransactions.POSTransactionManager.AddOpenExchangeRate | include/POSTransactionImpl.hpp:173-204 | the result code is the currency check's (no date check); on failure nothing changes; on success only the non-base side's trend changes, by an open-ended insert of `rate` or `1/rate` |
| PosTransactions.POSTransactionManager.ConvertPOSTransaction | include/POSTransactionImpl.hpp:206-216 | the const member only reads the store: it is `Convert` on the current base currency and trends. Same currency: an exact copy with Success. On an error the output record is untouched. On success the output is in the target currency at the source's date |
| Conversion.RateAt | include/POSTransactionImpl.hpp:218-268 | one side's rate: 1 for the base; NoCurrency without a trend; otherwise found iff the floor entry exists and is positive, else NoRate |
| Conversion.Convert | include/POSTransactionImpl.hpp:206-274 | same currency: an exact copy with Success; on any error the output record is untouched; source-side errors come before target-side ones; Success iff both rates are found, giving `total / fromRate * toRate` in the target currency at the source's date |
| Conversion.RescaleBack | include/POSTransactionImpl.hpp:272 | rescaling a total there and back with positive rates gives it back |
| Conversion.ConvertRoundTrip | include/POSTransactionImpl.hpp:270-273 | converting a successfully converted transaction back into its original currency succeeds and gives the original |
| Conversion.ConvertFromBase | include/POSTransactionImpl.hpp:218-222 | from the base currency the total is multiplied by the target's rate in force at the source's date |
| Conversion.ConvertToBase | include/POSTransactionImpl.hpp:244-248 | into the base currency the total is divided by the source's rate in force at its date |
| InsertProperties.BoundedInside | include/POSTransactionImpl.hpp:157-170 | after a bounded insert, the floor lookup at every instant of `[from, to)` returns `rate` |
| InsertProperties.BoundedAfter | include/POSTransactionImpl.hpp:86-117 | at every instant `>= to`, the lookup returns the rate in force there before the insert, with "no entry" becoming `-1` |
| InsertProperties.BoundedBefore | include/POSTransactionImpl.hpp:58-84 | before `from` the lookup is unchanged |
| InsertProperties.BoundedKeeps | include/POSTransactionImpl.hpp:165-170 | every entry dated before `from` or after `to` is kept with its value, and no entry is added there |
| InsertProperties.BoundedIntoEmpty | include/POSTransactionImpl.hpp:157-163 | into an empty trend the result is exactly `[(from, rate), (to, -1)]` |
| InsertProperties.BoundedDeterministic | include/POSTransactionImpl.hpp:132-171 | `BoundedInserted` fixes the whole new trend |
| InsertProperties.BoundedIdempotent | include/POSTransactionImpl.hpp:132-171 | repeating a bounded insert changes no lookup at any instant |
| InsertProperties.BoundedIdempotentExact | include/POSTransactionImpl.hpp:132-171 | repeating a bounded insert of a rate other than `-1` leaves the trend exactly as it was |
| InsertProperties.RepeatReuse | include/POSTransactionImpl.hpp:63-104 | after a bounded insert of a known rate, repeating it reuses the `from` entry and reuses at `to` exactly when the first insert did |
| InsertProperties.UnknownBeforeFirstEntry | include/POSTransactionImpl.hpp:91-114 | inserting `-1` for `[0, 5)` into `[(10, 5)]` gives `[(0, -1), (5, -1), (10, 5)]`: adjacent entries may carry equal rates |
| InsertProperties.ReuseMergesEqualEntry | include/POSTransactionImpl.hpp:95-103 | inserting `5` for `[10, 20)` into `[(0, 1), (20, 5), (30, 9)]` gives `[(0, 1), (10, 5), (30, 9)]`. The `to` side reuses `(30, 9)`, and the erase drops the equal entry `(20, 5)` |
| InsertProperties.AppendPeriod | tests/main.cpp:172-189 | consecutive periods: when the trend ends with `(from, -1)`, a bounded insert of a known rate replaces it by `(from, rate), (to, -1)` |
| InsertProperties.OpenFromOnward | include/POSTransactionImpl.hpp:199-203 | after an open-ended insert no entry lies after `from`, and the lookup at every instant `>= from` returns `rate` |
| InsertProperties.OpenBefore | include/POSTransactionImpl.hpp:199-203 | entries before `from` and lookups before `from` are unchanged |
| InsertProperties.OpenIntoEmpty | include/POSTransactionImpl.hpp:192-197 | into an empty trend the result is exactly `[(from, rate)]` |
| InsertProperties.OpenDeterministic | include/POSTransactionImpl.hpp:173-204 | `OpenInserted` fixes the whole new trend |
| InsertProperties.ConvertInsidePeriod | tests/main.cpp:374-391 | after a bounded insert of a positive rate, a base total converted inside the period is multiplied by the rate, and a total converted into the base is divided by it |
| InsertProperties.ConvertUnknownPeriod | tests/main.cpp:426-439 | after inserting `-1` for a period, a conversion at an instant inside the period fails with NoRate and leaves the output untouched. This holds when source and target differ, and either the source is that currency, or the target is and the source's rate is found |

## Left out

- Locking: the `std::mutex` and `unique_lock` are left out. Each public call
  is one atomic step. `convertPOSTransaction` takes the lock separately for
  each of its two lookups, so a write can fall between them. This is not modelled.
- Template forwarding and move semantics (`T&&`, `std::forward`,
  `std::move`): all parameters are plain values.
- Floating point: rates and totals are `real`, so there is no rounding,
  infinity or NaN.
  - `1 / rate` is taken only under the precondition `rate != 0`, and only
    when the base currency is the `to` side.
  - Exact equalities in the C++ tests hold only up to rounding.
- Time is an unbounded `int` rather than `time_t`. Date parsing and printing
  (`timeFromString`, `timeToString`) and `resultToStr` in src/Utils.cpp are
  not part of this model. The same goes for the demo in src/main.cpp and for
  the test harness.
- Trend storage: the per-currency `std::unordered_map` is a Dafny `map`. An
  ordered map is a sorted sequence whose iterators are indices.
  - `insertFromUnsafe` and `insertToUnsafe` take and return the trend by value,
    together with the index they return. The C++ functions update the map in
    place and return an iterator.
  - The model does not capture iterator invalidation or aliasing into the live
    map. The iterator kept across the second insert is shown to denote the
    same entry (`ToEntryMoved`).
- `getExchangeRates` returns the map as a value. A snapshot is therefore
  trivially unaffected by later inserts; that is a property of values, not a proof.
- `convertPOSTransaction` writes the output record only on success. This is
  modelled by passing the old record in and returning it unchanged on error.
- InsertProperties.BoundedIdempotentExact: requires the rate not to be `-1`.
  - With `-1` as the rate, a repeated insert can drop a `-1` entry at `to`
    that the first one wrote.
  - All lookups still agree (`BoundedIdempotent`).
- PosTransactions.GetCurrencyAndRate: requires a non-zero rate when the base
  currency is the `to` side. In C++, `1 / 0.0` gives infinity, which the real
  numbers here have no value for.
- PosTransactions.POSTransactionManager.AddExchangeRate: requires a non-zero
  rate when the base currency is the `to` side. The reason is the same as for
  `GetCurrencyAndRate`.
- PosTransactions.POSTransactionManager.AddOpenExchangeRate: requires a
  non-zero rate when the base currency is the `to` side. The reason is the same
  as for `GetCurrencyAndRate`.
