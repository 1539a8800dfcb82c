# NIFTY option-chain compartments, modelled in Dafny

The `NiftyRestController` of the options-analysis service serves two views of the
day's NIFTY option-chain rows:

* the **analysis view** splits the rows into four *compartments* around the
  at-the-money (ATM) strike — calls at or below it, calls above it, puts at or
  below it, puts above it — and gives, for every strike of a compartment, the
  change in open interest at every observation time of the day, zero-filled and in
  ascending time order;
* the **flat view** lists the rows of one option type, newest id first.

This project models that logic and proves what it promises.

* `java_string.dfy` (module `JavaString`): the two pieces of `java.lang.String` the
  controller relies on. `RemoveAll(s, t)` is `s.replace(t, "")`: a left-to-right
  scan that deletes every leftmost, non-overlapping occurrence. `LexLess` is
  `compareTo(...) < 0`. It is proved to be a strict total order, and `MinKey` is the
  least key of a set in that order.
* `rows.dfy` (module `Rows`): the `Nifty` row as a datatype
  `Row(id, strike, kind, stamp, changeInOi)`, Java `int` (`Int32`) with
  two's-complement `+` and `-`, and `Select`, the stream `filter` step.
* `compartments.dfy` (module `Compartments`): the four near-identical
  `prepareCompartment1..4` routines collapsed into one builder,
  `PrepareCompartment`. It takes the row filter as a parameter. The four filters are
  `AtOrBelowRule(atm, kind)` (compartments 1 and 3) and `AboveRule(atm, kind)`
  (compartments 2 and 4). The builder is imperative, as in the source: a loop over
  the strike groups picks the strikes in an unspecified order (the hash map's
  order). For each strike, a loop over `insertedTimeList` fills a `map` (the
  `insertedTimeItOi` hash map). The map's entries are then sorted by label. Both
  loops are proved against specification functions: `Compartment`, `Series`,
  `TimeTable`, `GroupByStrike` and `DataAtInsertedTime`. The lemmas prove the
  stated properties from those functions.
* `flat_filter.dfy` (module `FlatFilter`): `filter(rows, kind)` as a kind filter
  followed by a stable sort by id, descending. The sort is modelled as an insertion
  sort. `StableSortUnique` shows that every stable descending sort gives the same
  result, so the choice of algorithm does not matter.

Constants are those of the source: `noOfStrikesPricesInEachCompartment = 3` and
`depth = 50`. The lower edge of compartments 1 and 3 is `minStrikePrice - 50`, an
exclusive `atm - 200`. The upper edge of compartments 2 and 4 is `maxStrikePrice`, an
inclusive `atm + 150`. This asymmetry is kept as written. Strike arithmetic wraps
like Java `int`. When `atm - 200` or `atm + 150` overflows, the wrapped edge falls on
the wrong side of `atm`, and that compartment is empty (`AtOrBelowWindow`,
`AboveWindow`). The bounds on compartment keys therefore hold for every `atm`.

Two details of the lookup and the filters, as the code has them:

* The time-label lookup does not trim whitespace. `getDataAtInsertedTime` compares
  `updatedAtSource.replace(inputDay, "")` with the label exactly. The `trim()` in
  `refreshAnalysis` applies only to the spot-price string.
* Option kinds are the strings `"CE"` and `"PE"`, compared with `equals`. The model
  keeps them as strings, so a row of any other type string falls in no compartment.

## Model

| member | source | states |
|---|---|---|
| `JavaString.StampWithoutDay` | src/main/java/org/trade/option/controller/NiftyRestController.java:177 | A stamp made of the day string followed by a time that does not contain the day becomes exactly that time once the day is removed. |
| `JavaString.RemoveAllAbsent` | src/main/java/org/trade/option/controller/NiftyRestController.java:177 | `replace(target, "")` leaves a string in which `target` does not occur unchanged. |
| `JavaString.RemoveAllLeading` | src/main/java/org/trade/option/controller/NiftyRestController.java:177 | A leading occurrence of a non-empty target is deleted and the scan continues after it. |
| `JavaString.LexLessTransitive` | src/main/java/org/trade/option/controller/NiftyRestController.java:97 | The label order used by `comparingByKey` (String `compareTo`) is transitive. |
| `JavaString.LexLessTotal` | src/main/java/org/trade/option/controller/NiftyRestController.java:97 | Any two different labels are ordered one way or the other. |
| `JavaString.LexLessAsymmetric` | src/main/java/org/trade/option/controller/NiftyRestController.java:97 | No two labels are each less than the other. |
| `JavaString.LexLessIrreflexive` | src/main/java/org/trade/option/controller/NiftyRestController.java:97 | No label is less than itself. |
| `JavaString.MinKey` | src/main/java/org/trade/option/controller/NiftyRestController.java:97 | The result is a member of the set and is less than every other member. |
| `Rows.Add32` | src/main/java/org/trade/option/controller/NiftyRestController.java:84 | Java `int` addition is congruent to true addition modulo 2^32 and equal to it when there is no overflow. |
| `Rows.Sub32` | src/main/java/org/trade/option/controller/NiftyRestController.java:85 | Java `int` subtraction is congruent to true subtraction modulo 2^32 and equal to it when there is no overflow. |
| `Rows.Select` | src/main/java/org/trade/option/controller/NiftyRestController.java:88 | A row is in the filtered stream exactly when it is in the input and passes the predicate. |
| `Rows.SelectMultiset` | src/main/java/org/trade/option/controller/NiftyRestController.java:183 | Filtering keeps every passing row exactly as often as it occurs in the input and drops every other row. |
| `Rows.SelectAppend` | src/main/java/org/trade/option/controller/NiftyRestController.java:88 | Filtering a concatenation is the concatenation of the filtered parts (order is kept). |
| `Compartments.AtOrBelowWindow` | src/main/java/org/trade/option/controller/NiftyRestController.java:83-88 | The compartment 1/3 filter admits only rows of the kind with `atm - 200 < strike <= atm`. Without overflow it admits exactly those rows. When `atm - 200` overflows it admits none. |
| `Compartments.AboveWindow` | src/main/java/org/trade/option/controller/NiftyRestController.java:107-111 | The compartment 2/4 filter admits only rows of the kind with `atm < strike <= atm + 150`. Without overflow it admits exactly those rows. When `atm + 150` overflows it admits none. |
| `Compartments.DataAtInsertedTimeIsFirstMatch` | src/main/java/org/trade/option/controller/NiftyRestController.java:176-179 | The value is the `changeInOi` of the first row whose day-stripped stamp equals the label, and 0 when no row matches. |
| `Compartments.GroupByStrikeIsPartition` | src/main/java/org/trade/option/controller/NiftyRestController.java:89 | `groupingBy` has exactly the strikes present as keys, and each group holds that strike's rows in encounter order. |
| `Compartments.SortedEntriesSorts` | src/main/java/org/trade/option/controller/NiftyRestController.java:96-99 | The sorted entry list holds exactly the map's entries, one per key, in strictly ascending key order. |
| `Compartments.SortedEntriesUnique` | src/main/java/org/trade/option/controller/NiftyRestController.java:96-99 | Any strictly ascending listing of exactly the map's entries is the sorted entry list, so the sort result does not depend on how it is computed. |
| `Compartments.AlignSeries` | src/main/java/org/trade/option/controller/NiftyRestController.java:92-99 | The inner loop that puts every label's lookup into the table, followed by the sort, yields the strike's specified series. |
| `Compartments.AlignStrikes` | src/main/java/org/trade/option/controller/NiftyRestController.java:91-102 | Visiting the strike groups in any order, the loop yields the map from each strike to its series. |
| `Compartments.PrepareCompartment` | src/main/java/org/trade/option/controller/NiftyRestController.java:87-103 | Filter, group by strike, then align each group: the result equals the specified compartment for the given row filter. |
| `Compartments.PrepareCompartment1` | src/main/java/org/trade/option/controller/NiftyRestController.java:82-104 | Compartment 1 is built with the CE at-or-below filter, and all its strikes satisfy `atm - 200 < strike <= atm`. |
| `Compartments.PrepareCompartment2` | src/main/java/org/trade/option/controller/NiftyRestController.java:106-127 | Compartment 2 is built with the CE above filter, and all its strikes satisfy `atm < strike <= atm + 150`. |
| `Compartments.PrepareCompartment3` | src/main/java/org/trade/option/controller/NiftyRestController.java:151-172 | Compartment 3 is built with the PE at-or-below filter, and all its strikes satisfy `atm - 200 < strike <= atm`. |
| `Compartments.PrepareCompartment4` | src/main/java/org/trade/option/controller/NiftyRestController.java:129-150 | Compartment 4 is built with the PE above filter, and all its strikes satisfy `atm < strike <= atm + 150`. |
| `Compartments.CompartmentKeys` | src/main/java/org/trade/option/controller/NiftyRestController.java:87-101 | A strike is a key of a compartment exactly when some row of the day passes its filter with that strike. |
| `Compartments.AtOrBelowKeys` | src/main/java/org/trade/option/controller/NiftyRestController.java:87-89 | Every key of compartment 1 (and, with "PE", 3, lines 155-157) lies in `(atm - 200, atm]`. Without overflow, every strike of a row of the kind in that window is a key. |
| `Compartments.AboveKeys` | src/main/java/org/trade/option/controller/NiftyRestController.java:110-112 | Every key of compartment 2 (and, with "PE", 4, lines 133-135) lies in `(atm, atm + 150]`. Without overflow, every strike of a row of the kind in that window is a key. |
| `Compartments.AtmSplitsCompartments` | src/main/java/org/trade/option/controller/NiftyRestController.java:88-111 | Compartments 1 and 2, and likewise 3 and 4, have disjoint strike sets. |
| `Compartments.GroupsHoldAdmittedRows` | src/main/java/org/trade/option/controller/NiftyRestController.java:87-89 | Every row grouped under a strike comes from the day's data, passes the compartment filter (so it has the compartment's option kind) and has that strike. |
| `Compartments.GroupLookupMiss` | src/main/java/org/trade/option/controller/NiftyRestController.java:94 | When no row of the day passes the filter with the strike and the label, the strike's lookup gives 0. |
| `Compartments.GroupLookupHit` | src/main/java/org/trade/option/controller/NiftyRestController.java:94 | The strike's lookup gives the `changeInOi` of the first such row in day order. |
| `Compartments.CompartmentLookup` | src/main/java/org/trade/option/controller/NiftyRestController.java:92-95 | Every series entry has a label from `insertedTimeList`. Its value is the `changeInOi` of the first row of `todayData` that passes the filter, has the strike and has a day-stripped stamp equal to the label. It is 0 when there is no such row. |
| `Compartments.CompartmentSeriesShape` | src/main/java/org/trade/option/controller/NiftyRestController.java:92-99 | Each strike's series has exactly one entry per distinct label of `insertedTimeList`, however sparse the rows, in strictly ascending label order. |
| `Compartments.SeriesIgnoresLabelOrder` | src/main/java/org/trade/option/controller/NiftyRestController.java:93-99 | The series depends only on the set of labels, not on their order or repetitions. |
| `Compartments.DescendingLabelsComeOutAscending` | src/main/java/org/trade/option/controller/NiftyRestController.java:82-104 | Example: ATM 20000. Two CE rows at 19950 stamped 09:15 (100) and 09:20 (200), labels given as `["09:20", "09:15"]`. Compartment 1 is `{19950: [("09:15",100), ("09:20",200)]}`. |
| `FlatFilter.SortPermutes` | src/main/java/org/trade/option/controller/NiftyRestController.java:184 | Sorting by id returns a permutation of its input. |
| `FlatFilter.SortOrdersStably` | src/main/java/org/trade/option/controller/NiftyRestController.java:184 | After sorting, ids are non-increasing and rows of equal id keep their input order. |
| `FlatFilter.FilterSpec` | src/main/java/org/trade/option/controller/NiftyRestController.java:181-186 | `filter(rows, k)` holds exactly the rows of kind `k`, each as often as in the input. Ids are non-increasing, and rows of equal id keep their input order. |
| `FlatFilter.StableSortUnique` | src/main/java/org/trade/option/controller/NiftyRestController.java:184 | Two orderings with non-increasing ids that keep each id's rows in the same order are equal, so any stable sort gives the same result. |

## Left out

- The HTTP endpoints (`refresh`, both `refreshAnalysis` overloads), the Spring annotations and the assembly of the `HashMap<String, Object>` responses are request glue. The unused locals are not modelled: `segment1`, `maxStrikePrice` in prepareCompartment1 and prepareCompartment3 (lines 84 and 153), and `minStrikePrice` in prepareCompartment2 and prepareCompartment4 (lines 109 and 132).
- Building the `Sort` from the path variables (`Sort.by(sortBy)` and the ASC/DESC choice) belongs to Spring Data. `insertedTimeList` and `todayData` are inputs in whatever order the repository returns them.
- The current date in the Asia/Kolkata time zone and its `dd-MMM-yyyy` formatting become the `inputDay` parameter.
- The calls to `SpotPriceService` and `NiftyService` are repository I/O. Their results are the model's inputs.
- `ExpiryUtils.getATM` works on a floating-point spot price and its code is not part of this model. `atmStrike` is a given `Int32`. The spot-price display string (`replace(...).trim() + ": " + price`) is formatting and is left out.
- Null values are not modelled: a null `changeInOi` (which would throw on unboxing) and a null option type. Every field is present.
- `id` and `changeInOi` are Java `Long`. They are modelled as unbounded integers because the code only compares and copies them.
- `LexLess` compares Dafny characters (Unicode scalar values). Java's `compareTo` compares UTF-16 code units. The two orders differ only for labels that contain characters outside the Basic Multilingual Plane.
- The `LinkedHashMap` of each series is modelled as a sequence of (label, value) pairs in its iteration order. The outer `HashMap` is a Dafny `map`, since its order is unspecified. The `toMap` merge function never runs, because the entry keys are already distinct.
