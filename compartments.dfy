/**
 * The compartment builder of the NIFTY analysis endpoint: the four routines
 * prepareCompartment1..4 collapsed into one builder that takes the row filter,
 * with the four filters as concrete instances.
 */
module Compartments {
  import opened JavaString
  import opened Rows

  /** `noOfStrikesPricesInEachCompartment`: strikes per compartment. */
  const NoOfStrikesPricesInEachCompartment: Int32 := 3
  /** `depth`: the spacing between neighbouring strikes. */
  const Depth: Int32 := 50

  /** `maxStrikePrice`, computed in Java `int` arithmetic. */
  function MaxStrikePrice(atmStrike: Int32): Int32 {
    Add32(atmStrike, NoOfStrikesPricesInEachCompartment * Depth)
  }

  /** `minStrikePrice`, computed in Java `int` arithmetic. */
  function MinStrikePrice(atmStrike: Int32): Int32 {
    Sub32(atmStrike, NoOfStrikesPricesInEachCompartment * Depth)
  }

  // ---------------------------------------------------------------------------
  // The four row filters
  // ---------------------------------------------------------------------------

  /** The filter of prepareCompartment1 (calls) and prepareCompartment3 (puts). */
  predicate AtOrBelow(atmStrike: Int32, optionType: string, nf: Row) {
    nf.strike <= atmStrike && nf.strike > Sub32(MinStrikePrice(atmStrike), 50) && nf.kind == optionType
  }

  /** The filter of prepareCompartment2 (calls) and prepareCompartment4 (puts). */
  predicate Above(atmStrike: Int32, optionType: string, nf: Row) {
    nf.strike > atmStrike && nf.strike <= MaxStrikePrice(atmStrike) && nf.kind == optionType
  }

  function AtOrBelowRule(atmStrike: Int32, optionType: string): Row -> bool {
    (nf: Row) => AtOrBelow(atmStrike, optionType, nf)
  }

  function AboveRule(atmStrike: Int32, optionType: string): Row -> bool {
    (nf: Row) => Above(atmStrike, optionType, nf)
  }

  /**
   * The lower window is `atmStrike - 200 < strike <= atmStrike` (one depth wider
   * than the 150 of the upper window). When `atmStrike - 200` overflows, the
   * wrapped lower edge lies above `atmStrike` and nothing passes.
   */
  lemma AtOrBelowWindow(atmStrike: Int32, optionType: string, nf: Row)
    ensures AtOrBelow(atmStrike, optionType, nf) ==>
              nf.kind == optionType && atmStrike - 200 < nf.strike <= atmStrike
    ensures MinInt32 + 200 <= atmStrike ==>
              (AtOrBelow(atmStrike, optionType, nf) <==>
               nf.kind == optionType && atmStrike - 200 < nf.strike <= atmStrike)
    ensures atmStrike < MinInt32 + 200 ==> !AtOrBelow(atmStrike, optionType, nf)
  {
    var edge := Sub32(MinStrikePrice(atmStrike), 50);
    if atmStrike < MinInt32 + 200 {
      assert edge == atmStrike - 200 + TwoTo32;
    } else {
      assert edge == atmStrike - 200;
    }
  }

  /**
   * The upper window is `atmStrike < strike <= atmStrike + 150`. When
   * `atmStrike + 150` overflows, the wrapped upper edge lies below `atmStrike`
   * and nothing passes.
   */
  lemma AboveWindow(atmStrike: Int32, optionType: string, nf: Row)
    ensures Above(atmStrike, optionType, nf) ==>
              nf.kind == optionType && atmStrike < nf.strike <= atmStrike + 150
    ensures atmStrike <= MaxInt32 - 150 ==>
              (Above(atmStrike, optionType, nf) <==>
               nf.kind == optionType && atmStrike < nf.strike <= atmStrike + 150)
    ensures atmStrike > MaxInt32 - 150 ==> !Above(atmStrike, optionType, nf)
  {
    var edge := MaxStrikePrice(atmStrike);
    if atmStrike > MaxInt32 - 150 {
      assert edge == atmStrike + 150 - TwoTo32;
    } else {
      assert edge == atmStrike + 150;
    }
  }

  // ---------------------------------------------------------------------------
  // Lookup of one time label
  // ---------------------------------------------------------------------------

  /** `updatedAtSource` with every occurrence of `inputDay` removed equals `insertedTime`. */
  predicate StampedAt(nf: Row, insertedTime: string, inputDay: string) {
    RemoveAll(nf.stamp, inputDay) == insertedTime
  }

  /** getDataAtInsertedTime: the change in open interest of the first row stamped at the label, else 0. */
  function DataAtInsertedTime(niftyList: seq<Row>, insertedTime: string, inputDay: string): int
  {
    if niftyList == [] then 0
    else if StampedAt(niftyList[0], insertedTime, inputDay) then niftyList[0].changeInOi
    else DataAtInsertedTime(niftyList[1..], insertedTime, inputDay)
  }

  /** `i` is the position of the first row of `rows` stamped at `insertedTime`. */
  ghost predicate FirstStampedAt(rows: seq<Row>, i: int, insertedTime: string, inputDay: string) {
    0 <= i < |rows| && StampedAt(rows[i], insertedTime, inputDay)
    && forall j :: 0 <= j < i ==> !StampedAt(rows[j], insertedTime, inputDay)
  }

  /** First match wins; no match gives 0. */
  lemma {:induction false} DataAtInsertedTimeIsFirstMatch(niftyList: seq<Row>, insertedTime: string, inputDay: string)
    ensures (forall i :: 0 <= i < |niftyList| ==> !StampedAt(niftyList[i], insertedTime, inputDay)) ==>
              DataAtInsertedTime(niftyList, insertedTime, inputDay) == 0
    ensures forall i :: FirstStampedAt(niftyList, i, insertedTime, inputDay) ==>
              DataAtInsertedTime(niftyList, insertedTime, inputDay) == niftyList[i].changeInOi
  {
    if niftyList != [] {
      var rest := niftyList[1..];
      DataAtInsertedTimeIsFirstMatch(rest, insertedTime, inputDay);
      forall i | FirstStampedAt(niftyList, i, insertedTime, inputDay) && i > 0
        ensures FirstStampedAt(rest, i - 1, insertedTime, inputDay)
      {
        forall j | 0 <= j < i - 1 ensures !StampedAt(rest[j], insertedTime, inputDay) {
          assert rest[j] == niftyList[j + 1];
        }
      }
      if forall i :: 0 <= i < |niftyList| ==> !StampedAt(niftyList[i], insertedTime, inputDay) {
        assert !StampedAt(niftyList[0], insertedTime, inputDay);
        forall i | 0 <= i < |rest| ensures !StampedAt(rest[i], insertedTime, inputDay) {
          assert rest[i] == niftyList[i + 1];
        }
      }
    }
  }

  // ---------------------------------------------------------------------------
  // Grouping and the aligned series
  // ---------------------------------------------------------------------------

  function StrikesOf(rows: seq<Row>): set<Int32> {
    set nf | nf in rows :: nf.strike
  }

  /** The rows of one strike, in encounter order. */
  function AtStrike(rows: seq<Row>, strike: Int32): seq<Row> {
    Select(rows, (nf: Row) => nf.strike == strike)
  }

  /**
   * `Collectors.groupingBy(Nifty::getStrikePrice)`: each row in turn is appended to
   * the list of its strike, which is created when the strike is first seen.
   */
  function GroupByStrike(rows: seq<Row>): (groups: map<Int32, seq<Row>>)
    ensures forall s :: s in groups ==> groups[s] != []
  {
    if rows == [] then map[]
    else
      var earlier := GroupByStrike(rows[..|rows| - 1]);
      var nf := rows[|rows| - 1];
      earlier[nf.strike := (if nf.strike in earlier then earlier[nf.strike] else []) + [nf]]
  }

  /** The groups are exactly the strikes present, each holding that strike's rows in encounter order. */
  lemma {:induction false} GroupByStrikeIsPartition(rows: seq<Row>)
    ensures GroupByStrike(rows).Keys == StrikesOf(rows)
    ensures forall s :: s in GroupByStrike(rows) ==> GroupByStrike(rows)[s] == AtStrike(rows, s)
  {
    if rows != [] {
      var init := rows[..|rows| - 1];
      var nf := rows[|rows| - 1];
      assert rows == init + [nf];
      GroupByStrikeIsPartition(init);
      forall s ensures AtStrike(rows, s) == AtStrike(init, s) + (if nf.strike == s then [nf] else []) {
        SelectAppend(init, [nf], (x: Row) => x.strike == s);
        assert Select([nf], (x: Row) => x.strike == s) == (if nf.strike == s then [nf] else []) by {
          assert [nf][1..] == [];
        }
      }
      forall s | AtStrike(init, s) != [] ensures s in StrikesOf(init) {
        var x := AtStrike(init, s)[0];
        assert x in AtStrike(init, s);
      }
      assert StrikesOf(rows) == StrikesOf(init) + {nf.strike};
    }
  }

  /** The keys of `series`, in order, are strictly ascending in the `compareTo` order. */
  ghost predicate StrictlyAscending(series: seq<(string, int)>) {
    forall i, j :: 0 <= i < j < |series| ==> LexLess(series[i].0, series[j].0)
  }

  /** The `insertedTimeItOi` map once every label has been put. */
  function TimeTable(group: seq<Row>, insertedTimeList: seq<string>, inputDay: string): map<string, int> {
    map t | t in insertedTimeList :: DataAtInsertedTime(group, t, inputDay)
  }

  /** `entrySet().stream().sorted(comparingByKey())` collected into a `LinkedHashMap`. */
  function SortedEntries(m: map<string, int>): (series: seq<(string, int)>)
    decreases |m|
  {
    if m.Keys == {} then
      assert m == map[];
      []
    else
      var k := MinKey(m.Keys);
      var rest := m - {k};
      assert rest.Keys == m.Keys - {k};
      assert |rest| == |m| - 1;
      [(k, m[k])] + SortedEntries(rest)
  }

  /** The entries of `m`, each once, in strictly ascending key order. */
  lemma {:induction false} SortedEntriesSorts(m: map<string, int>)
    ensures StrictlyAscending(SortedEntries(m))
    ensures forall e :: e in SortedEntries(m) <==> e.0 in m && m[e.0] == e.1
    ensures |SortedEntries(m)| == |m|
    decreases |m|
  {
    if m.Keys != {} {
      var k := MinKey(m.Keys);
      var rest := m - {k};
      assert rest.Keys == m.Keys - {k};
      assert |rest| == |m| - 1;
      SortedEntriesSorts(rest);
      var tail := SortedEntries(rest);
      assert SortedEntries(m) == [(k, m[k])] + tail;
      forall j | 0 <= j < |tail| ensures LexLess(k, tail[j].0) {
        assert tail[j] in tail;
      }
    } else {
      assert m == map[];
    }
  }

  /** The series of one strike: one entry per distinct label, in ascending label order. */
  function Series(group: seq<Row>, insertedTimeList: seq<string>, inputDay: string): seq<(string, int)> {
    SortedEntries(TimeTable(group, insertedTimeList, inputDay))
  }


  // ---------------------------------------------------------------------------
  // The builder
  // ---------------------------------------------------------------------------

  /** Putting one more label into the table. */
  lemma TimeTableSnoc(group: seq<Row>, labels: seq<string>, insertedTime: string, inputDay: string)
    ensures TimeTable(group, labels + [insertedTime], inputDay)
            == TimeTable(group, labels, inputDay)[insertedTime := DataAtInsertedTime(group, insertedTime, inputDay)]
  {
    var lhs := TimeTable(group, labels + [insertedTime], inputDay);
    var rhs := TimeTable(group, labels, inputDay)[insertedTime := DataAtInsertedTime(group, insertedTime, inputDay)];
    assert forall t :: t in labels + [insertedTime] <==> t in labels || t == insertedTime;
    assert lhs.Keys == rhs.Keys;
  }

  /** The inner loop of prepareCompartment1..4 for one strike, then the sort by label. */
  method AlignSeries(group: seq<Row>, insertedTimeList: seq<string>, inputDay: string)
    returns (result: seq<(string, int)>)
    ensures result == Series(group, insertedTimeList, inputDay)
  {
    var insertedTimeItOi: map<string, int> := map[];
    for i := 0 to |insertedTimeList|
      invariant insertedTimeItOi == TimeTable(group, insertedTimeList[..i], inputDay)
    {
      var insertedTime := insertedTimeList[i];
      assert insertedTimeList[..i + 1] == insertedTimeList[..i] + [insertedTime];
      TimeTableSnoc(group, insertedTimeList[..i], insertedTime, inputDay);
      insertedTimeItOi := insertedTimeItOi[insertedTime := DataAtInsertedTime(group, insertedTime, inputDay)];
    }
    assert insertedTimeList[..|insertedTimeList|] == insertedTimeList;
    result := SortedEntries(insertedTimeItOi);
  }

  /** The series of every strike group. */
  function AlignedGroups(strikeWiseData: map<Int32, seq<Row>>, insertedTimeList: seq<string>, inputDay: string)
    : map<Int32, seq<(string, int)>>
  {
    map s | s in strikeWiseData :: Series(strikeWiseData[s], insertedTimeList, inputDay)
  }

  /** What one of the four routines returns: strike -> aligned series. */
  function Compartment(todayData: seq<Row>, insertedTimeList: seq<string>, inputDay: string, keep: Row -> bool)
    : map<Int32, seq<(string, int)>>
  {
    AlignedGroups(GroupByStrike(Select(todayData, keep)), insertedTimeList, inputDay)
  }

  /** The loop over `strikeWiseData.keySet()`, in whatever order the hash map yields the strikes. */
  method AlignStrikes(strikeWiseData: map<Int32, seq<Row>>, insertedTimeList: seq<string>, inputDay: string)
    returns (compartment: map<Int32, seq<(string, int)>>)
    ensures compartment == AlignedGroups(strikeWiseData, insertedTimeList, inputDay)
  {
    compartment := map[];
    var pending := strikeWiseData.Keys;
    while pending != {}
      invariant pending <= strikeWiseData.Keys
      invariant compartment.Keys == strikeWiseData.Keys - pending
      invariant forall s :: s in compartment ==>
                  compartment[s] == Series(strikeWiseData[s], insertedTimeList, inputDay)
      decreases pending
    {
      var strikePrice :| strikePrice in pending;
      var result := AlignSeries(strikeWiseData[strikePrice], insertedTimeList, inputDay);
      compartment := compartment[strikePrice := result];
      pending := pending - {strikePrice};
    }
    assert compartment.Keys == AlignedGroups(strikeWiseData, insertedTimeList, inputDay).Keys;
  }

  /** The shared body of prepareCompartment1..4, parameterised by the row filter. */
  method PrepareCompartment(insertedTimeList: seq<string>, todayData: seq<Row>, inputDay: string, keep: Row -> bool)
    returns (compartment: map<Int32, seq<(string, int)>>)
    ensures compartment == Compartment(todayData, insertedTimeList, inputDay, keep)
  {
    var strikeWiseData := GroupByStrike(Select(todayData, keep));
    compartment := AlignStrikes(strikeWiseData, insertedTimeList, inputDay);
  }

  /** prepareCompartment1: calls at or below the at-the-money strike. */
  method PrepareCompartment1(atmStrike: Int32, insertedTimeList: seq<string>, todayData: seq<Row>, inputDay: string)
    returns (compartment1: map<Int32, seq<(string, int)>>)
    ensures compartment1 == Compartment(todayData, insertedTimeList, inputDay, AtOrBelowRule(atmStrike, "CE"))
    ensures forall s :: s in compartment1 ==> atmStrike - 200 < s <= atmStrike
  {
    compartment1 := PrepareCompartment(insertedTimeList, todayData, inputDay, AtOrBelowRule(atmStrike, "CE"));
    AtOrBelowKeys(todayData, insertedTimeList, inputDay, atmStrike, "CE");
  }

  /** prepareCompartment2: calls above the at-the-money strike. */
  method PrepareCompartment2(atmStrike: Int32, insertedTimeList: seq<string>, todayData: seq<Row>, inputDay: string)
    returns (compartment2: map<Int32, seq<(string, int)>>)
    ensures compartment2 == Compartment(todayData, insertedTimeList, inputDay, AboveRule(atmStrike, "CE"))
    ensures forall s :: s in compartment2 ==> atmStrike < s <= atmStrike + 150
  {
    compartment2 := PrepareCompartment(insertedTimeList, todayData, inputDay, AboveRule(atmStrike, "CE"));
    AboveKeys(todayData, insertedTimeList, inputDay, atmStrike, "CE");
  }

  /** prepareCompartment3: puts at or below the at-the-money strike. */
  method PrepareCompartment3(atmStrike: Int32, insertedTimeList: seq<string>, todayData: seq<Row>, inputDay: string)
    returns (compartment3: map<Int32, seq<(string, int)>>)
    ensures compartment3 == Compartment(todayData, insertedTimeList, inputDay, AtOrBelowRule(atmStrike, "PE"))
    ensures forall s :: s in compartment3 ==> atmStrike - 200 < s <= atmStrike
  {
    compartment3 := PrepareCompartment(insertedTimeList, todayData, inputDay, AtOrBelowRule(atmStrike, "PE"));
    AtOrBelowKeys(todayData, insertedTimeList, inputDay, atmStrike, "PE");
  }

  /** prepareCompartment4: puts above the at-the-money strike. */
  method PrepareCompartment4(atmStrike: Int32, insertedTimeList: seq<string>, todayData: seq<Row>, inputDay: string)
    returns (compartment4: map<Int32, seq<(string, int)>>)
    ensures compartment4 == Compartment(todayData, insertedTimeList, inputDay, AboveRule(atmStrike, "PE"))
    ensures forall s :: s in compartment4 ==> atmStrike < s <= atmStrike + 150
  {
    compartment4 := PrepareCompartment(insertedTimeList, todayData, inputDay, AboveRule(atmStrike, "PE"));
    AboveKeys(todayData, insertedTimeList, inputDay, atmStrike, "PE");
  }

  // ---------------------------------------------------------------------------
  // What a compartment promises
  // ---------------------------------------------------------------------------

  /** A strike is a key exactly when some row of the day passes the filter with that strike. */
  lemma CompartmentKeys(todayData: seq<Row>, insertedTimeList: seq<string>, inputDay: string, keep: Row -> bool)
    ensures forall s :: s in Compartment(todayData, insertedTimeList, inputDay, keep) <==>
              exists nf :: nf in todayData && keep(nf) && nf.strike == s
  {
    var selected := Select(todayData, keep);
    GroupByStrikeIsPartition(selected);
    assert Compartment(todayData, insertedTimeList, inputDay, keep).Keys == StrikesOf(selected);
  }

  /** Every key of compartment 1 or 3 lies in `(atmStrike - 200, atmStrike]`; without overflow every such strike of the kind is a key. */
  lemma AtOrBelowKeys(todayData: seq<Row>, insertedTimeList: seq<string>, inputDay: string, atmStrike: Int32, optionType: string)
    ensures forall s :: s in Compartment(todayData, insertedTimeList, inputDay, AtOrBelowRule(atmStrike, optionType)) ==>
              atmStrike - 200 < s <= atmStrike
    ensures MinInt32 + 200 <= atmStrike ==>
              forall nf :: nf in todayData && nf.kind == optionType && atmStrike - 200 < nf.strike <= atmStrike ==>
                nf.strike in Compartment(todayData, insertedTimeList, inputDay, AtOrBelowRule(atmStrike, optionType))
  {
    var keep := AtOrBelowRule(atmStrike, optionType);
    CompartmentKeys(todayData, insertedTimeList, inputDay, keep);
    forall nf ensures keep(nf) ==> atmStrike - 200 < nf.strike <= atmStrike
      ensures MinInt32 + 200 <= atmStrike && nf.kind == optionType && atmStrike - 200 < nf.strike <= atmStrike ==> keep(nf)
    {
      AtOrBelowWindow(atmStrike, optionType, nf);
    }
  }

  /** Every key of compartment 2 or 4 lies in `(atmStrike, atmStrike + 150]`; without overflow every such strike of the kind is a key. */
  lemma AboveKeys(todayData: seq<Row>, insertedTimeList: seq<string>, inputDay: string, atmStrike: Int32, optionType: string)
    ensures forall s :: s in Compartment(todayData, insertedTimeList, inputDay, AboveRule(atmStrike, optionType)) ==>
              atmStrike < s <= atmStrike + 150
    ensures atmStrike <= MaxInt32 - 150 ==>
              forall nf :: nf in todayData && nf.kind == optionType && atmStrike < nf.strike <= atmStrike + 150 ==>
                nf.strike in Compartment(todayData, insertedTimeList, inputDay, AboveRule(atmStrike, optionType))
  {
    var keep := AboveRule(atmStrike, optionType);
    CompartmentKeys(todayData, insertedTimeList, inputDay, keep);
    forall nf ensures keep(nf) ==> atmStrike < nf.strike <= atmStrike + 150
      ensures atmStrike <= MaxInt32 - 150 && nf.kind == optionType && atmStrike < nf.strike <= atmStrike + 150 ==> keep(nf)
    {
      AboveWindow(atmStrike, optionType, nf);
    }
  }

  /** Compartments 1 and 2 (and 3 and 4) never share a strike: `<= atmStrike` and `> atmStrike` split them. */
  lemma AtmSplitsCompartments(todayData: seq<Row>, insertedTimeList: seq<string>, inputDay: string, atmStrike: Int32, optionType: string)
    ensures Compartment(todayData, insertedTimeList, inputDay, AtOrBelowRule(atmStrike, optionType)).Keys
            !! Compartment(todayData, insertedTimeList, inputDay, AboveRule(atmStrike, optionType)).Keys
  {
    AtOrBelowKeys(todayData, insertedTimeList, inputDay, atmStrike, optionType);
    AboveKeys(todayData, insertedTimeList, inputDay, atmStrike, optionType);
  }

  /** Every row grouped under a strike is a row of the day that passes the filter and has that strike. */
  lemma GroupsHoldAdmittedRows(todayData: seq<Row>, keep: Row -> bool)
    ensures forall s, nf :: s in GroupByStrike(Select(todayData, keep)) && nf in GroupByStrike(Select(todayData, keep))[s] ==>
              nf in todayData && keep(nf) && nf.strike == s
  {
    GroupByStrikeIsPartition(Select(todayData, keep));
  }

  /** The rows `lookup` against: passes the filter, has the strike, and is stamped at the label. */
  ghost predicate Hit(nf: Row, keep: Row -> bool, strike: Int32, insertedTime: string, inputDay: string) {
    keep(nf) && nf.strike == strike && StampedAt(nf, insertedTime, inputDay)
  }

  /** `i` is the first position of `todayData` that is a hit. */
  ghost predicate FirstHit(todayData: seq<Row>, i: int, keep: Row -> bool, strike: Int32, insertedTime: string, inputDay: string) {
    0 <= i < |todayData| && Hit(todayData[i], keep, strike, insertedTime, inputDay)
    && forall j :: 0 <= j < i ==> !Hit(todayData[j], keep, strike, insertedTime, inputDay)
  }

  /** The group of a strike, built from the first row of the day and the group of the others. */
  lemma GroupCons(todayData: seq<Row>, keep: Row -> bool, strike: Int32)
    requires todayData != []
    ensures AtStrike(Select(todayData, keep), strike)
            == (if keep(todayData[0]) && todayData[0].strike == strike then [todayData[0]] else [])
               + AtStrike(Select(todayData[1..], keep), strike)
  {
    var nf := todayData[0];
    var head := if keep(nf) then [nf] else [];
    assert Select(todayData, keep) == head + Select(todayData[1..], keep);
    SelectAppend(head, Select(todayData[1..], keep), (x: Row) => x.strike == strike);
    if keep(nf) {
      assert head[1..] == [];
    }
  }

  /** One step of the lookup: the first row of the day decides, or the search goes on in the others. */
  lemma GroupLookupStep(todayData: seq<Row>, keep: Row -> bool, strike: Int32, insertedTime: string, inputDay: string)
    requires todayData != []
    ensures DataAtInsertedTime(AtStrike(Select(todayData, keep), strike), insertedTime, inputDay)
            == if Hit(todayData[0], keep, strike, insertedTime, inputDay) then todayData[0].changeInOi
               else DataAtInsertedTime(AtStrike(Select(todayData[1..], keep), strike), insertedTime, inputDay)
  {
    GroupCons(todayData, keep, strike);
    var nf := todayData[0];
    var group := AtStrike(Select(todayData, keep), strike);
    var tail := AtStrike(Select(todayData[1..], keep), strike);
    if keep(nf) && nf.strike == strike {
      assert group == [nf] + tail;
      assert group[0] == nf && group[1..] == tail;
    } else {
      assert group == [] + tail == tail;
    }
  }

  /** With no hit in the day, the lookup in the strike's group gives 0. */
  lemma {:induction false} GroupLookupMiss(todayData: seq<Row>, keep: Row -> bool, strike: Int32, insertedTime: string, inputDay: string)
    requires forall i :: 0 <= i < |todayData| ==> !Hit(todayData[i], keep, strike, insertedTime, inputDay)
    ensures DataAtInsertedTime(AtStrike(Select(todayData, keep), strike), insertedTime, inputDay) == 0
  {
    if todayData != [] {
      var rest := todayData[1..];
      forall i | 0 <= i < |rest| ensures !Hit(rest[i], keep, strike, insertedTime, inputDay) {
        assert rest[i] == todayData[i + 1];
      }
      GroupLookupMiss(rest, keep, strike, insertedTime, inputDay);
      assert !Hit(todayData[0], keep, strike, insertedTime, inputDay);
      GroupLookupStep(todayData, keep, strike, insertedTime, inputDay);
    }
  }

  /** The lookup in the strike's group finds the first hit of the day. */
  lemma {:induction false} GroupLookupHit(todayData: seq<Row>, keep: Row -> bool, strike: Int32, insertedTime: string, inputDay: string, i: int)
    requires FirstHit(todayData, i, keep, strike, insertedTime, inputDay)
    ensures DataAtInsertedTime(AtStrike(Select(todayData, keep), strike), insertedTime, inputDay) == todayData[i].changeInOi
  {
    GroupLookupStep(todayData, keep, strike, insertedTime, inputDay);
    if i > 0 {
      var rest := todayData[1..];
      assert !Hit(todayData[0], keep, strike, insertedTime, inputDay);
      assert FirstHit(rest, i - 1, keep, strike, insertedTime, inputDay) by {
        assert rest[i - 1] == todayData[i];
        forall j | 0 <= j < i - 1 ensures !Hit(rest[j], keep, strike, insertedTime, inputDay) {
          assert rest[j] == todayData[j + 1];
        }
      }
      GroupLookupHit(rest, keep, strike, insertedTime, inputDay, i - 1);
    }
  }

  /**
   * The entry at position `k` of a strike's series is a label of `insertedTimeList`,
   * and its value is the change in open interest of the first row of the day (in
   * `todayData` order) that passes the filter, has the strike and is stamped at the
   * label; it is 0 when there is none.
   */
  lemma CompartmentLookup(todayData: seq<Row>, insertedTimeList: seq<string>, inputDay: string, keep: Row -> bool,
                          strike: Int32, k: int)
    requires strike in Compartment(todayData, insertedTimeList, inputDay, keep)
    requires 0 <= k < |Compartment(todayData, insertedTimeList, inputDay, keep)[strike]|
    ensures var (t, v) := Compartment(todayData, insertedTimeList, inputDay, keep)[strike][k];
      && t in insertedTimeList
      && ((forall i :: 0 <= i < |todayData| ==> !Hit(todayData[i], keep, strike, t, inputDay)) ==> v == 0)
      && (forall i :: FirstHit(todayData, i, keep, strike, t, inputDay) ==> v == todayData[i].changeInOi)
  {
    var selected := Select(todayData, keep);
    GroupByStrikeIsPartition(selected);
    var group := AtStrike(selected, strike);
    var table := TimeTable(group, insertedTimeList, inputDay);
    var series := Compartment(todayData, insertedTimeList, inputDay, keep)[strike];
    assert series == SortedEntries(table);
    SortedEntriesSorts(table);
    assert series[k] in series;
    var t := series[k].0;
    if forall i :: 0 <= i < |todayData| ==> !Hit(todayData[i], keep, strike, t, inputDay) {
      GroupLookupMiss(todayData, keep, strike, t, inputDay);
    }
    forall i | FirstHit(todayData, i, keep, strike, t, inputDay) ensures series[k].1 == todayData[i].changeInOi {
      GroupLookupHit(todayData, keep, strike, t, inputDay, i);
    }
  }

  /**
   * Each strike's series is dense and sorted: one entry per distinct label of
   * `insertedTimeList` (whatever rows exist), in strictly ascending label order.
   */
  lemma CompartmentSeriesShape(todayData: seq<Row>, insertedTimeList: seq<string>, inputDay: string, keep: Row -> bool,
                               strike: Int32)
    requires strike in Compartment(todayData, insertedTimeList, inputDay, keep)
    ensures var series := Compartment(todayData, insertedTimeList, inputDay, keep)[strike];
      && StrictlyAscending(series)
      && |series| == |set t | t in insertedTimeList|
      && (forall t :: t in insertedTimeList <==> exists k :: 0 <= k < |series| && series[k].0 == t)
  {
    var selected := Select(todayData, keep);
    GroupByStrikeIsPartition(selected);
    var group := AtStrike(selected, strike);
    var table := TimeTable(group, insertedTimeList, inputDay);
    var series := Compartment(todayData, insertedTimeList, inputDay, keep)[strike];
    assert series == SortedEntries(table);
    SortedEntriesSorts(table);
    assert table.Keys == set t | t in insertedTimeList;
    forall t | t in insertedTimeList ensures exists k :: 0 <= k < |series| && series[k].0 == t {
      assert (t, table[t]) in series;
    }
    forall k | 0 <= k < |series| ensures series[k].0 in insertedTimeList {
      assert series[k] in series;
    }
  }

  /** The head of a strictly ascending listing of exactly the entries of `m` is the entry of the least key. */
  lemma AscendingHead(m: map<string, int>, series: seq<(string, int)>)
    requires StrictlyAscending(series) && series != []
    requires forall e :: e in series <==> e.0 in m && m[e.0] == e.1
    ensures m.Keys != {} && series[0] == (MinKey(m.Keys), m[MinKey(m.Keys)])
  {
    var first := series[0];
    assert first in series;
    var k := MinKey(m.Keys);
    assert (k, m[k]) in series;
    if first.0 != k {
      var j :| 0 <= j < |series| && series[j] == (k, m[k]);
      assert j != 0;
      LexLessAsymmetric(first.0, k);
    }
  }

  /** Dropping the head of such a listing lists exactly the entries of `m` without the head's key. */
  lemma AscendingTail(m: map<string, int>, series: seq<(string, int)>)
    requires StrictlyAscending(series) && series != []
    requires forall e :: e in series <==> e.0 in m && m[e.0] == e.1
    ensures StrictlyAscending(series[1..])
    ensures forall e :: e in series[1..] <==> e.0 in m - {series[0].0} && m[e.0] == e.1
  {
    var k := series[0].0;
    var tail := series[1..];
    forall e ensures e in tail <==> e.0 in m - {k} && m[e.0] == e.1 {
      if e in tail {
        var j :| 0 <= j < |tail| && tail[j] == e;
        assert series[j + 1] == e;
        if e.0 == k {
          LexLessIrreflexive(k);
        }
      }
      if e.0 in m - {k} && m[e.0] == e.1 {
        assert e in series;
        var j :| 0 <= j < |series| && series[j] == e;
        assert j != 0;
        assert tail[j - 1] == e;
      }
    }
    forall i, j | 0 <= i < j < |tail| ensures LexLess(tail[i].0, tail[j].0) {
      assert tail[i] == series[i + 1] && tail[j] == series[j + 1];
    }
  }

  /** A strictly ascending listing of exactly the entries of `m` is the one SortedEntries gives. */
  lemma {:induction false} SortedEntriesUnique(m: map<string, int>, series: seq<(string, int)>)
    requires StrictlyAscending(series)
    requires forall e :: e in series <==> e.0 in m && m[e.0] == e.1
    ensures series == SortedEntries(m)
    decreases |m|
  {
    if series == [] {
      assert forall x :: x in m ==> (x, m[x]) in series;
      assert m == map[];
    } else {
      AscendingHead(m, series);
      AscendingTail(m, series);
      var k := MinKey(m.Keys);
      var rest := m - {k};
      assert rest.Keys == m.Keys - {k};
      assert |rest| == |m| - 1;
      var tail := series[1..];
      SortedEntriesUnique(rest, tail);
      assert SortedEntries(m) == [(k, m[k])] + SortedEntries(rest);
      assert series == [series[0]] + tail;
    }
  }

  /** The series depends on the labels only as a set: their order and repetitions do not matter. */
  lemma SeriesIgnoresLabelOrder(group: seq<Row>, labels: seq<string>, otherLabels: seq<string>, inputDay: string)
    requires forall t :: t in labels <==> t in otherLabels
    ensures Series(group, labels, inputDay) == Series(group, otherLabels, inputDay)
  {
    assert TimeTable(group, labels, inputDay) == TimeTable(group, otherLabels, inputDay);
  }

  /** The two call rows of the worked case below. */
  function ExampleRows(): seq<Row> {
    [Row(1, 19950, "CE", "14-Oct-2026" + "09:15", 100), Row(2, 19950, "CE", "14-Oct-2026" + "09:20", 200)]
  }

  lemma ExampleGrouping()
    ensures GroupByStrike(Select(ExampleRows(), AtOrBelowRule(20000, "CE"))) == map[19950 := ExampleRows()]
  {
    var rows := ExampleRows();
    var r1, r2 := rows[0], rows[1];
    var keep := AtOrBelowRule(20000, "CE");
    assert keep(r1) && keep(r2);
    assert Select(rows, keep) == rows by {
      assert rows[1..] == [r2] && [r2][1..] == [];
    }
    var none: seq<Row> := [];
    assert rows[..1] == [r1] && [r1][..0] == none;
    assert GroupByStrike(none) == map[];
    assert GroupByStrike([r1]) == map[r1.strike := none + [r1]];
    assert [r1] + [r2] == rows && none + [r1] == [r1];
  }

  lemma ExampleTable()
    ensures TimeTable(ExampleRows(), ["09:20", "09:15"], "14-Oct-2026") == map["09:15" := 100, "09:20" := 200]
  {
    var day := "14-Oct-2026";
    var rows := ExampleRows();
    StampWithoutDay(day, "09:15");
    StampWithoutDay(day, "09:20");
    assert DataAtInsertedTime(rows, "09:15", day) == 100;
    assert DataAtInsertedTime(rows, "09:20", day) == 200 by {
      assert rows[1..] == [rows[1]];
    }
  }

  lemma ExampleSeries()
    ensures Series(ExampleRows(), ["09:20", "09:15"], "14-Oct-2026") == [("09:15", 100), ("09:20", 200)]
  {
    ExampleTable();
    var table := TimeTable(ExampleRows(), ["09:20", "09:15"], "14-Oct-2026");
    var series := [("09:15", 100), ("09:20", 200)];
    assert StrictlyAscending(series) by {
      assert "09:15"[1..] == "9:15" && "09:20"[1..] == "9:20";
      assert "9:15"[1..] == ":15" && "9:20"[1..] == ":20";
      assert ":15"[1..] == "15" && ":20"[1..] == "20";
      assert LexLess("09:15", "09:20");
    }
    assert forall e :: e in series <==> e.0 in table && table[e.0] == e.1;
    SortedEntriesUnique(table, series);
  }

  /**
   * A worked case: two call rows at strike 19950, labels supplied in descending
   * order; compartment 1 holds the strike with its series re-sorted ascending.
   */
  lemma DescendingLabelsComeOutAscending()
    ensures Compartment(ExampleRows(), ["09:20", "09:15"], "14-Oct-2026", AtOrBelowRule(20000, "CE"))
            == map[19950 := [("09:15", 100), ("09:20", 200)]]
  {
    ExampleGrouping();
    ExampleSeries();
  }
}
