/**
 * The flat view of the day's feed: `filter(optionDataList, optionType)` keeps the
 * rows of one option type and orders them by id, largest first, with a stable sort.
 */
module FlatFilter {
  import opened Rows

  /** `.filter(n -> n.getOptionType().equals(optionType))`. */
  function OfKind(rows: seq<Row>, optionType: string): seq<Row> {
    Select(rows, (n: Row) => n.kind == optionType)
  }

  /** Puts `x` in front of the first row whose id is not larger than its own. */
  function InsertById(x: Row, sorted: seq<Row>): seq<Row> {
    if sorted == [] then [x]
    else if sorted[0].id <= x.id then [x] + sorted
    else [sorted[0]] + InsertById(x, sorted[1..])
  }

  /** `.sorted(Comparator.comparing(Nifty::getId).reversed())`: a stable sort, largest id first. */
  function SortByIdDescending(rows: seq<Row>): seq<Row> {
    if rows == [] then [] else InsertById(rows[0], SortByIdDescending(rows[1..]))
  }

  /** filter (the flat CE or PE list of the refresh endpoint). */
  function Filter(optionDataList: seq<Row>, optionType: string): seq<Row> {
    SortByIdDescending(OfKind(optionDataList, optionType))
  }

  ghost predicate IdsNonIncreasing(rows: seq<Row>) {
    forall i, j :: 0 <= i < j < |rows| ==> rows[i].id >= rows[j].id
  }

  /** The rows carrying one id, in their order; a stable sort must leave these unchanged. */
  function WithId(rows: seq<Row>, id: int): seq<Row> {
    Select(rows, (n: Row) => n.id == id)
  }

  lemma WithIdCons(x: Row, rows: seq<Row>, id: int)
    ensures WithId([x] + rows, id) == (if x.id == id then [x] else []) + WithId(rows, id)
  {
    assert ([x] + rows)[0] == x && ([x] + rows)[1..] == rows;
  }

  lemma {:induction false} InsertByIdPermutes(x: Row, sorted: seq<Row>)
    ensures multiset(InsertById(x, sorted)) == multiset(sorted) + multiset{x}
  {
    if sorted != [] && sorted[0].id > x.id {
      InsertByIdPermutes(x, sorted[1..]);
      assert sorted == [sorted[0]] + sorted[1..];
    }
  }

  lemma {:induction false} InsertByIdOrders(x: Row, sorted: seq<Row>)
    requires IdsNonIncreasing(sorted)
    ensures IdsNonIncreasing(InsertById(x, sorted))
  {
    if sorted != [] && sorted[0].id > x.id {
      var tail := sorted[1..];
      InsertByIdOrders(x, tail);
      InsertByIdPermutes(x, tail);
      var inserted := InsertById(x, tail);
      forall j | 0 <= j < |inserted| ensures inserted[j].id <= sorted[0].id {
        assert inserted[j] in multiset(inserted);
        if inserted[j] != x {
          assert inserted[j] in tail;
        }
      }
    }
  }

  lemma {:induction false} InsertByIdStable(x: Row, sorted: seq<Row>, id: int)
    requires IdsNonIncreasing(sorted)
    ensures WithId(InsertById(x, sorted), id) == (if x.id == id then [x] else []) + WithId(sorted, id)
  {
    if sorted == [] {
      WithIdCons(x, [], id);
    } else if sorted[0].id <= x.id {
      WithIdCons(x, sorted, id);
    } else {
      var s0 := sorted[0];
      InsertByIdStable(x, sorted[1..], id);
      WithIdCons(s0, InsertById(x, sorted[1..]), id);
      WithIdCons(s0, sorted[1..], id);
      assert sorted == [s0] + sorted[1..];
    }
  }

  /** The sort returns a permutation of its input. */
  lemma {:induction false} SortPermutes(rows: seq<Row>)
    ensures multiset(SortByIdDescending(rows)) == multiset(rows)
  {
    if rows != [] {
      SortPermutes(rows[1..]);
      InsertByIdPermutes(rows[0], SortByIdDescending(rows[1..]));
      assert rows == [rows[0]] + rows[1..];
    }
  }

  /** The sort puts larger ids first and keeps rows of equal id in input order. */
  lemma {:induction false} SortOrdersStably(rows: seq<Row>)
    ensures IdsNonIncreasing(SortByIdDescending(rows))
    ensures forall id :: WithId(SortByIdDescending(rows), id) == WithId(rows, id)
  {
    if rows != [] {
      var rest := SortByIdDescending(rows[1..]);
      SortOrdersStably(rows[1..]);
      InsertByIdOrders(rows[0], rest);
      forall id ensures WithId(SortByIdDescending(rows), id) == WithId(rows, id) {
        InsertByIdStable(rows[0], rest, id);
        WithIdCons(rows[0], rows[1..], id);
        assert rows == [rows[0]] + rows[1..];
      }
    }
  }

  /**
   * filter returns exactly the rows of the requested option type (each as often as
   * in the input), ids non-increasing, and rows of equal id in input order.
   */
  lemma FilterSpec(optionDataList: seq<Row>, optionType: string)
    ensures forall x :: multiset(Filter(optionDataList, optionType))[x]
                        == if x.kind == optionType then multiset(optionDataList)[x] else 0
    ensures IdsNonIncreasing(Filter(optionDataList, optionType))
    ensures forall id :: WithId(Filter(optionDataList, optionType), id) == WithId(OfKind(optionDataList, optionType), id)
  {
    var kept := OfKind(optionDataList, optionType);
    SelectMultiset(optionDataList, (n: Row) => n.kind == optionType);
    SortPermutes(kept);
    SortOrdersStably(kept);
  }

  lemma SameIdGroupsSameRows(a: seq<Row>, b: seq<Row>)
    requires forall id :: WithId(a, id) == WithId(b, id)
    ensures forall x :: x in a <==> x in b
  {
    forall x ensures x in a <==> x in b {
      assert x in a <==> x in WithId(a, x.id);
      assert x in b <==> x in WithId(b, x.id);
    }
  }

  lemma SameIdGroupsSameHead(a: seq<Row>, b: seq<Row>)
    requires a != [] && b != []
    requires IdsNonIncreasing(a) && IdsNonIncreasing(b)
    requires forall id :: WithId(a, id) == WithId(b, id)
    ensures a[0] == b[0]
  {
    SameIdGroupsSameRows(a, b);
    var x, y := a[0], b[0];
    assert x in b && y in a;
    var i :| 0 <= i < |b| && b[i] == x;
    var j :| 0 <= j < |a| && a[j] == y;
    assert x.id == y.id;
    assert a == [x] + a[1..] && b == [y] + b[1..];
    WithIdCons(x, a[1..], x.id);
    WithIdCons(y, b[1..], x.id);
    assert WithId(a, x.id)[0] == x && WithId(b, x.id)[0] == y;
  }

  lemma SameIdGroupsSameTail(a: seq<Row>, b: seq<Row>)
    requires a != [] && b != [] && a[0] == b[0]
    requires forall id :: WithId(a, id) == WithId(b, id)
    ensures forall id :: WithId(a[1..], id) == WithId(b[1..], id)
  {
    var x := a[0];
    assert a == [x] + a[1..] && b == [x] + b[1..];
    forall id ensures WithId(a[1..], id) == WithId(b[1..], id) {
      WithIdCons(x, a[1..], id);
      WithIdCons(x, b[1..], id);
      var h := if x.id == id then [x] else [];
      assert WithId(a[1..], id) == (h + WithId(a[1..], id))[|h|..];
      assert WithId(b[1..], id) == (h + WithId(b[1..], id))[|h|..];
    }
  }

  /**
   * Two orderings with ids non-increasing that keep every id's rows in the same
   * order are equal: any stable descending sort gives the result of filter.
   */
  lemma {:induction false} StableSortUnique(a: seq<Row>, b: seq<Row>)
    requires IdsNonIncreasing(a) && IdsNonIncreasing(b)
    requires forall id :: WithId(a, id) == WithId(b, id)
    ensures a == b
    decreases |a|
  {
    SameIdGroupsSameRows(a, b);
    assert a != [] ==> a[0] in b;
    assert b != [] ==> b[0] in a;
    if a != [] {
      SameIdGroupsSameHead(a, b);
      SameIdGroupsSameTail(a, b);
      StableSortUnique(a[1..], b[1..]);
      assert a == [a[0]] + a[1..] && b == [b[0]] + b[1..];
    }
  }
}
