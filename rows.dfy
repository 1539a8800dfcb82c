/**
 * The option rows the controller reads (the `Nifty` entity), Java's 32-bit
 * `int` arithmetic on strike prices, and the stream `filter` step.
 */
module Rows {

  const MinInt32: int := -0x8000_0000
  const MaxInt32: int := 0x7fff_ffff
  const TwoTo32: int := 0x1_0000_0000

  /** A Java `int` (the unboxed value of an `Integer`). */
  type Int32 = x: int | MinInt32 <= x <= MaxInt32

  /** Java `a + b` on `int`: two's-complement wrap-around on overflow. */
  function Add32(a: Int32, b: Int32): (r: Int32)
    ensures (r - (a + b)) % TwoTo32 == 0
    ensures MinInt32 <= a + b <= MaxInt32 ==> r == a + b
  {
    var x := a + b;
    if x > MaxInt32 then x - TwoTo32 else if x < MinInt32 then x + TwoTo32 else x
  }

  /** Java `a - b` on `int`: two's-complement wrap-around on overflow. */
  function Sub32(a: Int32, b: Int32): (r: Int32)
    ensures (r - (a - b)) % TwoTo32 == 0
    ensures MinInt32 <= a - b <= MaxInt32 ==> r == a - b
  {
    var x := a - b;
    if x > MaxInt32 then x - TwoTo32 else if x < MinInt32 then x + TwoTo32 else x
  }

  /**
   * One stored option-chain snapshot: its database id, strike price, option type
   * ("CE" for a call, "PE" for a put), the `updatedAtSource` timestamp string and
   * the change in open interest.
   */
  datatype Row = Row(id: int, strike: Int32, kind: string, stamp: string, changeInOi: int)

  /** `rows.stream().filter(keep)`: the rows that pass `keep`, in their original order. */
  function Select(rows: seq<Row>, keep: Row -> bool): (r: seq<Row>)
    ensures |r| <= |rows|
    ensures forall x :: x in r <==> x in rows && keep(x)
  {
    if rows == [] then []
    else
      assert rows == [rows[0]] + rows[1..];
      (if keep(rows[0]) then [rows[0]] else []) + Select(rows[1..], keep)
  }

  lemma {:induction false} SelectAppend(a: seq<Row>, b: seq<Row>, keep: Row -> bool)
    ensures Select(a + b, keep) == Select(a, keep) + Select(b, keep)
  {
    if a != [] {
      assert (a + b)[0] == a[0] && (a + b)[1..] == a[1..] + b;
      SelectAppend(a[1..], b, keep);
    } else {
      assert a + b == b;
    }
  }

  /** Filtering keeps each passing row as often as it occurs and drops the rest. */
  lemma {:induction false} SelectMultiset(rows: seq<Row>, keep: Row -> bool)
    ensures forall x :: multiset(Select(rows, keep))[x] == if keep(x) then multiset(rows)[x] else 0
  {
    if rows != [] {
      SelectMultiset(rows[1..], keep);
      assert rows == [rows[0]] + rows[1..];
    }
  }
}
