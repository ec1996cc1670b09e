/** The scalar metrics: the APP_OPENED count and the ADD_TO_CART cent total. */
module Metrics {
  import opened Wrappers
  import opened Schema
  import opened Cleaning
  import opened Tables

  /** `filter(type == eventType)`: the rows of that type, in their order. */
  function Where<P(!new)>(rows: seq<Row<P>>, eventType: string): (r: seq<Row<P>>)
    ensures forall row :: row in r <==> row in rows && row.event.eventType == eventType
  {
    if rows == [] then []
    else
      assert forall row :: row in rows <==> row == rows[0] || row in rows[1..];
      (if rows[0].event.eventType == eventType then [rows[0]] else []) + Where(rows[1..], eventType)
  }

  /** The filter keeps every copy of a row of that type and no copy of any other row. */
  lemma {:induction false} WhereMultiplicity<P(!new)>(rows: seq<Row<P>>, eventType: string, row: Row<P>)
    ensures multiset(Where(rows, eventType))[row] == if row.event.eventType == eventType then multiset(rows)[row] else 0
  {
    if rows != [] {
      WhereMultiplicity(rows[1..], eventType, row);
      assert rows == [rows[0]] + rows[1..];
    }
  }

  /** `app_opened_count`: the number of joined rows whose type is APP_OPENED. */
  function AppOpenedCount(joined: seq<RawRow>): (c: nat)
    ensures c <= |joined|
    ensures c == 0 <==> forall i :: 0 <= i < |joined| ==> joined[i].event.eventType != APP_OPENED
  {
    WhereCountBounds(joined, APP_OPENED);
    |Where(joined, APP_OPENED)|
  }

  /** The count is zero exactly when no row has the type, and the table size exactly when all do. */
  lemma {:induction false} WhereCountBounds<P(!new)>(rows: seq<Row<P>>, eventType: string)
    ensures |Where(rows, eventType)| <= |rows|
    ensures |Where(rows, eventType)| == 0 <==> forall i :: 0 <= i < |rows| ==> rows[i].event.eventType != eventType
    ensures |Where(rows, eventType)| == |rows| <==> forall i :: 0 <= i < |rows| ==> rows[i].event.eventType == eventType
  {
    if rows != [] {
      var rest := rows[1..];
      WhereCountBounds(rest, eventType);
      var hit := rows[0].event.eventType == eventType;
      assert |Where(rows, eventType)| == (if hit then 1 else 0) + |Where(rest, eventType)|;
      assert forall i :: 1 <= i < |rows| ==> rows[i] == rest[i - 1];
    }
  }

  /** The APP_OPENED count depends only on the multiset of joined rows, not on their order. */
  lemma AppOpenedCountIgnoresOrder(a: seq<RawRow>, b: seq<RawRow>)
    requires multiset(a) == multiset(b)
    ensures AppOpenedCount(a) == AppOpenedCount(b)
  {
    forall row
      ensures multiset(Where(a, APP_OPENED))[row] == multiset(Where(b, APP_OPENED))[row]
    {
      WhereMultiplicity(a, APP_OPENED, row);
      WhereMultiplicity(b, APP_OPENED, row);
    }
    assert multiset(Where(a, APP_OPENED)) == multiset(Where(b, APP_OPENED));
    assert |multiset(Where(a, APP_OPENED))| == |Where(a, APP_OPENED)|;
    assert |multiset(Where(b, APP_OPENED))| == |Where(b, APP_OPENED)|;
  }

  /**
   * Line 22 filters `cleaned_price` on the `type` column of `joined`; cleaning
   * leaves that column as it is, so filtering the cleaned table equals
   * cleaning the filtered table.
   */
  lemma {:induction false} WhereCommutesWithCleaning(joined: seq<RawRow>, eventType: string, toCents: string -> Option<int>)
    ensures Where(CleanPrices(joined, toCents), eventType) == CleanPrices(Where(joined, eventType), toCents)
  {
    if joined != [] {
      var cleaned := CleanPrices(joined, toCents);
      CleanPricesCons(joined, toCents);
      WhereCommutesWithCleaning(joined[1..], eventType, toCents);
      assert cleaned[1..] == CleanPrices(joined[1..], toCents);
      if joined[0].event.eventType == eventType {
        CleanPricesCons(Where(joined, eventType), toCents);
      }
    } else {
      assert CleanPrices(joined, toCents) == [];
    }
  }

  /** Spark's `sum` over one pair of cells: NULL is skipped. */
  function AddSkippingNull(a: Option<int>, b: Option<int>): Option<int> {
    match (a, b)
    case (None, _) => b
    case (_, None) => a
    case (Some(x), Some(y)) => Some(x + y)
  }

  /** Spark's `sum` over a column: NULL cells are skipped; the sum of no non-NULL cell is NULL. */
  function NullSkippingSum(cells: seq<Option<int>>): (r: Option<int>)
    ensures r.None? <==> forall i :: 0 <= i < |cells| ==> cells[i].None?
  {
    if cells == [] then None else AddSkippingNull(cells[0], NullSkippingSum(cells[1..]))
  }

  /** The non-NULL values of a column, in order. */
  function Present(cells: seq<Option<int>>): (r: seq<int>)
    ensures |r| <= |cells|
  {
    if cells == [] then []
    else (match cells[0] case None => [] case Some(v) => [v]) + Present(cells[1..])
  }

  function Sum(xs: seq<int>): int {
    if xs == [] then 0 else xs[0] + Sum(xs[1..])
  }

  /** The null-skipping sum is NULL when no cell has a value, and otherwise the plain sum of the values. */
  lemma {:induction false} NullSkippingSumIsSumOfPresent(cells: seq<Option<int>>)
    ensures NullSkippingSum(cells) == if Present(cells) == [] then None else Some(Sum(Present(cells)))
  {
    if cells != [] {
      var rest := cells[1..];
      NullSkippingSumIsSumOfPresent(rest);
      match cells[0]
      case None =>
        assert Present(cells) == Present(rest);
      case Some(v) =>
        var p := [v] + Present(rest);
        assert Present(cells) == p;
        assert p[1..] == Present(rest);
        assert Sum(p) == v + Sum(Present(rest));
    }
  }

  /** The `totalPrice` column of a cleaned table. */
  function Prices(rows: seq<CleanRow>): (r: seq<Option<int>>)
    ensures |r| == |rows| && forall i :: 0 <= i < |rows| ==> r[i] == rows[i].event.totalPrice
  {
    if rows == [] then [] else [rows[0].event.totalPrice] + Prices(rows[1..])
  }

  /** Line 22: `sum('totalPrice')` over the ADD_TO_CART rows of the cleaned table, in cents. */
  function AddToCartCents(cleaned: seq<CleanRow>): (r: Option<int>)
    ensures r.None? <==> forall row :: row in cleaned && row.event.eventType == ADD_TO_CART ==> row.event.totalPrice.None?
  {
    NullSkippingSum(Prices(Where(cleaned, ADD_TO_CART)))
  }

  /**
   * The add-to-cart total is NULL exactly when no ADD_TO_CART row has a
   * cleaned price (in particular when there is no ADD_TO_CART row at all);
   * otherwise it is the sum of the non-NULL cents of those rows.
   */
  lemma AddToCartCentsSpec(cleaned: seq<CleanRow>)
    ensures AddToCartCents(cleaned).None? <==>
            forall row :: row in cleaned && row.event.eventType == ADD_TO_CART ==> row.event.totalPrice.None?
    ensures AddToCartCents(cleaned).Some? ==>
            AddToCartCents(cleaned).value == Sum(Present(Prices(Where(cleaned, ADD_TO_CART))))
  {
    NullSkippingSumIsSumOfPresent(Prices(Where(cleaned, ADD_TO_CART)));
  }

  /** Summing a concatenation sums the two parts. */
  lemma {:induction false} NullSkippingSumAppend(a: seq<Option<int>>, b: seq<Option<int>>)
    ensures NullSkippingSum(a + b) == AddSkippingNull(NullSkippingSum(a), NullSkippingSum(b))
  {
    if a == [] {
      assert a + b == b;
    } else {
      assert (a + b)[0] == a[0];
      assert (a + b)[1..] == a[1..] + b;
      NullSkippingSumAppend(a[1..], b);
    }
  }

  /** The null-skipping sum does not depend on the order of the cells. */
  lemma {:induction false} NullSkippingSumIgnoresOrder(xs: seq<Option<int>>, ys: seq<Option<int>>)
    requires multiset(xs) == multiset(ys)
    ensures NullSkippingSum(xs) == NullSkippingSum(ys)
  {
    if xs == [] {
      assert |ys| == |multiset(ys)| == 0;
    } else {
      var x := xs[0];
      var i := MatchFirst(xs, ys);
      var before, after := ys[..i], ys[i + 1..];
      NullSkippingSumIgnoresOrder(xs[1..], before + after);
      assert ys == before + ([x] + after);
      NullSkippingSumAppend(before, [x] + after);
      NullSkippingSumAppend(before, after);
      assert ([x] + after)[1..] == after;
      AddSkippingNullSwap(NullSkippingSum(before), x, NullSkippingSum(after));
    }
  }

  /** Spark's null-skipping addition can take its operands in any order. */
  lemma AddSkippingNullSwap(a: Option<int>, x: Option<int>, b: Option<int>)
    ensures AddSkippingNull(a, AddSkippingNull(x, b)) == AddSkippingNull(x, AddSkippingNull(a, b))
  {
  }

  function PriceOf(row: CleanRow): Option<int> {
    row.event.totalPrice
  }

  /** The null-skipping sum of a table's prices depends only on its multiset of rows. */
  lemma PriceSumIgnoresOrder(a: seq<CleanRow>, b: seq<CleanRow>)
    requires multiset(a) == multiset(b)
    ensures NullSkippingSum(Prices(a)) == NullSkippingSum(Prices(b))
  {
    assert Prices(a) == Column(PriceOf, a);
    assert Prices(b) == Column(PriceOf, b);
    ColumnIgnoresOrder(PriceOf, a, b);
    NullSkippingSumIgnoresOrder(Prices(a), Prices(b));
  }

  /** Tables with the same multiset of rows have filters with the same multiset of rows. */
  lemma WhereIgnoresOrder<P(!new)>(a: seq<Row<P>>, b: seq<Row<P>>, eventType: string)
    requires multiset(a) == multiset(b)
    ensures multiset(Where(a, eventType)) == multiset(Where(b, eventType))
  {
    forall row
      ensures multiset(Where(a, eventType))[row] == multiset(Where(b, eventType))[row]
    {
      WhereMultiplicity(a, eventType, row);
      WhereMultiplicity(b, eventType, row);
    }
  }
}
