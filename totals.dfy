/**
 * The amounts derived from the cart rows on every read: the subtotal (sum of
 * line totals), the GST surcharge above a fixed threshold, and the grand total.
 */
module Totals {
  import opened CartRows

  /** GST applies only to a subtotal strictly above this amount. */
  const GstThreshold: real := 1000.0

  /** The GST rate, 18/100, kept exact. */
  const GstRate: real := 18.0 / 100.0

  /** The sum of the line totals, accumulated from the first row on as `reduce` does. */
  function Subtotal(rows: seq<Row>): (sum: real)
    ensures (forall i :: 0 <= i < |rows| ==> rows[i].total >= 0.0) ==> sum >= 0.0
    ensures (forall i :: 0 <= i < |rows| ==> rows[i].total == 0.0) ==> sum == 0.0
    decreases |rows|
  {
    if rows == [] then 0.0 else Subtotal(rows[..|rows| - 1]) + rows[|rows| - 1].total
  }

  /** The GST on a subtotal: nothing up to the threshold, 18/100 of it above. */
  function Gst(subtotal: real): (tax: real)
    ensures tax != 0.0 <==> subtotal > GstThreshold
    ensures tax == 0.0 || tax > GstRate * GstThreshold
    ensures subtotal > GstThreshold ==> tax == GstRate * subtotal
  {
    if subtotal > GstThreshold then GstRate * subtotal else 0.0
  }

  /** The amount payable: the subtotal plus its GST. */
  function GrandTotal(subtotal: real): (g: real)
    ensures g >= subtotal
    ensures subtotal <= GstThreshold ==> g == subtotal
    ensures subtotal > GstThreshold ==> g == (1.0 + GstRate) * subtotal
  {
    subtotal + Gst(subtotal)
  }

  /** The threshold itself is not taxed; anything above it is. */
  lemma GstAtThreshold()
    ensures Gst(1000.0) == 0.0
    ensures Gst(1000.01) == 180.0018
    ensures Gst(0.0) == 0.0
  {
  }

  /** A larger subtotal never gives a smaller grand total, despite the jump at the threshold. */
  lemma GrandTotalMonotone(s1: real, s2: real)
    requires s1 <= s2
    ensures GrandTotal(s1) <= GrandTotal(s2)
  {
  }

  /** Rows with equal line totals have equal subtotals. */
  lemma {:induction false} SubtotalCongruent(a: seq<Row>, b: seq<Row>)
    requires |a| == |b|
    requires forall j :: 0 <= j < |a| ==> a[j].total == b[j].total
    ensures Subtotal(a) == Subtotal(b)
    decreases |a|
  {
    if a != [] {
      SubtotalCongruent(a[..|a| - 1], b[..|b| - 1]);
    }
  }

  /** Changing one row's total changes the subtotal by exactly the difference. */
  lemma {:induction false} SubtotalUpdate(a: seq<Row>, b: seq<Row>, k: int)
    requires |a| == |b| && 0 <= k < |a|
    requires forall j :: 0 <= j < |a| && j != k ==> a[j].total == b[j].total
    ensures Subtotal(b) == Subtotal(a) - a[k].total + b[k].total
    decreases |a|
  {
    var n := |a|;
    if k == n - 1 {
      SubtotalCongruent(a[..n - 1], b[..n - 1]);
    } else {
      SubtotalUpdate(a[..n - 1], b[..n - 1], k);
    }
  }

  /** A freshly loaded cart costs nothing: no subtotal, no GST, no grand total. */
  lemma LoadedCartIsFree(items: seq<CatalogItem>)
    ensures Subtotal(Load(items)) == 0.0
    ensures Gst(Subtotal(Load(items))) == 0.0
    ensures GrandTotal(Subtotal(Load(items))) == 0.0
  {
  }

  /** With non-negative prices and consistent rows, the subtotal is never negative. */
  lemma SubtotalNonNegative(rows: seq<Row>)
    requires AllConsistent(rows)
    requires forall i :: 0 <= i < |rows| ==> rows[i].price >= 0.0
    ensures Subtotal(rows) >= 0.0
  {
    forall i | 0 <= i < |rows|
      ensures rows[i].total >= 0.0
    {
      LineTotalNonNegative(rows[i]);
    }
  }

  /** A consistent row with a non-negative price has a non-negative line total. */
  lemma LineTotalNonNegative(r: Row)
    requires Consistent(r) && r.price >= 0.0
    ensures r.total >= 0.0
  {
    assert r.orderedQuantity as real >= 0.0;
  }

  /**
   * When the id is carried by one row only, handling a click moves the
   * subtotal by exactly the change in that row's total.
   */
  lemma AdjustMovesSubtotalByLineChange(rows: seq<Row>, kind: string, k: int)
    requires 0 <= k < |rows|
    requires forall j :: 0 <= j < |rows| && j != k ==> rows[j].id != rows[k].id
    ensures Subtotal(HandleQuantity(rows, kind, rows[k].id))
         == Subtotal(rows) - rows[k].total + AdjustRow(rows[k], kind).total
  {
    var rows' := HandleQuantity(rows, kind, rows[k].id);
    assert rows'[k] == AdjustRow(rows[k], kind);
    SubtotalUpdate(rows, rows', k);
  }

  /** Below the ceiling, one Add click on a row with a unique id adds exactly its price to the subtotal. */
  lemma IncreaseAddsOnePrice(rows: seq<Row>, k: int)
    requires 0 <= k < |rows| && Consistent(rows[k])
    requires rows[k].orderedQuantity < rows[k].availableCount
    requires forall j :: 0 <= j < |rows| && j != k ==> rows[j].id != rows[k].id
    ensures Subtotal(HandleQuantity(rows, Increase, rows[k].id)) == Subtotal(rows) + rows[k].price
  {
    AdjustMovesSubtotalByLineChange(rows, Increase, k);
    IncreaseAddsPriceToTotal(rows[k]);
  }

  /** Above zero, one Remove click on a row with a unique id takes exactly its price off the subtotal. */
  lemma DecreaseRemovesOnePrice(rows: seq<Row>, k: int)
    requires 0 <= k < |rows| && Consistent(rows[k])
    requires rows[k].orderedQuantity > 0
    requires forall j :: 0 <= j < |rows| && j != k ==> rows[j].id != rows[k].id
    ensures Subtotal(HandleQuantity(rows, Decrease, rows[k].id)) == Subtotal(rows) - rows[k].price
  {
    AdjustMovesSubtotalByLineChange(rows, Decrease, k);
    DecreaseRemovesPriceFromTotal(rows[k]);
  }
}
