/**
 * The state the Checkout component keeps: the product list that `getData`
 * installs and that every click replaces with the reducer's result.
 */
module CheckoutComponent {
  import opened CartRows
  import opened Totals

  class Checkout {
    /** The rows on screen, replaced wholesale by every state update. */
    var productList: seq<Row>
    /** The catalog as it was loaded; the rows never change these fields. */
    ghost var catalog: seq<CatalogItem>

    /** Every row keeps its loaded catalog fields and the row invariant. */
    ghost predicate Valid()
      reads this
    {
      Catalog(productList) == catalog && AllConsistent(productList)
    }

    /** The component mounts with an empty list. */
    constructor ()
      ensures Valid()
      ensures productList == [] && catalog == []
    {
      productList := [];
      catalog := [];
    }

    /** The success branch of `getData`: the fetched items become fresh rows. */
    method GetData(res: seq<CatalogItem>)
      modifies this
      ensures Valid()
      ensures productList == Load(res) && catalog == res
    {
      LoadRoundTrip(res);
      productList := Load(res);
      catalog := res;
    }

    /**
     * A click: the list is replaced by the reducer's result. The returned count
     * is the number of "Invalid type" errors logged: one per row carrying the id
     * when the type is not recognised, none otherwise.
     */
    method HandleQuantity(kind: string, id: int) returns (logged: nat)
      requires Valid()
      modifies this
      ensures Valid() && catalog == old(catalog)
      ensures productList == CartRows.HandleQuantity(old(productList), kind, id)
      ensures logged == if IsKnownKind(kind) then 0 else CountId(old(productList), id)
    {
      logged := if IsKnownKind(kind) then 0 else CountId(productList, id);
      productList := CartRows.HandleQuantity(productList, kind, id);
    }

    /**
     * The amounts the order details card shows, read from the current list:
     * subtotal, GST and grand total.
     */
    method Amounts() returns (totalAmount: real, gstAmount: real, payable: real)
      ensures totalAmount == Subtotal(productList)
      ensures gstAmount == Gst(totalAmount) && payable == GrandTotal(totalAmount)
      ensures gstAmount != 0.0 <==> totalAmount > GstThreshold
      ensures payable == totalAmount + gstAmount
    {
      totalAmount := Subtotal(productList);
      gstAmount := Gst(totalAmount);
      payable := totalAmount + gstAmount;
    }
  }

  /** Two Add clicks on a 600-priced product take the order past the threshold: 1200 + 216 GST. */
  method TwoAddsCrossTheThreshold()
  {
    var c := new Checkout();
    c.GetData([CatalogItem(1, "", 5, 600.0)]);
    var logged := c.HandleQuantity(Increase, 1);
    assert logged == 0;
    logged := c.HandleQuantity(Increase, 1);
    assert c.productList[0].orderedQuantity == 2;
    var totalAmount, gstAmount, payable := c.Amounts();
    assert totalAmount == 1200.0;
    assert gstAmount == 216.0 && payable == 1416.0;
  }

  /** Three Add clicks on a product with two in stock stop at two; no GST below the threshold. */
  method StockCapsTheQuantity()
  {
    var c := new Checkout();
    c.GetData([CatalogItem(1, "A", 2, 100.0)]);
    var logged := c.HandleQuantity(Increase, 1);
    logged := c.HandleQuantity(Increase, 1);
    logged := c.HandleQuantity(Increase, 1);
    assert c.productList[0].orderedQuantity == 2 && c.productList[0].total == 200.0;
    var totalAmount, gstAmount, payable := c.Amounts();
    assert totalAmount == 200.0 && gstAmount == 0.0 && payable == 200.0;
  }

  /** Remove at zero and an unknown type both leave the rows as they are; only the latter logs. */
  method NoOpClicks()
  {
    var c := new Checkout();
    c.GetData([CatalogItem(1, "A", 2, 100.0), CatalogItem(2, "B", 0, 50.0)]);
    var before := c.productList;
    var logged := c.HandleQuantity(Decrease, 1);
    assert logged == 0 && c.productList == before;
    logged := c.HandleQuantity("bogus", 1);
    assert logged == 1 && c.productList == before;
    logged := c.HandleQuantity(Increase, 7);
    assert logged == 0 && c.productList == before;
  }
}
