/**
 * The cart rows of the checkout screen and the quantity reducer that updates
 * them: loading catalog items as rows, `handleQuantity(type, id)` and the
 * enable rules of the Add and Remove buttons.
 */
module CartRows {

  /** A product as the store returns it. */
  datatype CatalogItem = CatalogItem(id: int, name: string, availableCount: nat, price: real)

  /** A cart row: the catalog fields plus the ordered quantity and its line total. */
  datatype Row = Row(id: int, name: string, availableCount: nat, price: real, orderedQuantity: int, total: real)

  /** One click handed to the reducer: its `type` string and the row id. */
  datatype Action = Action(kind: string, id: int)

  const Increase: string := "increase"
  const Decrease: string := "decrease"

  /** The two `type` values the reducer's switch recognises. */
  predicate IsKnownKind(kind: string) {
    kind == Increase || kind == Decrease
  }

  function Min(a: int, b: int): (m: int) { if a <= b then a else b }

  function Max(a: int, b: int): (m: int) { if a >= b then a else b }

  /** The catalog fields of a row, i.e. everything but the quantity and the total. */
  function ItemOf(r: Row): (item: CatalogItem) {
    CatalogItem(r.id, r.name, r.availableCount, r.price)
  }

  /** The catalog fields of every row, in order. */
  function Catalog(rows: seq<Row>): (items: seq<CatalogItem>)
    ensures |items| == |rows|
    ensures forall i :: 0 <= i < |rows| ==> items[i] == ItemOf(rows[i])
  {
    seq(|rows|, i requires 0 <= i < |rows| => ItemOf(rows[i]))
  }

  /** The row invariant: the quantity lies in [0, availableCount] and the total is price times quantity. */
  predicate Consistent(r: Row) {
    0 <= r.orderedQuantity <= r.availableCount && r.total == r.price * r.orderedQuantity as real
  }

  predicate AllConsistent(rows: seq<Row>) {
    forall i :: 0 <= i < |rows| ==> Consistent(rows[i])
  }

  // ---------------------------------------------------------------------------
  // Loading

  /** A freshly fetched item becomes a row with nothing ordered. */
  function FromItem(item: CatalogItem): (r: Row) {
    Row(item.id, item.name, item.availableCount, item.price, 0, 0.0)
  }

  /** The mapping applied to the fetched list. */
  function Load(items: seq<CatalogItem>): (rows: seq<Row>)
    ensures |rows| == |items|
    ensures forall i :: 0 <= i < |items| ==>
      ItemOf(rows[i]) == items[i] && rows[i].orderedQuantity == 0 && rows[i].total == 0.0
  {
    seq(|items|, i requires 0 <= i < |items| => FromItem(items[i]))
  }

  /** Loading keeps every item, in order, and starts every row inside the invariant. */
  lemma LoadRoundTrip(items: seq<CatalogItem>)
    ensures Catalog(Load(items)) == items
    ensures AllConsistent(Load(items))
  {
    var rows := Load(items);
    assert forall i :: 0 <= i < |items| ==> Catalog(rows)[i] == items[i];
  }

  // ---------------------------------------------------------------------------
  // The reducer

  /** The quantity the switch computes for a recognised type. */
  function NextQuantity(r: Row, kind: string): (q: int)
    requires IsKnownKind(kind)
  {
    if kind == Increase then Min(r.availableCount, r.orderedQuantity + 1)
    else Max(0, r.orderedQuantity - 1)
  }

  /** What the reducer makes of one row whose id matched. */
  function AdjustRow(r: Row, kind: string): (r': Row)
    ensures ItemOf(r') == ItemOf(r)
    ensures !IsKnownKind(kind) ==> r' == r
    ensures IsKnownKind(kind) ==> r'.total == r'.price * r'.orderedQuantity as real
    ensures Consistent(r) ==> Consistent(r')
  {
    if IsKnownKind(kind) then
      var q := NextQuantity(r, kind);
      r.(orderedQuantity := q, total := r.price * q as real)
    else
      r
  }

  /** The map callback: matching rows are adjusted, the others returned as they are. */
  function Step(r: Row, kind: string, id: int): (r': Row) {
    if r.id == id then AdjustRow(r, kind) else r
  }

  /** The whole list the reducer hands to `setproductList`. */
  function HandleQuantity(rows: seq<Row>, kind: string, id: int): (rows': seq<Row>)
    ensures |rows'| == |rows|
    ensures Catalog(rows') == Catalog(rows)
    ensures forall i :: 0 <= i < |rows| && rows[i].id != id ==> rows'[i] == rows[i]
    ensures AllConsistent(rows) ==> AllConsistent(rows')
  {
    var rows' := seq(|rows|, i requires 0 <= i < |rows| => Step(rows[i], kind, id));
    assert forall i :: 0 <= i < |rows| ==> Catalog(rows')[i] == Catalog(rows)[i];
    rows'
  }

  /** Every row carrying the id is adjusted, not only the first. */
  lemma AllMatchingRowsAdjusted(rows: seq<Row>, kind: string, id: int, i: int)
    requires 0 <= i < |rows| && rows[i].id == id
    requires IsKnownKind(kind)
    ensures HandleQuantity(rows, kind, id)[i].orderedQuantity == NextQuantity(rows[i], kind)
    ensures HandleQuantity(rows, kind, id)[i].total == rows[i].price * NextQuantity(rows[i], kind) as real
  {
  }

  /** An unrecognised type leaves the list as it was. */
  lemma UnknownKindIsNoOp(rows: seq<Row>, kind: string, id: int)
    requires !IsKnownKind(kind)
    ensures HandleQuantity(rows, kind, id) == rows
  {
    var rows' := HandleQuantity(rows, kind, id);
    assert forall i :: 0 <= i < |rows| ==> rows'[i] == rows[i];
  }

  /** An id that no row carries leaves the list as it was. */
  lemma UnknownIdIsNoOp(rows: seq<Row>, kind: string, id: int)
    requires forall i :: 0 <= i < |rows| ==> rows[i].id != id
    ensures HandleQuantity(rows, kind, id) == rows
  {
    var rows' := HandleQuantity(rows, kind, id);
    assert forall i :: 0 <= i < |rows| ==> rows'[i] == rows[i];
  }

  /** "increase" moves the quantity one step up, never past the stock. */
  lemma IncreaseClamps(r: Row)
    ensures AdjustRow(r, Increase).orderedQuantity <= r.availableCount
    ensures r.orderedQuantity < r.availableCount ==> AdjustRow(r, Increase).orderedQuantity == r.orderedQuantity + 1
    ensures r.orderedQuantity >= r.availableCount ==> AdjustRow(r, Increase).orderedQuantity == r.availableCount
    ensures Consistent(r) ==> AdjustRow(r, Increase).orderedQuantity >= r.orderedQuantity
  {
  }

  /** "decrease" moves the quantity one step down, never below zero. */
  lemma DecreaseClamps(r: Row)
    ensures AdjustRow(r, Decrease).orderedQuantity >= 0
    ensures r.orderedQuantity > 0 ==> AdjustRow(r, Decrease).orderedQuantity == r.orderedQuantity - 1
    ensures r.orderedQuantity <= 0 ==> AdjustRow(r, Decrease).orderedQuantity == 0
    ensures Consistent(r) ==> AdjustRow(r, Decrease).orderedQuantity <= r.orderedQuantity
  {
  }

  /** At the stock ceiling "increase" is a no-op, so repeating it changes nothing. */
  lemma IncreaseAtCeilingIsNoOp(r: Row)
    requires Consistent(r) && r.orderedQuantity == r.availableCount
    ensures AdjustRow(r, Increase) == r
    ensures AdjustRow(AdjustRow(r, Increase), Increase) == r
  {
  }

  /** At zero "decrease" is a no-op, so repeating it changes nothing. */
  lemma DecreaseAtFloorIsNoOp(r: Row)
    requires Consistent(r) && r.orderedQuantity == 0
    ensures AdjustRow(r, Decrease) == r
    ensures AdjustRow(AdjustRow(r, Decrease), Decrease) == r
  {
  }

  /** Below the ceiling, one "increase" adds exactly the price to the row's total. */
  lemma IncreaseAddsPriceToTotal(r: Row)
    requires Consistent(r) && r.orderedQuantity < r.availableCount
    ensures AdjustRow(r, Increase).total == r.total + r.price
  {
    assert AdjustRow(r, Increase).orderedQuantity == r.orderedQuantity + 1;
  }

  /** Above zero, one "decrease" takes exactly the price off the row's total. */
  lemma DecreaseRemovesPriceFromTotal(r: Row)
    requires Consistent(r) && r.orderedQuantity > 0
    ensures AdjustRow(r, Decrease).total == r.total - r.price
  {
    assert AdjustRow(r, Decrease).orderedQuantity == r.orderedQuantity - 1;
  }

  // ---------------------------------------------------------------------------
  // Buttons

  /** The Add button's `disabled` condition; within the invariant it holds exactly at the stock ceiling. */
  predicate AddDisabled(r: Row): (disabled: bool)
    ensures Consistent(r) ==> (disabled <==> r.orderedQuantity == r.availableCount)
  {
    r.orderedQuantity >= r.availableCount
  }

  /** The Remove button's `disabled` condition; within the invariant it holds exactly at zero. */
  predicate RemoveDisabled(r: Row): (disabled: bool)
    ensures Consistent(r) ==> (disabled <==> r.orderedQuantity == 0)
  {
    r.orderedQuantity <= 0
  }

  /** Within the invariant, Add is disabled exactly when "increase" would change nothing. */
  lemma AddDisabledIffIncreaseIsNoOp(r: Row)
    requires Consistent(r)
    ensures AddDisabled(r) <==> AdjustRow(r, Increase) == r
  {
    if !AddDisabled(r) {
      assert AdjustRow(r, Increase).orderedQuantity == r.orderedQuantity + 1;
    }
  }

  /** Within the invariant, Remove is disabled exactly when "decrease" would change nothing. */
  lemma RemoveDisabledIffDecreaseIsNoOp(r: Row)
    requires Consistent(r)
    ensures RemoveDisabled(r) <==> AdjustRow(r, Decrease) == r
  {
    if !RemoveDisabled(r) {
      assert AdjustRow(r, Decrease).orderedQuantity == r.orderedQuantity - 1;
    }
  }

  /** An Add click on an id whose rows all have Add disabled leaves the whole list as it was. */
  lemma IncreaseWithAddDisabledIsNoOp(rows: seq<Row>, id: int)
    requires forall i :: 0 <= i < |rows| && rows[i].id == id ==> Consistent(rows[i]) && AddDisabled(rows[i])
    ensures HandleQuantity(rows, Increase, id) == rows
  {
    var rows' := HandleQuantity(rows, Increase, id);
    forall i | 0 <= i < |rows|
      ensures rows'[i] == rows[i]
    {
      if rows[i].id == id {
        AddDisabledIffIncreaseIsNoOp(rows[i]);
      }
    }
  }

  /** A Remove click on an id whose rows all have Remove disabled leaves the whole list as it was. */
  lemma DecreaseWithRemoveDisabledIsNoOp(rows: seq<Row>, id: int)
    requires forall i :: 0 <= i < |rows| && rows[i].id == id ==> Consistent(rows[i]) && RemoveDisabled(rows[i])
    ensures HandleQuantity(rows, Decrease, id) == rows
  {
    var rows' := HandleQuantity(rows, Decrease, id);
    forall i | 0 <= i < |rows|
      ensures rows'[i] == rows[i]
    {
      if rows[i].id == id {
        RemoveDisabledIffDecreaseIsNoOp(rows[i]);
      }
    }
  }

  // ---------------------------------------------------------------------------
  // Sequences of clicks

  /** The list after the actions have been handled one after another. */
  function Replay(rows: seq<Row>, actions: seq<Action>): (rows': seq<Row>)
    decreases |actions|
  {
    if actions == [] then rows
    else Replay(HandleQuantity(rows, actions[0].kind, actions[0].id), actions[1..])
  }

  /** `n` clicks of the same kind on the same id. */
  function Clicks(kind: string, id: int, n: nat): (actions: seq<Action>)
    ensures |actions| == n
  {
    seq(n, _ => Action(kind, id))
  }

  /** Any run of clicks keeps the length, the catalog fields and the row invariant. */
  lemma {:induction false} ReplayPreservesInvariant(rows: seq<Row>, actions: seq<Action>)
    requires AllConsistent(rows)
    ensures |Replay(rows, actions)| == |rows|
    ensures Catalog(Replay(rows, actions)) == Catalog(rows)
    ensures AllConsistent(Replay(rows, actions))
    decreases |actions|
  {
    if actions != [] {
      ReplayPreservesInvariant(HandleQuantity(rows, actions[0].kind, actions[0].id), actions[1..]);
    }
  }

  /**
   * From a freshly loaded list, whatever the clicks, every row keeps
   * 0 <= orderedQuantity <= availableCount and total == price * orderedQuantity,
   * and the catalog fields are those that were loaded.
   */
  lemma LoadedCartStaysConsistent(items: seq<CatalogItem>, actions: seq<Action>)
    ensures Catalog(Replay(Load(items), actions)) == items
    ensures AllConsistent(Replay(Load(items), actions))
  {
    LoadRoundTrip(items);
    ReplayPreservesInvariant(Load(items), actions);
  }

  /** `n` clicks on Add bring a row from q to min(availableCount, q + n). */
  lemma {:induction false} RepeatedIncrease(rows: seq<Row>, i: int, n: nat)
    requires 0 <= i < |rows| && Consistent(rows[i])
    ensures |Replay(rows, Clicks(Increase, rows[i].id, n))| == |rows|
    ensures Replay(rows, Clicks(Increase, rows[i].id, n))[i].orderedQuantity
         == Min(rows[i].availableCount, rows[i].orderedQuantity + n)
    decreases n
  {
    var id := rows[i].id;
    if n == 0 {
      assert Clicks(Increase, id, 0) == [];
    } else {
      var next := HandleQuantity(rows, Increase, id);
      assert Clicks(Increase, id, n)[1..] == Clicks(Increase, id, n - 1);
      assert next[i] == AdjustRow(rows[i], Increase);
      RepeatedIncrease(next, i, n - 1);
    }
  }

  /** `n` clicks on Remove bring a row from q to max(0, q - n). */
  lemma {:induction false} RepeatedDecrease(rows: seq<Row>, i: int, n: nat)
    requires 0 <= i < |rows| && Consistent(rows[i])
    ensures |Replay(rows, Clicks(Decrease, rows[i].id, n))| == |rows|
    ensures Replay(rows, Clicks(Decrease, rows[i].id, n))[i].orderedQuantity
         == Max(0, rows[i].orderedQuantity - n)
    decreases n
  {
    var id := rows[i].id;
    if n == 0 {
      assert Clicks(Decrease, id, 0) == [];
    } else {
      var next := HandleQuantity(rows, Decrease, id);
      assert Clicks(Decrease, id, n)[1..] == Clicks(Decrease, id, n - 1);
      assert next[i] == AdjustRow(rows[i], Decrease);
      RepeatedDecrease(next, i, n - 1);
    }
  }

  // ---------------------------------------------------------------------------
  // The error log

  /** The ids of the rows, in order. */
  function Ids(rows: seq<Row>): (ids: seq<int>)
    ensures |ids| == |rows|
    ensures forall i :: 0 <= i < |rows| ==> ids[i] == rows[i].id
  {
    seq(|rows|, i requires 0 <= i < |rows| => rows[i].id)
  }

  /** How many rows carry the id: its multiplicity among the row ids. */
  function CountId(rows: seq<Row>, id: int): (n: nat)
    ensures n == multiset(Ids(rows))[id]
  {
    assert rows != [] ==> Ids(rows) == [rows[0].id] + Ids(rows[1..]);

    if rows == [] then 0
    else (if rows[0].id == id then 1 else 0) + CountId(rows[1..], id)
  }

  /** The count is zero exactly when no row carries the id. */
  lemma {:induction false} CountIdZero(rows: seq<Row>, id: int)
    ensures CountId(rows, id) == 0 <==> forall i :: 0 <= i < |rows| ==> rows[i].id != id
  {
    if rows != [] {
      CountIdZero(rows[1..], id);
      assert forall i :: 1 <= i < |rows| ==> rows[i] == rows[1..][i - 1];
    }
  }
}
