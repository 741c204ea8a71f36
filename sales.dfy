/**
 * The sale form's line items and what a sale does to the stock counters
 * (app.py:671-728), as functions on values. `Ledger.Database.RecordSale`
 * performs the writes and is proved against these.
 */
module Sales {
  import opened Schema

  /** One quantity box of the form: an active flavor row and the number typed for it. */
  datatype Entry = Entry(flavorId: nat, quantity: int)

  /** The form shows one box per flavor row, so no flavor appears twice. */
  ghost predicate DistinctFlavors(entries: seq<Entry>)
  {
    forall j, k :: 0 <= j < k < |entries| ==> entries[j].flavorId != entries[k].flavorId
  }

  /**
   * The `items` list: the entries whose quantity is positive, in form order
   * (app.py:686-687).
   */
  function Selected(entries: seq<Entry>): (items: seq<Entry>)
    ensures |items| <= |entries|
    ensures forall k :: 0 <= k < |items| ==> items[k].quantity > 0
  {
    if entries == [] then []
    else (if entries[0].quantity > 0 then [entries[0]] else []) + Selected(entries[1..])
  }

  /** The selected items are exactly the entries with a positive quantity. */
  lemma {:induction false} SelectedMembers(entries: seq<Entry>)
    ensures forall e :: e in Selected(entries) <==> e in entries && e.quantity > 0
  {
    if entries != [] {
      SelectedMembers(entries[1..]);
      assert entries == [entries[0]] + entries[1..];
    }
  }

  /**
   * Selecting distributes over concatenation: the items of a longer form are
   * the items of its first part followed by those of the rest, so selection
   * keeps form order.
   */
  lemma {:induction false} SelectedAppend(a: seq<Entry>, b: seq<Entry>)
    ensures Selected(a + b) == Selected(a) + Selected(b)
  {
    if a == [] {
      assert a + b == b;
    } else {
      assert (a + b)[1..] == a[1..] + b;
      SelectedAppend(a[1..], b);
    }
  }

  /** Dropping entries cannot make a flavor appear twice. */
  lemma {:induction false} SelectedDistinct(entries: seq<Entry>)
    requires DistinctFlavors(entries)
    ensures DistinctFlavors(Selected(entries))
  {
    if entries != [] {
      var rest := entries[1..];
      assert DistinctFlavors(rest);
      SelectedDistinct(rest);
      SelectedMembers(rest);
      var tail := Selected(rest);
      forall k | 0 <= k < |tail|
        ensures tail[k].flavorId != entries[0].flavorId
      {
        var j :| 0 <= j < |rest| && rest[j] == tail[k];
        assert entries[j + 1] == tail[k];
      }
    }
  }

  /** The selected items keep every bound the form put on the entries, and their quantities are positive. */
  lemma SelectedWithin(entries: seq<Entry>, stock: map<nat, int>, flavorCount: nat)
    requires forall k :: 0 <= k < |entries| ==>
      entries[k].flavorId < flavorCount && entries[k].flavorId in stock && entries[k].quantity <= stock[entries[k].flavorId]
    ensures forall k :: 0 <= k < |Selected(entries)| ==>
      && Selected(entries)[k].flavorId < flavorCount && Selected(entries)[k].flavorId in stock
      && 0 < Selected(entries)[k].quantity <= stock[Selected(entries)[k].flavorId]
  {
    var items := Selected(entries);
    SelectedMembers(entries);
    forall k | 0 <= k < |items|
      ensures items[k].flavorId < flavorCount && items[k].flavorId in stock
      ensures 0 < items[k].quantity <= stock[items[k].flavorId]
    {
      var j :| 0 <= j < |entries| && entries[j] == items[k];
    }
  }

  /** The `sale_items` rows a sale with id `saleId` inserts, one per item, in order. */
  function Lines(saleId: nat, items: seq<Entry>): (rows: seq<SaleItem>)
    ensures |rows| == |items|
    ensures forall k :: 0 <= k < |items| ==> rows[k] == SaleItem(saleId, items[k].flavorId, items[k].quantity)
  {
    if items == [] then []
    else Lines(saleId, items[..|items| - 1]) + [SaleItem(saleId, items[|items| - 1].flavorId, items[|items| - 1].quantity)]
  }

  /** Total quantity the items take from flavor `flavorId`. */
  function Quantity(items: seq<Entry>, flavorId: nat): int
  {
    if items == [] then 0
    else
      var last := items[|items| - 1];
      Quantity(items[..|items| - 1], flavorId) + (if last.flavorId == flavorId then last.quantity else 0)
  }

  /**
   * When each flavor appears at most once, a flavor's total is the quantity
   * of its own item, and zero when it has none.
   */
  lemma {:induction false} QuantityOfDistinct(items: seq<Entry>, flavorId: nat)
    requires DistinctFlavors(items)
    ensures forall k :: 0 <= k < |items| && items[k].flavorId == flavorId ==> Quantity(items, flavorId) == items[k].quantity
    ensures (forall k :: 0 <= k < |items| ==> items[k].flavorId != flavorId) ==> Quantity(items, flavorId) == 0
  {
    if items != [] {
      var init := items[..|items| - 1];
      assert DistinctFlavors(init);
      QuantityOfDistinct(init, flavorId);
      if items[|items| - 1].flavorId == flavorId {
        assert forall k :: 0 <= k < |init| ==> init[k].flavorId != flavorId;
      }
    }
  }

  /**
   * The stock counters after the sale's `UPDATE inventory SET stock = stock - q
   * WHERE flavor_id = f` statements, run in item order; an update naming a
   * flavor without an inventory row changes nothing.
   */
  function Deducted(stock: map<nat, int>, items: seq<Entry>): (after: map<nat, int>)
    ensures after.Keys == stock.Keys
  {
    if items == [] then stock
    else
      var before := Deducted(stock, items[..|items| - 1]);
      var last := items[|items| - 1];
      if last.flavorId in before then before[last.flavorId := before[last.flavorId] - last.quantity]
      else before
  }

  /** Each counter loses exactly the total quantity the items take from it. */
  lemma {:induction false} DeductedQuantity(stock: map<nat, int>, items: seq<Entry>)
    ensures forall f :: f in stock ==> Deducted(stock, items)[f] == stock[f] - Quantity(items, f)
  {
    if items != [] {
      DeductedQuantity(stock, items[..|items| - 1]);
    }
  }

  /**
   * The stock-never-negative argument: if no flavor appears twice and every
   * quantity is between 1 and the stock read in the same state, every counter
   * stays non-negative, the sold flavors lose exactly their quantity, and
   * every other counter is unchanged.
   */
  lemma DeductedBounds(stock: map<nat, int>, items: seq<Entry>)
    requires DistinctFlavors(items)
    requires forall k :: 0 <= k < |items| ==> items[k].flavorId in stock && 0 < items[k].quantity <= stock[items[k].flavorId]
    requires forall f :: f in stock ==> stock[f] >= 0
    ensures forall f :: f in stock ==> 0 <= Deducted(stock, items)[f] <= stock[f]
    ensures forall k :: 0 <= k < |items| ==>
      Deducted(stock, items)[items[k].flavorId] == stock[items[k].flavorId] - items[k].quantity
    ensures forall f :: f in stock && (forall k :: 0 <= k < |items| ==> items[k].flavorId != f) ==>
      Deducted(stock, items)[f] == stock[f]
  {
    DeductedQuantity(stock, items);
    forall f | f in stock
      ensures 0 <= Deducted(stock, items)[f] <= stock[f]
    {
      QuantityOfDistinct(items, f);
    }
    forall k | 0 <= k < |items|
      ensures Deducted(stock, items)[items[k].flavorId] == stock[items[k].flavorId] - items[k].quantity
    {
      QuantityOfDistinct(items, items[k].flavorId);
    }
  }
}
