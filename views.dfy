/** The two lists the app renders from the collection: the stock check
    and the shopping list. */
module Views {
  import opened Seqs
  import opened Items

  /** The location selector's "all locations" entry. */
  const AllLocations: string := "すべて"

  /** The stock list's filter: off the buy list, and stored at the selected
      location as first or second location, unless every location is selected. */
  function InStockAt(sel: string): Item -> bool
  {
    (it: Item) => !it.toBuy && (sel == AllLocations || it.loc == sel || it.loc2 == sel)
  }

  /** `filteredStockList`: the stock list, flagged items first. Every entry
      is an item of the collection, off the buy list, at the selected location. */
  function StockView(s: seq<Item>, sel: string): (r: seq<Item>)
    ensures |r| <= |s|
    ensures forall x :: x in r ==> x in s && !x.toBuy && (sel == AllLocations || x.loc == sel || x.loc2 == sel)
  {
    SelectMembers(s, InStockAt(sel), true);
    var f := Select(s, InStockAt(sel), true);
    assert forall x :: x in SortByKey(f, IsChecking) ==> x in multiset(f);
    SortByKey(f, IsChecking)
  }

  /** The shopping list: the items on the buy list, unpacked items first.
      Every entry is an item of the collection that is on the buy list. */
  function ShoppingView(s: seq<Item>): (r: seq<Item>)
    ensures |r| <= |s|
    ensures forall x :: x in r ==> x in s && x.toBuy
  {
    SelectMembers(s, IsToBuy, true);
    var f := Select(s, IsToBuy, true);
    assert forall x :: x in SortByKey(f, IsUnpacked) ==> x in multiset(f);
    SortByKey(f, IsUnpacked)
  }

  /** The stock list holds exactly the items off the buy list at the selected
      location, each as often as the collection holds it. */
  lemma StockViewContents(s: seq<Item>, sel: string)
    ensures forall x ::
      multiset(StockView(s, sel))[x] ==
        if !x.toBuy && (sel == AllLocations || x.loc == sel || x.loc2 == sel) then multiset(s)[x] else 0
  {
    var f := Select(s, InStockAt(sel), true);
    forall x {
      SelectCount(s, InStockAt(sel), true, x);
    }
  }

  /** Every flagged item of the stock list precedes every unflagged one. */
  lemma StockViewOrder(s: seq<Item>, sel: string)
    ensures forall i, j :: 0 <= i < j < |StockView(s, sel)| && StockView(s, sel)[j].isChecking ==> StockView(s, sel)[i].isChecking
  {
    SortByKeyOrdered(Select(s, InStockAt(sel), true), IsChecking);
  }

  /** Within the flagged and within the unflagged group the stock list keeps
      the collection's order. */
  lemma StockViewStable(s: seq<Item>, sel: string, b: bool)
    ensures Select(StockView(s, sel), IsChecking, b) == Select(Select(s, InStockAt(sel), true), IsChecking, b)
  {
    SortByKeyStable(Select(s, InStockAt(sel), true), IsChecking, b);
  }

  /** The shopping list holds exactly the items on the buy list, each as
      often as the collection holds it. */
  lemma ShoppingViewContents(s: seq<Item>)
    ensures forall x :: multiset(ShoppingView(s))[x] == if x.toBuy then multiset(s)[x] else 0
  {
    forall x {
      SelectCount(s, IsToBuy, true, x);
    }
  }

  /** Every unpacked item of the shopping list precedes every packed one. */
  lemma ShoppingViewOrder(s: seq<Item>)
    ensures forall i, j :: 0 <= i < j < |ShoppingView(s)| && ShoppingView(s)[i].isPacked ==> ShoppingView(s)[j].isPacked
  {
    SortByKeyOrdered(Select(s, IsToBuy, true), IsUnpacked);
  }

  /** Within the unpacked and within the packed group the shopping list keeps
      the collection's order. */
  lemma ShoppingViewStable(s: seq<Item>, b: bool)
    ensures Select(ShoppingView(s), IsUnpacked, b) == Select(Select(s, IsToBuy, true), IsUnpacked, b)
  {
    SortByKeyStable(Select(s, IsToBuy, true), IsUnpacked, b);
  }

  /** After finishShopping the shopping list is empty and the stock list for
      all locations is the whole collection, in its order, every item flagged. */
  lemma FinishedViews(s: seq<Item>)
    ensures ShoppingView(Finished(s)) == []
    ensures StockView(Finished(s), AllLocations) == Finished(s)
  {
    var f := Finished(s);
    SelectNone(f, IsToBuy, true);
    SelectAll(f, InStockAt(AllLocations), true);
    SortByKeyIsPartition(f, IsChecking);
    SelectAll(f, IsChecking, true);
    SelectNone(f, IsChecking, false);
  }

  /** After confirmToBuyList the stock list holds no flagged item. */
  lemma ConfirmedStockView(s: seq<Item>, sel: string)
    ensures forall i :: 0 <= i < |StockView(Confirmed(s), sel)| ==> !StockView(Confirmed(s), sel)[i].isChecking
  {
    var v := StockView(Confirmed(s), sel);
    StockViewContents(Confirmed(s), sel);
    forall i | 0 <= i < |v|
      ensures !v[i].isChecking
    {
      assert multiset(v)[v[i]] > 0;
      assert v[i] in Confirmed(s);
    }
  }
}
