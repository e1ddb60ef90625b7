/** The app's state and its event handlers. Every write to the document
    store is read as the update of the in-memory collection that the next
    snapshot delivers; a batch is one assignment of the whole collection. */
module Inventory {
  import opened Seqs
  import opened Items
  import opened Budget
  import opened Views
  import opened Taxonomy

  datatype Option<T> = None | Some(value: T)

  /** The `settings/masters` document: the persisted taxonomy lists. */
  datatype Masters = Masters(categories: seq<string>, locations: seq<string>)

  class Store {
    var items: seq<Item>
    var points: int
    var categories: seq<string>
    var locations: seq<string>
    var masters: Option<Masters>
    var form: Form
    /** The id of the item whose edit dialog is open. */
    var editing: Option<string>

    /** The document store gives every item its own id. */
    predicate Valid()
      reads this
    {
      DistinctIds(items)
    }

    /** The state before the first snapshot arrives. */
    constructor ()
      ensures Valid()
      ensures items == [] && points == 0 && masters == None && editing == None
      ensures categories == ["キッチン", "お風呂", "洗面所", "トイレ"]
      ensures locations == Displayed(["パントリー", "廊下収納", "洗面台下"])
      ensures form == Form("", "", "キッチン", "パントリー", NoLocation)
    {
      items := [];
      points := 0;
      categories := ["キッチン", "お風呂", "洗面所", "トイレ"];
      locations := Displayed(["パントリー", "廊下収納", "洗面台下"]);
      masters := None;
      form := Form("", "", "キッチン", "パントリー", NoLocation);
      editing := None;
    }

    /** The points field: an empty entry is 0. */
    method SetPoints(entry: Option<int>)
      modifies this`points
      ensures points == (if entry.Some? then entry.value else 0)
    {
      points := if entry.Some? then entry.value else 0;
    }

    /** The end of a shopping trip: after the dialog is accepted, one batch
        puts every item back to Flagged. */
    method FinishShopping(confirmed: bool)
      requires Valid()
      modifies this`items
      ensures Valid()
      ensures items == if confirmed then Finished(old(items)) else old(items)
      ensures confirmed ==> AllConsistent(items) && TotalSpent(items) == 0 && ShoppingView(items) == []
    {
      if !confirmed {
        return;
      }
      var batch: seq<Item> := [];
      var i := 0;
      while i < |items|
        invariant 0 <= i <= |items|
        invariant |batch| == i
        invariant forall k :: 0 <= k < i ==> batch[k] == Apply(items[k], Reset)
      {
        batch := batch + [Apply(items[i], Reset)];
        i := i + 1;
      }
      FinishedState(items);
      FinishedSpendsNothing(items, points);
      FinishedViews(items);
      items := batch;
    }

    /** The stock check's confirm button: counts the flagged items for the
        dialog and, once it is accepted, moves all of them onto the buy list
        in one batch. */
    method ConfirmToBuyList(confirmed: bool) returns (count: nat)
      requires Valid()
      modifies this`items
      ensures Valid()
      ensures count == |Select(old(items), IsChecking, true)|
      ensures items == if confirmed then Confirmed(old(items)) else old(items)
      ensures confirmed && AllConsistent(old(items)) ==>
                AllConsistent(items) &&
                TotalSpent(items) == old(TotalSpent(items)) + Sum(Select(old(items), IsChecking, true))
    {
      count := |Select(items, IsChecking, true)|;
      if !confirmed {
        return;
      }
      var batch: seq<Item> := [];
      var i := 0;
      while i < |items|
        invariant 0 <= i <= |items|
        invariant |batch| == i
        invariant forall k :: 0 <= k < i ==>
                    batch[k] == if items[k].isChecking then Apply(items[k], Commit) else items[k]
      {
        var it := items[i];
        batch := batch + [if it.isChecking then Apply(it, Commit) else it];
        i := i + 1;
      }
      ConfirmedState(items);
      if AllConsistent(items) {
        ConfirmedPhases(items);
        ConfirmedSpent(items);
      }
      items := batch;
    }

    /** The add screen's register button: a form with an empty name is
        ignored; otherwise the item is created Flagged with price 0 and
        quantity 1, and the form keeps only its category and locations. */
    method AddItem(newId: string)
      requires Valid() && !HasId(items, newId)
      modifies this`items, this`form
      ensures Valid()
      ensures old(form).name == "" ==> items == old(items) && form == old(form)
      ensures old(form).name != "" ==>
                items == old(items) + [NewItem(newId, old(form))] &&
                form == old(form).(name := "", realName := "")
      ensures AllConsistent(old(items)) ==> AllConsistent(items)
      ensures TotalSpent(items) == old(TotalSpent(items))
    {
      if form.name == "" {
        return;
      }
      var it := NewItem(newId, form);
      TotalSpentAppend(items, [it]);
      TotalSpentIsSumOfCommitted([it]);
      items := items + [it];
      form := form.(name := "", realName := "");
    }

    /** The stock list's settings button: opens the edit dialog on an item
        and loads its fields into the form, a missing second location read
        as "no location". */
    method BeginEdit(id: string)
      requires Valid() && HasId(items, id)
      modifies this`form, this`editing
      ensures editing == Some(id)
      ensures form == Describe(Lookup(items, id)).(loc2 := if Lookup(items, id).loc2 == "" then NoLocation else Lookup(items, id).loc2)
    {
      var it := Lookup(items, id);
      editing := Some(id);
      form := Form(it.name, it.realName, it.cat, it.loc, if it.loc2 == "" then NoLocation else it.loc2);
    }

    /** The edit dialog's save button: writes the form's fields to the item
        being edited and closes the dialog; without an open dialog it does
        nothing. The form is left as it is. */
    method UpdateItem()
      requires Valid()
      modifies this`items, this`editing
      ensures Valid() && editing == None
      ensures old(editing).None? ==> items == old(items)
      ensures old(editing).Some? ==> items == UpdateDoc(old(items), old(editing).value, Relabel(form))
      ensures forall i :: 0 <= i < |items| ==>
                items[i].price == old(items)[i].price && items[i].quantity == old(items)[i].quantity &&
                PhaseOf(items[i]) == PhaseOf(old(items)[i])
      ensures AllConsistent(old(items)) ==> AllConsistent(items)
      ensures TotalSpent(items) == old(TotalSpent(items))
    {
      if editing.None? {
        return;
      }
      var id := editing.value;
      RelabelEdit(items, id, form);
      items := UpdateDoc(items, id, Relabel(form));
      editing := None;
    }

    /** The edit dialog's delete button: after the dialog is accepted the
        item is removed and the dialog closed; otherwise nothing changes. */
    method DeleteItem(confirmed: bool)
      requires Valid() && editing.Some?
      modifies this`items, this`editing
      ensures Valid()
      ensures !confirmed ==> items == old(items) && editing == old(editing)
      ensures confirmed ==> items == Deleted(old(items), old(editing).value) && editing == None
      ensures confirmed ==> !HasId(items, old(editing).value)
      ensures confirmed && HasId(old(items), old(editing).value) ==>
                TotalSpent(items) == old(TotalSpent(items)) - Committed(old(Lookup(items, editing.value)))
      ensures AllConsistent(old(items)) ==> AllConsistent(items)
    {
      if !confirmed {
        return;
      }
      DeletedKeepsInvariants(items, editing.value);
      if HasId(items, editing.value) {
        ghost var k :| 0 <= k < |items| && items[k].id == editing.value;
        LookupAt(items, k);
        TotalSpentDeleted(items, k);
      }
      items := Deleted(items, editing.value);
      editing := None;
    }

    /** The shopping list's check button on a listed or collected item. */
    method TogglePacked(id: string)
      requires Valid()
      requires exists k :: 0 <= k < |items| && items[k].id == id && items[k].toBuy
      modifies this`items
      ensures Valid()
      ensures items == UpdateDoc(old(items), id, FlipPacked)
      ensures UpdateDoc(items, id, FlipPacked) == old(items)
      ensures AllConsistent(old(items)) ==> AllConsistent(items)
      ensures TotalSpent(items) == old(TotalSpent(items))
    {
      ghost var k :| 0 <= k < |items| && items[k].id == id && items[k].toBuy;
      UpdateDocKeepsInvariants(items, id, FlipPacked);
      TotalSpentUpdateDoc(items, k, FlipPacked);
      UpdateDocFlipTwice(items, id, FlipPacked);
      items := UpdateDoc(items, id, FlipPacked);
    }

    /** The stock list's buy / in-stock button on an item off the buy list. */
    method ToggleChecking(id: string)
      requires Valid()
      requires exists k :: 0 <= k < |items| && items[k].id == id && !items[k].toBuy
      modifies this`items
      ensures Valid()
      ensures items == UpdateDoc(old(items), id, FlipChecking)
      ensures UpdateDoc(items, id, FlipChecking) == old(items)
      ensures AllConsistent(old(items)) ==> AllConsistent(items)
      ensures TotalSpent(items) == old(TotalSpent(items))
    {
      ghost var k :| 0 <= k < |items| && items[k].id == id && !items[k].toBuy;
      UpdateDocKeepsInvariants(items, id, FlipChecking);
      TotalSpentUpdateDoc(items, k, FlipChecking);
      UpdateDocFlipTwice(items, id, FlipChecking);
      items := UpdateDoc(items, id, FlipChecking);
    }

    /** The quantity field of an unpacked item on the shopping list. */
    method UpdateQuantity(id: string, quantity: int)
      requires Valid()
      requires exists k :: 0 <= k < |items| && items[k].id == id && items[k].toBuy && !items[k].isPacked
      modifies this`items
      ensures Valid()
      ensures items == UpdateDoc(old(items), id, SetQuantity(quantity))
      ensures AllConsistent(old(items)) ==> AllConsistent(items)
      ensures forall k :: 0 <= k < |old(items)| && old(items)[k].id == id ==>
                TotalSpent(items) == old(TotalSpent(items)) + old(items)[k].price * (quantity - old(items)[k].quantity)
    {
      QuantityEdit(items, id, quantity);
      items := UpdateDoc(items, id, SetQuantity(quantity));
    }

    /** The unit price field of an unpacked item on the shopping list. */
    method UpdatePrice(id: string, price: int)
      requires Valid()
      requires exists k :: 0 <= k < |items| && items[k].id == id && items[k].toBuy && !items[k].isPacked
      modifies this`items
      ensures Valid()
      ensures items == UpdateDoc(old(items), id, SetPrice(price))
      ensures AllConsistent(old(items)) ==> AllConsistent(items)
      ensures forall k :: 0 <= k < |old(items)| && old(items)[k].id == id ==>
                TotalSpent(items) == old(TotalSpent(items)) + (price - old(items)[k].price) * old(items)[k].quantity
    {
      PriceEdit(items, id, price);
      items := UpdateDoc(items, id, SetPrice(price));
    }

    /** The category add button: a non-empty name is appended and both lists
        are persisted, the location list without its "no location" entry. */
    method AddCategory(name: string)
      modifies this`categories, this`masters
      ensures name == "" ==> categories == old(categories) && masters == old(masters)
      ensures name != "" ==>
                categories == old(categories) + [name] &&
                masters == Some(Masters(categories, UserLocations(locations)))
    {
      if name != "" {
        categories := categories + [name];
        masters := Some(Masters(categories, UserLocations(locations)));
      }
    }

    /** A category's delete button: after the dialog every occurrence of the
        category is removed and both lists are persisted. Items that name
        the category keep it. */
    method RemoveCategory(c: string, confirmed: bool)
      modifies this`categories, this`masters
      ensures !confirmed ==> categories == old(categories) && masters == old(masters)
      ensures confirmed ==>
                categories == Without(old(categories), c) && c !in categories &&
                masters == Some(Masters(categories, UserLocations(locations)))
    {
      if confirmed {
        categories := Without(categories, c);
        masters := Some(Masters(categories, UserLocations(locations)));
        assert multiset(categories)[c] == 0;
      }
    }

    /** The location add button: the user entries, then the new name, then
        the "no location" entry; the list without that last entry is persisted. */
    method AddLocation(name: string)
      modifies this`locations, this`masters
      ensures name == "" ==> locations == old(locations) && masters == old(masters)
      ensures name != "" ==>
                masters == Some(Masters(categories, AddedLocations(old(locations), name))) &&
                locations == Displayed(masters.value.locations)
      ensures name != "" && name != NoLocation ==>
                multiset(locations)[NoLocation] == 1 && NoLocation !in masters.value.locations
    {
      if name != "" {
        var n := UserLocations(locations) + [name];
        locations := n + [NoLocation];
        masters := Some(Masters(categories, n));
        AddLocationShape(old(locations), name);
        assert multiset(n)[NoLocation] == 0 ==> NoLocation !in n;
      }
    }

    /** A location's delete button: after the dialog every occurrence of the
        location is removed, the list ends with one "no location" entry, and
        the list without it is persisted. Items stored there keep it. */
    method RemoveLocation(l: string, confirmed: bool)
      modifies this`locations, this`masters
      ensures !confirmed ==> locations == old(locations) && masters == old(masters)
      ensures confirmed ==>
                masters == Some(Masters(categories, RemovedLocations(old(locations), l))) &&
                locations == Displayed(masters.value.locations) &&
                multiset(locations)[NoLocation] == 1 &&
                NoLocation !in masters.value.locations && l !in masters.value.locations
    {
      if confirmed {
        var n := RemovedLocations(locations, l);
        RemoveLocationShape(locations, l);
        locations := n + [NoLocation];
        masters := Some(Masters(categories, n));
      }
    }

    /** A snapshot of `settings/masters`: each list present in the document
        replaces the held one, the location list with "no location" appended. */
    method ReceiveMasters(doc: Option<Masters>, hasCategories: bool, hasLocations: bool)
      modifies this`categories, this`locations
      ensures categories == if doc.Some? && hasCategories then doc.value.categories else old(categories)
      ensures locations == if doc.Some? && hasLocations then Displayed(doc.value.locations) else old(locations)
    {
      if doc.Some? {
        if hasCategories {
          categories := doc.value.categories;
        }
        if hasLocations {
          locations := Displayed(doc.value.locations);
        }
      }
    }
  }

  /** What a save of the edit form does to the item list, the flag
      invariants and the total. */
  lemma RelabelEdit(s: seq<Item>, id: string, f: Form)
    requires DistinctIds(s)
    ensures DistinctIds(UpdateDoc(s, id, Relabel(f)))
    ensures forall i :: 0 <= i < |UpdateDoc(s, id, Relabel(f))| ==>
              UpdateDoc(s, id, Relabel(f))[i].price == s[i].price &&
              UpdateDoc(s, id, Relabel(f))[i].quantity == s[i].quantity &&
              PhaseOf(UpdateDoc(s, id, Relabel(f))[i]) == PhaseOf(s[i])
    ensures AllConsistent(s) ==> AllConsistent(UpdateDoc(s, id, Relabel(f)))
    ensures TotalSpent(UpdateDoc(s, id, Relabel(f))) == TotalSpent(s)
  {
    UpdateDocKeepsInvariants(s, id, Relabel(f));
    RelabelKeeps(s, id, f);
    if HasId(s, id) {
      var k :| 0 <= k < |s| && s[k].id == id;
      TotalSpentUpdateDoc(s, k, Relabel(f));
    } else {
      UpdateDocMissing(s, id, Relabel(f));
    }
  }

  /** What an edit of the quantity field does to the item list, the flag
      invariants and the total. */
  lemma QuantityEdit(s: seq<Item>, id: string, quantity: int)
    requires DistinctIds(s) && exists k :: 0 <= k < |s| && s[k].id == id && s[k].toBuy
    ensures DistinctIds(UpdateDoc(s, id, SetQuantity(quantity)))
    ensures AllConsistent(s) ==> AllConsistent(UpdateDoc(s, id, SetQuantity(quantity)))
    ensures forall k :: 0 <= k < |s| && s[k].id == id ==>
              TotalSpent(UpdateDoc(s, id, SetQuantity(quantity))) == TotalSpent(s) + s[k].price * (quantity - s[k].quantity)
  {
    UpdateDocKeepsInvariants(s, id, SetQuantity(quantity));
    TotalSpentSetQuantity(s, id, quantity);
  }

  /** What an edit of the unit price field does to the item list, the flag
      invariants and the total. */
  lemma PriceEdit(s: seq<Item>, id: string, price: int)
    requires DistinctIds(s) && exists k :: 0 <= k < |s| && s[k].id == id && s[k].toBuy
    ensures DistinctIds(UpdateDoc(s, id, SetPrice(price)))
    ensures AllConsistent(s) ==> AllConsistent(UpdateDoc(s, id, SetPrice(price)))
    ensures forall k :: 0 <= k < |s| && s[k].id == id ==>
              TotalSpent(UpdateDoc(s, id, SetPrice(price))) == TotalSpent(s) + (price - s[k].price) * s[k].quantity
  {
    UpdateDocKeepsInvariants(s, id, SetPrice(price));
    TotalSpentSetPrice(s, id, price);
  }
}
