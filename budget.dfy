/** The budget banner: the budget derived from the points balance, the total
    committed by the items on the buy list, and what remains. */
module Budget {
  import opened Seqs
  import opened Items

  /** `Math.floor(points * 1.5)` on an integer balance. */
  function BudgetOf(points: int): (b: int)
    ensures 2 * b <= 3 * points < 2 * b + 2
  {
    (3 * points) / 2
  }

  /** What one item costs: its unit price times its quantity. */
  function Cost(it: Item): int
  {
    it.price * it.quantity
  }

  /** The reduce step: price times quantity summed over `s`. */
  function Sum(s: seq<Item>): int
  {
    if s == [] then 0 else Cost(s[0]) + Sum(s[1..])
  }

  /** No item is on the buy list. */
  predicate NoneListed(s: seq<Item>)
  {
    forall i :: 0 <= i < |s| ==> !s[i].toBuy
  }

  /** No price or quantity is negative. */
  predicate NonNegativeAmounts(s: seq<Item>)
  {
    forall i :: 0 <= i < |s| ==> s[i].price >= 0 && s[i].quantity >= 0
  }

  /** `totalSpent`: the items on the buy list, summed; 0 when nothing is on
      the buy list. */
  function TotalSpent(s: seq<Item>): (t: int)
    ensures NoneListed(s) ==> t == 0
  {
    assert NoneListed(s) ==> Select(s, IsToBuy, true) == [] by {
      if NoneListed(s) {
        SelectNone(s, IsToBuy, true);
      }
    }
    Sum(Select(s, IsToBuy, true))
  }

  /** `remaining`; it is not clamped and may be negative. With nothing on the
      buy list it is the whole budget, and it never exceeds the budget when
      no price or quantity is negative. */
  function Remaining(points: int, s: seq<Item>): (r: int)
    ensures NoneListed(s) ==> r == BudgetOf(points)
    ensures NonNegativeAmounts(s) ==> r <= BudgetOf(points)
  {
    assert NonNegativeAmounts(s) ==> TotalSpent(s) >= 0 by {
      if NonNegativeAmounts(s) {
        TotalSpentNonNegative(s);
      }
    }
    BudgetOf(points) - TotalSpent(s)
  }

  /** What one item contributes to the total. */
  function Committed(it: Item): int
  {
    if it.toBuy then Cost(it) else 0
  }

  lemma {:induction false} SumAppend(a: seq<Item>, c: seq<Item>)
    ensures Sum(a + c) == Sum(a) + Sum(c)
  {
    if a == [] {
      assert a + c == c;
    } else {
      assert (a + c)[1..] == a[1..] + c;
      SumAppend(a[1..], c);
    }
  }

  lemma TotalSpentAppend(a: seq<Item>, c: seq<Item>)
    ensures TotalSpent(a + c) == TotalSpent(a) + TotalSpent(c)
  {
    SelectAppend(a, c, IsToBuy, true);
    SumAppend(Select(a, IsToBuy, true), Select(c, IsToBuy, true));
  }

  /** The total is the sum of every item's contribution, where an item off
      the buy list contributes nothing. */
  lemma {:induction false} TotalSpentIsSumOfCommitted(s: seq<Item>)
    ensures s == [] ==> TotalSpent(s) == 0
    ensures s != [] ==> TotalSpent(s) == Committed(s[0]) + TotalSpent(s[1..])
  {
    if s != [] {
      assert s == [s[0]] + s[1..];
      TotalSpentAppend([s[0]], s[1..]);
    }
  }

  /** With non-negative prices and quantities the total is never negative. */
  lemma {:induction false} TotalSpentNonNegative(s: seq<Item>)
    requires NonNegativeAmounts(s)
    ensures TotalSpent(s) >= 0
  {
    if s != [] {
      TotalSpentIsSumOfCommitted(s);
      TotalSpentNonNegative(s[1..]);
    }
  }

  /** Replacing one item changes the total by the difference of the two
      items' contributions. */
  lemma TotalSpentReplace(s: seq<Item>, k: nat, it: Item)
    requires k < |s|
    ensures TotalSpent(s[k := it]) == TotalSpent(s) - Committed(s[k]) + Committed(it)
  {
    var pre, post := s[..k], s[k + 1..];
    assert s == pre + [s[k]] + post;
    assert s[k := it] == pre + [it] + post;
    TotalSpentAppend(pre + [s[k]], post);
    TotalSpentAppend(pre, [s[k]]);
    TotalSpentAppend(pre + [it], post);
    TotalSpentAppend(pre, [it]);
    TotalSpentIsSumOfCommitted([s[k]]);
    TotalSpentIsSumOfCommitted([it]);
  }

  /** A write to one document of a collection with unique ids changes the
      total by that document's change of contribution; flag flips that keep
      it on or off the buy list, and relabelling, change nothing. */
  lemma TotalSpentUpdateDoc(s: seq<Item>, k: nat, p: Patch)
    requires DistinctIds(s) && k < |s|
    ensures TotalSpent(UpdateDoc(s, s[k].id, p)) == TotalSpent(s) - Committed(s[k]) + Committed(Apply(s[k], p))
    ensures (p.FlipPacked? || p.FlipChecking? || p.Relabel?) ==> TotalSpent(UpdateDoc(s, s[k].id, p)) == TotalSpent(s)
  {
    UpdateDocAt(s, k, p);
    TotalSpentReplace(s, k, Apply(s[k], p));
  }

  lemma Distribute(a: int, b: int, c: int)
    ensures a * b - a * c == a * (b - c) && b * a - c * a == (b - c) * a
  {
  }

  /** Changing the quantity of a listed item changes the total by its unit
      price times the change. */
  lemma TotalSpentSetQuantity(s: seq<Item>, id: string, quantity: int)
    requires DistinctIds(s) && exists k :: 0 <= k < |s| && s[k].id == id && s[k].toBuy
    ensures forall k :: 0 <= k < |s| && s[k].id == id ==>
              TotalSpent(UpdateDoc(s, id, SetQuantity(quantity))) == TotalSpent(s) + s[k].price * (quantity - s[k].quantity)
  {
    var k :| 0 <= k < |s| && s[k].id == id && s[k].toBuy;
    TotalSpentUpdateDoc(s, k, SetQuantity(quantity));
    Distribute(s[k].price, quantity, s[k].quantity);
  }

  /** Changing the unit price of a listed item changes the total by the
      change times its quantity. */
  lemma TotalSpentSetPrice(s: seq<Item>, id: string, price: int)
    requires DistinctIds(s) && exists k :: 0 <= k < |s| && s[k].id == id && s[k].toBuy
    ensures forall k :: 0 <= k < |s| && s[k].id == id ==>
              TotalSpent(UpdateDoc(s, id, SetPrice(price))) == TotalSpent(s) + (price - s[k].price) * s[k].quantity
  {
    var k :| 0 <= k < |s| && s[k].id == id && s[k].toBuy;
    TotalSpentUpdateDoc(s, k, SetPrice(price));
    Distribute(s[k].quantity, price, s[k].price);
  }

  /** Deleting a document removes its contribution from the total. */
  lemma TotalSpentDeleted(s: seq<Item>, k: nat)
    requires DistinctIds(s) && k < |s|
    ensures TotalSpent(Deleted(s, s[k].id)) == TotalSpent(s) - Committed(s[k])
  {
    var pre, post := s[..k], s[k + 1..];
    DeletedAt(s, k);
    assert s == pre + [s[k]] + post;
    TotalSpentAppend(pre + [s[k]], post);
    TotalSpentAppend(pre, [s[k]]);
    TotalSpentAppend(pre, post);
    TotalSpentIsSumOfCommitted([s[k]]);
  }

  /** After finishShopping nothing is committed: the banner shows the whole budget. */
  lemma FinishedSpendsNothing(s: seq<Item>, points: int)
    ensures TotalSpent(Finished(s)) == 0
    ensures Remaining(points, Finished(s)) == BudgetOf(points)
  {
    SelectNone(Finished(s), IsToBuy, true);
  }

  /** Confirming adds the flagged items' totals to the committed total. */
  lemma {:induction false} ConfirmedSpent(s: seq<Item>)
    requires AllConsistent(s)
    ensures TotalSpent(Confirmed(s)) == TotalSpent(s) + Sum(Select(s, IsChecking, true))
  {
    if s != [] {
      var c := Confirmed(s);
      assert c[1..] == Confirmed(s[1..]);
      ConfirmedSpent(s[1..]);
      TotalSpentIsSumOfCommitted(s);
      TotalSpentIsSumOfCommitted(c);
    }
  }

  /** A budget of 1000 points is 1500; one listed item of 300 times 2 leaves 900. */
  lemma ExampleWithinBudget()
    ensures BudgetOf(1000) == 1500
    ensures Remaining(1000, [Item("a", "a", "", "", "", NoLocation, 300, 2, true, false, false)]) == 900
  {
    var s := [Item("a", "a", "", "", "", NoLocation, 300, 2, true, false, false)];
    TotalSpentIsSumOfCommitted(s);
  }

  /** 100 points give a budget of 150; one listed item of 200 leaves -50,
      which is shown as it is. */
  lemma ExampleOverBudget()
    ensures Remaining(100, [Item("a", "a", "", "", "", NoLocation, 200, 1, true, false, false)]) == -50
  {
    var s := [Item("a", "a", "", "", "", NoLocation, 200, 1, true, false, false)];
    TotalSpentIsSumOfCommitted(s);
  }

  /** Odd balances round down: 1 point is a budget of 1, -1 point of -2. */
  lemma ExampleBudgetFloor()
    ensures BudgetOf(1) == 1 && BudgetOf(3) == 4 && BudgetOf(-1) == -2
  {
  }
}
