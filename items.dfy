/** One inventory document, the partial writes the app issues against it,
    and the phase machine that its three flags encode. */
module Items {
  import opened Seqs

  /** The add/edit form: the descriptive fields of an item. */
  datatype Form = Form(name: string, realName: string, cat: string, loc: string, loc2: string)

  /** An inventory document as the snapshot delivers it. Prices and
      quantities are integers. */
  datatype Item = Item(
    id: string,
    name: string, realName: string, cat: string, loc: string, loc2: string,
    price: int, quantity: int,
    toBuy: bool, isPacked: bool, isChecking: bool)

  /** The reserved "no location" entry of the location list. */
  const NoLocation: string := "なし"

  function Describe(it: Item): Form
  {
    Form(it.name, it.realName, it.cat, it.loc, it.loc2)
  }

  predicate IsToBuy(it: Item) { it.toBuy }
  predicate IsChecking(it: Item) { it.isChecking }
  predicate IsUnpacked(it: Item) { !it.isPacked }

  /** The flag combinations the app means to produce: never on the buy list
      and flagged at once, and packed only while on the buy list. These are
      exactly the combinations that name one of the four phases. */
  predicate Consistent(it: Item): (ok: bool)
    ensures ok <==> PhaseOf(it) != Undefined
  {
    !(it.toBuy && it.isChecking) && (!it.toBuy ==> !it.isPacked)
  }

  predicate AllConsistent(s: seq<Item>)
  {
    forall i :: 0 <= i < |s| ==> Consistent(s[i])
  }

  /** Document ids are unique within the collection. */
  predicate DistinctIds(s: seq<Item>)
  {
    forall i, j :: 0 <= i < j < |s| ==> s[i].id != s[j].id
  }

  predicate HasId(s: seq<Item>, id: string)
  {
    exists i :: 0 <= i < |s| && s[i].id == id
  }

  /** The four phases an item goes through; `Undefined` names every other
      flag combination. */
  datatype Phase = Stocked | Flagged | Listed | Collected | Undefined

  function PhaseOf(it: Item): Phase
  {
    if !it.toBuy && !it.isPacked then (if it.isChecking then Flagged else Stocked)
    else if it.toBuy && !it.isChecking then (if it.isPacked then Collected else Listed)
    else Undefined
  }

  /** The document that addItem writes: the form's fields, price 0,
      quantity 1, off the buy list and flagged for the next stock check. */
  function NewItem(id: string, f: Form): (it: Item)
    ensures it.id == id && Describe(it) == f
    ensures PhaseOf(it) == Flagged && it.price == 0 && it.quantity == 1
  {
    Item(id, f.name, f.realName, f.cat, f.loc, f.loc2, 0, 1, false, false, true)
  }

  /** The partial documents the app passes to `updateDoc` and `batch.update`. */
  datatype Patch =
    | Reset                       // finishShopping: toBuy false, isPacked false, isChecking true
    | Commit                      // confirmToBuyList: toBuy true, isChecking false
    | FlipPacked                  // the shopping list's check button
    | FlipChecking                // the stock list's buy / in-stock button
    | SetQuantity(quantity: int)
    | SetPrice(price: int)
    | Relabel(form: Form)         // updateItem: the whole form

  /** The document after a partial write: the fields the patch names take
      its values (a flip negates its own flag), every other field keeps its
      old value. */
  function Apply(it: Item, p: Patch): (r: Item)
    ensures r.id == it.id
    ensures Describe(r) == (if p.Relabel? then p.form else Describe(it))
    ensures !p.SetPrice? ==> r.price == it.price
    ensures !p.SetQuantity? ==> r.quantity == it.quantity
    ensures (p.SetQuantity? || p.SetPrice? || p.Relabel?) ==>
              r.toBuy == it.toBuy && r.isPacked == it.isPacked && r.isChecking == it.isChecking
    ensures p.SetQuantity? ==> r.quantity == p.quantity
    ensures p.SetPrice? ==> r.price == p.price
    ensures p.FlipPacked? ==> r.isPacked == !it.isPacked && r.toBuy == it.toBuy && r.isChecking == it.isChecking
    ensures p.FlipChecking? ==> r.isChecking == !it.isChecking && r.toBuy == it.toBuy && r.isPacked == it.isPacked
    ensures p.Reset? ==> !r.toBuy && !r.isPacked && r.isChecking
    ensures p.Commit? ==> r.toBuy && r.isPacked == it.isPacked && !r.isChecking
  {
    match p
    case Reset => it.(toBuy := false, isPacked := false, isChecking := true)
    case Commit => it.(toBuy := true, isChecking := false)
    case FlipPacked => it.(isPacked := !it.isPacked)
    case FlipChecking => it.(isChecking := !it.isChecking)
    case SetQuantity(q) => it.(quantity := q)
    case SetPrice(v) => it.(price := v)
    case Relabel(f) => it.(name := f.name, realName := f.realName, cat := f.cat, loc := f.loc, loc2 := f.loc2)
  }

  /** Which items the app lets a patch reach: the packed button is shown
      only on the shopping list, the buy button only on the stock list,
      and Commit is only sent to flagged items. */
  predicate Permitted(it: Item, p: Patch)
  {
    match p
    case FlipPacked => it.toBuy
    case FlipChecking => !it.toBuy
    case Commit => it.isChecking
    case _ => true
  }

  /** The phase machine, written independently of the flags. */
  function Next(ph: Phase, p: Patch): Phase
  {
    match p
    case Reset => Flagged
    case Commit => if ph == Flagged then Listed else Undefined
    case FlipPacked => if ph == Listed then Collected else if ph == Collected then Listed else Undefined
    case FlipChecking => if ph == Stocked then Flagged else if ph == Flagged then Stocked else Undefined
    case _ => ph
  }

  /** Every permitted write moves a consistent item along the phase machine,
      so it stays consistent. */
  lemma ApplyFollowsPhases(it: Item, p: Patch)
    requires Consistent(it) && Permitted(it, p)
    ensures PhaseOf(Apply(it, p)) == Next(PhaseOf(it), p)
    ensures Consistent(Apply(it, p))
  {
  }

  /** Flipping the same flag twice restores the document. */
  lemma FlipTwice(it: Item, p: Patch)
    requires p.FlipPacked? || p.FlipChecking?
    ensures Apply(Apply(it, p), p) == it
  {
  }

  /** The in-memory effect of `updateDoc(doc(db, "inventory", id), patch)`:
      the collection keeps its length, and exactly the documents with that id
      take the patch. */
  function UpdateDoc(s: seq<Item>, id: string, p: Patch): (r: seq<Item>)
    ensures |r| == |s|
    ensures forall i :: 0 <= i < |s| ==> r[i] == if s[i].id == id then Apply(s[i], p) else s[i]
  {
    Map(s, (it: Item) => if it.id == id then Apply(it, p) else it)
  }

  function ResetOne(it: Item): Item { Apply(it, Reset) }

  function ConfirmOne(it: Item): Item { if it.isChecking then Apply(it, Commit) else it }

  /** The collection after finishShopping's batch commits: every document
      keeps its id and description and is flagged for the next stock check. */
  function Finished(s: seq<Item>): (r: seq<Item>)
    ensures |r| == |s|
    ensures forall i :: 0 <= i < |s| ==>
              r[i].id == s[i].id && Describe(r[i]) == Describe(s[i]) && PhaseOf(r[i]) == Flagged
  {
    Map(s, ResetOne)
  }

  /** The collection after confirmToBuyList's batch commits: no document is
      flagged any more, and a document is on the buy list exactly when it
      was on it or was flagged. */
  function Confirmed(s: seq<Item>): (r: seq<Item>)
    ensures |r| == |s|
    ensures forall i :: 0 <= i < |s| ==> r[i].id == s[i].id && !r[i].isChecking
    ensures forall i :: 0 <= i < |s| ==> (r[i].toBuy <==> s[i].toBuy || s[i].isChecking)
  {
    Map(s, ConfirmOne)
  }

  /** With unique ids a single-document write changes exactly one position. */
  lemma {:induction false} UpdateDocAt(s: seq<Item>, k: nat, p: Patch)
    requires DistinctIds(s) && k < |s|
    ensures UpdateDoc(s, s[k].id, p) == s[k := Apply(s[k], p)]
  {
    var r := UpdateDoc(s, s[k].id, p);
    assert |r| == |s|;
    forall i | 0 <= i < |s|
      ensures r[i] == s[k := Apply(s[k], p)][i]
    {
      if i != k {
        assert s[i].id != s[k].id;
      }
    }
  }

  /** A write to an id that no document has changes nothing. */
  lemma UpdateDocMissing(s: seq<Item>, id: string, p: Patch)
    requires !HasId(s, id)
    ensures UpdateDoc(s, id, p) == s
  {
    var r := UpdateDoc(s, id, p);
    assert forall i :: 0 <= i < |s| ==> r[i] == s[i];
  }

  /** Repeating the same flag toggle on the same document restores the collection. */
  lemma UpdateDocFlipTwice(s: seq<Item>, id: string, p: Patch)
    requires p.FlipPacked? || p.FlipChecking?
    ensures UpdateDoc(UpdateDoc(s, id, p), id, p) == s
  {
    var r := UpdateDoc(UpdateDoc(s, id, p), id, p);
    forall i | 0 <= i < |s|
      ensures r[i] == s[i]
    {
      if s[i].id == id {
        FlipTwice(s[i], p);
      }
    }
  }

  /** A permitted write keeps a consistent collection consistent and leaves
      the ids where they were. */
  lemma UpdateDocKeepsInvariants(s: seq<Item>, id: string, p: Patch)
    requires forall i :: 0 <= i < |s| && s[i].id == id ==> Permitted(s[i], p)
    ensures |UpdateDoc(s, id, p)| == |s|
    ensures forall i :: 0 <= i < |s| ==> UpdateDoc(s, id, p)[i].id == s[i].id
    ensures DistinctIds(s) ==> DistinctIds(UpdateDoc(s, id, p))
    ensures AllConsistent(s) ==> AllConsistent(UpdateDoc(s, id, p))
  {
    var r := UpdateDoc(s, id, p);
    if AllConsistent(s) {
      forall i | 0 <= i < |s|
        ensures Consistent(r[i])
      {
        if s[i].id == id {
          ApplyFollowsPhases(s[i], p);
        }
      }
    }
  }

  /** Relabelling keeps every document's price, quantity and phase. */
  lemma RelabelKeeps(s: seq<Item>, id: string, f: Form)
    ensures forall i :: 0 <= i < |s| ==>
              UpdateDoc(s, id, Relabel(f))[i].price == s[i].price &&
              UpdateDoc(s, id, Relabel(f))[i].quantity == s[i].quantity &&
              PhaseOf(UpdateDoc(s, id, Relabel(f))[i]) == PhaseOf(s[i])
  {
  }

  /** After finishShopping every item is flagged for the next stock check,
      whatever its phase was, and keeps its id, description, price and quantity. */
  lemma FinishedState(s: seq<Item>)
    ensures |Finished(s)| == |s|
    ensures forall i :: 0 <= i < |s| ==>
              PhaseOf(Finished(s)[i]) == Flagged &&
              Finished(s)[i] == s[i].(toBuy := false, isPacked := false, isChecking := true)
    ensures AllConsistent(Finished(s))
    ensures DistinctIds(s) ==> DistinctIds(Finished(s))
  {
  }

  /** After confirmToBuyList the flagged items are on the buy list and no
      longer flagged, with every other field kept; the rest are untouched. */
  lemma ConfirmedState(s: seq<Item>)
    ensures |Confirmed(s)| == |s|
    ensures forall i :: 0 <= i < |s| ==>
              Confirmed(s)[i] == if s[i].isChecking then s[i].(toBuy := true, isChecking := false) else s[i]
    ensures forall i :: 0 <= i < |s| ==> !Confirmed(s)[i].isChecking
    ensures DistinctIds(s) ==> DistinctIds(Confirmed(s))
  {
  }

  /** Under the invariant, confirming moves every Flagged item to Listed and
      keeps every other phase. */
  lemma ConfirmedPhases(s: seq<Item>)
    requires AllConsistent(s)
    ensures forall i :: 0 <= i < |s| ==>
              PhaseOf(Confirmed(s)[i]) == (if PhaseOf(s[i]) == Flagged then Listed else PhaseOf(s[i]))
    ensures AllConsistent(Confirmed(s))
  {
    forall i | 0 <= i < |s|
      ensures PhaseOf(Confirmed(s)[i]) == (if PhaseOf(s[i]) == Flagged then Listed else PhaseOf(s[i]))
      ensures Consistent(Confirmed(s)[i])
    {
      if s[i].isChecking {
        ApplyFollowsPhases(s[i], Commit);
      }
    }
  }

  /** The document with the given id. */
  function Lookup(s: seq<Item>, id: string): (it: Item)
    requires HasId(s, id)
    ensures it.id == id && it in s
  {
    if s[0].id == id then s[0]
    else
      assert exists i :: 1 <= i < |s| && s[i].id == id;
      assert exists i :: 0 <= i < |s[1..]| && s[1..][i].id == id by {
        var i :| 1 <= i < |s| && s[i].id == id;
        assert s[1..][i - 1] == s[i];
      }
      Lookup(s[1..], id)
  }

  /** With unique ids the document found is the one at the id's position. */
  lemma LookupAt(s: seq<Item>, k: nat)
    requires DistinctIds(s) && k < |s|
    ensures Lookup(s, s[k].id) == s[k]
  {
    var it := Lookup(s, s[k].id);
    var i :| 0 <= i < |s| && s[i] == it;
    if i < k {
      assert s[i].id != s[k].id;
    } else if i > k {
      assert s[k].id != s[i].id;
    }
  }

  function IdIs(id: string): Item -> bool
  {
    (it: Item) => it.id == id
  }

  /** The collection after `deleteDoc` of the document with this id: no
      document with that id is left. */
  function Deleted(s: seq<Item>, id: string): (r: seq<Item>)
    ensures |r| <= |s|
    ensures forall i :: 0 <= i < |r| ==> r[i].id != id
  {
    Select(s, IdIs(id), false)
  }

  /** A stretch of a collection with unique ids that avoids position `k`
      holds no document with `s[k]`'s id, so a delete of that id keeps it. */
  lemma DeletedKeepsSlice(s: seq<Item>, k: nat, lo: nat, hi: nat)
    requires DistinctIds(s) && k < |s| && lo <= hi <= |s| && (k < lo || hi <= k)
    ensures Select(s[lo..hi], IdIs(s[k].id), false) == s[lo..hi]
  {
    var t := s[lo..hi];
    forall i | 0 <= i < |t|
      ensures IdIs(s[k].id)(t[i]) == false
    {
      assert t[i] == s[lo + i];
    }
    SelectAll(t, IdIs(s[k].id), false);
  }

  /** With unique ids a delete removes exactly the one position holding the id. */
  lemma {:induction false} DeletedAt(s: seq<Item>, k: nat)
    requires DistinctIds(s) && k < |s|
    ensures Deleted(s, s[k].id) == s[..k] + s[k + 1..]
  {
    if k == 0 {
      DeletedKeepsSlice(s, 0, 1, |s|);
      assert s[1..|s|] == s[1..] && s[..0] + s[1..] == s[1..];
    } else {
      var t := s[1..];
      assert t[k - 1] == s[k];
      assert DistinctIds(t) by {
        forall i, j | 0 <= i < j < |t|
          ensures t[i].id != t[j].id
        {
          assert t[i] == s[i + 1] && t[j] == s[j + 1];
        }
      }
      DeletedAt(t, k - 1);
      assert s[..k] == [s[0]] + t[..k - 1];
      assert s[k + 1..] == t[k..];
    }
  }

  /** A delete leaves no document with that id, changes nothing when no
      document has it, keeps ids unique and keeps every remaining item's
      flags as they were. */
  lemma DeletedKeepsInvariants(s: seq<Item>, id: string)
    requires DistinctIds(s)
    ensures !HasId(Deleted(s, id), id)
    ensures !HasId(s, id) ==> Deleted(s, id) == s
    ensures DistinctIds(Deleted(s, id))
    ensures AllConsistent(s) ==> AllConsistent(Deleted(s, id))
  {
    var r := Deleted(s, id);
    if HasId(s, id) {
      var k :| 0 <= k < |s| && s[k].id == id;
      DeletedAt(s, k);
      assert forall i :: 0 <= i < |r| ==> r[i] == if i < k then s[i] else s[i + 1];
    } else {
      SelectAll(s, IdIs(id), false);
    }
  }
}
