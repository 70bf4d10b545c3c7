/** An estimation slip: client metadata, an ordered list of items and the
    subtotal and total derived from the items' amounts. The operations are
    the slip editor's handlers with the clock passed in. */
module Slips {
  import opened Wrappers
  import opened Text
  import opened Items

  datatype Slip = Slip(
    id: int,
    slipNumber: string,
    date: string,
    clientName: string,
    clientAddress: string,
    clientPhone: string,
    clientEmail: string,
    items: seq<Item>,
    notes: string,
    subtotal: real,
    total: real)

  /** The slip's totals invariant: subtotal and total both equal the sum
      of the item amounts. */
  predicate TotalsConsistent(s: Slip) {
    s.subtotal == Sum(s.items) && s.total == s.subtotal
  }

  /** The refusal `deleteItem` reports with an alert. */
  datatype SlipError = CannotDeleteLastItem

  /** The item id `createNewSlip` gives the first line. */
  const FirstItemId: int := 1

  /** The prefix of a default slip number. */
  const SlipNumberPrefix: string := "EST-"

  /** The default slip number for a creation time: "EST-" followed by the
      last six digits of the millisecond clock. */
  function SlipNumberFor(time: nat): string {
    SlipNumberPrefix + SliceFromEnd(NatText(time), 6)
  }

  /** The slip number is "EST-" and at most six digits, which denote the
      clock reading modulo 10^6. */
  lemma SlipNumberDigits(time: nat)
    ensures var n := SlipNumberFor(time);
      && 5 <= |n| <= 10
      && n[..4] == "EST-"
      && AllDigits(n[4..])
      && DigitsValue(n[4..]) == time % 1000000
  {
    var tail := SliceFromEnd(NatText(time), 6);
    assert SlipNumberFor(time)[..4] == "EST-";
    assert SlipNumberFor(time)[4..] == tail;
    TailValue(time);
  }

  /** The last six digits of a clock reading denote it modulo 10^6. */
  lemma TailValue(time: nat)
    ensures AllDigits(SliceFromEnd(NatText(time), 6))
    ensures DigitsValue(SliceFromEnd(NatText(time), 6)) == time % 1000000
  {
    TailDigits(NatText(time));
  }

  /** The last six characters of any digit string denote its value modulo 10^6. */
  lemma TailDigits(t: string)
    requires AllDigits(t)
    ensures AllDigits(SliceFromEnd(t, 6))
    ensures DigitsValue(SliceFromEnd(t, 6)) == DigitsValue(t) % 1000000
  {
    Pow10Six();
    if |t| < 6 {
      assert SliceFromEnd(t, 6) == t;
      DigitsValueBound(t);
      Pow10Monotone(|t|, 6);
    } else {
      assert SliceFromEnd(t, 6) == t[|t| - 6..];
      LastDigitsValue(t, 6);
    }
  }

  lemma Pow10Six()
    ensures Pow10(6) == 1000000
  {
  }

  lemma {:induction false} Pow10Monotone(a: nat, b: nat)
    requires a <= b
    ensures Pow10(a) <= Pow10(b)
  {
    if a < b {
      Pow10Monotone(a, b - 1);
    }
  }

  /** `createNewSlip`: a slip with the clock reading as id, a default slip
      number from a second reading, the given date, empty client fields and
      notes, one default item and zero totals. */
  function CreateNewSlip(idTime: nat, numberTime: nat, today: string): (r: Slip)
    ensures r.id == idTime && r.slipNumber == SlipNumberFor(numberTime) && r.date == today
    ensures r.clientName == r.clientAddress == r.clientPhone == r.clientEmail == r.notes == ""
    ensures |r.items| == 1 && r.items[0].id == FirstItemId && r.items[0].description == ""
    ensures r.items[0].quantity == 1.0 && r.items[0].rate == 0.0 && r.items[0].amount == 0.0
    ensures r.subtotal == r.total == 0.0
    ensures TotalsConsistent(r)
  {
    var items := [DefaultItem(FirstItemId)];
    assert Sum(items) == Sum([]) + 0.0;
    Slip(idTime, SlipNumberFor(numberTime), today, "", "", "", "", items, "", 0.0, 0.0)
  }

  /** `addItem`: with no current slip nothing happens; otherwise one default
      item stamped with the clock reading is appended and every other field,
      the totals included, is left as it was. */
  function AddItem(current: Option<Slip>, now: int): (r: Option<Slip>)
    ensures current.None? <==> r.None?
    ensures current.Some? ==>
      && |r.value.items| == |current.value.items| + 1
      && r.value.items[..|current.value.items|] == current.value.items
      && r.value.items[|current.value.items|] == DefaultItem(now)
      && r.value == current.value.(items := r.value.items)
  {
    match current
    case None => None
    case Some(s) => Some(s.(items := s.items + [DefaultItem(now)]))
  }

  /** Appending a zero-amount item keeps the totals invariant, although
      `addItem` does not recompute the totals. */
  lemma AddItemKeepsTotals(s: Slip, now: int)
    requires TotalsConsistent(s)
    ensures TotalsConsistent(AddItem(Some(s), now).value)
  {
    SumAppend(s.items, [DefaultItem(now)]);
    assert Sum([DefaultItem(now)]) == Sum([]) + 0.0;
  }

  /** A new item's id keeps the ids unique exactly when no item has it yet. */
  lemma AddItemUniqueIds(s: Slip, now: int)
    requires UniqueItemIds(s.items)
    ensures UniqueItemIds(AddItem(Some(s), now).value.items)
        <==> forall i :: 0 <= i < |s.items| ==> s.items[i].id != now
  {
    var r := AddItem(Some(s), now).value.items;
    if forall i :: 0 <= i < |s.items| ==> s.items[i].id != now {
      forall i, j | 0 <= i < j < |r|
        ensures r[i].id != r[j].id
      {
        if j < |s.items| {
          assert r[i] == s.items[i] && r[j] == s.items[j];
        }
      }
    } else {
      var i :| 0 <= i < |s.items| && s.items[i].id == now;
      assert r[i].id == r[|s.items|].id;
    }
  }

  /** The slip with `items` in place of its items and both totals recomputed. */
  function WithItems(s: Slip, items: seq<Item>): (r: Slip)
    ensures r.items == items && TotalsConsistent(r)
    ensures r.(items := s.items, subtotal := s.subtotal, total := s.total) == s
  {
    var subtotal := Sum(items);
    s.(items := items, subtotal := subtotal, total := subtotal)
  }

  /** `updateItem`: every item with the id is edited as `ApplyEdit` says,
      the rest are untouched, and the totals are recomputed. */
  function UpdateItem(s: Slip, id: int, e: Edit): (r: Slip)
    ensures |r.items| == |s.items|
    ensures forall i :: 0 <= i < |s.items| && s.items[i].id != id ==> r.items[i] == s.items[i]
    ensures forall i :: 0 <= i < |s.items| && s.items[i].id == id ==> r.items[i] == ApplyEdit(s.items[i], e)
    ensures TotalsConsistent(r)
    ensures r.(items := s.items, subtotal := s.subtotal, total := s.total) == s
  {
    WithItems(s, UpdateItems(s.items, id, e))
  }

  /** After a quantity or rate edit every item with the id has an amount of
      quantity × rate, from the new value and the other field's old one. */
  lemma UpdateRecomputesAmount(s: Slip, id: int, e: Edit)
    requires e.Quantity? || e.Rate?
    ensures forall i :: 0 <= i < |s.items| && s.items[i].id == id ==>
      var it := UpdateItem(s, id, e).items[i];
      && it.amount == it.quantity * it.rate
      && it.quantity == (if e.Quantity? then e.q else s.items[i].quantity)
      && it.rate == (if e.Rate? then e.r else s.items[i].rate)
  {
  }

  /** With unique ids, editing item `k` moves both totals of a consistent
      slip by the change in that item's amount. */
  lemma UpdateTotalsDelta(s: Slip, k: nat, e: Edit)
    requires TotalsConsistent(s) && UniqueItemIds(s.items) && k < |s.items|
    ensures var r := UpdateItem(s, s.items[k].id, e);
      && r.items == s.items[k := ApplyEdit(s.items[k], e)]
      && r.total == r.subtotal == s.total - s.items[k].amount + ApplyEdit(s.items[k], e).amount
  {
    var r := UpdateItem(s, s.items[k].id, e);
    assert r.items == s.items[k := ApplyEdit(s.items[k], e)];
    SumReplace(s.items, k, ApplyEdit(s.items[k], e));
  }

  /** `deleteItem`: refused, with the slip left as it was, while at most one
      item remains; otherwise every item with the id is removed and the
      totals are recomputed. */
  function DeleteItem(s: Slip, id: int): (r: Result<Slip, SlipError>)
    ensures r.Failure? <==> |s.items| <= 1
    ensures r.Failure? ==> r.error == CannotDeleteLastItem
    ensures r.Success? ==>
      && r.value.items == RemoveItems(s.items, id)
      && TotalsConsistent(r.value)
      && (forall i :: 0 <= i < |r.value.items| ==> r.value.items[i] in s.items && r.value.items[i].id != id)
      && (forall i :: 0 <= i < |s.items| && s.items[i].id != id ==> s.items[i] in r.value.items)
      && r.value.(items := s.items, subtotal := s.subtotal, total := s.total) == s
  {
    if |s.items| <= 1 then Failure(CannotDeleteLastItem)
    else Success(WithItems(s, RemoveItems(s.items, id)))
  }

  /** Deleting an id no item carries keeps the items but still recomputes
      the totals. */
  lemma DeleteAbsentItem(s: Slip, id: int)
    requires |s.items| > 1
    requires forall i :: 0 <= i < |s.items| ==> s.items[i].id != id
    ensures DeleteItem(s, id) == Success(WithItems(s, s.items))
  {
    RemoveAbsent(s.items, id);
  }

  /** With unique ids and at least two items, deleting item `k` removes just
      that item, leaves at least one, and lowers the totals of a consistent
      slip by its amount. */
  lemma DeleteUniqueItem(s: Slip, k: nat)
    requires UniqueItemIds(s.items) && 1 < |s.items| && k < |s.items|
    ensures var r := DeleteItem(s, s.items[k].id);
      && r.Success?
      && r.value.items == s.items[..k] + s.items[k + 1..]
      && |r.value.items| == |s.items| - 1 >= 1
      && r.value.total == Sum(s.items) - s.items[k].amount
  {
    RemoveUnique(s.items, k);
  }

  /** Deleting keeps the ids unique. */
  lemma DeleteKeepsUniqueIds(s: Slip, id: int)
    requires UniqueItemIds(s.items) && 1 < |s.items|
    ensures UniqueItemIds(DeleteItem(s, id).value.items)
  {
    if k :| 0 <= k < |s.items| && s.items[k].id == id {
      RemoveUnique(s.items, k);
      DropKeepsUniqueIds(s.items, k);
    } else {
      RemoveAbsent(s.items, id);
    }
  }

  lemma DropKeepsUniqueIds(items: seq<Item>, k: nat)
    requires UniqueItemIds(items) && k < |items|
    ensures UniqueItemIds(items[..k] + items[k + 1..])
  {
    var r := items[..k] + items[k + 1..];
    forall i, j | 0 <= i < j < |r|
      ensures r[i].id != r[j].id
    {
      var i', j' := if i < k then i else i + 1, if j < k then j else j + 1;
      assert r[i] == items[i'] && r[j] == items[j'];
    }
  }

  /** The guard counts items, not distinct ids: two items stamped in the
      same millisecond are deleted together, and the slip is left empty
      when they are its only items. */
  lemma DuplicateIdsEmptySlip(s: Slip, now: int)
    requires |s.items| == 1 && s.items[0].id == now
    ensures var t := AddItem(Some(s), now).value;
      DeleteItem(t, now).Success? && DeleteItem(t, now).value.items == []
  {
    var t := AddItem(Some(s), now).value;
    Seqs.FilterNone(t.items, (it: Item) => it.id != now);
  }
}
