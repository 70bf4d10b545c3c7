/** The worked example of the slip editor: two priced lines, a save, one
    deletion and a refused deletion of the last line. */
module Scenario {
  import opened Wrappers
  import Text
  import opened Items
  import opened Slips
  import opened Repository

  /** Typing a description, a quantity and a rate into the line with `id`. */
  function PriceLine(s: Slip, id: int, text: string, q: real, rate: real): Slip {
    UpdateItem(UpdateItem(UpdateItem(s, id, Description(text)), id, Quantity(q)), id, Rate(rate))
  }

  /** Pricing a line sets its three fields and an amount of q × rate, and
      leaves the other lines alone. */
  lemma PriceLineEffect(s: Slip, id: int, text: string, q: real, rate: real)
    ensures var r := PriceLine(s, id, text, q, rate);
      && |r.items| == |s.items| && TotalsConsistent(r)
      && (forall i :: 0 <= i < |s.items| && s.items[i].id != id ==> r.items[i] == s.items[i])
      && (forall i :: 0 <= i < |s.items| && s.items[i].id == id ==> r.items[i] == Item(id, text, q, rate, q * rate))
      && r.(items := s.items, subtotal := s.subtotal, total := s.total) == s
  {
  }

  lemma OneItem(items: seq<Item>)
    requires |items| == 1
    ensures items == [items[0]]
  {
  }

  lemma TwoItems(items: seq<Item>)
    requires |items| == 2
    ensures items == [items[0], items[1]]
  {
  }

  /** A new slip whose only line is 4 × 250 of paint. */
  function Paint(created: nat, today: string): Slip {
    PriceLine(CreateNewSlip(created, created, today), FirstItemId, "Paint", 4.0, 250.0)
  }

  lemma PaintLine(created: nat, today: string)
    ensures Paint(created, today).items == [PaintItem()]
  {
    var s := CreateNewSlip(created, created, today);
    PricedSingleLine(s, FirstItemId, "Paint", 4.0, 250.0);
  }

  /** Pricing the only line of a slip makes it the single priced item. */
  lemma PricedSingleLine(s: Slip, id: int, text: string, q: real, rate: real)
    requires |s.items| == 1 && s.items[0].id == id
    ensures PriceLine(s, id, text, q, rate).items == [Item(id, text, q, rate, q * rate)]
  {
    var r := PriceLine(s, id, text, q, rate);
    PriceLineEffect(s, id, text, q, rate);
    OneItem(r.items);
  }

  /** The paint slip with a second line, 1 × 500 of labor, for client Acme. */
  function PaintAndLabor(created: nat, added: int, today: string): Slip {
    var s := AddItem(Some(Paint(created, today)), added).value;
    PriceLine(s, added, "Labor", 1.0, 500.0).(clientName := "Acme")
  }

  lemma PaintAndLaborLines(created: nat, added: int, today: string)
    requires added != FirstItemId
    ensures var s := PaintAndLabor(created, added, today);
      && s.items == [PaintItem(), LaborItem(added)]
      && s.subtotal == s.total == 1500.0
  {
    PaintLine(created, today);
    SecondLine(Paint(created, today), added);
  }

  function PaintItem(): Item {
    Item(FirstItemId, "Paint", 4.0, 250.0, 1000.0)
  }

  function LaborItem(id: int): Item {
    Item(id, "Labor", 1.0, 500.0, 500.0)
  }

  /** Adding and pricing the labor line after the paint line. */
  lemma SecondLine(s: Slip, added: int)
    requires s.items == [PaintItem()] && added != FirstItemId
    ensures var r := PriceLine(AddItem(Some(s), added).value, added, "Labor", 1.0, 500.0);
      r.items == [PaintItem(), LaborItem(added)] && r.subtotal == r.total == 1500.0
  {
    var t := AddItem(Some(s), added).value;
    assert t.items == [PaintItem(), DefaultItem(added)];
    var r := PriceLine(t, added, "Labor", 1.0, 500.0);
    PriceLineEffect(t, added, "Labor", 1.0, 500.0);
    assert r.items[0] == PaintItem() && r.items[1] == LaborItem(added);
    TwoItems(r.items);
    PaintLaborSum(added);
  }

  lemma PaintLaborSum(added: int)
    ensures Sum([PaintItem(), LaborItem(added)]) == 1500.0
  {
    assert [PaintItem(), LaborItem(added)][..1] == [PaintItem()];
    assert [PaintItem()][..0] == [];
  }

  /** Saving a named slip into an empty repository stores exactly that slip. */
  lemma SaveIntoEmpty(s: Slip)
    requires s.clientName == "Acme"
    ensures SaveSlip(Session([], Some(s))) == Success(Session([s], Some(s)))
  {
    assert !Text.IsBlank("Acme") by {
      Text.BlankIffAllWhitespace("Acme");
      assert !Text.IsWhitespace("Acme"[0]);
    }
  }

  /** Saving the example slip stores it with a total of 1500. */
  lemma SavePaintAndLabor(created: nat, added: int, today: string)
    requires added != FirstItemId
    ensures var s := PaintAndLabor(created, added, today);
      var saved := SaveSlip(Session([], Some(s)));
      saved.Success? && saved.value.slips == [s] && saved.value.slips[0].total == 1500.0
  {
    PaintAndLaborLines(created, added, today);
    SaveIntoEmpty(PaintAndLabor(created, added, today));
  }

  /** From the two priced lines, deleting labor leaves paint with a total of
      1000, and deleting paint after that is refused. */
  lemma DeleteSecondLine(s: Slip, added: int)
    requires s.items == [PaintItem(), LaborItem(added)] && added != FirstItemId
    ensures var d := DeleteItem(s, added);
      && d.Success? && d.value.items == [PaintItem()] && d.value.total == 1000.0
      && DeleteItem(d.value, FirstItemId) == Failure(CannotDeleteLastItem)
  {
    assert UniqueItemIds(s.items);
    DeleteUniqueItem(s, 1);
    assert s.items[..1] + s.items[2..] == [PaintItem()];
    assert Sum(s.items) == 1500.0 by {
      PaintLaborSum(added);
    }
  }

  /** Deleting the labor line of the example slip, then its paint line. */
  lemma DeleteLabor(created: nat, added: int, today: string)
    requires added != FirstItemId
    ensures var d := DeleteItem(PaintAndLabor(created, added, today), added);
      && d.Success? && d.value.total == 1000.0 && d.value.items == [PaintItem()]
      && DeleteItem(d.value, FirstItemId) == Failure(CannotDeleteLastItem)
  {
    PaintAndLaborLines(created, added, today);
    DeleteSecondLine(PaintAndLabor(created, added, today), added);
  }
}
