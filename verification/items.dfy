/** One line of an estimation slip and the rule by which an edit to it
    propagates into its amount, plus the running sum of amounts that the
    slip's totals are made of. */
module Items {
  import opened Text
  import opened Numbers
  import Seqs

  datatype Item = Item(id: int, description: string, quantity: real, rate: real, amount: real)

  /** The line `addItem` appends: no description, one unit at rate zero. */
  function DefaultItem(id: int): Item {
    Item(id, "", 1.0, 0.0, 0.0)
  }

  /** The `(field, value)` pairs the item table passes to `updateItem`. */
  datatype Edit = Description(text: string) | Quantity(q: real) | Rate(r: real) | Amount(a: real)

  /** The derived-amount relation that quantity and rate edits restore. */
  predicate AmountMatches(it: Item) {
    it.amount == it.quantity * it.rate
  }

  /** One item's update: the field is replaced; a quantity or rate edit then
      recomputes the amount from the updated record, while an amount edit is
      stored as given and leaves quantity and rate alone. */
  function ApplyEdit(it: Item, e: Edit): (r: Item)
    ensures r.id == it.id
    ensures e.Description? ==> r == it.(description := e.text)
    ensures e.Quantity? ==> r.quantity == e.q && r.rate == it.rate && r.description == it.description
    ensures e.Rate? ==> r.rate == e.r && r.quantity == it.quantity && r.description == it.description
    ensures e.Quantity? || e.Rate? ==> AmountMatches(r)
    ensures e.Amount? ==> r == it.(amount := e.a)
  {
    match e
    case Description(t) => it.(description := t)
    case Quantity(q) =>
      var u := it.(quantity := q);
      u.(amount := u.quantity * u.rate)
    case Rate(x) =>
      var u := it.(rate := x);
      u.(amount := u.quantity * u.rate)
    case Amount(a) => it.(amount := a)
  }

  /** After any edit the amount matches quantity × rate exactly when the edit
      touched quantity or rate, or it matched before and the edit left it
      alone, or the amount typed in happens to equal quantity × rate. */
  lemma EditAmountMatches(it: Item, e: Edit)
    ensures AmountMatches(ApplyEdit(it, e)) <==>
      || e.Quantity? || e.Rate?
      || (e.Description? && AmountMatches(it))
      || (e.Amount? && e.a == it.quantity * it.rate)
  {
  }

  /** The input column an edit comes from. */
  datatype Field = DescriptionField | QuantityField | RateField | AmountField

  /** The edit an input's onChange handler sends for the text typed: the
      description verbatim, a number column through `parseFloat(..) || 0`. */
  function InputEdit(f: Field, text: string): (e: Edit)
    ensures f == DescriptionField <==> e.Description?
    ensures f == QuantityField <==> e.Quantity?
    ensures f == RateField <==> e.Rate?
    ensures f == AmountField <==> e.Amount?
    ensures e.Description? ==> e.text == text
    ensures e.Quantity? ==> e.q == NumberInput(text)
    ensures e.Rate? ==> e.r == NumberInput(text)
    ensures e.Amount? ==> e.a == NumberInput(text)
  {
    match f
    case DescriptionField => Description(text)
    case QuantityField => Quantity(NumberInput(text))
    case RateField => Rate(NumberInput(text))
    case AmountField => Amount(NumberInput(text))
  }

  /** Clearing a number column sets that field to 0; clearing quantity or
      rate therefore also zeroes the amount. */
  lemma ClearedNumberIsZero(it: Item, f: Field, text: string)
    requires f != DescriptionField && IsBlank(text)
    ensures var r := ApplyEdit(it, InputEdit(f, text));
      && (f == QuantityField ==> r.quantity == 0.0 && r.amount == 0.0)
      && (f == RateField ==> r.rate == 0.0 && r.amount == 0.0)
      && (f == AmountField ==> r.amount == 0.0 && r.quantity == it.quantity && r.rate == it.rate)
  {
    BlankInputIsZero(text);
  }

  /** Typing a run of digits into a number column stores the number it denotes. */
  lemma WholeInputStored(f: Field, d: string)
    requires f != DescriptionField
    requires |d| > 0 && AllDigits(d)
    ensures InputEdit(f, d)
         == match f
            case QuantityField => Quantity(DigitsValue(d) as real)
            case RateField => Rate(DigitsValue(d) as real)
            case _ => Amount(DigitsValue(d) as real)
  {
    DigitsInputIsValue(d);
  }

  /** `items.reduce((sum, item) => sum + item.amount, 0)`, folded from the left. */
  function Sum(items: seq<Item>): real {
    if |items| == 0 then 0.0 else Sum(items[..|items| - 1]) + items[|items| - 1].amount
  }

  /** Amounts that are all non-negative, as the inputs' `min="0"` suggests,
      sum to a non-negative total. */
  lemma {:induction false} SumNonNegative(items: seq<Item>)
    requires forall i :: 0 <= i < |items| ==> items[i].amount >= 0.0
    ensures Sum(items) >= 0.0
  {
    if |items| > 0 {
      var init := items[..|items| - 1];
      assert forall i :: 0 <= i < |init| ==> init[i] == items[i];
      SumNonNegative(init);
    }
  }

  /** The sum of one item is its amount. */
  lemma SumSingle(x: Item)
    ensures Sum([x]) == x.amount
  {
    assert [x][..0] == [];
  }

  /** The sum of a concatenation is the sum of the parts. */
  lemma {:induction false} SumAppend(a: seq<Item>, b: seq<Item>)
    ensures Sum(a + b) == Sum(a) + Sum(b)
  {
    if |b| > 0 {
      assert (a + b)[..|a + b| - 1] == a + b[..|b| - 1];
      SumAppend(a, b[..|b| - 1]);
    } else {
      assert a + b == a;
    }
  }

  /** Replacing one item changes the sum by the difference of the two amounts. */
  lemma SumReplace(items: seq<Item>, k: nat, x: Item)
    requires k < |items|
    ensures Sum(items[k := x]) == Sum(items) - items[k].amount + x.amount
  {
    var pre, post := items[..k], items[k + 1..];
    assert items == pre + [items[k]] + post;
    assert items[k := x] == pre + [x] + post;
    SumAppend(pre + [items[k]], post);
    SumAppend(pre, [items[k]]);
    SumAppend(pre + [x], post);
    SumAppend(pre, [x]);
    assert Sum([x]) == Sum([]) + x.amount;
    assert Sum([items[k]]) == Sum([]) + items[k].amount;
  }

  /** No two items share an id. */
  predicate UniqueItemIds(items: seq<Item>) {
    forall i, j :: 0 <= i < j < |items| ==> items[i].id != items[j].id
  }

  /** The `items.map` of `updateItem`: every item carrying `id` is edited,
      every other item is kept, and the order and length do not change. */
  function UpdateItems(items: seq<Item>, id: int, e: Edit): (r: seq<Item>)
    ensures |r| == |items|
    ensures forall i :: 0 <= i < |items| ==> r[i].id == items[i].id
    ensures forall i :: 0 <= i < |items| && items[i].id != id ==> r[i] == items[i]
    ensures forall i :: 0 <= i < |items| && items[i].id == id ==> r[i] == ApplyEdit(items[i], e)
  {
    seq(|items|, i requires 0 <= i < |items| => if items[i].id == id then ApplyEdit(items[i], e) else items[i])
  }

  /** The `items.filter` of `deleteItem`: every item carrying `id` is dropped. */
  function RemoveItems(items: seq<Item>, id: int): (r: seq<Item>)
    ensures |r| <= |items|
    ensures forall i :: 0 <= i < |r| ==> r[i] in items && r[i].id != id
    ensures forall i :: 0 <= i < |items| && items[i].id != id ==> items[i] in r
  {
    Seqs.Filter(items, (it: Item) => it.id != id)
  }

  /** Removal distributes over concatenation: the survivors keep their
      relative order and every copy of a surviving item is kept. */
  lemma RemoveItemsAppend(a: seq<Item>, b: seq<Item>, id: int)
    ensures RemoveItems(a + b, id) == RemoveItems(a, id) + RemoveItems(b, id)
  {
    Seqs.FilterAppend(a, b, (it: Item) => it.id != id);
  }

  /** Removing by an id no item carries leaves the items as they were. */
  lemma RemoveAbsent(items: seq<Item>, id: int)
    requires forall i :: 0 <= i < |items| ==> items[i].id != id
    ensures RemoveItems(items, id) == items
  {
    Seqs.FilterAll(items, (it: Item) => it.id != id);
  }

  /** With unique ids, removing the id of item `k` removes exactly that item,
      keeping the others in order, and lowers the sum by its amount. */
  lemma RemoveUnique(items: seq<Item>, k: nat)
    requires UniqueItemIds(items) && k < |items|
    ensures RemoveItems(items, items[k].id) == items[..k] + items[k + 1..]
    ensures Sum(RemoveItems(items, items[k].id)) == Sum(items) - items[k].amount
  {
    var pre, x, post := UniqueSplit(items, k);
    RemoveSplit(pre, x, post);
    SumDropOne(pre, x, post);
  }

  /** Cutting a list with unique ids around item `k`: no other item has its id. */
  lemma UniqueSplit(items: seq<Item>, k: nat) returns (pre: seq<Item>, x: Item, post: seq<Item>)
    requires UniqueItemIds(items) && k < |items|
    ensures pre == items[..k] && x == items[k] && post == items[k + 1..]
    ensures items == pre + [x] + post
    ensures forall i :: 0 <= i < |pre| ==> pre[i].id != x.id
    ensures forall i :: 0 <= i < |post| ==> post[i].id != x.id
  {
    pre, x, post := items[..k], items[k], items[k + 1..];
    forall i | 0 <= i < |post| ensures post[i].id != x.id {
      assert post[i] == items[k + 1 + i];
    }
  }

  /** Taking one item out of the middle lowers the sum by its amount. */
  lemma SumDropOne(pre: seq<Item>, x: Item, post: seq<Item>)
    ensures Sum(pre + [x] + post) == Sum(pre + post) + x.amount
  {
    SumAppend(pre + [x], post);
    SumAppend(pre, [x]);
    SumAppend(pre, post);
    assert Sum([x]) == Sum([]) + x.amount;
  }

  lemma RemoveSplit(pre: seq<Item>, x: Item, post: seq<Item>)
    requires forall i :: 0 <= i < |pre| ==> pre[i].id != x.id
    requires forall i :: 0 <= i < |post| ==> post[i].id != x.id
    ensures RemoveItems(pre + [x] + post, x.id) == pre + post
  {
    Seqs.FilterDropsOne(pre, x, post, (it: Item) => it.id != x.id);
  }
}
