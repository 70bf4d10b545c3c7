# Estimation slips: the slip-editing core

A Dafny model of the slip editor of a single-page estimation-slip app
(`app.js`). A slip holds client details, an ordered list of items
(description, quantity, rate, amount) and a subtotal and total. The
editor's handlers are modelled as pure state transitions:

- `createNewSlip`, `addItem`, `updateItem` and `deleteItem` act on the
  slip being edited (module `Slips`);
- `saveSlip`, `loadSlip` and `deleteSlip` act on the saved slips and the
  current slip (module `Repository`);
- the number inputs of the item table, `parseFloat(text) || 0`, turn typed
  text into values (module `Numbers`);
- `Items` holds the per-item edit rule and the sum of amounts, `Text` the
  JavaScript whitespace, trimming and decimal digits, and `Seqs` the
  `filter` both deletions use;
- `Scenario` works one example through the editor: two priced lines, a
  save, a deletion and a refused deletion.

Modelling choices:

- Numbers are mathematical reals; NaN is `None` in the parse result.
- The clock and today's date are parameters. `createNewSlip` reads
  `Date.now()` twice, once for the id and once for the slip number, so it
  takes two clock readings.
- The `alert` branches become `Failure` results. A failure carries no new
  state: the handler returned before any `setState`, so the caller keeps
  the state it had.
- `confirm` in `deleteSlip` is taken as accepted.
- `updateItem(id, field, value)` takes an `Edit`, one constructor per field
  the item table edits. `InputEdit` builds it from the raw text of an
  input.

Three behaviours of `app.js` that are easy to overlook:

- `addItem` does not recompute the totals (app.js:64-67).
  `Slips.AddItemKeepsTotals` shows the totals invariant survives, because
  the new amount is 0.
- The slip number comes from its own clock reading, separate from the
  one that gives the id (app.js:40-41), so its digits need not be the
  id's last six.
- The last-item guard counts items, not distinct ids (app.js:96-100).
  Two items added in the same millisecond share an id. Deleting that id
  removes both, and empties the slip when they are its only items. See
  `Slips.DuplicateIdsEmptySlip`.

## Model

| member | source | states |
|---|---|---|
| Seqs.Filter | app.js:100 | `filter` keeps exactly the elements that pass, each of them an element of the input, and never lengthens the list |
| Seqs.FilterAppend | app.js:100 | filtering a concatenation filters each part, so survivors keep their relative order |
| Seqs.FilterAll | app.js:135 | filtering leaves a list unchanged if and only if every element passes |
| Seqs.FilterDropsOne | app.js:100 | filtering out one rejected element between passing runs removes just that element |
| Text.BlankIffAllWhitespace | app.js:114 | `trim()` gives the empty string exactly when every character is JavaScript whitespace |
| Text.NatText | app.js:41 | `toString()` of a non-negative integer is a non-empty digit string that denotes the number, and begins with '0' only when it is exactly "0" |
| Text.Trim | app.js:114 | `trim()` returns the text with its leading and trailing whitespace dropped: a prefix of the text after its leading whitespace, everything after which is whitespace, and whose first and last characters are not whitespace |
| Text.IsBlank | app.js:114 | the test `!s.trim()`: the trimmed text is empty; `Text.BlankIffAllWhitespace` shows this holds exactly for all-whitespace text |
| Text.SliceFromEnd | app.js:41 | `slice(-k)` for k > 0 returns the last k characters, or the whole text when it is shorter: its length is the smaller of k and the text's length, and the text ends with it |
| Text.LastDigitsValue | app.js:41 | the last k digits of a digit string denote its value modulo 10^k |
| Numbers.ScanLiteral | app.js:464 | a decimal literal is found exactly when the text starts with a sign-optional digit or point-digit, and its parts are all digits |
| Numbers.ParseFloat | app.js:464 | `parseFloat` gives a number exactly when the text after leading whitespace starts a decimal literal, and NaN otherwise |
| Numbers.BlankIsNaN | app.js:464 | an empty or whitespace-only input parses to NaN |
| Numbers.NumberInput | app.js:464 | the zero fallback after `parseFloat` turns NaN into 0 and passes every parsed number through unchanged, 0 included |
| Numbers.BlankInputIsZero | app.js:474 | a cleared number input yields 0 |
| Numbers.ParseDigits | app.js:464 | a run of digits parses to the number it denotes |
| Numbers.ParseMinusDigits | app.js:484 | a minus sign and a run of digits parse to the negated number |
| Numbers.ParseFixedDigits | app.js:474 | digits, a point and digits parse to the whole part plus the fraction, as a rate such as 12.50 |
| Numbers.DigitsInputIsValue | app.js:464 | a run of digits typed into a number input is stored as its value |
| Items.ApplyEdit | app.js:72-79 | the edited field takes the new value; a quantity or rate edit sets amount to quantity × rate from the updated record; an amount edit leaves quantity and rate alone; the id never changes |
| Items.EditAmountMatches | app.js:73-78 | after an edit, amount equals quantity × rate if and only if the edit was to quantity or rate, or it held before a description edit, or the amount typed equals quantity × rate |
| Items.InputEdit | app.js:450-485 | each input column produces the edit of its own field; the description is passed verbatim, and a number column passes `NumberInput` of the text, the value of `parseFloat` with NaN turned into 0 |
| Items.ClearedNumberIsZero | app.js:464-484 | clearing quantity or rate zeroes that field and the amount; clearing amount zeroes only the amount |
| Items.WholeInputStored | app.js:464-484 | typing digits into a number column stores the number they denote in that field |
| Items.DefaultItem | app.js:57-63 | the appended line: the given id, an empty description, quantity 1, rate 0, amount 0; `Slips.AddItem` states it is what `addItem` appends |
| Items.Sum | app.js:84 | the `reduce` over item amounts, folded from the left from 0; pinned down by `Items.SumSingle` (one item sums to its amount) and `Items.SumAppend` (sums add over concatenation) |
| Items.SumSingle | app.js:84 | the sum of a single item is its amount |
| Items.SumNonNegative | app.js:84 | non-negative amounts give a non-negative sum |
| Items.SumAppend | app.js:84 | the `reduce` sum of a concatenation is the sum of the parts |
| Items.SumReplace | app.js:84 | replacing one item moves the sum by the difference of the two amounts |
| Items.UpdateItems | app.js:71-82 | the `map` keeps length, order and ids, edits every item with the id and leaves the others equal |
| Items.RemoveItems | app.js:100 | the `filter` keeps exactly the items whose id differs |
| Items.RemoveItemsAppend | app.js:100 | removal distributes over concatenation, so the survivors keep their order and every copy of a surviving item stays |
| Items.RemoveAbsent | app.js:100 | removing an id no item carries leaves the items as they were |
| Items.RemoveUnique | app.js:100-101 | with unique ids, removing item k's id drops exactly item k, keeps the order, and lowers the sum by its amount |
| Slips.SlipNumberFor | app.js:41 | the default slip number, "EST-" and the last six characters of the clock reading's decimal text; `Slips.SlipNumberDigits` states what they are |
| Slips.SlipNumberDigits | app.js:41 | the slip number is "EST-" and at most six digits, which denote the clock reading modulo 10^6 |
| Slips.CreateNewSlip | app.js:38-53 | a new slip has the given id, number and date, empty client fields and notes, a single item {id 1, "", 1, 0, 0} and zero totals that match its items |
| Slips.AddItem | app.js:55-67 | with no open slip nothing happens; otherwise exactly one default item is appended after the existing ones and every other field, totals included, is unchanged |
| Slips.AddItemKeepsTotals | app.js:55-67 | appending the zero-amount item keeps subtotal = total = sum of amounts although nothing is recomputed |
| Slips.AddItemUniqueIds | app.js:57-66 | the item ids stay unique if and only if no existing item has the new item's clock-reading id |
| Slips.WithItems | app.js:84-92 | installing new items recomputes subtotal and total as their sum and changes no other field |
| Slips.UpdateItem | app.js:70-93 | items keep length and order, items with another id are unchanged, items with the id are edited, totals equal the new sum, and no other slip field changes |
| Slips.UpdateRecomputesAmount | app.js:73-78 | after a quantity or rate edit every item with the id has amount = quantity × rate, using the new value and the other field's old value |
| Slips.UpdateTotalsDelta | app.js:84-85 | with unique ids, editing item k replaces it in place and moves both totals by the change in its amount |
| Slips.DeleteItem | app.js:95-110 | refused with CannotDeleteLastItem exactly when at most one item remains; otherwise the items are the `filter` result `RemoveItems`, so exactly the items with another id survive in order, the totals are recomputed and no other field changes |
| Slips.DeleteAbsentItem | app.js:100-109 | deleting an absent id keeps the items and still recomputes the totals |
| Slips.DeleteUniqueItem | app.js:100-102 | with unique ids, deleting item k removes only it, leaves at least one item and lowers the total by its amount |
| Slips.DeleteKeepsUniqueIds | app.js:100 | deletion keeps the item ids unique |
| Slips.DuplicateIdsEmptySlip | app.js:96-100 | two items stamped in the same millisecond are deleted together, and the slip is left empty when they are its only items (a one-item slip whose item carries the clock reading, plus one item added in that millisecond) |
| Repository.FindIndex | app.js:118 | `findIndex` returns the first position with the id, or -1 exactly when no slip has it |
| Repository.Upsert | app.js:118-125 | the first slip with the id is replaced in place and the rest are unchanged; without one the slip is appended after the others |
| Repository.UpsertFinds | app.js:118-125 | after saving, the first slip with the id is the saved one, at the old position or at the end |
| Repository.UpsertIdempotent | app.js:118-125 | saving the same slip twice gives the same repository as saving it once |
| Repository.UpsertUniqueIds | app.js:118-125 | saving keeps the slip ids unique, and the saved slip is the only one with its id |
| Repository.SaveSlip | app.js:112-127 | refused exactly when no slip is open (NoCurrentSlip) or the client name trims to nothing (MissingClientName); otherwise the repository is upserted and the slip stays current |
| Repository.WhitespaceNameRefused | app.js:114-117 | a client name of only whitespace is refused with MissingClientName |
| Repository.NamedSlipSaved | app.js:114-125 | a client name with any non-whitespace character is saved |
| Repository.SaveIdempotent | app.js:112-125 | saving again right after a save changes nothing |
| Repository.LoadSlip | app.js:129-131 | loading makes the chosen slip current and leaves the saved slips alone |
| Repository.LoadThenSaveUnchanged | app.js:118-131 | loading a saved slip that is the first with its id and saving it unedited leaves the repository unchanged |
| Repository.DeleteSlip | app.js:133-138 | exactly the slips with another id survive, and the current slip is closed exactly when it has the id |
| Repository.DeleteAbsentSlip | app.js:135 | deleting an absent id leaves the saved slips unchanged |
| Repository.DeleteSlipsInOrder | app.js:135 | deleting from a concatenation deletes from each part, so the survivors keep their order |
| Repository.DeleteSlipIdempotent | app.js:133-138 | deleting twice by the same id is the same as deleting once |
| Repository.DeleteUniqueSlip | app.js:135 | with unique ids, deleting slip k's id removes exactly slip k |
| Scenario.PriceLineEffect | app.js:70-93 | typing a description, quantity and rate into one line sets it to (id, text, q, rate, q × rate), leaves the other lines alone and keeps the totals consistent |
| Scenario.PaintAndLaborLines | app.js:38-93 | a new slip priced 4 × 250, plus an added line priced 1 × 500, has exactly those two items and totals of 1500 |
| Scenario.SavePaintAndLabor | app.js:112-125 | saving that slip into an empty repository stores just it, with a total of 1500 |
| Scenario.DeleteLabor | app.js:95-110 | deleting the second line leaves the first with a total of 1000, and deleting the first is then refused |

## Left out

- The `localStorage` load and the write-through effect (app.js:18-36), because they are browser storage.
- JSON import (app.js:169-186), because it is file I/O through `FileReader` with an unchecked `JSON.parse`.
- Printing and PDF export (app.js:140-167), because they are `window.print` and a timer.
- The `alert` and `confirm` dialogs. Alerts become `Failure` values, and `confirm` is taken as accepted.
- The settings panel (app.js:219-255), because it is plain record field replacement with no invariant.
- The direct edits of slip number, date, client fields and notes (app.js:373-417, 523). Each replaces one field of the current slip and has no rule to state.
- JSX rendering, the print stylesheet and the `toFixed(2)` display of the total (app.js:188-629, 511).
- The browser clock and date. They are parameters, and the uniqueness of clock-derived ids is not assumed.
- The browser's cleaning of the value of an `<input type="number">`. `parseFloat` is modelled over any text, which covers every value the browser can deliver.
- Numbers.ParseFloat: reads the decimal-literal grammar but not the `Infinity` spelling, because a number input never delivers it.
- Numbers.ParseFloat: returns the exact decimal value instead of rounding it to the nearest IEEE double.
- Items.Sum: a sum of reals, without floating-point rounding. Items.ApplyEdit likewise multiplies quantity by rate exactly.
- Slips.UpdateItem: takes the open slip rather than an optional one. With no slip open the source would fail on `currentSlip.items`, but the item table is only rendered while a slip is open (app.js:301). The same holds for Slips.DeleteItem.
- Repository.LoadSlip: stores the slip itself where the source stores a shallow copy (`{ ...slip }`). The two are indistinguishable for immutable values.
