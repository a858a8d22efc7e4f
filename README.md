# Warehouse inventory list (magazynxxx6767), modelled in Dafny

The program is a small warehouse ("magazyn") page. Each user session holds one
in-memory inventory list of `{name, quantity}` records. It starts empty. The add
form calls `add_item(name, quantity)`, which appends a record only when the name
is non-empty and the quantity is positive. The remove form asks for the 1-based
position (Lp.) shown in the table and calls `remove_item(Lp - 1)`, which pops the
record at that 0-based index only when the index is in `[0, length)`. The table
is built by a loop that gives row `i` the values `(i + 1, name, quantity)`.

`warehouse.dfy` holds one module, `Warehouse`:

- the records (`Item`), the table rows (`Row`), the outcomes of the two
  operations (`AddResult`, `RemoveResult`) and a user action (`Op`);
- the operations as functions of the old list (`AddSpec`, `RemoveSpec`,
  `Delete`, `DisplayRows`), with their properties in their contracts and in
  lemmas. `Run` applies a sequence of actions, for the session invariant;
- the class `Session`, whose field `inventory` is the session's list. Its
  methods change that field in place, and each method is proved against the
  functions above. `DisplayData` is the row-building loop with its invariant;
- `SessionScenario`, a client that walks through adding to an empty list,
  removing by position and the rejected inputs, using only the contracts.

Two points where the code is looser than a reader might expect, followed by the model:

- The name guard is Python truthiness (`if name`). Any non-empty string passes,
  including one made only of spaces; nothing is trimmed. `Acceptable` says
  "non-empty", not "non-blank".
- The position field of the remove form has a lower bound of 1 and no upper
  bound. So a position past the end of the list reaches `remove_item`, and its
  bounds check rejects it. `Session.RemoveByPosition` takes any integer.

## Model

| member | source | states |
|---|---|---|
| `Warehouse.AddSpec` | magazynxxx6767.py:13-19 | a non-empty name and a positive quantity append exactly one record `(name, quantity)` at the end, keeping the earlier records; any other input leaves the list unchanged; the list stays well formed |
| `Warehouse.Delete` | magazynxxx6767.py:26 | `pop(index)` shortens the list by one, keeps the records before `index`, moves later records down one place, and loses only the record at `index` (as multisets) |
| `Warehouse.RemoveSpec` | magazynxxx6767.py:21-31 | an index in `[0, length)` removes exactly the record at that index, with the prefix kept and the suffix shifted; any other index leaves the list unchanged, so removing from an empty list changes nothing; the list stays well formed |
| `Warehouse.RunPreservesWellFormed` | magazynxxx6767.py:13-31 | after any sequence of adds and removes, a list whose records all have a non-empty name and a positive quantity still has only such records |
| `Warehouse.SessionItemsWellFormed` | magazynxxx6767.py:8-9 | starting from the session's empty list, every record has a non-empty name and a positive quantity after any sequence of actions |
| `Warehouse.DisplayRows` | magazynxxx6767.py:87-93 | the table has one row per record, and row `i` is `(i + 1, name, quantity)` of record `i` |
| `Warehouse.PositionsAreOneToN` | magazynxxx6767.py:88-90 | the Lp. column holds exactly the numbers `1..N` for a list of length `N`, increasing down the table |
| `Warehouse.RemoveAtPositionDeletesShownRow` | magazynxxx6767.py:77-90 | removing index `p - 1` for a shown position `1 <= p <= N` takes out exactly the record shown in row `p`; the new table is one row shorter, keeps the rows above `p`, and shows each later record one place higher with its Lp. lowered by one |
| `Warehouse.Session.constructor` | magazynxxx6767.py:8-9 | a new session starts with an empty (hence well-formed) inventory |
| `Warehouse.Session.AddItem` | magazynxxx6767.py:13-19 | reports `Added(name, quantity)` exactly when the name is non-empty and the quantity positive, otherwise `InvalidInput`; the new list is `AddSpec` of the old one, and well-formedness is kept |
| `Warehouse.Session.RemoveItem` | magazynxxx6767.py:21-31 | reports `Removed` exactly when `0 <= index < length`, and then the removed record is the old record at `index`; otherwise `InvalidIndex`; the new list is `RemoveSpec` of the old one, and well-formedness is kept |
| `Warehouse.Session.RemoveByPosition` | magazynxxx6767.py:63-77 | removal by a typed Lp. succeeds exactly when `1 <= Lp <= length`, returns the record shown in the table row with that Lp., and leaves the list as `RemoveSpec(old, Lp - 1)` |
| `Warehouse.Session.DisplayData` | magazynxxx6767.py:85-93 | the row-building loop returns exactly `DisplayRows` of the current list |

## Left out

- The Streamlit page itself (titles, separators, containers, forms, widgets, `st.table`, the empty-table message): presentation and I/O. The model keeps only the Lp. to index conversion of the remove form and the row-building loop.
- The storage of the list in `st.session_state`: the list is the field `Session.inventory`, created empty by the constructor.
- The texts of the success, warning and error messages: the model reports only the outcome (`Added`/`InvalidInput`, `Removed`/`InvalidIndex`) and the record concerned.
- The `try/except Exception` around the removal: with an integer index the bounds check makes `pop` unable to fail, so that path cannot be reached.
- Widget input coercion (`number_input` typing, step, default value, `clear_on_submit`): names are strings and quantities and positions are integers.
