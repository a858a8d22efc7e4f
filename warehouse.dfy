/** A one-session inventory list: records are appended by `add_item`, removed by
    0-based index by `remove_item`, and shown as numbered rows (Lp. = index + 1).
    The pure functions below are the specification of the list operations; the
    class `Session` holds the list that the operations change in place. */
module Warehouse {

  /** One inventory record. The source keeps it as a dictionary with the keys
      "name" and "quantity"; an item has no identity besides its position. */
  datatype Item = Item(name: string, quantity: int)

  /** One row of the displayed table: the 1-based position (Lp.), the name and
      the quantity of the item shown in it. */
  datatype Row = Row(lp: int, name: string, quantity: int)

  /** What `add_item` reports: the record it appended, or invalid input. */
  datatype AddResult = Added(item: Item) | InvalidInput

  /** What `remove_item` reports: the record it took out, or an invalid index. */
  datatype RemoveResult = Removed(item: Item) | InvalidIndex

  /** One user action of a session, as the forms hand it to the list operations. */
  datatype Op = Add(name: string, quantity: int) | Remove(index: int)

  // ---------------------------------------------------------------------------
  // Guards and the element invariant

  /** The guard of `add_item`: the name is truthy (a non-empty string; no
      trimming, so a name of spaces passes) and the quantity is positive. */
  predicate Acceptable(name: string, quantity: int)
  {
    name != [] && quantity > 0
  }

  /** The guard of `remove_item`: the index lies in [0, length). */
  predicate InRange(inv: seq<Item>, index: int)
  {
    0 <= index < |inv|
  }

  /** Every stored record passed the guard of `add_item`. */
  predicate AllWellFormed(inv: seq<Item>)
  {
    forall i :: 0 <= i < |inv| ==> Acceptable(inv[i].name, inv[i].quantity)
  }

  // ---------------------------------------------------------------------------
  // The list operations, as functions of the old list

  /** The list after `pop(index)`: later records move down by one place, and
      the removed record together with what is left is the old list. */
  function Delete(inv: seq<Item>, index: nat): (r: seq<Item>)
    requires index < |inv|
    ensures |r| == |inv| - 1
    ensures forall i :: 0 <= i < index ==> r[i] == inv[i]
    ensures forall i :: index <= i < |r| ==> r[i] == inv[i + 1]
    ensures multiset(r) + multiset{inv[index]} == multiset(inv)
  {
    assert inv == inv[..index] + [inv[index]] + inv[index + 1..];
    inv[..index] + inv[index + 1..]
  }

  /** The list after `add_item(name, quantity)`. */
  function AddSpec(inv: seq<Item>, name: string, quantity: int): (r: seq<Item>)
    ensures Acceptable(name, quantity) ==>
              |r| == |inv| + 1 && r[..|inv|] == inv && r[|inv|] == Item(name, quantity)
    ensures !Acceptable(name, quantity) ==> r == inv
    ensures AllWellFormed(inv) ==> AllWellFormed(r)
  {
    if name != [] && quantity > 0 then inv + [Item(name, quantity)] else inv
  }

  /** The list after `remove_item(index)`. */
  function RemoveSpec(inv: seq<Item>, index: int): (r: seq<Item>)
    ensures InRange(inv, index) ==>
              |r| == |inv| - 1 && multiset(r) + multiset{inv[index]} == multiset(inv)
    ensures InRange(inv, index) ==> r[..index] == inv[..index] && r[index..] == inv[index + 1..]
    ensures !InRange(inv, index) ==> r == inv
    ensures inv == [] ==> r == []
    ensures AllWellFormed(inv) ==> AllWellFormed(r)
  {
    if 0 <= index < |inv| then Delete(inv, index) else inv
  }

  /** The list after one user action. */
  function Apply(inv: seq<Item>, op: Op): seq<Item>
  {
    match op
    case Add(name, quantity) => AddSpec(inv, name, quantity)
    case Remove(index) => RemoveSpec(inv, index)
  }

  /** The list after a whole sequence of user actions, in order. */
  function Run(inv: seq<Item>, ops: seq<Op>): seq<Item>
    decreases |ops|
  {
    if ops == [] then inv else Run(Apply(inv, ops[0]), ops[1..])
  }

  /** No sequence of adds and removes lets a record with an empty name or a
      non-positive quantity into a list that had none. */
  lemma {:induction false} RunPreservesWellFormed(inv: seq<Item>, ops: seq<Op>)
    requires AllWellFormed(inv)
    ensures AllWellFormed(Run(inv, ops))
    decreases |ops|
  {
    if ops != [] {
      RunPreservesWellFormed(Apply(inv, ops[0]), ops[1..]);
    }
  }

  /** A session starts with the empty list, so after any sequence of actions
      every record has a non-empty name and a positive quantity. */
  lemma SessionItemsWellFormed(ops: seq<Op>)
    ensures AllWellFormed(Run([], ops))
  {
    RunPreservesWellFormed([], ops);
  }

  // ---------------------------------------------------------------------------
  // The displayed table

  /** The table row for the item at 1-based position `lp`. */
  function RowOf(lp: int, item: Item): Row
  {
    Row(lp, item.name, item.quantity)
  }

  /** The rows built by the display loop: one per item, appended in list order,
      so row i shows position i + 1 and the item at index i. */
  function DisplayRows(inv: seq<Item>): (rows: seq<Row>)
    ensures |rows| == |inv|
    ensures forall i :: 0 <= i < |inv| ==> rows[i] == Row(i + 1, inv[i].name, inv[i].quantity)
  {
    if inv == [] then [] else DisplayRows(inv[..|inv| - 1]) + [RowOf(|inv|, inv[|inv| - 1])]
  }

  /** The positions that appear in the Lp. column. */
  function Positions(rows: seq<Row>): set<int>
  {
    set r | r in rows :: r.lp
  }

  /** The Lp. column holds exactly 1..N, increasing down the table. */
  lemma PositionsAreOneToN(inv: seq<Item>)
    ensures forall p :: p in Positions(DisplayRows(inv)) ==> 1 <= p <= |inv|
    ensures forall p :: 1 <= p <= |inv| ==> p in Positions(DisplayRows(inv))
    ensures forall i, j :: 0 <= i < j < |inv| ==> DisplayRows(inv)[i].lp < DisplayRows(inv)[j].lp
  {
    var rows := DisplayRows(inv);
    forall p | 1 <= p <= |inv|
      ensures p in Positions(rows)
    {
      assert rows[p - 1] in rows;
    }
  }

  /** Removing the item shown at Lp. `p` (index p - 1, as the remove form
      passes it) takes out exactly that row's record; the table afterwards is
      the old one without row p, each later row moved up one place with its Lp. lowered by one. */
  lemma RemoveAtPositionDeletesShownRow(inv: seq<Item>, p: int)
    requires 1 <= p <= |inv|
    ensures DisplayRows(inv)[p - 1] == RowOf(p, inv[p - 1])
    ensures multiset(RemoveSpec(inv, p - 1)) + multiset{inv[p - 1]} == multiset(inv)
    ensures |DisplayRows(RemoveSpec(inv, p - 1))| == |inv| - 1
    ensures forall k :: 0 <= k < p - 1 ==> DisplayRows(RemoveSpec(inv, p - 1))[k] == DisplayRows(inv)[k]
    ensures forall k :: p <= k < |inv| ==>
              DisplayRows(RemoveSpec(inv, p - 1))[k - 1] == DisplayRows(inv)[k].(lp := k)
  {
  }

  // ---------------------------------------------------------------------------
  // The session's list, changed in place

  /** The inventory kept in the session state for as long as the session lives. */
  class Session {
    var inventory: seq<Item>

    /** A new session starts with an empty inventory. */
    constructor ()
      ensures inventory == []
      ensures AllWellFormed(inventory)
    {
      inventory := [];
    }

    /** `add_item`: appends the record when the name is non-empty and the
        quantity positive, and otherwise leaves the list alone. */
    method AddItem(name: string, quantity: int) returns (outcome: AddResult)
      modifies this
      ensures outcome == if Acceptable(name, quantity) then Added(Item(name, quantity)) else InvalidInput
      ensures inventory == AddSpec(old(inventory), name, quantity)
      ensures AllWellFormed(old(inventory)) ==> AllWellFormed(inventory)
    {
      if name != [] && quantity > 0 {
        inventory := inventory + [Item(name, quantity)];
        outcome := Added(Item(name, quantity));
      } else {
        outcome := InvalidInput;
      }
    }

    /** `remove_item`: pops the record at a 0-based index in [0, length) and
        reports it; any other index is rejected and the list left alone. */
    method RemoveItem(index: int) returns (outcome: RemoveResult)
      modifies this
      ensures outcome.Removed? <==> InRange(old(inventory), index)
      ensures outcome.Removed? ==> outcome.item == old(inventory)[index]
      ensures inventory == RemoveSpec(old(inventory), index)
      ensures AllWellFormed(old(inventory)) ==> AllWellFormed(inventory)
    {
      if 0 <= index && index < |inventory| {
        var removed := inventory[index];
        inventory := inventory[..index] + inventory[index + 1..];
        outcome := Removed(removed);
      } else {
        outcome := InvalidIndex;
      }
    }

    /** The remove form: the user types the Lp. shown in the table, which has
        a lower bound of 1 but no upper bound, and the form passes Lp. - 1 to
        `remove_item`. What comes out is the record of the row shown at Lp. */
    method RemoveByPosition(lp: int) returns (outcome: RemoveResult)
      modifies this
      ensures outcome.Removed? <==> 1 <= lp <= |old(inventory)|
      ensures outcome.Removed? ==> DisplayRows(old(inventory))[lp - 1] == RowOf(lp, outcome.item)
      ensures inventory == RemoveSpec(old(inventory), lp - 1)
    {
      outcome := RemoveItem(lp - 1);
    }

    /** The display loop: enumerates the list and appends one row per item. */
    method DisplayData() returns (rows: seq<Row>)
      ensures rows == DisplayRows(inventory)
    {
      rows := [];
      var i := 0;
      while i < |inventory|
        invariant 0 <= i <= |inventory|
        invariant rows == DisplayRows(inventory[..i])
      {
        assert inventory[..i + 1][..i] == inventory[..i];
        rows := rows + [RowOf(i + 1, inventory[i])];
        i := i + 1;
      }
      assert inventory[..i] == inventory;
    }
  }

  /** The scenarios of a session: add to an empty list, remove by position,
      and the rejected inputs. */
  method SessionScenario()
  {
    var s := new Session();
    var a := s.AddItem("Bolt", 10);
    assert a == Added(Item("Bolt", 10));
    var rows := s.DisplayData();
    assert rows == [Row(1, "Bolt", 10)];
    a := s.AddItem("Nut", 5);
    var r := s.RemoveByPosition(1);
    assert r == Removed(Item("Bolt", 10));
    assert s.inventory == [Item("Nut", 5)];
    rows := s.DisplayData();
    assert rows == [Row(1, "Nut", 5)];
    a := s.AddItem("", 5);
    assert a == InvalidInput;
    a := s.AddItem("Screw", 0);
    assert a == InvalidInput;
    assert s.inventory == [Item("Nut", 5)];
    r := s.RemoveByPosition(2);
    assert r == InvalidIndex;
    var empty := new Session();
    r := empty.RemoveByPosition(1);
    assert r == InvalidIndex && empty.inventory == [];
  }
}
