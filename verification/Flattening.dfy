/** How queries turn nested payload lists into numbered rows: rows carry the positions they came from, and
    row_number() numbers them by those positions, whatever order they were produced in. */
module Flattening {
  import opened Sorting

  /** A value with the positions, counted from one, of its block, group, row and slot. */
  datatype Row = Row(block: nat, group: nat, row: nat, slot: nat, value: string)

  /** The window's ORDER BY. */
  predicate Before(a: Row, b: Row) {
    || a.block < b.block
    || (a.block == b.block && (
          || a.group < b.group
          || (a.group == b.group && (
                || a.row < b.row
                || (a.row == b.row && a.slot <= b.slot)))))
  }

  const BY_POSITION := (a: Row, b: Row) => Before(a, b)

  /** jsonb_array_elements WITH ORDINALITY. */
  function Elements(values: seq<string>, block: nat, group: nat, row: nat): (r: seq<Row>)
    ensures |r| == |values|
    ensures forall i | 0 <= i < |r| :: r[i] == Row(block, group, row, i + 1, values[i])
  {
    if values == [] then []
    else Elements(values[..|values| - 1], block, group, row) + [Row(block, group, row, |values|, values[|values| - 1])]
  }

  function Values(rows: seq<Row>): (r: seq<string>)
    ensures |r| == |rows| && forall i | 0 <= i < |r| :: r[i] == rows[i].value
  {
    if rows == [] then [] else Values(rows[..|rows| - 1]) + [rows[|rows| - 1].value]
  }

  /** The values by their row_number(): position n - 1 holds the value numbered n. */
  function ByRowNumber(rows: seq<Row>): seq<string> {
    Values(Sort(rows, BY_POSITION))
  }

  // ----- two levels: lists of lists -----

  /** A lateral join of each outer element with its inner list. */
  function ListRows(lists: seq<seq<string>>): seq<Row> {
    if lists == [] then []
    else ListRows(lists[..|lists| - 1]) + Elements(lists[|lists| - 1], |lists|, 0, 0)
  }

  function Concat(lists: seq<seq<string>>): seq<string> {
    if lists == [] then [] else Concat(lists[..|lists| - 1]) + lists[|lists| - 1]
  }

  // ----- answer plans: blocks of slots and of table rows -----

  datatype Block = Block(slots: seq<string>, rows: seq<seq<string>>)

  /** The first arm of the union: the claim slots of every block. */
  function SlotRows(blocks: seq<Block>): seq<Row> {
    if blocks == [] then []
    else SlotRows(blocks[..|blocks| - 1]) + Elements(blocks[|blocks| - 1].slots, |blocks|, 0, 0)
  }

  function TableRows(rows: seq<seq<string>>, block: nat): seq<Row> {
    if rows == [] then []
    else TableRows(rows[..|rows| - 1], block) + Elements(rows[|rows| - 1], block, 1, |rows|)
  }

  /** The second arm: the cells of every table row of every block. */
  function CellRows(blocks: seq<Block>): seq<Row> {
    if blocks == [] then []
    else CellRows(blocks[..|blocks| - 1]) + TableRows(blocks[|blocks| - 1].rows, |blocks|)
  }

  /** Block by block, the slots first and then the cells row by row. */
  function Selected(blocks: seq<Block>): seq<string> {
    if blocks == [] then []
    else
      var last := blocks[|blocks| - 1];
      Selected(blocks[..|blocks| - 1]) + (last.slots + Concat(last.rows))
  }

  /** The claim slots alone. */
  function Slots(blocks: seq<Block>): seq<string> {
    if blocks == [] then [] else Slots(blocks[..|blocks| - 1]) + blocks[|blocks| - 1].slots
  }

  /** The rows of both arms in payload order. */
  function NestedRows(blocks: seq<Block>): seq<Row> {
    if blocks == [] then []
    else
      var last := blocks[|blocks| - 1];
      NestedRows(blocks[..|blocks| - 1]) + (Elements(last.slots, |blocks|, 0, 0) + TableRows(last.rows, |blocks|))
  }

  // ----- sorting by position restores payload order -----

  lemma {:induction false} ByPositionIsTotal()
    ensures TotalPreorder(BY_POSITION)
  {}

  /** Sorted, and no two rows with the same position. */
  ghost predicate InOrder(rows: seq<Row>) {
    forall i, j | 0 <= i < j < |rows| :: Before(rows[i], rows[j]) && !Before(rows[j], rows[i])
  }

  lemma {:induction false} JoinInOrder(a: seq<Row>, b: seq<Row>)
    requires InOrder(a) && InOrder(b)
    requires forall x, y | x in a && y in b :: Before(x, y) && !Before(y, x)
    ensures InOrder(a + b)
  {}

  lemma {:induction false} ValuesJoin(a: seq<Row>, b: seq<Row>)
    ensures Values(a + b) == Values(a) + Values(b)
  {}

  /** Rows that list their positions in order are what sorting makes of any arrangement of them. */
  lemma {:induction false} SortedBack(rows: seq<Row>, inOrder: seq<Row>)
    requires multiset(rows) == multiset(inOrder) && InOrder(inOrder)
    ensures ByRowNumber(rows) == Values(inOrder)
  {
    ByPositionIsTotal();
    SortSorts(rows, BY_POSITION);
    var sorted := Sort(rows, BY_POSITION);
    assert SortedBy(inOrder, BY_POSITION);
    forall x, y | x in inOrder && y in inOrder && Before(x, y) && Before(y, x) ensures x == y {
      var i :| 0 <= i < |inOrder| && inOrder[i] == x;
      var j :| 0 <= j < |inOrder| && inOrder[j] == y;
      assert i == j;
    }
    SortedIsUnique(inOrder, sorted, BY_POSITION);
  }

  lemma {:induction false} ListRowsInOrder(lists: seq<seq<string>>)
    ensures InOrder(ListRows(lists)) && Values(ListRows(lists)) == Concat(lists)
    ensures forall r | r in ListRows(lists) :: r.block <= |lists|
  {
    if lists != [] {
      var front, last := ListRows(lists[..|lists| - 1]), Elements(lists[|lists| - 1], |lists|, 0, 0);
      ListRowsInOrder(lists[..|lists| - 1]);
      JoinInOrder(front, last);
      ValuesJoin(front, last);
      assert Values(last) == lists[|lists| - 1];
    }
  }

  /** Numbering a flattened list of lists gives its concatenation. */
  lemma {:induction false} ListsKeepOrder(lists: seq<seq<string>>, rows: seq<Row>)
    requires multiset(rows) == multiset(ListRows(lists))
    ensures ByRowNumber(rows) == Concat(lists)
  {
    ListRowsInOrder(lists);
    SortedBack(rows, ListRows(lists));
  }

  lemma {:induction false} TableRowsInOrder(rows: seq<seq<string>>, block: nat)
    ensures InOrder(TableRows(rows, block)) && Values(TableRows(rows, block)) == Concat(rows)
    ensures forall r | r in TableRows(rows, block) :: r.block == block && r.group == 1 && r.row <= |rows|
  {
    if rows != [] {
      var front, last := TableRows(rows[..|rows| - 1], block), Elements(rows[|rows| - 1], block, 1, |rows|);
      TableRowsInOrder(rows[..|rows| - 1], block);
      JoinInOrder(front, last);
      ValuesJoin(front, last);
      assert Values(last) == rows[|rows| - 1];
    }
  }

  lemma {:induction false} BlockInOrder(b: Block, n: nat)
    ensures var rows := Elements(b.slots, n, 0, 0) + TableRows(b.rows, n);
      InOrder(rows) && Values(rows) == b.slots + Concat(b.rows) && forall r | r in rows :: r.block == n
  {
    var slots, cells := Elements(b.slots, n, 0, 0), TableRows(b.rows, n);
    TableRowsInOrder(b.rows, n);
    assert Values(slots) == b.slots;
    JoinInOrder(slots, cells);
    ValuesJoin(slots, cells);
  }

  lemma {:induction false} NestedRowsInOrder(blocks: seq<Block>)
    ensures InOrder(NestedRows(blocks)) && Values(NestedRows(blocks)) == Selected(blocks)
    ensures forall r | r in NestedRows(blocks) :: r.block <= |blocks|
  {
    if blocks != [] {
      var last := blocks[|blocks| - 1];
      var front := NestedRows(blocks[..|blocks| - 1]);
      var slots, cells := Elements(last.slots, |blocks|, 0, 0), TableRows(last.rows, |blocks|);
      NestedRowsInOrder(blocks[..|blocks| - 1]);
      BlockInOrder(last, |blocks|);
      hide TableRows, Elements, InOrder, Values;
      JoinInOrder(front, slots + cells);
      ValuesJoin(front, slots + cells);
    }
  }

  lemma {:induction false} NestedHasBothArms(blocks: seq<Block>)
    ensures multiset(NestedRows(blocks)) == multiset(SlotRows(blocks)) + multiset(CellRows(blocks))
  {
    if blocks != [] {
      NestedHasBothArms(blocks[..|blocks| - 1]);
    }
  }

  /** However the union delivers its rows, numbering them gives, block by block, slots and then cells. */
  lemma {:induction false} SelectionKeepsOrder(blocks: seq<Block>, rows: seq<Row>)
    requires multiset(rows) == multiset(SlotRows(blocks) + CellRows(blocks))
    ensures ByRowNumber(rows) == Selected(blocks)
  {
    NestedHasBothArms(blocks);
    NestedRowsInOrder(blocks);
    SortedBack(rows, NestedRows(blocks));
  }
}
