/** Board construction (transforms.ts). */
module Transforms {
  import opened Types

  /** An empty board: `cols * rows` empty cells pushed column by column,
      and nothing in the trash. */
  method EmptyBoard(cols: nat, rows: nat) returns (bs: Board)
    ensures |bs.cells| == cols * rows
    ensures forall i :: 0 <= i < |bs.cells| ==> bs.cells[i] == Empty
    ensures bs.trashedCardIds == []
  {
    bs := Board([], []);
    for i := 0 to cols
      invariant |bs.cells| == i * rows
      invariant forall k :: 0 <= k < |bs.cells| ==> bs.cells[k] == Empty
      invariant bs.trashedCardIds == []
    {
      for j := 0 to rows
        invariant |bs.cells| == i * rows + j
        invariant forall k :: 0 <= k < |bs.cells| ==> bs.cells[k] == Empty
        invariant bs.trashedCardIds == []
      {
        bs := bs.(cells := bs.cells + [Empty]);
      }
      assert i * rows + rows == (i + 1) * rows;
    }
  }
}
