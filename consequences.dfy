/** The sink a transition reports to (rules/consequences.ts). The recording
    sink keeps every report in order; the null sink drops them. Both are one
    class here, told apart by `recording`. */
module ConsequenceLog {
  import opened Types

  /** One intermediate state to animate, and how long to show it. */
  datatype Snap = Snap(state: GameState, millis: int)

  class Consequences {
    const recording: bool
    var rowsCleared: seq<int>
    var colsCleared: seq<int>
    var snaps: seq<Snap>

    /** A new recording sink starts with all three logs empty. */
    constructor Recording()
      ensures recording
      ensures rowsCleared == [] && colsCleared == [] && snaps == []
    {
      recording := true;
      rowsCleared, colsCleared, snaps := [], [], [];
    }

    /** The null sink: its logs stay empty for ever. */
    constructor Null()
      ensures !recording
      ensures rowsCleared == [] && colsCleared == [] && snaps == []
    {
      recording := false;
      rowsCleared, colsCleared, snaps := [], [], [];
    }

    /** clearedRow: the row goes at the end of `rowsCleared`. */
    method ClearedRow(row: int)
      modifies this`rowsCleared
      ensures rowsCleared == old(rowsCleared) + (if recording then [row] else [])
    {
      if recording {
        rowsCleared := rowsCleared + [row];
      }
    }

    /** clearedCol: the column goes at the end of `colsCleared`. */
    method ClearedCol(col: int)
      modifies this`colsCleared
      ensures colsCleared == old(colsCleared) + (if recording then [col] else [])
    {
      if recording {
        colsCleared := colsCleared + [col];
      }
    }

    /** snapshot: a recording sink puts the snapshot value it is given at
        the end of `snaps`; a null sink keeps its log. */
    method Snapshot(snap: Snap)
      modifies this`snaps
      ensures snaps == old(snaps) + (if recording then [snap] else [])
    {
      if recording {
        snaps := snaps + [snap];
      }
    }
  }
}
