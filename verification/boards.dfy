/**
 The `Board` class: nine cells in `@position`. A free cell holds its own
 1-based number (an Integer); a taken cell holds the marker string of the
 player who took it. `fill` is the only operation that changes the board.
 */
module Boards {
  import opened Ruby

  /** The player hash `{name:, player_char:}` that the setup dialogue builds
      and `fill` reads the marker from. */
  datatype Player = Player(name: string, marker: string)

  /** One entry of `@position`: an Integer while free, a marker once taken.
      Ruby's `==` on these values is Dafny's datatype equality: an Integer
      never equals a String. */
  datatype Cell = Free(n: int) | Mark(marker: string)

  type Board = b: seq<Cell> | |b| == 9
    witness [Free(1), Free(2), Free(3), Free(4), Free(5), Free(6), Free(7), Free(8), Free(9)]

  /** `Board.new`: the cells hold 1 through 9. */
  function Initial(): (b: Board)
    ensures forall i :: 0 <= i < 9 ==> b[i] == Free(i + 1)
  {
    [Free(1), Free(2), Free(3), Free(4), Free(5), Free(6), Free(7), Free(8), Free(9)]
  }

  /** The number of cells still holding an Integer; none are left exactly
      when every cell holds a marker. */
  function FreeCount(s: seq<Cell>): (r: nat)
    ensures r <= |s|
    ensures r == 0 <==> forall i :: 0 <= i < |s| ==> s[i].Mark?
  {
    if |s| == 0 then 0 else (if s[0].Free? then 1 else 0) + FreeCount(s[1..])
  }

  /** What `fill` answers, together with the board after the call. */
  datatype FillResult = FillResult(accepted: bool, board: Board)

  /** `value.class == Integer`; `nil` (read past the end) is not an Integer. */
  predicate HoldsInteger(c: Option<Cell>) {
    c.Some? && c.value.Free?
  }

  /** `fill(slot, player)`. The guard bounds the index by 9 rather than 8,
      but `@position[9]` is `nil`, so the accepted slots are exactly the
      free cells 1 through 9; exactly that cell changes, to the player's
      marker, and a rejected slot leaves the board as it was. */
  function Fill(b: Board, slot: string, player: Player): (r: FillResult)
    ensures r.accepted <==> 1 <= ToI(slot) <= 9 && b[ToI(slot) - 1].Free?
    ensures r.accepted ==> r.board[ToI(slot) - 1] == Mark(player.marker)
    ensures r.accepted ==> forall i :: 0 <= i < 9 && i != ToI(slot) - 1 ==> r.board[i] == b[i]
    ensures !r.accepted ==> r.board == b
  {
    var index := ToI(slot) - 1;
    if index >= 0 && index <= 9 && HoldsInteger(At(b, index)) then
      FillResult(true, b[index := Mark(player.marker)])
    else
      FillResult(false, b)
  }

  /** Occupation is permanent: no `fill` changes a cell that holds a marker. */
  lemma FillKeepsMarks(b: Board, slot: string, player: Player)
    ensures forall i :: 0 <= i < 9 && b[i].Mark? ==> Fill(b, slot, player).board[i] == b[i]
  {
  }

  /** Slots from 10 up are refused, `"10"` included: it reads as index 9,
      which passes the written bound, but there is no cell 10. */
  lemma LargeSlotRejected(b: Board, n: nat, rest: string, player: Player)
    requires n >= 10 && EndsNumber(rest)
    ensures Fill(b, Numeral(n) + rest, player) == FillResult(false, b)
  {
    ToIOfNumeral(n, rest);
  }

  /** A slot that starts, after blanks, with a minus sign reads as zero or
      less, an index below 0, and is refused. */
  lemma NegativeSlotRejected(b: Board, ws: string, s: string, player: Player)
    requires forall i :: 0 <= i < |ws| ==> IsSpace(ws[i])
    ensures Fill(b, ws + "-" + s, player) == FillResult(false, b)
  {
    ToIOfMinus(ws, s);
  }

  /** Slot `0` is refused, whatever text that cannot continue the number
      follows it. */
  lemma ZeroSlotRejected(b: Board, rest: string, player: Player)
    requires EndsNumber(rest) && (rest == [] || (rest[0] != 'd' && rest[0] != 'D'))
    ensures Fill(b, "0" + rest, player) == FillResult(false, b)
  {
    ToIOfNumeral(0, rest);
    assert Numeral(0) == "0";
  }

  /** Non-numeric text reads as slot 0 and is refused. */
  lemma NonNumericRejected(b: Board, slot: string, player: Player)
    requires forall i :: 0 <= i < |slot| ==> !IsDigit(slot[i])
    ensures Fill(b, slot, player) == FillResult(false, b)
  {
    ToINeedsDigit(slot);
  }

  lemma {:induction false} FreeCountAfterTaking(s: seq<Cell>, i: nat, c: Cell)
    requires i < |s| && s[i].Free? && c.Mark?
    ensures FreeCount(s[i := c]) == FreeCount(s) - 1
  {
    if i == 0 {
      assert s[i := c][1..] == s[1..];
    } else {
      assert s[i := c][1..] == s[1..][i - 1 := c];
      FreeCountAfterTaking(s[1..], i - 1, c);
    }
  }

  /** Each accepted `fill` takes exactly one Integer cell; a refused one none. */
  lemma FillFreeCount(b: Board, slot: string, player: Player)
    ensures var r := Fill(b, slot, player);
            FreeCount(r.board) == FreeCount(b) - (if r.accepted then 1 else 0)
  {
    var r := Fill(b, slot, player);
    if r.accepted {
      var index := ToI(slot) - 1;
      assert r.board == b[index := Mark(player.marker)];
      FreeCountAfterTaking(b, index, Mark(player.marker));
    }
  }

  /** Every free cell still holds its own number, as on a new board. */
  predicate Wf(b: Board) {
    forall i :: 0 <= i < 9 && b[i].Free? ==> b[i].n == i + 1
  }

  lemma FillPreservesWf(b: Board, slot: string, player: Player)
    requires Wf(b)
    ensures Wf(Fill(b, slot, player).board)
  {
  }

  /** The board `Board.new` reaches through the given `fill` calls, in order. */
  function Replay(moves: seq<(string, Player)>): Board {
    if |moves| == 0 then Initial()
    else
      var last := moves[|moves| - 1];
      Fill(Replay(moves[..|moves| - 1]), last.0, last.1).board
  }

  /** Every reachable board keeps the free cells' numbers. */
  lemma {:induction false} ReplayIsWf(moves: seq<(string, Player)>)
    ensures Wf(Replay(moves))
  {
    if |moves| > 0 {
      ReplayIsWf(moves[..|moves| - 1]);
      var last := moves[|moves| - 1];
      FillPreservesWf(Replay(moves[..|moves| - 1]), last.0, last.1);
    }
  }

  /** On a board whose free cells hold distinct numbers, three distinct cells
      are equal exactly when all three hold the same marker. */
  lemma EqualCellsAreMarks(b: Board, i: nat, j: nat, k: nat)
    requires Wf(b)
    requires i < 9 && j < 9 && k < 9 && i != j && j != k && i != k
    ensures (b[i] == b[j] && b[i] == b[k]) <==> (b[i].Mark? && b[j] == b[i] && b[k] == b[i])
  {
  }

  /** The same on every board reachable from `Board.new` by `fill`. */
  lemma ReachableEqualCellsAreMarks(moves: seq<(string, Player)>, i: nat, j: nat, k: nat)
    requires i < 9 && j < 9 && k < 9 && i != j && j != k && i != k
    ensures var b := Replay(moves);
            (b[i] == b[j] && b[i] == b[k]) <==> (b[i].Mark? && b[j] == b[i] && b[k] == b[i])
  {
    ReplayIsWf(moves);
    EqualCellsAreMarks(Replay(moves), i, j, k);
  }
}
