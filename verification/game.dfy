/**
 The `Game` class: the active player, `switch_active_player`, the win/draw
 test `end_condition`, and the `start` loop, driven here by a finite list of
 input lines (what `gets.chomp` would return) and producing the list of
 things the loop shows or prints.
 */
module Game {
  import opened Ruby
  import opened Boards

  /** Which of the controller's two player objects is active. The source
      compares players by object identity (`equal?`), so two players with
      equal hashes are still told apart; a seat models that identity. */
  datatype Seat = P1 | P2

  /** `switch_active_player`. */
  function Switch(s: Seat): (r: Seat)
    ensures r != s
  {
    if s == P1 then P2 else P1
  }

  lemma SwitchTwice(s: Seat)
    ensures Switch(Switch(s)) == s
  {
  }

  // ---------------------------------------------------------------------------
  // end_condition
  // ---------------------------------------------------------------------------

  /** What `end_condition` returns: the active player (a win), `false` (play
      on) or `true` (a draw). */
  datatype Outcome = Win(winner: Seat) | NotOver | Draw

  /** The win test of `end_condition` as written: eight index triples, each
      compared with plain `==`. */
  predicate HasLine(g: Board) {
    (g[0] == g[1] && g[0] == g[2]) ||
    (g[3] == g[4] && g[3] == g[5]) ||
    (g[6] == g[7] && g[6] == g[8]) ||
    (g[0] == g[3] && g[0] == g[6]) ||
    (g[1] == g[4] && g[1] == g[7]) ||
    (g[2] == g[5] && g[2] == g[8]) ||
    (g[0] == g[4] && g[0] == g[8]) ||
    (g[2] == g[4] && g[2] == g[6])
  }

  function Row(i: nat): nat { i / 3 }
  function Col(i: nat): nat { i % 3 }

  /** Three cells, in increasing order, on one row, one column or one of the
      two diagonals of the 3x3 grid. */
  predicate Aligned(i: int, j: int, k: int) {
    && 0 <= i < j < k < 9
    && ( (Row(i) == Row(j) && Row(j) == Row(k))
      || (Col(i) == Col(j) && Col(j) == Col(k))
      || (Row(i) == Col(i) && Row(j) == Col(j) && Row(k) == Col(k))
      || (Row(i) + Col(i) == 2 && Row(j) + Col(j) == 2 && Row(k) + Col(k) == 2))
  }

  /** Some line of three aligned cells holds one value throughout. */
  ghost predicate SomeLineUniform(g: Board) {
    exists i, j, k :: Aligned(i, j, k) && g[i] == g[j] && g[j] == g[k]
  }

  /** Some line of three aligned cells holds one marker throughout. */
  ghost predicate SomeLineMarked(g: Board, marker: string) {
    exists i, j, k :: Aligned(i, j, k) && g[i] == Mark(marker) && g[j] == Mark(marker) && g[k] == Mark(marker)
  }

  /** The eight aligned triples are exactly the rows, columns and diagonals. */
  lemma AlignedTriples(i: int, j: int, k: int)
    requires Aligned(i, j, k)
    ensures (i, j, k) in {(0, 1, 2), (3, 4, 5), (6, 7, 8), (0, 3, 6), (1, 4, 7), (2, 5, 8), (0, 4, 8), (2, 4, 6)}
  {
  }

  /** The literal list of eight triples tests exactly the aligned lines. */
  lemma HasLineIsSomeLineUniform(g: Board)
    ensures HasLine(g) <==> SomeLineUniform(g)
  {
    if SomeLineUniform(g) {
      var i, j, k :| Aligned(i, j, k) && g[i] == g[j] && g[j] == g[k];
      AlignedTriples(i, j, k);
    }
    if HasLine(g) {
      if g[0] == g[1] && g[0] == g[2] { assert Aligned(0, 1, 2); }
      else if g[3] == g[4] && g[3] == g[5] { assert Aligned(3, 4, 5); }
      else if g[6] == g[7] && g[6] == g[8] { assert Aligned(6, 7, 8); }
      else if g[0] == g[3] && g[0] == g[6] { assert Aligned(0, 3, 6); }
      else if g[1] == g[4] && g[1] == g[7] { assert Aligned(1, 4, 7); }
      else if g[2] == g[5] && g[2] == g[8] { assert Aligned(2, 5, 8); }
      else if g[0] == g[4] && g[0] == g[8] { assert Aligned(0, 4, 8); }
      else { assert Aligned(2, 4, 6); }
    }
  }

  /** `end_condition` with `active` as `@active_player`. The win test comes
      first, so a full board with a line is a win; with no line, the game
      goes on while some cell still holds an Integer, and is a draw when
      none does. A win is credited to whoever is active. */
  function EndCondition(g: Board, active: Seat): (r: Outcome)
    ensures r.Win? <==> SomeLineUniform(g)
    ensures r.Win? ==> r.winner == active
    ensures r == NotOver <==> !SomeLineUniform(g) && exists i :: 0 <= i < 9 && g[i].Free?
    ensures r == Draw <==> !SomeLineUniform(g) && forall i :: 0 <= i < 9 ==> g[i].Mark?
  {
    HasLineIsSomeLineUniform(g);
    if HasLine(g) then Win(active)
    else if exists i :: 0 <= i < 9 && g[i].Free? then NotOver
    else Draw
  }

  /** On a board reachable by `fill`, free cells never make a line, since
      they hold distinct numbers: a win needs three equal markers. */
  lemma WinNeedsMarkers(g: Board, active: Seat)
    requires Wf(g)
    ensures EndCondition(g, active).Win? <==> exists m :: SomeLineMarked(g, m)
  {
    if EndCondition(g, active).Win? {
      var i, j, k :| Aligned(i, j, k) && g[i] == g[j] && g[j] == g[k];
      EqualCellsAreMarks(g, i, j, k);
      assert SomeLineMarked(g, g[i].marker);
    }
  }

  /** Without that invariant the plain `==` test would see a line of free
      cells: a board whose top row holds three equal Integers is a "win". */
  lemma EqualIntegersLineUp()
    ensures var g: Board := [Free(1), Free(1), Free(1), Free(4), Free(5), Free(6), Free(7), Free(8), Free(9)];
            !Wf(g) && EndCondition(g, P1) == Win(P1) && !exists m :: SomeLineMarked(g, m)
  {
    var g: Board := [Free(1), Free(1), Free(1), Free(4), Free(5), Free(6), Free(7), Free(8), Free(9)];
    assert Aligned(0, 1, 2);
    assert g[1].Free? && g[1].n != 2;
    assert forall i :: 0 <= i < 9 ==> g[i].Free?;
  }

  // ---------------------------------------------------------------------------
  // The start loop
  // ---------------------------------------------------------------------------

  /** The game's state: the controller's two players and board, and the
      active player. */
  datatype State = State(player1: Player, player2: Player, board: Board, active: Seat) {
    function ActivePlayer(): Player {
      if active == P1 then player1 else player2
    }
  }

  /** A new game: a fresh board with player 1 active. */
  function NewGame(player1: Player, player2: Player): (s: State)
    ensures s.active == P1 && s.ActivePlayer() == player1
    ensures s.player1 == player1 && s.player2 == player2
    ensures forall i :: 0 <= i < 9 ==> s.board[i] == Free(i + 1)
  {
    State(player1, player2, Initial(), P1)
  }

  /** A new game's board keeps its numbers, has all nine cells free and no
      line. */
  lemma NewGameIsOpen(player1: Player, player2: Player)
    ensures var g := NewGame(player1, player2).board;
            Wf(g) && FreeCount(g) == 9 && !SomeLineUniform(g)
  {
    var g := NewGame(player1, player2).board;
    assert FreeCount(g[8..]) == 1;
    HasLineIsSomeLineUniform(g);
  }

  /** What the loop shows: the board (`display`) or a printed line. */
  datatype Event = Display(board: Board) | Say(text: string)

  function Prompt(p: Player): string {
    p.name + " select a board position"
  }

  const InvalidPosition := "INVALID BOARD POSITION"

  function Congratulations(p: Player): string {
    "Congratulations " + p.name + "! \"" + p.marker + "\" Wins!"
  }

  const DrawMessage := "DRAW"

  /** The closing message: congratulations when `end_condition` returned the
      active player (`winner.equal?(@active_player)`), otherwise a draw. */
  function Announcement(s: State, result: Outcome): string {
    if result == Win(s.active) then Congratulations(s.ActivePlayer()) else DrawMessage
  }

  /** One pass of the loop: either it goes round again with the next state
      (`moved` tells whether a cell was taken), or it breaks out. */
  datatype Turn =
    | Continue(next: State, out: seq<Event>, moved: bool)
    | Over(last: State, result: Outcome, out: seq<Event>)

  /** One pass of the `start` loop with the input line `line`. Every pass
      shows the board and then asks the active player for a position. A
      refused slot prints the notice and leaves the state exactly as it was;
      an accepted one that ends the game shows the final board and breaks out
      with the same player still active; any other accepted one hands the
      turn to the other player. */
  function PlayTurn(s: State, line: string): (t: Turn)
    ensures |t.out| >= 2 && t.out[..2] == [Display(s.board), Say(Prompt(s.ActivePlayer()))]
    ensures t.Over? ==> |t.out| == 4 && t.out[2] == Display(t.last.board)
    ensures t.Continue? && t.moved ==> |t.out| == 2
    ensures t.Continue? && !t.moved ==> |t.out| == 3
    ensures var f := Fill(s.board, line, s.ActivePlayer());
            && (t.Continue? && !t.moved <==> !f.accepted)
            && (t.Continue? && !t.moved ==> t.next == s && |t.out| > 0 && t.out[|t.out| - 1] == Say(InvalidPosition))
            && (t.Continue? && t.moved ==>
                  t.next == s.(board := f.board, active := Switch(s.active))
                  && (exists i :: 0 <= i < 9 && t.next.board[i].Free?)
                  && !SomeLineUniform(t.next.board))
            && (t.Over? ==>
                  t.last == s.(board := f.board) && f.accepted
                  && t.result == EndCondition(f.board, s.active) && t.result != NotOver
                  && |t.out| > 0 && t.out[|t.out| - 1] == Say(Announcement(t.last, t.result)))
  {
    var opening := [Display(s.board), Say(Prompt(s.ActivePlayer()))];
    var f := Fill(s.board, line, s.ActivePlayer());
    if !f.accepted then
      Continue(s, opening + [Say(InvalidPosition)], false)
    else
      var after := s.(board := f.board);
      var result := EndCondition(f.board, s.active);
      if result != NotOver then
        Over(after, result, opening + [Display(f.board), Say(Announcement(after, result))])
      else
        Continue(after.(active := Switch(s.active)), opening, true)
  }

  /** A pass that takes a cell lowers the count of free cells by one; any
      other pass leaves it. */
  lemma TurnFreeCount(s: State, line: string)
    ensures var t := PlayTurn(s, line);
            && (t.Continue? ==> FreeCount(t.next.board) == FreeCount(s.board) - (if t.moved then 1 else 0))
            && (t.Over? ==> FreeCount(t.last.board) == FreeCount(s.board) - 1)
  {
    FillFreeCount(s.board, line, s.ActivePlayer());
  }

  /** How the loop stopped: it broke out with a result, or the input ran
      out (`gets` returned nil) while it waited for a move. `moves` counts
      the accepted fills. */
  datatype Run =
    | Finished(last: State, result: Outcome, out: seq<Event>, moves: nat)
    | InputExhausted(last: State, out: seq<Event>, moves: nat)

  /** The `start` loop over the input lines. A finished game ends on a win
      or a draw, after at least one move, with its message. */
  function Start(s: State, lines: seq<string>): (r: Run)
    ensures r.Finished? ==> r.moves >= 1 && r.result != NotOver
    ensures r.Finished? ==> |r.out| > 0 && r.out[|r.out| - 1] == Say(Announcement(r.last, r.result))
    decreases |lines|
  {
    if |lines| == 0 then
      InputExhausted(s, [Display(s.board), Say(Prompt(s.ActivePlayer()))], 0)
    else
      match PlayTurn(s, lines[0])
      case Over(last, result, out) =>
        Finished(last, result, out, 1)
      case Continue(next, out, moved) =>
        Resume(out, moved, Start(next, lines[1..]))
  }

  /** The rest of a run, behind a pass that went round again: its output
      comes first and its move, if any, is counted. */
  function Resume(out: seq<Event>, moved: bool, rest: Run): (r: Run)
    ensures r.Finished? == rest.Finished? && r.last == rest.last
    ensures r.moves == rest.moves + (if moved then 1 else 0)
    ensures r.out == out + rest.out
    ensures r.Finished? ==> r.result == rest.result
  {
    var taken := if moved then 1 else 0;
    match rest
    case Finished(last, result, more, n) => Finished(last, result, out + more, n + taken)
    case InputExhausted(last, more, n) => InputExhausted(last, out + more, n + taken)
  }

  /** The players never change, no marker is ever removed or replaced, and
      free cells keep their numbers. */
  lemma {:induction false} StartKeepsMarks(s: State, lines: seq<string>)
    ensures var r := Start(s, lines);
            && r.last.player1 == s.player1 && r.last.player2 == s.player2
            && (forall i :: 0 <= i < 9 && s.board[i].Mark? ==> r.last.board[i] == s.board[i])
            && (Wf(s.board) ==> Wf(r.last.board))
    decreases |lines|
  {
    if |lines| > 0 {
      var t := PlayTurn(s, lines[0]);
      if Wf(s.board) {
        FillPreservesWf(s.board, lines[0], s.ActivePlayer());
      }
      if t.Continue? {
        StartKeepsMarks(t.next, lines[1..]);
      }
    }
  }

  /** `Game.new` followed by `start`, for the given players. */
  function Play(player1: Player, player2: Player, lines: seq<string>): Run {
    Start(NewGame(player1, player2), lines)
  }

  /** Every accepted move takes one free cell, and a draw is only declared
      on a full board. */
  lemma {:induction false} StartTakesFreeCells(s: State, lines: seq<string>)
    ensures var r := Start(s, lines);
            && FreeCount(r.last.board) + r.moves == FreeCount(s.board)
            && (r.Finished? && r.result == Draw ==> FreeCount(r.last.board) == 0)
    decreases |lines|
  {
    if |lines| > 0 {
      TurnFreeCount(s, lines[0]);
      var t := PlayTurn(s, lines[0]);
      if t.Continue? {
        StartTakesFreeCells(t.next, lines[1..]);
      }
    }
  }

  /** A game takes at most nine accepted moves, whatever the input. */
  lemma AtMostNineMoves(player1: Player, player2: Player, lines: seq<string>)
    ensures Play(player1, player2, lines).moves <= 9
  {
    NewGameIsOpen(player1, player2);
    StartTakesFreeCells(NewGame(player1, player2), lines);
  }

  /** The move that makes a line is the only cell that changed, so the new
      line runs through it and holds the mover's marker. */
  lemma NewLineHoldsMover(b: Board, b': Board, index: nat, marker: string)
    requires index < 9 && b' == b[index := Mark(marker)]
    requires !SomeLineUniform(b) && SomeLineUniform(b')
    ensures SomeLineMarked(b', marker)
  {
    var i, j, k :| Aligned(i, j, k) && b'[i] == b'[j] && b'[j] == b'[k];
    if index != i && index != j && index != k {
      assert false;
    }
  }

  /** A pass that ends in a win leaves a line of the active player's marker,
      provided there was no line before it. */
  lemma TurnWinnerOwnsLine(s: State, line: string)
    requires !SomeLineUniform(s.board)
    ensures var t := PlayTurn(s, line);
            t.Over? && t.result.Win? ==> SomeLineMarked(t.last.board, t.last.ActivePlayer().marker)
  {
    var t := PlayTurn(s, line);
    if t.Over? && t.result.Win? {
      var f := Fill(s.board, line, s.ActivePlayer());
      assert f.board == s.board[ToI(line) - 1 := Mark(s.ActivePlayer().marker)];
      NewLineHoldsMover(s.board, f.board, ToI(line) - 1, s.ActivePlayer().marker);
    }
  }

  /** The loop credits a win to the right player: the active player at the
      end holds a full line of their own marker. Crediting "whoever is
      active" is sound because the test runs right after that player's move
      and the board had no line before. */
  lemma {:induction false} WinnerOwnsLine(s: State, lines: seq<string>)
    requires !SomeLineUniform(s.board)
    ensures var r := Start(s, lines);
            r.Finished? && r.result.Win? ==> SomeLineMarked(r.last.board, r.last.ActivePlayer().marker)
    decreases |lines|
  {
    if |lines| > 0 {
      TurnWinnerOwnsLine(s, lines[0]);
      var t := PlayTurn(s, lines[0]);
      if t.Continue? {
        WinnerOwnsLine(t.next, lines[1..]);
      }
    }
  }

  /** From a new game, a win is announced for the player whose marker fills
      a line. */
  lemma PlayWinnerOwnsLine(player1: Player, player2: Player, lines: seq<string>)
    ensures var r := Play(player1, player2, lines);
            r.Finished? && r.result.Win? ==>
              && r.result.winner == r.last.active
              && SomeLineMarked(r.last.board, r.last.ActivePlayer().marker)
              && r.out[|r.out| - 1] == Say(Congratulations(r.last.ActivePlayer()))
  {
    NewGameIsOpen(player1, player2);
    WinnerOwnsLine(NewGame(player1, player2), lines);
    var r := Play(player1, player2, lines);
    if r.Finished? && r.result.Win? {
      FinishedWinIsActive(NewGame(player1, player2), lines);
    }
  }

  /** The result the loop breaks out with names the player active at the end. */
  lemma {:induction false} FinishedWinIsActive(s: State, lines: seq<string>)
    ensures var r := Start(s, lines);
            r.Finished? && r.result.Win? ==> r.result.winner == r.last.active
    decreases |lines|
  {
    if |lines| > 0 {
      var t := PlayTurn(s, lines[0]);
      if t.Continue? {
        FinishedWinIsActive(t.next, lines[1..]);
      }
    }
  }

  /** An event the loop shows before it breaks out: the board, a prompt to
      one of the two players, or the notice about a refused position. */
  predicate PassEvent(s: State, e: Event) {
    || e.Display?
    || e == Say(InvalidPosition)
    || e == Say(Prompt(s.player1))
    || e == Say(Prompt(s.player2))
  }

  /** A pass that goes round again shows only pass events, and keeps the
      players. */
  lemma TurnShowsPassEvents(s: State, line: string)
    ensures var t := PlayTurn(s, line);
            && (t.Continue? ==>
                  && t.next.player1 == s.player1 && t.next.player2 == s.player2
                  && forall i :: 0 <= i < |t.out| ==> PassEvent(s, t.out[i]))
            && (t.Over? ==> forall i :: 0 <= i < |t.out| - 1 ==> PassEvent(s, t.out[i]))
  {
    var t := PlayTurn(s, line);
    var o := t.out;
    assert o[..2] == [Display(s.board), Say(Prompt(s.ActivePlayer()))];
    assert o[0] == o[..2][0] && o[1] == o[..2][1];
    assert PassEvent(s, o[0]) && PassEvent(s, o[1]);
    if t.Continue? && !t.moved {
      assert o[2] == Say(InvalidPosition);
    } else if t.Over? {
      assert o[2].Display?;
    }
  }

  /** Everything the loop shows before its closing line is a pass event; a
      run that ran out of input shows nothing else at all. */
  lemma {:induction false} StartShowsPassEvents(s: State, lines: seq<string>)
    ensures var r := Start(s, lines);
            && (r.Finished? ==> forall i :: 0 <= i < |r.out| - 1 ==> PassEvent(s, r.out[i]))
            && (r.InputExhausted? ==> forall i :: 0 <= i < |r.out| ==> PassEvent(s, r.out[i]))
    decreases |lines|
  {
    if |lines| > 0 {
      var t := PlayTurn(s, lines[0]);
      TurnShowsPassEvents(s, lines[0]);
      var r := Start(s, lines);
      if t.Continue? {
        var rest := Start(t.next, lines[1..]);
        StartShowsPassEvents(t.next, lines[1..]);
        assert r == Resume(t.out, t.moved, rest);
        var m := if r.Finished? then |r.out| - 1 else |r.out|;
        forall i | 0 <= i < m
          ensures PassEvent(s, r.out[i])
        {
          if i < |t.out| {
            assert r.out[i] == t.out[i];
          } else {
            assert r.out[i] == rest.out[i - |t.out|];
            assert PassEvent(t.next, rest.out[i - |t.out|]);
          }
        }
      } else {
        assert r.out == t.out;
      }
    }
  }

  /** No pass event reads as an announcement: a prompt ends in `n`, the
      notice starts with `I`, and neither is `DRAW`. */
  lemma PassEventIsNoAnnouncement(s: State, e: Event, p: Player)
    requires PassEvent(s, e)
    ensures e != Say(DrawMessage) && e != Say(Congratulations(p))
  {
    var c := Congratulations(p);
    assert c[|c| - 1] == '!' && c[0] == 'C';
    if e == Say(Prompt(s.player1)) {
      var q := Prompt(s.player1);
      assert q[|q| - 1] == 'n';
    } else if e == Say(Prompt(s.player2)) {
      var q := Prompt(s.player2);
      assert q[|q| - 1] == 'n';
    }
  }

  /** A finished game prints exactly one announcement, as its last line:
      no earlier event is the congratulations of any player or `DRAW`. */
  lemma AnnouncedOnce(s: State, lines: seq<string>)
    ensures var r := Start(s, lines);
            r.Finished? ==>
              forall i, p :: 0 <= i < |r.out| - 1 ==>
                r.out[i] != Say(DrawMessage) && r.out[i] != Say(Congratulations(p))
  {
    StartShowsPassEvents(s, lines);
    var r := Start(s, lines);
    if r.Finished? {
      forall i, p | 0 <= i < |r.out| - 1
        ensures r.out[i] != Say(DrawMessage) && r.out[i] != Say(Congratulations(p))
      {
        PassEventIsNoAnnouncement(s, r.out[i], p);
      }
    }
  }

  /** The closing line congratulates the active player exactly when the loop
      broke out on a win, and says `DRAW` exactly when it broke out on a
      draw. */
  lemma FinalMessage(s: State, lines: seq<string>)
    ensures var r := Start(s, lines);
            r.Finished? ==>
              && (r.out[|r.out| - 1] == Say(Congratulations(r.last.ActivePlayer())) <==> r.result.Win?)
              && (r.out[|r.out| - 1] == Say(DrawMessage) <==> r.result == Draw)
  {
    var r := Start(s, lines);
    if r.Finished? {
      FinishedWinIsActive(s, lines);
      var c := Congratulations(r.last.ActivePlayer());
      assert c[0] == 'C' && DrawMessage[0] == 'D';
    }
  }
}
