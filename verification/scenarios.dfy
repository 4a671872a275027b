/**
 The examples the project's RSpec suite checks, restated about the model.
 */
module Scenarios {
  import opened Ruby
  import opened Boards
  import opened Game
  import opened Controller

  /** The one-digit slots read as their digit. */
  lemma SlotDigits()
    ensures ToI("1") == 1 && ToI("2") == 2 && ToI("3") == 3
    ensures ToI("4") == 4 && ToI("5") == 5 && ToI("7") == 7
  {
    ToIOfDigit('1');
    ToIOfDigit('2');
    ToIOfDigit('3');
    ToIOfDigit('4');
    ToIOfDigit('5');
    ToIOfDigit('7');
  }

  /** A free slot is taken, using 1-based slots. */
  lemma FillFreeSlot(p: Player)
    ensures Fill(Initial(), "7", p).accepted
    ensures Fill(Initial(), "5", p).board[4] == Mark(p.marker)
  {
    SlotDigits();
  }

  /** `to_i` also reads a `0d` prefix, so `"0d5"` takes cell 5. */
  lemma FillPrefixedSlot(p: Player)
    ensures Fill(Initial(), "0d5", p).board[4] == Mark(p.marker)
  {
    var t := ['0', 'd'] + Numeral(5) + "";
    ToIOfPrefixedNumeral('d', 5, "");
    assert Numeral(5) == "5";
    assert t == "0d5";
  }

  /** Text is refused and leaves the board alone. */
  lemma FillText(p: Player)
    ensures Fill(Initial(), "invalid data", p) == FillResult(false, Initial())
  {
    NonNumericRejected(Initial(), "invalid data", p);
  }

  /** A taken slot is refused and nothing changes. */
  lemma FillTakenSlot(p: Player, q: Player)
    ensures var b := Fill(Initial(), "5", p).board;
            Fill(b, "5", q) == FillResult(false, b)
  {
    SlotDigits();
  }

  /** A full board without a line is a draw. */
  lemma FullBoardDraw(active: Seat)
    ensures EndCondition([Mark("X"), Mark("O"), Mark("X"), Mark("X"), Mark("O"), Mark("X"), Mark("O"), Mark("X"), Mark("O")], active) == Draw
  {
    var g: Board := [Mark("X"), Mark("O"), Mark("X"), Mark("X"), Mark("O"), Mark("X"), Mark("O"), Mark("X"), Mark("O")];
    assert !HasLine(g);
    assert forall i :: 0 <= i < 9 ==> g[i].Mark?;
  }

  /** A full board with a line is a win for the active player, not a draw. */
  lemma FullBoardWin(active: Seat)
    ensures EndCondition([Mark("X"), Mark("O"), Mark("X"), Mark("O"), Mark("O"), Mark("X"), Mark("O"), Mark("X"), Mark("X")], active) == Win(active)
  {
    var g: Board := [Mark("X"), Mark("O"), Mark("X"), Mark("O"), Mark("O"), Mark("X"), Mark("O"), Mark("X"), Mark("X")];
    assert HasLine(g);
  }

  /** An open board without a line plays on. */
  lemma OpenBoardNotOver(active: Seat)
    ensures EndCondition([Free(1), Mark("O"), Mark("X"), Mark("X"), Mark("O"), Mark("X"), Mark("O"), Mark("X"), Mark("O")], active) == NotOver
  {
    var g: Board := [Free(1), Mark("O"), Mark("X"), Mark("X"), Mark("O"), Mark("X"), Mark("O"), Mark("X"), Mark("O")];
    assert !HasLine(g);
    assert g[0].Free?;
  }

  /** A left column or a rising diagonal of one marker wins. */
  lemma ColumnAndDiagonalWin(active: Seat)
    ensures EndCondition(Initial()[0 := Mark("X")][3 := Mark("X")][6 := Mark("X")], active) == Win(active)
    ensures EndCondition(Initial()[6 := Mark("O")][4 := Mark("O")][2 := Mark("O")], active) == Win(active)
  {
    assert HasLine(Initial()[0 := Mark("X")][3 := Mark("X")][6 := Mark("X")]);
    assert HasLine(Initial()[6 := Mark("O")][4 := Mark("O")][2 := Mark("O")]);
  }

  /** The player hashes are built from the answers, player 2 taking the
      other marker. */
  lemma DialogueAnswered()
    ensures GetPlayerData(["Carlos", "X", "Jonathan"]).setup
            == Ready(Player("Carlos", "X"), Player("Jonathan", "O"))
  {
    MarkerChoices("X");
  }

  /** Three bad marker choices end the dialogue with goodbye. */
  lemma DialogueDeclined()
    ensures var d := GetPlayerData(["firstname", "Z", "Z", "Z"]);
            d.setup == Declined && Goodbye in d.said
  {
    MarkerChoices("Z");
  }

  /** Repeating player 1's name asks again; a later different name is kept. */
  lemma DialogueRetriesName()
    ensures AskAgain in GetPlayerData(["Mark", "X", "Mark", "aaa"]).said
    ensures GetPlayerData(["player1_name", "O", "player1_name", "player1_name", "different_name"]).setup
            == Ready(Player("player1_name", "O"), Player("different_name", "X"))
  {
    MarkerChoices("X");
    MarkerChoices("O");
  }

  /** After four repeats player 2 is called "player 2". */
  lemma DialogueDefaultName()
    ensures GetPlayerData(["player1_name", "O", "player1_name", "player1_name", "player1_name", "player1_name"]).setup
            == Ready(Player("player1_name", "O"), Player(DefaultName, "X"))
  {
    MarkerChoices("O");
  }

  /** The state after the active player takes slot `n`, before the turn
      passes. */
  function Taken(s: State, n: int): State
    requires 1 <= n <= 9
  {
    s.(board := s.board[n - 1 := Mark(s.ActivePlayer().marker)])
  }

  /** A move onto a free cell that makes no line and leaves a free cell hands
      the turn to the other player. */
  lemma QuietMove(s: State, slot: string, n: int)
    requires 1 <= n <= 9 && ToI(slot) == n && s.board[n - 1].Free?
    requires !HasLine(Taken(s, n).board) && exists i :: 0 <= i < 9 && Taken(s, n).board[i].Free?
    ensures var t := PlayTurn(s, slot);
            t.Continue? && t.moved && t.next == Taken(s, n).(active := Switch(s.active))
  {
    var f := Fill(s.board, slot, s.ActivePlayer());
    assert f.board == Taken(s, n).board;
  }

  /** A move onto a free cell that makes a line ends the game with a win for
      the mover, who is congratulated. */
  lemma WinningMove(s: State, slot: string, n: int)
    requires 1 <= n <= 9 && ToI(slot) == n && s.board[n - 1].Free?
    requires SomeLineUniform(Taken(s, n).board)
    ensures var t := PlayTurn(s, slot);
            && t.Over? && t.result == Win(s.active) && t.last == Taken(s, n)
            && |t.out| > 0 && t.out[|t.out| - 1] == Say(Congratulations(s.ActivePlayer()))
  {
    var f := Fill(s.board, slot, s.ActivePlayer());
    assert f.board == Taken(s, n).board;
  }

  /** A refused line prints the notice and the same player, on the same
      board, answers the next line: the rest of the run is exactly the run
      from the unchanged state. */
  lemma RefusedLineRetried(s: State, lines: seq<string>)
    requires |lines| > 0 && !Fill(s.board, lines[0], s.ActivePlayer()).accepted
    ensures var r := Start(s, lines);
            var rest := Start(s, lines[1..]);
            && Say(InvalidPosition) in r.out
            && r.Finished? == rest.Finished? && r.last == rest.last && r.moves == rest.moves
            && (r.Finished? ==> r.result == rest.result)
            && r.out == [Display(s.board), Say(Prompt(s.ActivePlayer())), Say(InvalidPosition)] + rest.out
  {
    var t := PlayTurn(s, lines[0]);
    assert t.Continue? && !t.moved && t.next == s;
    assert t.out == [Display(s.board), Say(Prompt(s.ActivePlayer())), Say(InvalidPosition)];
    assert Start(s, lines) == Resume(t.out, false, Start(s, lines[1..]));
  }

  /** A winning first move ends the whole run there. */
  lemma WinningRun(s: State, lines: seq<string>, n: int)
    requires |lines| > 0 && 1 <= n <= 9 && ToI(lines[0]) == n && s.board[n - 1].Free?
    requires SomeLineUniform(Taken(s, n).board)
    ensures var r := Start(s, lines);
            && r.Finished? && r.result == Win(s.active) && r.moves == 1 && r.last == Taken(s, n)
            && r.out[|r.out| - 1] == Say(Congratulations(s.ActivePlayer()))
  {
    WinningMove(s, lines[0], n);
  }

  /** A first move onto the last free cell that makes no line ends the whole
      run in a draw after one move, with `DRAW` printed last. */
  lemma DrawRun(s: State, lines: seq<string>, n: int)
    requires |lines| > 0 && 1 <= n <= 9 && ToI(lines[0]) == n && s.board[n - 1].Free?
    requires forall i :: 0 <= i < 9 && i != n - 1 ==> s.board[i].Mark?
    requires !SomeLineUniform(Taken(s, n).board)
    ensures var r := Start(s, lines);
            && r.Finished? && r.result == Draw && r.moves == 1 && r.last == Taken(s, n)
            && r.out[|r.out| - 1] == Say(DrawMessage)
  {
    var f := Fill(s.board, lines[0], s.ActivePlayer());
    assert f.board == Taken(s, n).board;
    assert forall i :: 0 <= i < 9 ==> f.board[i].Mark?;
  }

  /** A pass that goes round again after taking a cell and leaves the state
      `next`. */
  predicate QuietPass(s: State, line: string, next: State) {
    var t := PlayTurn(s, line);
    t.Continue? && t.moved && t.next == next
  }

  /** Such a pass puts one move, and its board and prompt, in front of the
      rest of the run. */
  lemma StartContinues(s: State, lines: seq<string>, next: State)
    requires |lines| > 0 && QuietPass(s, lines[0], next)
    ensures var r := Start(s, lines);
            var rest := Start(next, lines[1..]);
            && r.Finished? == rest.Finished? && r.last == rest.last && r.moves == rest.moves + 1
            && (r.Finished? ==> r.result == rest.result && r.out[|r.out| - 1] == rest.out[|rest.out| - 1])
            && r.out == [Display(s.board), Say(Prompt(s.ActivePlayer()))] + rest.out
  {
    var t := PlayTurn(s, lines[0]);
    assert t.out == [Display(s.board), Say(Prompt(s.ActivePlayer()))];
    assert Start(s, lines) == Resume(t.out, true, Start(next, lines[1..]));
  }

  /** The slot taken on move `k + 1` of the top-row game: player 1 takes 1,
      2 and 3 while player 2 takes 4 and 5. */
  function TopRowSlot(k: nat): int
    requires k < 5
  {
    [1, 4, 2, 5, 3][k]
  }

  /** The state after `k` moves of the top-row game. */
  function TopRowState(ann: Player, bob: Player, k: nat): State
    requires k <= 5
  {
    var x := Mark(ann.marker);
    var o := Mark(bob.marker);
    match k
    case 0 => State(ann, bob, Initial(), P1)
    case 1 => State(ann, bob, [x, Free(2), Free(3), Free(4), Free(5), Free(6), Free(7), Free(8), Free(9)], P2)
    case 2 => State(ann, bob, [x, Free(2), Free(3), o, Free(5), Free(6), Free(7), Free(8), Free(9)], P1)
    case 3 => State(ann, bob, [x, x, Free(3), o, Free(5), Free(6), Free(7), Free(8), Free(9)], P2)
    case 4 => State(ann, bob, [x, x, Free(3), o, o, Free(6), Free(7), Free(8), Free(9)], P1)
    case 5 => State(ann, bob, [x, x, x, o, o, Free(6), Free(7), Free(8), Free(9)], P1)
  }

  /** The board of move 1 of the top-row game: player 1 takes slot 1, a free cell, which
      makes no line and leaves cell 9 free. */
  lemma TopRowBoard1(ann: Player, bob: Player)
    requires ann.marker != bob.marker
    ensures var s := TopRowState(ann, bob, 0);
            && s.board[0].Free?
            && TopRowState(ann, bob, 1) == Taken(s, 1).(active := Switch(s.active))
            && !HasLine(Taken(s, 1).board) && Taken(s, 1).board[8].Free?
  {
    assert TopRowState(ann, bob, 1).board == Taken(TopRowState(ann, bob, 0), 1).board;
  }

  /** The board of move 2 of the top-row game: player 2 takes slot 4, a free cell, which
      makes no line and leaves cell 9 free. */
  lemma TopRowBoard2(ann: Player, bob: Player)
    requires ann.marker != bob.marker
    ensures var s := TopRowState(ann, bob, 1);
            && s.board[3].Free?
            && TopRowState(ann, bob, 2) == Taken(s, 4).(active := Switch(s.active))
            && !HasLine(Taken(s, 4).board) && Taken(s, 4).board[8].Free?
  {
    assert TopRowState(ann, bob, 2).board == Taken(TopRowState(ann, bob, 1), 4).board;
  }

  /** The board of move 3 of the top-row game: player 1 takes slot 2, a free cell, which
      makes no line and leaves cell 9 free. */
  lemma TopRowBoard3(ann: Player, bob: Player)
    requires ann.marker != bob.marker
    ensures var s := TopRowState(ann, bob, 2);
            && s.board[1].Free?
            && TopRowState(ann, bob, 3) == Taken(s, 2).(active := Switch(s.active))
            && !HasLine(Taken(s, 2).board) && Taken(s, 2).board[8].Free?
  {
    assert TopRowState(ann, bob, 3).board == Taken(TopRowState(ann, bob, 2), 2).board;
  }

  /** The board of move 4 of the top-row game: player 2 takes slot 5, a free cell, which
      makes no line and leaves cell 9 free. */
  lemma TopRowBoard4(ann: Player, bob: Player)
    requires ann.marker != bob.marker
    ensures var s := TopRowState(ann, bob, 3);
            && s.board[4].Free?
            && TopRowState(ann, bob, 4) == Taken(s, 5).(active := Switch(s.active))
            && !HasLine(Taken(s, 5).board) && Taken(s, 5).board[8].Free?
  {
    assert TopRowState(ann, bob, 4).board == Taken(TopRowState(ann, bob, 3), 5).board;
  }

  /** Move 5 of the top-row game takes a free cell and completes the top row
      in player 1's marker. */
  lemma TopRowWinningBoard(ann: Player, bob: Player)
    ensures var s := TopRowState(ann, bob, 4);
            && s.board[2].Free? && s.active == P1 && s.ActivePlayer() == ann
            && TopRowState(ann, bob, 5) == Taken(s, 3)
            && SomeLineUniform(Taken(s, 3).board)
            && Taken(s, 3).board[0] == Taken(s, 3).board[1] == Taken(s, 3).board[2] == Mark(ann.marker)
  {
    var g := Taken(TopRowState(ann, bob, 4), 3).board;
    assert TopRowState(ann, bob, 5).board == g;
    assert Aligned(0, 1, 2) && g[0] == g[1] == g[2];
  }

  /** The rest of the top-row game from move 5: the pass completes the top
      row and ends the game with player 1 congratulated. */
  lemma TopRowRun4(ann: Player, bob: Player, rest: seq<string>)
    requires |rest| >= 1 && ToI(rest[0]) == 3
    ensures var r := Start(TopRowState(ann, bob, 4), rest);
            && r.Finished? && r.result == Win(P1) && r.moves == 1 && r.last == TopRowState(ann, bob, 5)
            && r.out[|r.out| - 1] == Say(Congratulations(ann))
  {
    TopRowWinningBoard(ann, bob);
    WinningRun(TopRowState(ann, bob, 4), rest, 3);
  }

  /** The rest of the top-row game from move 4. */
  lemma TopRowRun3(ann: Player, bob: Player, rest: seq<string>)
    requires ann.marker != bob.marker
    requires |rest| >= 2 && ToI(rest[0]) == 5 && ToI(rest[1]) == 3
    ensures var r := Start(TopRowState(ann, bob, 3), rest);
            && r.Finished? && r.result == Win(P1) && r.moves == 2 && r.last == TopRowState(ann, bob, 5)
            && r.out[|r.out| - 1] == Say(Congratulations(ann))
  {
    TopRowBoard4(ann, bob);
    QuietMove(TopRowState(ann, bob, 3), rest[0], 5);
    TopRowRun4(ann, bob, rest[1..]);
    StartContinues(TopRowState(ann, bob, 3), rest, TopRowState(ann, bob, 4));
  }

  /** The rest of the top-row game from move 3. */
  lemma TopRowRun2(ann: Player, bob: Player, rest: seq<string>)
    requires ann.marker != bob.marker
    requires |rest| >= 3 && ToI(rest[0]) == 2 && ToI(rest[1]) == 5 && ToI(rest[2]) == 3
    ensures var r := Start(TopRowState(ann, bob, 2), rest);
            && r.Finished? && r.result == Win(P1) && r.moves == 3 && r.last == TopRowState(ann, bob, 5)
            && r.out[|r.out| - 1] == Say(Congratulations(ann))
  {
    TopRowBoard3(ann, bob);
    QuietMove(TopRowState(ann, bob, 2), rest[0], 2);
    TopRowRun3(ann, bob, rest[1..]);
    StartContinues(TopRowState(ann, bob, 2), rest, TopRowState(ann, bob, 3));
  }

  /** The rest of the top-row game from move 2. */
  lemma TopRowRun1(ann: Player, bob: Player, rest: seq<string>)
    requires ann.marker != bob.marker
    requires |rest| >= 4 && ToI(rest[0]) == 4 && ToI(rest[1]) == 2 && ToI(rest[2]) == 5 && ToI(rest[3]) == 3
    ensures var r := Start(TopRowState(ann, bob, 1), rest);
            && r.Finished? && r.result == Win(P1) && r.moves == 4 && r.last == TopRowState(ann, bob, 5)
            && r.out[|r.out| - 1] == Say(Congratulations(ann))
  {
    TopRowBoard2(ann, bob);
    QuietMove(TopRowState(ann, bob, 1), rest[0], 4);
    TopRowRun2(ann, bob, rest[1..]);
    StartContinues(TopRowState(ann, bob, 1), rest, TopRowState(ann, bob, 2));
  }

  /** The rest of the top-row game from move 1. */
  lemma TopRowRun0(ann: Player, bob: Player, rest: seq<string>)
    requires ann.marker != bob.marker
    requires |rest| >= 5 && ToI(rest[0]) == 1 && ToI(rest[1]) == 4 && ToI(rest[2]) == 2 && ToI(rest[3]) == 5 && ToI(rest[4]) == 3
    ensures var r := Start(TopRowState(ann, bob, 0), rest);
            && r.Finished? && r.result == Win(P1) && r.moves == 5 && r.last == TopRowState(ann, bob, 5)
            && r.out[|r.out| - 1] == Say(Congratulations(ann))
  {
    TopRowBoard1(ann, bob);
    QuietMove(TopRowState(ann, bob, 0), rest[0], 1);
    TopRowRun1(ann, bob, rest[1..]);
    StartContinues(TopRowState(ann, bob, 0), rest, TopRowState(ann, bob, 1));
  }

  /** Lines reading as slots 1, 4, 2, 5, 3 in turn: player 1 completes the
      top row on the fifth move and is congratulated. */
  lemma TopRowGame(ann: Player, bob: Player, lines: seq<string>)
    requires ann.marker != bob.marker
    requires |lines| >= 5
    requires ToI(lines[0]) == 1 && ToI(lines[1]) == 4 && ToI(lines[2]) == 2 && ToI(lines[3]) == 5 && ToI(lines[4]) == 3
    ensures var r := Play(ann, bob, lines);
            && r.Finished? && r.result == Win(P1) && r.moves == 5
            && r.last.board[0] == r.last.board[1] == r.last.board[2] == Mark(ann.marker)
            && r.out[|r.out| - 1] == Say(Congratulations(ann))
  {
    TopRowRun0(ann, bob, lines);
    TopRowWinningBoard(ann, bob);
    assert NewGame(ann, bob) == TopRowState(ann, bob, 0);
  }
}
