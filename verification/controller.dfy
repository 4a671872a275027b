/**
 `Controller#get_player_data`: the setup dialogue, as a function of the
 input lines it reads (what `gets.chomp` returns) to the two player hashes,
 or `nil` after three bad marker choices, together with the lines it prints.
 */
module Controller {
  import opened Ruby
  import opened Boards

  const AskName := "Player 1 please enter your name"
  const AskAgain := "player 2, please enter a different name"
  const Goodbye := "goodbye"

  /** The name player 2 gets when every attempt repeats player 1's. */
  const DefaultName := "player 2"

  function AskMarker(p1Name: string): string {
    p1Name + ", select X or O"
  }

  function AskPlayerTwo(marker: string): string {
    "player 2, you are " + marker + ", please enter your name"
  }

  /** A line that upcases to one of the two markers. */
  predicate IsMarkerChoice(line: string) {
    Upcase(line) == "X" || Upcase(line) == "O"
  }

  /** The marker player 2 is left with. */
  function OtherMarker(m: string): string {
    if m == "X" then "O" else "X"
  }

  /** A marker choice is one of `x`, `X`, `o`, `O`, upcased to `X` or `O`. */
  lemma MarkerChoices(line: string)
    ensures Upcase(line) == "X" <==> line == "x" || line == "X"
    ensures Upcase(line) == "O" <==> line == "o" || line == "O"
  {
    UpcaseToLetter(line, 'X');
    UpcaseToLetter(line, 'O');
  }

  /** One bounded loop of the dialogue: the value it settles on, the lines it
      printed and the number of input lines it read; or the input ran out
      (`gets` returned nil) before it settled. */
  datatype Phase<T> = Done(value: T, said: seq<string>, used: nat) | Exhausted(said: seq<string>)

  /** `tries.times` asking player 1 for a marker. The answer is the upcased
      first line among the first `tries` that is a marker choice, or `nil`
      when there is none; the loop reads up to and including that line. */
  function MarkerTries(p1Name: string, lines: seq<string>, tries: nat): (r: Phase<Option<string>>)
    ensures r.Done? ==> r.used <= |lines| && r.used <= tries
    ensures r.Done? && r.value.Some? ==>
              && r.used >= 1
              && IsMarkerChoice(lines[r.used - 1]) && r.value.value == Upcase(lines[r.used - 1])
              && forall i :: 0 <= i < r.used - 1 ==> !IsMarkerChoice(lines[i])
    ensures r.Done? && r.value.Nil? ==>
              r.used == tries && forall i :: 0 <= i < tries ==> !IsMarkerChoice(lines[i])
    ensures r.Exhausted? ==>
              |lines| < tries && forall i :: 0 <= i < |lines| ==> !IsMarkerChoice(lines[i])
    ensures r.Done? ==> r.said == seq(r.used, _ => AskMarker(p1Name))
    ensures r.Exhausted? ==> r.said == seq(|lines| + 1, _ => AskMarker(p1Name))
    decreases tries
  {
    if tries == 0 then Done(Nil, [], 0)
    else
      var prompt := AskMarker(p1Name);
      if |lines| == 0 then Exhausted([prompt])
      else
        var choice := Upcase(lines[0]);
        if choice == "X" || choice == "O" then Done(Some(choice), [prompt], 1)
        else
          match MarkerTries(p1Name, lines[1..], tries - 1)
          case Done(v, said, used) => Done(v, [prompt] + said, used + 1)
          case Exhausted(said) => Exhausted([prompt] + said)
  }

  /** `tries.times` asking player 2 for a name. The answer is the first line
      among the first `tries` that differs from player 1's name, or `nil`
      when each of them repeats it. */
  function NameTries(p1Name: string, lines: seq<string>, tries: nat): (r: Phase<Option<string>>)
    ensures r.Done? ==> r.used <= |lines| && r.used <= tries
    ensures r.Done? && r.value.Some? ==>
              && r.used >= 1
              && r.value.value == lines[r.used - 1] && r.value.value != p1Name
              && forall i :: 0 <= i < r.used - 1 ==> lines[i] == p1Name
    ensures r.Done? && r.value.Nil? ==>
              r.used == tries && forall i :: 0 <= i < tries ==> lines[i] == p1Name
    ensures r.Exhausted? ==>
              |lines| < tries && forall i :: 0 <= i < |lines| ==> lines[i] == p1Name
    ensures r.Done? ==> r.said == seq(r.used - (if r.value.Some? then 1 else 0), _ => AskAgain)
    ensures r.Exhausted? ==> r.said == seq(|lines|, _ => AskAgain)
    decreases tries
  {
    if tries == 0 then Done(Nil, [], 0)
    else if |lines| == 0 then Exhausted([])
    else if lines[0] != p1Name then Done(Some(lines[0]), [], 1)
    else
      match NameTries(p1Name, lines[1..], tries - 1)
      case Done(v, said, used) => Done(v, [AskAgain] + said, used + 1)
      case Exhausted(said) => Exhausted([AskAgain] + said)
  }

  /** How the dialogue ends: both player hashes, `nil` after three bad
      marker choices, or the input ran out. */
  datatype Setup = Ready(player1: Player, player2: Player) | Declined | InputEnded

  datatype Dialogue = Dialogue(setup: Setup, said: seq<string>, used: nat)

  /** Line `j` (1 to 3) is player 1's first marker choice. */
  predicate FirstMarkerAt(lines: seq<string>, j: int) {
    && 1 <= j <= 3 && j < |lines|
    && IsMarkerChoice(lines[j])
    && forall i :: 1 <= i < j ==> !IsMarkerChoice(lines[i])
  }

  /** `name` is what player 2 ends up with when the name attempts start after
      line `j`: the first of up to four attempts that differs from player 1's
      name, or the default when all four repeat it. */
  predicate NameFrom(lines: seq<string>, j: nat, p1Name: string, name: string) {
    || (exists k :: j < k <= j + 4 && k < |lines| && lines[k] != p1Name && name == lines[k]
                    && forall i :: j < i < k ==> lines[i] == p1Name)
    || (j + 4 < |lines| && name == DefaultName
        && forall i :: j < i <= j + 4 ==> lines[i] == p1Name)
  }

  /** The marker attempts read after player 1's name settle on the first
      marker choice, as `FirstMarkerAt` describes. */
  lemma MarkerTriesFrom(lines: seq<string>)
    requires |lines| > 0
    ensures var r := MarkerTries(lines[0], lines[1..], 3);
            r.Done? && r.value.Some? ==> FirstMarkerAt(lines, r.used) && r.value.value == Upcase(lines[r.used])
  {
    var r := MarkerTries(lines[0], lines[1..], 3);
    if r.Done? && r.value.Some? {
      assert lines[r.used] == lines[1..][r.used - 1];
    }
  }

  /** The name attempts read after line `j` settle on a name that
      `NameFrom` describes. */
  lemma NameTriesFrom(lines: seq<string>, j: nat, p1Name: string)
    requires j < |lines|
    ensures var r := NameTries(p1Name, lines[1 + j..], 4);
            r.Done? ==> NameFrom(lines, j, p1Name, r.value.GetOr(DefaultName))
  {
    var rest := lines[1 + j..];
    var r := NameTries(p1Name, rest, 4);
    if r.Done? && r.value.Some? {
      assert lines[j + r.used] == rest[r.used - 1];
    }
  }

  /** `get_player_data` over the input lines. Player 1 is named by the first
      line and gets the upcased first marker choice among the next three;
      player 2 gets the other marker and the first of up to four names that
      differs from player 1's, else "player 2". With no marker choice among
      three tries the dialogue says goodbye and gives `nil`. */
  function GetPlayerData(lines: seq<string>): (d: Dialogue)
    ensures d.used <= |lines|
    ensures d.setup.Ready? ==>
              var p1 := d.setup.player1;
              var p2 := d.setup.player2;
              && |lines| > 0 && p1.name == lines[0]
              && (p1.marker == "X" || p1.marker == "O")
              && p2.marker == OtherMarker(p1.marker) && p2.marker != p1.marker
              && (p2.name != p1.name || p1.name == DefaultName)
              && exists j: nat :: FirstMarkerAt(lines, j) && p1.marker == Upcase(lines[j])
                             && NameFrom(lines, j, p1.name, p2.name)
    ensures d.setup == Declined ==> |d.said| > 0 && d.said[|d.said| - 1] == Goodbye
    ensures d.setup == InputEnded ==> d.used == |lines|
  {
    var opening := [AskName];
    if |lines| == 0 then Dialogue(InputEnded, opening, 0)
    else
      var p1Name := lines[0];
      MarkerTriesFrom(lines);
      match MarkerTries(p1Name, lines[1..], 3)
      case Exhausted(said) => Dialogue(InputEnded, opening + said, |lines|)
      case Done(Nil, said, used) => Dialogue(Declined, opening + said + [Goodbye], 1 + used)
      case Done(Some(p1Marker), said, used) =>
        var p2Marker := OtherMarker(p1Marker);
        var asked := opening + said + [AskPlayerTwo(p2Marker)];
        NameTriesFrom(lines, used, p1Name);
        match NameTries(p1Name, lines[1 + used..], 4)
        case Exhausted(more) => Dialogue(InputEnded, asked + more, |lines|)
        case Done(name, more, moreUsed) =>
          var p2Name := name.GetOr(DefaultName);
          Dialogue(Ready(Player(p1Name, p1Marker), Player(p2Name, p2Marker)),
                   asked + more, 1 + used + moreUsed)
  }

  /** The dialogue gives `nil` exactly when none of the three lines after
      player 1's name is a marker choice. */
  lemma DeclinedExactly(lines: seq<string>)
    ensures GetPlayerData(lines).setup == Declined <==>
              |lines| >= 4 && forall i :: 1 <= i < 4 ==> !IsMarkerChoice(lines[i])
  {
    if |lines| > 0 {
      var tail := lines[1..];
      var m := MarkerTries(lines[0], tail, 3);
      if m.Done? && m.value.Nil? {
        forall i | 1 <= i < 4
          ensures !IsMarkerChoice(lines[i])
        {
          assert lines[i] == tail[i - 1];
        }
      } else if m.Done? {
        assert lines[m.used] == tail[m.used - 1];
      }
    }
  }

  /** The input runs out exactly when it ends before the dialogue settles:
      there is no name, or fewer than three marker attempts and none of them
      a marker choice, or after player 1's first marker choice fewer than
      four name attempts and each of them repeats player 1's name. */
  predicate EndsEarly(lines: seq<string>) {
    || |lines| == 0
    || (|lines| < 4 && forall i :: 1 <= i < |lines| ==> !IsMarkerChoice(lines[i]))
    || exists j :: 1 <= j <= 3 && FirstMarkerAt(lines, j) && |lines| <= j + 4
                   && forall i :: j < i < |lines| ==> lines[i] == lines[0]
  }

  /** Player 1's first marker choice is at a single line. */
  lemma FirstMarkerUnique(lines: seq<string>, j: int, k: int)
    requires FirstMarkerAt(lines, j) && FirstMarkerAt(lines, k)
    ensures j == k
  {
  }

  /** The dialogue runs out of input exactly when the input ends early; so
      whenever the answers are all there it gives the two players or `nil`. */
  lemma EndedExactly(lines: seq<string>)
    ensures GetPlayerData(lines).setup == InputEnded <==> EndsEarly(lines)
  {
    if |lines| > 0 {
      var tail := lines[1..];
      var m := MarkerTries(lines[0], tail, 3);
      MarkerTriesFrom(lines);
      if m.Exhausted? {
        forall i | 1 <= i < |lines|
          ensures !IsMarkerChoice(lines[i])
        {
          assert lines[i] == tail[i - 1];
        }
      } else if m.value.Nil? {
        forall i | 1 <= i < 4
          ensures !IsMarkerChoice(lines[i])
        {
          assert lines[i] == tail[i - 1];
        }
        assert !exists j :: FirstMarkerAt(lines, j);
      } else {
        var j := m.used;
        assert FirstMarkerAt(lines, j);
        assert IsMarkerChoice(lines[j]);
        var rest := lines[1 + j..];
        var n := NameTries(lines[0], rest, 4);
        if n.Exhausted? {
          forall i | j < i < |lines|
            ensures lines[i] == lines[0]
          {
            assert lines[i] == rest[i - j - 1];
          }
        } else {
          if n.value.Some? {
            assert lines[j + n.used] == rest[n.used - 1];
          } else {
            assert lines[j + 4] == rest[3];
          }
          forall k | FirstMarkerAt(lines, k)
            ensures !(|lines| <= k + 4 && forall i :: k < i < |lines| ==> lines[i] == lines[0])
          {
            FirstMarkerUnique(lines, j, k);
          }
        }
      }
    }
  }
}
