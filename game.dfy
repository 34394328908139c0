/**
 * The `MemoryGame` object and the session loop of `main`.
 *
 * Reading the word file, the console and `Collections.shuffle`'s random
 * numbers are not modelled: the word pool, the shuffle draws and the
 * player's guesses are parameters.
 */
module Game {
  import opened Options
  import opened Words
  import opened Guesses
  import opened Turns
  import opened Display

  /** `level.equalsIgnoreCase("H")`. */
  predicate IsHard(level: string) {
    |level| == 1 && UpperChar(level[0]) == 'H'
  }

  /** The difficulty presets of `main`: hard is 15 health and 8 columns,
      anything else is easy with 10 health and 4 columns. Either way health
      starts positive and the column count is one the guess pattern allows. */
  function Preset(level: string): (p: (int, nat))
    ensures p.0 > 0 && 1 <= p.1 <= 9
    ensures IsHard(level) <==> p == (15, 8)
    ensures !IsHard(level) <==> p == (10, 4)
  {
    if IsHard(level) then (15, 8) else (10, 4)
  }

  /** The length of the longest word (`mapToInt(String::length).max()`,
      which fails on an empty list). */
  function MaxLength(words: seq<string>): (m: nat)
    requires |words| > 0
    ensures forall w :: w in words ==> |w| <= m
    ensures exists w :: w in words && |w| == m
  {
    if |words| == 1 then |words[0]|
    else
      var rest := MaxLength(words[1..]);
      assert forall w :: w in words ==> w == words[0] || w in words[1..];
      if |words[0]| >= rest then |words[0]| else rest
  }

  /** Words that all fit the width still fit it after a rearrangement. */
  lemma WordsFitWidth(words: seq<string>, arranged: seq<string>, width: int)
    requires multiset(arranged) == multiset(words)
    requires forall w :: w in words ==> |w| + 2 <= width
    ensures forall w :: w in arranged ==> |w| + 2 <= width
  {
    forall w | w in arranged ensures |w| + 2 <= width {
      assert w in multiset(words);
    }
  }

  /** `List.toArray`: a fresh array holding the list's elements in order. */
  method ToArray(s: seq<string>) returns (a: array<string>)
    ensures fresh(a) && a[..] == s
  {
    a := new string[|s|](i requires 0 <= i < |s| => s[i]);
  }

  /** `createGrid`: row A is the selected list after one in-place shuffle,
      row B the same list after a second shuffle (the Java code allocates
      `new String[2][columns]` first and then replaces both rows). */
  method CreateGrid(words: seq<string>, first: seq<nat>, second: seq<nat>) returns (grid: array<array<string>>)
    requires ValidDraws(first, |words|) && ValidDraws(second, |words|)
    ensures fresh(grid) && grid.Length == 2 && fresh(grid[0]) && fresh(grid[1])
    ensures grid[0][..] == BuildRows(words, first, second)[0]
    ensures grid[1][..] == BuildRows(words, first, second)[1]
  {
    var shuffled := Shuffled(words, first);
    var row0 := ToArray(shuffled);
    shuffled := Shuffled(shuffled, second);
    var row1 := ToArray(shuffled);
    grid := new array<string>[2][row0, row1];
  }

  class MemoryGame {
    // Only `uncovered` changes after construction; the fields the Java code
    // never reassigns are constants here.
    const level: string
    /** The health the object was created with; the object never decrements
        it (the session loop counts down a local copy). */
    const health: int
    const columns: nat
    const maxWordLength: int
    /** The selected words, in the order the last shuffle of `createGrid` left them. */
    const randomWords: seq<string>
    const displayGrid: array<array<string>>
    var uncovered: seq<string>
    ghost const Repr: set<object>

    /** The grid has two rows, each a rearrangement of the selected words,
        and every selected word fits the column width with a margin of two. */
    ghost predicate Valid()
      reads Repr
    {
      && displayGrid in Repr && displayGrid.Length == 2
      && displayGrid[0] in Repr && displayGrid[1] in Repr
      && 1 <= |randomWords| <= columns
      && displayGrid[0].Length == |randomWords| && displayGrid[1].Length == |randomWords|
      && multiset(displayGrid[0][..]) == multiset(randomWords)
      && multiset(displayGrid[1][..]) == multiset(randomWords)
      && forall w :: w in randomWords ==> |w| + 2 <= maxWordLength
    }

    /** The grid's two rows as values. */
    ghost function Rows(): (rows: seq<seq<string>>)
      reads Repr
      requires Valid()
      ensures |rows| == 2
      ensures forall y :: 0 <= y < 2 ==> multiset(rows[y]) == multiset(randomWords)
      ensures forall y :: 0 <= y < 2 ==> |rows[y]| == |randomWords| && rows[y] == displayGrid[y][..]
    {
      [displayGrid[0][..], displayGrid[1][..]]
    }

    /** The constructor: select the words from a shuffled pool
        (`getRandomWords`), measure the longest, then build the grid
        (`createGrid`), which leaves the list itself in row B's order. */
    constructor (health: int, size: nat, level: string, content: seq<string>,
                 pick: seq<nat>, first: seq<nat>, second: seq<nat>)
      requires 1 <= size && 1 <= |content|
      requires ValidDraws(pick, |content|)
      requires ValidDraws(first, Min(size, |content|)) && ValidDraws(second, Min(size, |content|))
      ensures Valid()
      ensures fresh(displayGrid) && fresh(displayGrid[0]) && fresh(displayGrid[1])
      ensures this.health == health && columns == size && this.level == level && uncovered == []
      ensures Rows() == BuildRows(RandomWords(content, size, pick), first, second)
      ensures randomWords == Rows()[1]
      ensures maxWordLength == MaxLength(RandomWords(content, size, pick)) + 2
    {
      this.health := health;
      columns := size;
      this.level := level;
      var words := RandomWords(content, size, pick);
      var longest := MaxLength(words);
      maxWordLength := longest + 2;
      var grid := CreateGrid(words, first, second);
      ghost var rows := BuildRows(words, first, second);
      assert multiset(grid[0][..]) == multiset(words) && multiset(grid[1][..]) == multiset(words);
      WordsFitWidth(words, rows[1], longest + 2);
      displayGrid := grid;
      randomWords := grid[1][..];
      uncovered := [];
      Repr := {grid as object, grid[0], grid[1]};
      new;
      assert Rows() == rows;
    }

    /** `areAllWordsUncovered`. */
    predicate AreAllWordsUncovered()
      reads this
    {
      AllUncovered(randomWords, uncovered)
    }

    /** `addUncoveredWord`: appends, whether or not the word is already there. */
    method AddUncoveredWord(word: string)
      modifies this
      ensures uncovered == old(uncovered) + [word]
    {
      uncovered := uncovered + [word];
    }

    /** `guessWasCorrect`: collect the guessed cells' words into a set and
        return its element when it has exactly one. */
    method GuessWasCorrect(guesses: seq<Coord>) returns (r: Option<string>)
      requires Valid()
      requires forall g :: g in guesses ==> InGrid(Rows(), g)
      ensures r == Evaluate(Rows(), guesses)
    {
      var words: set<string> := {};
      for i := 0 to |guesses|
        invariant words == GuessedWords(Rows(), guesses[..i])
      {
        var g := guesses[i];
        assert g in guesses && InGrid(Rows(), g);
        assert guesses[..i + 1] == guesses[..i] + [g];
        assert GuessedWords(Rows(), guesses[..i + 1]) == GuessedWords(Rows(), guesses[..i]) + {CellAt(Rows(), g)};
        assert CellAt(Rows(), g) == displayGrid[g.y][g.x];
        words := words + {displayGrid[g.y][g.x]};
      }
      assert guesses[..|guesses|] == guesses;
      if |words| == 1 {
        var w :| w in words;
        SingletonHoldsOne(words, w, CellAt(Rows(), guesses[0]));
        r := Some(w);
      } else {
        r := None;
      }
    }

    /** `matchUserGuess`: whether the cell is one of the guesses. */
    method MatchUserGuess(y: int, x: int, guesses: seq<Coord>) returns (b: bool)
      ensures b <==> Coord(y, x) in guesses
    {
      for i := 0 to |guesses|
        invariant Coord(y, x) !in guesses[..i]
      {
        if x == guesses[i].x && y == guesses[i].y {
          return true;
        }
      }
      assert guesses[..|guesses|] == guesses;
      return false;
    }

    /** One cell of `displayGrid`: its word if uncovered or guessed this turn,
        "x" otherwise, centred by `displayText`; every cell comes out exactly
        one column wide. */
    method RenderCell(y: int, x: int, guesses: seq<Coord>) returns (out: string)
      requires Valid() && InGrid(Rows(), Coord(y, x))
      ensures out == DisplayText(ShownText(Rows(), uncovered, guesses, Coord(y, x)), maxWordLength)
      ensures |out| == maxWordLength
    {
      var word := displayGrid[y][x];
      var guessed := MatchUserGuess(y, x, guesses);
      var text := if word in uncovered || guessed then word else "x";
      assert word in multiset(Rows()[y]);
      out := DisplayText(text, maxWordLength);
    }
  }

  /** Turns whose cells lie inside the columns lie inside rows that wide. */
  lemma TurnsFitRows(rows: seq<seq<string>>, columns: nat, turns: seq<Turn>)
    requires |rows| == 2 && |rows[0]| == columns && |rows[1]| == columns
    requires forall t :: t in turns ==> InRange(t.first, columns) && InRange(t.second, columns)
    ensures forall t :: t in turns ==> TurnInGrid(rows, t)
  {
  }

  /** One turn of the loop in `main`: evaluate the two guesses, then append the
      word on a match or count down the local health on a miss. */
  method PlayTurn(game: MemoryGame, health: int, t: Turn) returns (h: int)
    requires game.Valid() && TurnInGrid(game.Rows(), t)
    modifies game
    ensures game.Valid() && game.Rows() == old(game.Rows())
    ensures State(h, game.uncovered) == Step(game.Rows(), State(health, old(game.uncovered)), t)
  {
    h := health;
    var maybeWord := game.GuessWasCorrect([t.first, t.second]);
    if maybeWord != None {
      game.AddUncoveredWord(maybeWord.value);
    } else {
      h := h - 1;
    }
  }

  /** The `while (health > 0)` loop of `main`: one turn after another, until
      health runs out or the loop breaks because every word is uncovered. The
      session is a win iff health is still positive when the loop ends. */
  method PlaySession(game: MemoryGame, health: int, turns: seq<Turn>) returns (f: Final)
    requires game.Valid() && |game.randomWords| == game.columns
    requires forall t :: t in turns ==> InRange(t.first, game.columns) && InRange(t.second, game.columns)
    modifies game
    ensures game.Valid() && game.Rows() == old(game.Rows())
    ensures forall t :: t in turns ==> TurnInGrid(game.Rows(), t)
    ensures f == Run(game.Rows(), game.randomWords, State(health, old(game.uncovered)), turns)
    ensures game.uncovered == f.state.uncovered
  {
    ghost var rows := game.Rows();
    ghost var words := game.randomWords;
    TurnsFitRows(rows, game.columns, turns);
    ghost var start := Run(rows, words, State(health, game.uncovered), turns);
    var h := health;
    var k := 0;
    var allFound := false;
    while h > 0 && k < |turns|
      invariant 0 <= k <= |turns| && !allFound
      invariant game.Valid() && game.Rows() == rows
      invariant start == Later(Run(rows, words, State(h, game.uncovered), turns[k..]), k)
    {
      RunFrom(rows, words, State(h, game.uncovered), turns, k);
      h := PlayTurn(game, h, turns[k]);
      k := k + 1;
      if game.AreAllWordsUncovered() {
        allFound := true;
        break;
      }
    }
    f := Final(State(h, game.uncovered), k,
               if h > 0 && !allFound then AwaitingInput else if h > 0 then Won else Lost);
  }

  /** The session `main` plays at the given level from an untouched grid.
      With the preset's health and word count, at most health + columns turns
      are needed before the session is decided. */
  function LevelSession(level: string, content: seq<string>, pick: seq<nat>, first: seq<nat>, second: seq<nat>,
                        turns: seq<Turn>): (f: Final)
    requires |content| >= Preset(level).1
    requires ValidDraws(pick, |content|)
    requires ValidDraws(first, Preset(level).1) && ValidDraws(second, Preset(level).1)
    requires forall t :: t in turns ==> InRange(t.first, Preset(level).1) && InRange(t.second, Preset(level).1)
    ensures |turns| >= Preset(level).0 + Preset(level).1 ==> f.outcome != AwaitingInput
    ensures f.played < Preset(level).0 + Preset(level).1
  {
    var size := Preset(level).1;
    var rows := BuildRows(RandomWords(content, size, pick), first, second);
    TurnsFitRows(rows, size, turns);
    RunLasts(rows, rows[1], State(Preset(level).0, []), turns);
    Run(rows, rows[1], State(Preset(level).0, []), turns)
  }

  /** One play session of `main` at the chosen level: the preset health and
      column count, a fresh game, then the turn loop. The pool must hold
      enough words to fill the preset's columns, since the first
      `displayGrid` call indexes every column. */
  method PlayLevel(level: string, content: seq<string>, pick: seq<nat>, first: seq<nat>, second: seq<nat>,
                   turns: seq<Turn>) returns (f: Final)
    requires |content| >= Preset(level).1
    requires ValidDraws(pick, |content|)
    requires ValidDraws(first, Preset(level).1) && ValidDraws(second, Preset(level).1)
    requires forall t :: t in turns ==> InRange(t.first, Preset(level).1) && InRange(t.second, Preset(level).1)
    ensures f == LevelSession(level, content, pick, first, second, turns)
  {
    var health := 10;
    var size := 4;
    if IsHard(level) {
      health := 15;
      size := 8;
    }
    var game := new MemoryGame(health, size, level, content, pick, first, second);
    assert (health, size) == Preset(level);
    assert |game.randomWords| == size;
    f := PlaySession(game, health, turns);
  }
}
