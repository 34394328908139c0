/**
 * Resolving a turn (`guessWasCorrect`, `addUncoveredWord`,
 * `areAllWordsUncovered`) and the turn loop of `main`, over the grid's rows
 * as values.
 */
module Turns {
  import opened Options
  import opened Guesses
  import opened Words

  /** The cell names a position of the grid's rows. */
  predicate InGrid(rows: seq<seq<string>>, c: Coord) {
    0 <= c.y < |rows| && 0 <= c.x < |rows[c.y]|
  }

  function CellAt(rows: seq<seq<string>>, c: Coord): string
    requires InGrid(rows, c)
  {
    rows[c.y][c.x]
  }

  /** The words under the guessed cells, collected into a set. */
  function GuessedWords(rows: seq<seq<string>>, guesses: seq<Coord>): set<string>
    requires forall g :: g in guesses ==> InGrid(rows, g)
  {
    set g | g in guesses :: CellAt(rows, g)
  }

  /** A set with one element holds nothing else. */
  lemma SingletonHoldsOne<T>(s: set<T>, a: T, b: T)
    requires |s| == 1 && a in s && b in s
    ensures a == b
  {
    if a != b {
      assert {a, b} <= s;
      assert |{a, b}| == 2;
      SubsetCardinality({a, b}, s);
    }
  }

  lemma SubsetCardinality<T>(a: set<T>, b: set<T>)
    requires a <= b
    ensures |a| <= |b|
  {
    assert b == a + (b - a);
  }

  /** `guessWasCorrect`: the guess names a word exactly when the set of the
      guessed cells' words has one element. So it is a match iff there is a
      guess and every guessed cell holds the same word; a cell guessed twice
      matches itself. */
  function Evaluate(rows: seq<seq<string>>, guesses: seq<Coord>): (r: Option<string>)
    requires forall g :: g in guesses ==> InGrid(rows, g)
    ensures r.Some? <==> |guesses| > 0 && forall g :: g in guesses ==> CellAt(rows, g) == CellAt(rows, guesses[0])
    ensures r.Some? ==> forall g :: g in guesses ==> CellAt(rows, g) == r.value
  {
    SingleWordIffAllSame(rows, guesses);
    if |GuessedWords(rows, guesses)| == 1 then Some(CellAt(rows, guesses[0])) else None
  }

  /** The guessed words form a one-element set exactly when there is a guess
      and every guessed cell holds the first guess's word. */
  lemma SingleWordIffAllSame(rows: seq<seq<string>>, guesses: seq<Coord>)
    requires forall g :: g in guesses ==> InGrid(rows, g)
    ensures |GuessedWords(rows, guesses)| == 1 <==>
              |guesses| > 0 && forall g :: g in guesses ==> CellAt(rows, g) == CellAt(rows, guesses[0])
  {
    var words := GuessedWords(rows, guesses);
    if |guesses| > 0 {
      var w := CellAt(rows, guesses[0]);
      assert w in words;
      if |words| == 1 {
        forall g | g in guesses ensures CellAt(rows, g) == w {
          SingletonHoldsOne(words, CellAt(rows, g), w);
        }
      }
      if forall g :: g in guesses ==> CellAt(rows, g) == w {
        assert words == {w};
      }
    } else {
      assert words == {};
    }
  }

  /** Two guesses of one turn. */
  datatype Turn = Turn(first: Coord, second: Coord)

  predicate TurnInGrid(rows: seq<seq<string>>, t: Turn) {
    InGrid(rows, t.first) && InGrid(rows, t.second)
  }

  /** What a session changes: `main`'s local health and the `uncovered` list. */
  datatype State = State(health: int, uncovered: seq<string>)

  /** `areAllWordsUncovered`: the list of uncovered words is as long as the
      list of selected words (a size comparison, not a membership test). */
  predicate AllUncovered(words: seq<string>, uncovered: seq<string>) {
    |uncovered| == |words|
  }

  /** One turn: a match appends the matched word to `uncovered`
      (`addUncoveredWord`, no duplicate test) and keeps health; a miss costs
      exactly one health and uncovers nothing. */
  function Step(rows: seq<seq<string>>, st: State, t: Turn): (r: State)
    requires TurnInGrid(rows, t)
    ensures CellAt(rows, t.first) == CellAt(rows, t.second) ==>
              r == State(st.health, st.uncovered + [CellAt(rows, t.first)])
    ensures CellAt(rows, t.first) != CellAt(rows, t.second) ==>
              r == State(st.health - 1, st.uncovered)
  {
    match Evaluate(rows, [t.first, t.second])
    case Some(w) => State(st.health, st.uncovered + [w])
    case None => State(st.health - 1, st.uncovered)
  }

  /** How a session ends: won, lost, or still waiting for the player's next guess. */
  datatype Outcome = Won | Lost | AwaitingInput

  /** Where a session stands after the given turns. */
  datatype Final = Final(state: State, played: nat, outcome: Outcome)

  /** The `while (health > 0)` loop of `main`, fed with the given turns: it
      stops when health is used up, or right after a turn that leaves every
      word uncovered (then the session is a win iff health is still positive),
      or when the turns run out before either happens. Every turn either
      costs one health or uncovers one word. */
  function Run(rows: seq<seq<string>>, words: seq<string>, st: State, turns: seq<Turn>): (f: Final)
    requires forall t :: t in turns ==> TurnInGrid(rows, t)
    ensures f.played <= |turns|
    ensures st.uncovered <= f.state.uncovered
    ensures f.state.health <= st.health
    ensures f.played == (st.health - f.state.health) + (|f.state.uncovered| - |st.uncovered|)
    ensures f.outcome == Won ==> f.state.health > 0 && AllUncovered(words, f.state.uncovered)
    ensures f.outcome == Lost ==> f.state.health <= 0
    ensures f.outcome == AwaitingInput ==> f.played == |turns| && f.state.health > 0
    ensures f.played < |turns| ==> f.outcome != AwaitingInput
    ensures st.health > 0 && f.outcome == Lost ==> f.state.health == 0
    decreases |turns|
  {
    if st.health <= 0 then Final(st, 0, Lost)
    else if turns == [] then Final(st, 0, AwaitingInput)
    else
      var next := Step(rows, st, turns[0]);
      if AllUncovered(words, next.uncovered) then
        Final(next, 1, if next.health > 0 then Won else Lost)
      else
        var f := Run(rows, words, next, turns[1..]);
        Final(f.state, f.played + 1, f.outcome)
  }

  /** The loop stops on the very turn that decides it: once a turn leaves
      no health (`while (health > 0)`) or passes the size test (the `break`),
      no further turn is played. */
  lemma RunStopsOnDecidingTurn(rows: seq<seq<string>>, words: seq<string>, st: State, turns: seq<Turn>)
    requires forall t :: t in turns ==> TurnInGrid(rows, t)
    requires st.health > 0 && turns != [] && TurnInGrid(rows, turns[0])
    requires var next := Step(rows, st, turns[0]);
             next.health <= 0 || AllUncovered(words, next.uncovered)
    ensures var next := Step(rows, st, turns[0]);
            Run(rows, words, st, turns) == Final(next, 1, if next.health > 0 then Won else Lost)
  {
  }

  /** With one health left, a miss ends the session at once as a loss. */
  lemma LastMissLoses(rows: seq<seq<string>>, words: seq<string>, st: State, turns: seq<Turn>)
    requires forall t :: t in turns ==> TurnInGrid(rows, t)
    requires st.health == 1 && turns != [] && TurnInGrid(rows, turns[0])
    requires CellAt(rows, turns[0].first) != CellAt(rows, turns[0].second)
    ensures Run(rows, words, st, turns) == Final(State(0, st.uncovered), 1, Lost)
  {
  }

  /** A session's standing, shifted by turns already played. */
  function Later(f: Final, k: nat): Final {
    Final(f.state, f.played + k, f.outcome)
  }

  /** Turn k of a session that is still going: its step, then either the end
      of the session or the turns after it. */
  lemma RunFrom(rows: seq<seq<string>>, words: seq<string>, st: State, turns: seq<Turn>, k: nat)
    requires forall t :: t in turns ==> TurnInGrid(rows, t)
    requires st.health > 0 && k < |turns|
    ensures var next := Step(rows, st, turns[k]);
            Later(Run(rows, words, st, turns[k..]), k)
              == if AllUncovered(words, next.uncovered) then Final(next, k + 1, if next.health > 0 then Won else Lost)
                 else Later(Run(rows, words, next, turns[k + 1..]), k + 1)
  {
  }

  /** While fewer words are uncovered than were selected, a session that is
      still waiting for input has not reached the word count either. */
  lemma {:induction false} RunStaysBelowWordCount(rows: seq<seq<string>>, words: seq<string>, st: State, turns: seq<Turn>)
    requires forall t :: t in turns ==> TurnInGrid(rows, t)
    requires |st.uncovered| < |words|
    ensures var f := Run(rows, words, st, turns);
            f.outcome == AwaitingInput ==> |f.state.uncovered| < |words|
    decreases |turns|
  {
    if st.health > 0 && turns != [] {
      var next := Step(rows, st, turns[0]);
      if !AllUncovered(words, next.uncovered) {
        RunStaysBelowWordCount(rows, words, next, turns[1..]);
      }
    }
  }

  /** A session that starts with positive health and a covered word lasts at
      most health + (number of words still covered) - 1 turns. */
  lemma {:induction false} RunLasts(rows: seq<seq<string>>, words: seq<string>, st: State, turns: seq<Turn>)
    requires forall t :: t in turns ==> TurnInGrid(rows, t)
    requires st.health > 0 && |st.uncovered| < |words|
    ensures Run(rows, words, st, turns).played <= st.health + |words| - |st.uncovered| - 1
    decreases |turns|
  {
    if turns != [] {
      var next := Step(rows, st, turns[0]);
      if !AllUncovered(words, next.uncovered) && next.health > 0 {
        RunLasts(rows, words, next, turns[1..]);
      }
    }
  }

  /** Every session is decided within health + (number of words still
      covered) turns: each turn costs one health or uncovers one word. */
  lemma SessionEndsWithin(rows: seq<seq<string>>, words: seq<string>, st: State, turns: seq<Turn>)
    requires forall t :: t in turns ==> TurnInGrid(rows, t)
    requires |st.uncovered| < |words|
    requires |turns| >= st.health + |words| - |st.uncovered|
    ensures Run(rows, words, st, turns).outcome != AwaitingInput
  {
    RunStaysBelowWordCount(rows, words, st, turns);
  }

  /** Guessing the same cell over and over wins the game: each such turn is a
      match and appends the same word again, until the list of uncovered words
      is as long as the list of selected words. */
  lemma {:induction false} RepeatedCellWins(rows: seq<seq<string>>, words: seq<string>, st: State, c: Coord)
    requires InGrid(rows, c) && st.health > 0 && |st.uncovered| < |words|
    ensures var k := |words| - |st.uncovered|;
            Run(rows, words, st, seq(k, _ => Turn(c, c)))
              == Final(State(st.health, st.uncovered + seq(k, _ => CellAt(rows, c))), k, Won)
    decreases |words| - |st.uncovered|
  {
    var k := |words| - |st.uncovered|;
    var w := CellAt(rows, c);
    var turns := seq(k, _ => Turn(c, c));
    var next := Step(rows, st, turns[0]);
    assert next == State(st.health, st.uncovered + [w]);
    if k == 1 {
      assert st.uncovered + seq(k, _ => w) == next.uncovered;
    } else {
      RepeatedCellWins(rows, words, next, c);
      assert turns[1..] == seq(k - 1, _ => Turn(c, c));
      assert next.uncovered + seq(k - 1, _ => w) == st.uncovered + seq(k, _ => w);
    }
  }

  /** Matching a word that is already uncovered appends it once more: the
      list is not a set, and the word then occurs in it twice. */
  lemma RematchGrowsUncovered(rows: seq<seq<string>>, st: State, t: Turn)
    requires TurnInGrid(rows, t) && CellAt(rows, t.first) == CellAt(rows, t.second)
    requires CellAt(rows, t.first) in st.uncovered
    ensures var r := Step(rows, st, t);
            |r.uncovered| == |st.uncovered| + 1 && r.health == st.health
    ensures multiset(Step(rows, st, t).uncovered)[CellAt(rows, t.first)] >= 2
  {
  }

  /** A list without duplicates has as many distinct elements as entries. */
  lemma {:induction false} DistinctElementCount(s: seq<string>)
    requires Distinct(s)
    ensures |set x | x in s| == |s|
  {
    if s != [] {
      var n := |s|;
      var front := s[..n - 1];
      assert Distinct(front);
      DistinctElementCount(front);
      assert s[n - 1] !in front;
      assert (set x | x in s) == (set x | x in front) + {s[n - 1]};
    }
  }

  /** The size test of `areAllWordsUncovered` means "every selected word is
      uncovered" only when the uncovered list holds no repeats and only
      selected words, and the selected words are distinct. */
  lemma AllUncoveredMeansEveryWord(words: seq<string>, uncovered: seq<string>)
    requires Distinct(words) && Distinct(uncovered)
    requires forall w :: w in uncovered ==> w in words
    ensures AllUncovered(words, uncovered) <==> forall w :: w in words ==> w in uncovered
  {
    var su, sw := set x | x in uncovered, set x | x in words;
    DistinctElementCount(words);
    DistinctElementCount(uncovered);
    assert su <= sw;
    if AllUncovered(words, uncovered) {
      assert sw == su + (sw - su);
      assert |sw - su| == 0;
      forall w | w in words ensures w in uncovered {
        assert w in sw;
      }
    }
    if forall w :: w in words ==> w in uncovered {
      assert su == sw;
    }
  }

  /** A session whose grid rows hold only selected words uncovers only
      selected words. */
  lemma {:induction false} RunUncoversSelectedWords(rows: seq<seq<string>>, words: seq<string>, st: State, turns: seq<Turn>)
    requires forall t :: t in turns ==> TurnInGrid(rows, t)
    requires forall y :: 0 <= y < |rows| ==> multiset(rows[y]) == multiset(words)
    requires forall w :: w in st.uncovered ==> w in words
    ensures forall w :: w in Run(rows, words, st, turns).state.uncovered ==> w in words
    decreases |turns|
  {
    if st.health > 0 && turns != [] {
      var t := turns[0];
      var next := Step(rows, st, t);
      var cell := CellAt(rows, t.first);
      assert cell in multiset(rows[t.first.y]);
      if !AllUncovered(words, next.uncovered) {
        RunUncoversSelectedWords(rows, words, next, turns[1..]);
      }
    }
  }
}
