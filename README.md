# Memory game: a verified model

`MemoryGame` is a console memory game. The program picks a few words from a word pool. It lays them out twice, each time in shuffled order, as the two rows A and B of a grid. The player then guesses two cells per turn by typing labels such as `A1`. When both cells hold the same word, that word is uncovered. Every miss costs one point of health. A session ends when every word is uncovered or health runs out, and it is won iff health is still positive.

This project models the game engine in Dafny:

- `options.dfy`: the `Option` type.
- `words.dfy` (module `Words`): `Collections.shuffle` as its swap loop driven by random draws. It also holds word selection (`getRandomWords`) and the two grid rows (`createGrid`).
- `guesses.dfy` (module `Guesses`): the parse of a typed guess in `askForGuess`.
- `turns.dfy` (module `Turns`): guess evaluation (`guessWasCorrect`), the uncovered list and the win test. It also models one turn and the session loop of `main`, over the grid rows as values.
- `display.dfy` (module `Display`): the visibility test of `displayGrid` and the centring done by `displayText`.
- `game.dfy` (module `Game`): the `MemoryGame` object as a class. It holds the grid as an array of arrays and `uncovered` as a mutable field. This module also has the imperative versions of the grid construction, the guess loops and the session loop. Each of these is proved equal to the value-level functions above.

The shuffle's random numbers, the word pool and the typed guesses are all parameters. A shuffle is described by its draws: the k-th draw of a shuffle over n elements lies in [0, n-k). `ShuffleReachesEvery` proves that these draws can produce every permutation, so fixing them loses no outcome of the real game.

Two behaviours of the code are modelled as written.

- `uncovered` is a list, and matches are appended without a duplicate test. The win test compares only lengths. So re-matching an uncovered word, or guessing the same cell twice, counts toward the win (`RematchGrowsUncovered`, `RepeatedCellWins`).
- A pool with fewer words than the requested count is not an error during selection: `limit` simply yields fewer words (`RandomWords`). The session model, `PlayLevel`, requires a full pool, because `displayGrid` would otherwise index past the end of a row.

## Model

| member | source | states |
|---|---|---|
| Words.Shuffled | src/MemoryGame.java:182 | `Collections.shuffle` with given draws keeps the list's length |
| Words.ShuffledPermutes | src/MemoryGame.java:182 | a shuffle is a permutation: every element keeps its multiplicity |
| Words.ShuffleReachesEvery | src/MemoryGame.java:182 | every permutation of the list is the result of some valid draws |
| Words.DrawsForProduce | src/MemoryGame.java:182 | the constructed draws are valid and produce the requested permutation |
| Words.RandomWords | src/MemoryGame.java:181-184 | `getRandomWords` returns min(n, pool size) words, never more than n, all drawn from the pool with multiplicity; a pool without duplicates gives words without duplicates |
| Words.BuildRows | src/MemoryGame.java:186-193 | `createGrid` makes two rows, each a permutation of the selected words and of the same length |
| Words.EachWordOncePerRow | src/MemoryGame.java:186-193 | with distinct selected words, each selected word occurs exactly once in a row and nothing else occurs there |
| Words.GridFromDistinctPool | src/MemoryGame.java:181-193 | from a duplicate-free pool, each row holds min(size, pool size) cells and every selected word exactly once |
| Guesses.LetterIndex | src/MemoryGame.java:102 | `binarySearch` on `LETTERS` finds the letter's position |
| Guesses.Parse | src/MemoryGame.java:96-104 | an accepted guess is a cell in rows A/B and columns 1..columns whose label the upper-cased line spells; a rejected line spells no such label |
| Guesses.ParseLabel | src/MemoryGame.java:101-104 | typing any in-range cell's label, in either case, yields exactly that cell |
| Guesses.ParseIgnoresCase | src/MemoryGame.java:96 | parsing does not depend on the case of the typed letters |
| Turns.Evaluate | src/MemoryGame.java:119-127 | `guessWasCorrect` returns a word iff there is a guess and every guessed cell holds the same word (a cell guessed twice matches), and the word is the one under every guess |
| Turns.SingleWordIffAllSame | src/MemoryGame.java:120-126 | the set of guessed words has one element iff all guessed cells hold the first guess's word |
| Turns.Step | src/MemoryGame.java:66-71 | on a match, health is unchanged and the word is appended to `uncovered`; on a miss, health drops by one and `uncovered` is unchanged |
| Turns.Run | src/MemoryGame.java:57-83 | the session loop never raises health, only extends `uncovered`, and spends one turn per lost health point or uncovered word; a win has positive health and all words uncovered, a loss has no health left (exactly zero when it started positive), and a session is still waiting only when the turns ran out with health positive |
| Turns.RunFrom | src/MemoryGame.java:57-77 | turn k of an ongoing session is its step, followed by either the end of the loop or the remaining turns |
| Turns.RunStopsOnDecidingTurn | src/MemoryGame.java:57-77 | the turn that leaves no health, or passes the size test, is the last one played: the session ends there, won iff health is still positive |
| Turns.LastMissLoses | src/MemoryGame.java:57-71 | with one health left, a miss ends the session on that turn as a loss with health zero and nothing newly uncovered |
| Turns.RunStaysBelowWordCount | src/MemoryGame.java:74-76 | a session still waiting for input has fewer uncovered entries than selected words |
| Turns.RunLasts | src/MemoryGame.java:57-77 | from positive health, a session lasts at most health + (words still covered) - 1 turns |
| Turns.SessionEndsWithin | src/MemoryGame.java:57-77 | given health + (words still covered) turns, the session is won or lost |
| Turns.RepeatedCellWins | src/MemoryGame.java:57-77 | guessing one cell twice per turn wins after as many turns as words remain, appending the same word each turn |
| Turns.RematchGrowsUncovered | src/MemoryGame.java:115-117 | matching an already uncovered word grows the list by one and leaves that word in it at least twice |
| Turns.AllUncovered | src/MemoryGame.java:111-113 | the win test is a length comparison of the uncovered list with the selected words; `AllUncoveredMeansEveryWord` gives its meaning, and `RepeatedCellWins` shows it can hold with words still covered |
| Turns.DistinctElementCount | src/MemoryGame.java:111-113 | a duplicate-free list has as many distinct elements as entries |
| Turns.AllUncoveredMeansEveryWord | src/MemoryGame.java:111-113 | for duplicate-free lists of selected words, the size test holds iff every selected word is uncovered |
| Turns.RunUncoversSelectedWords | src/MemoryGame.java:57-77 | a session only ever uncovers words that were selected |
| Display.Pads | src/MemoryGame.java:153-160 | for a text that fits, left and right padding sum to the spare width and the left one is equal or one larger; for a wider text, both are non-positive |
| Display.DisplayText | src/MemoryGame.java:153-167 | the output is as wide as the column (or the text, if wider), holds the text at the left padding, and is blank elsewhere |
| Display.IsVisible | src/MemoryGame.java:143 | a cell is shown iff its word is in the uncovered list or the cell is one of this turn's guesses (`MatchUserGuess` decides the second part; `UncoveredShownInBothRows` gives the consequence) |
| Display.ShownText | src/MemoryGame.java:142-147 | a visible cell shows its word, any other cell "x"; `RenderCell` proves the object's cell output is this text centred |
| Display.UncoveredShownInBothRows | src/MemoryGame.java:142-147 | an uncovered selected word is shown at its cell in each row, whatever is guessed |
| Game.Preset | src/MemoryGame.java:45-51 | `h` in either case selects health 15 and 8 columns, anything else health 10 and 4 columns |
| Game.MaxLength | src/MemoryGame.java:32 | the result bounds every word's length and is the length of one of them |
| Game.WordsFitWidth | src/MemoryGame.java:32 | after rearranging, every word still fits the column width |
| Game.ToArray | src/MemoryGame.java:190-192 | `toArray` gives a fresh array holding the list in order |
| Game.CreateGrid | src/MemoryGame.java:186-193 | the grid is a fresh 2-row array whose rows are the two shuffles of `BuildRows` |
| Game.MemoryGame.constructor | src/MemoryGame.java:23-35 | the new game's rows are `BuildRows` of `RandomWords`, the word list is left in row B's order, the width is the longest word plus two, and nothing is uncovered |
| Game.MemoryGame.AreAllWordsUncovered | src/MemoryGame.java:111-113 | `areAllWordsUncovered` on the object is `AllUncovered` of its fields; `PlaySession` uses it as the loop's break |
| Game.MemoryGame.AddUncoveredWord | src/MemoryGame.java:115-117 | `uncovered` becomes the old list with the word appended |
| Game.MemoryGame.GuessWasCorrect | src/MemoryGame.java:119-127 | the loop over the guesses computes exactly `Evaluate` on the grid |
| Game.MemoryGame.MatchUserGuess | src/MemoryGame.java:170-179 | true iff the cell is one of the guesses |
| Game.MemoryGame.RenderCell | src/MemoryGame.java:142-147 | a cell prints as its word if uncovered or guessed, else "x", centred and exactly one column wide |
| Game.TurnsFitRows | src/MemoryGame.java:101-104 | parsed guesses index inside rows of the grid's width |
| Game.PlayTurn | src/MemoryGame.java:66-71 | one loop iteration changes health and `uncovered` exactly as `Step` does and leaves the grid unchanged |
| Game.PlaySession | src/MemoryGame.java:57-83 | the imperative loop reaches exactly the outcome of `Run`, keeps the game valid, and leaves `uncovered` as `Run` says |
| Game.LevelSession | src/MemoryGame.java:45-83 | a session at a preset level is decided within health + columns turns and never lasts longer than health + columns - 1 turns |
| Game.PlayLevel | src/MemoryGame.java:45-83 | choosing the level, building the game and playing the loop gives `LevelSession` |

## Left out

- Console input and output are not modelled: `Scanner`, the printing and the header rows of `displayGrid`. The model takes already-typed lines and returns the chosen text of each cell.
- The quit command and `System.exit(0)` at src/MemoryGame.java:97-99 are left out, as is the retry loop of `askForGuess` for invalid input. `Parse` is one attempt; `None` stands for the retry.
- Loading `Words.txt` from the class path and its exceptions are left out. The pool is a parameter.
- The randomness of `Collections.shuffle` is left out: the draws are parameters, and `ShuffleReachesEvery` shows that no permutation is lost.
- The level and replay prompts, the outer replay loop and the win/lose messages are left out. The session outcome stands in for the messages.
- The `Level:`/`Chance:` header lines are left out. `this.health` is stored but never decremented.
- Guesses.ToUpper: upper-cases ASCII letters only, because no other character can make a guess valid.
- Guesses.Parse: models the pattern `[AB][1-%d]` for 1 to 9 columns only, because the game only creates 4 or 8.
- Game.MemoryGame.constructor: requires a non-empty pool and a positive size, because `max().getAsInt()` throws on an empty selection. That exception path is not modelled.
- Game.PlayLevel: requires a pool of at least the preset's column count, because with fewer words `displayGrid` indexes past a row. That crash is not modelled.
- Game.MaxLength: counts a word's length in Unicode characters, while `String.length()` counts UTF-16 code units; the two agree for text inside the Basic Multilingual Plane and differ for characters outside it.
- Display.Pads: takes the text length in Unicode characters rather than UTF-16 code units, so the padding matches the source only for text inside the Basic Multilingual Plane.
- Display.DisplayText: measures both the text and the column in Unicode characters rather than UTF-16 code units, identical for text inside the Basic Multilingual Plane.
- `Coordinates` equality: `matchUserGuess` compares fields, which is what `Coord` value equality means.
