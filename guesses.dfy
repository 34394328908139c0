/**
 * The pure part of `askForGuess`: turning one line the player typed into a
 * grid coordinate.
 */
module Guesses {
  import opened Options

  /** A grid cell: row y (0 for row A, 1 for row B) and column x, counted from 0. */
  datatype Coord = Coord(y: int, x: int)

  /** The row letters (`LETTERS`); the game only ever uses the first two. */
  const LETTERS: seq<char> := ['A', 'B', 'C', 'D']

  /** Upper-casing of one character; the letters that matter here are ASCII. */
  function UpperChar(c: char): char {
    if 'a' <= c <= 'z' then (c as int - 32) as char else c
  }

  /** `String.toUpperCase` on the characters the game can accept. */
  function ToUpper(s: string): string {
    seq(|s|, i requires 0 <= i < |s| => UpperChar(s[i]))
  }

  /** The decimal digit character for 0..9. */
  function DigitChar(d: nat): char
    requires d <= 9
  {
    ('0' as int + d) as char
  }

  /** `Character.getNumericValue` on a decimal digit character. */
  function NumericValue(c: char): int
    requires '0' <= c <= '9'
  {
    c as int - '0' as int
  }

  /** `Arrays.binarySearch(LETTERS, c)` for a letter of the sorted LETTERS. */
  function LetterIndex(c: char): (i: nat)
    requires c in LETTERS
    ensures i < |LETTERS| && LETTERS[i] == c
  {
    if c == 'A' then 0 else if c == 'B' then 1 else if c == 'C' then 2 else 3
  }

  /** The cells a guess may name when the grid has the given number of columns. */
  predicate InRange(c: Coord, columns: nat) {
    0 <= c.y < 2 && 0 <= c.x < columns
  }

  /** How the grid labels a cell on screen: the row letter, then the column
      number counted from 1 (the row and column headers of `displayGrid`). */
  function Label(c: Coord): string
    requires 0 <= c.y < 2 && 0 <= c.x < 9
  {
    [LETTERS[c.y], DigitChar(c.x + 1)]
  }

  /** An upper-cased line is a guess when it matches `[AB][1-columns]`; the
      letter gives the row and the digit minus one the column. Without a
      cell whose label the line spells, the guess is rejected. */
  function Parse(line: string, columns: nat): (r: Option<Coord>)
    requires 1 <= columns <= 9
    ensures r.Some? ==> InRange(r.value, columns) && Label(r.value) == ToUpper(line)
    ensures r.None? ==> forall c :: InRange(c, columns) ==> Label(c) != ToUpper(line)
  {
    var guess := ToUpper(line);
    if |guess| == 2 && (guess[0] == 'A' || guess[0] == 'B') && '1' <= guess[1] <= DigitChar(columns) then
      Some(Coord(LetterIndex(guess[0]), NumericValue(guess[1]) - 1))
    else
      None
  }

  /** Typing a cell's label, in either case, selects exactly that cell. */
  lemma ParseLabel(c: Coord, columns: nat, line: string)
    requires 1 <= columns <= 9 && InRange(c, columns)
    requires ToUpper(line) == Label(c)
    ensures Parse(line, columns) == Some(c)
  {
  }

  /** Parsing does not depend on the case the player typed. */
  lemma ParseIgnoresCase(line: string, columns: nat)
    requires 1 <= columns <= 9
    ensures Parse(ToUpper(line), columns) == Parse(line, columns)
  {
  }
}
