/**
 * The decisions `displayGrid` and `displayText` make: which cells show
 * their word, and how a text is centred in a column of fixed width.
 */
module Display {
  import opened Guesses
  import opened Turns

  function Max(a: int, b: int): int { if a >= b then a else b }

  /** Java's `/` on `int`: the quotient truncated toward zero. */
  function JavaDiv(a: int, b: int): int
    requires b > 0
  {
    if a >= 0 then a / b else -((-a) / b)
  }

  /** Java's `%` on `int`: the remainder takes the sign of the dividend. */
  function JavaRem(a: int, b: int): int
    requires b > 0
  {
    a - b * JavaDiv(a, b)
  }

  /** The padding `displayText` puts left and right of a text: half of the
      spare width each, the odd space going to the left. When the text is
      wider than the column, both are at most zero and nothing is padded. */
  function Pads(maxWordLength: int, textLength: nat): (p: (int, int))
    ensures var diff := maxWordLength - textLength;
            diff >= 0 ==> p.0 + p.1 == diff && 0 <= p.0 - p.1 <= 1
    ensures maxWordLength < textLength ==> p.0 <= 0 && p.1 <= 0
  {
    var diff := maxWordLength - textLength;
    var padLeft := JavaDiv(diff, 2);
    var padRight := JavaDiv(diff, 2);
    if JavaRem(diff, 2) == 1 then (padLeft + 1, padRight) else (padLeft, padRight)
  }

  /** `IntStream.range(0, n)` printing one space per step: nothing when n <= 0. */
  function Spaces(n: int): string {
    seq(Max(n, 0), _ => ' ')
  }

  /** What `displayText` prints: the text centred in a column of width
      `maxWordLength`, or the bare text when it is wider than that. */
  function DisplayText(text: string, maxWordLength: int): (out: string)
    ensures |out| == Max(maxWordLength, |text|)
    ensures var left := Max(Pads(maxWordLength, |text|).0, 0);
            && left + |text| <= |out|
            && out[left..left + |text|] == text
            && forall i :: 0 <= i < |out| && !(left <= i < left + |text|) ==> out[i] == ' '
  {
    var (padLeft, padRight) := Pads(maxWordLength, |text|);
    Spaces(padLeft) + text + Spaces(padRight)
  }

  /** The test of `displayGrid`: a cell shows its word when that word is
      uncovered or the cell is one of the current turn's guesses. */
  predicate IsVisible(rows: seq<seq<string>>, uncovered: seq<string>, guesses: seq<Coord>, c: Coord)
    requires InGrid(rows, c)
  {
    CellAt(rows, c) in uncovered || c in guesses
  }

  /** The text of a cell before centring: its word, or the placeholder "x". */
  function ShownText(rows: seq<seq<string>>, uncovered: seq<string>, guesses: seq<Coord>, c: Coord): string
    requires InGrid(rows, c)
  {
    if IsVisible(rows, uncovered, guesses, c) then CellAt(rows, c) else "x"
  }

  /** Words, not cells, are what gets uncovered: once a selected word is in
      the uncovered list, its cell in each row is shown, whatever is guessed. */
  lemma UncoveredShownInBothRows(rows: seq<seq<string>>, words: seq<string>, uncovered: seq<string>,
                                 guesses: seq<Coord>, w: string, y: nat)
    requires y < |rows| && multiset(rows[y]) == multiset(words)
    requires w in words && w in uncovered
    ensures exists x :: 0 <= x < |rows[y]| && rows[y][x] == w && ShownText(rows, uncovered, guesses, Coord(y, x)) == w
  {
    assert w in multiset(rows[y]);
    var x :| 0 <= x < |rows[y]| && rows[y][x] == w;
    assert ShownText(rows, uncovered, guesses, Coord(y, x)) == w;
  }
}
