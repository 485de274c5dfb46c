/**
 * What each cell looks like: its fill colour, its label and the decimal
 * numeral that Java's string concatenation `"" + n` produces.
 */
module Styling {
  import Grid

  /** The colours the view paints with (`Paint`'s default is black). */
  datatype Color = Black | White | Blue | Green | Red

  /** The `itemColor` array: green for even ring cells, red for odd ones. */
  function ItemColor(k: int): (c: Color)
    requires 0 <= k < 2
    ensures c == Green <==> k == 0
    ensures c == Red <==> k == 1
  {
    if k == 0 then Green else Red
  }

  /** The centre cell's label. */
  const GoLabel := "Go"

  /**
   * Fill colour of cell `i` while `position` is highlighted: the centre is
   * white, the highlighted ring cell blue, any other ring cell takes the
   * item colour of its parity.
   */
  function Fill(i: int, position: int): (c: Color)
    requires 0 <= i < Grid.CellCount
    ensures c == Blue <==> i != Grid.Centre && i == position
    ensures c == White <==> i == Grid.Centre
    ensures i != Grid.Centre && i != position ==> c == ItemColor(i % 2)
  {
    if i == Grid.Centre then White
    else if position == i then Blue
    else ItemColor(i % 2)
  }

  /** Two ring cells next to each other round the ring, neither highlighted, differ in colour (7 and 0 too). */
  lemma NeighboursDiffer(i: int, position: int)
    requires 0 <= i < 8 && position != i && position != (i + 1) % 8
    ensures Fill(i, position) != Fill((i + 1) % 8, position)
  {
  }

  /** At most one cell is blue, and none when `position` is not a ring index. */
  lemma HighlightIsUnique(i: int, j: int, position: int)
    requires 0 <= i < Grid.CellCount && 0 <= j < Grid.CellCount
    requires Fill(i, position) == Blue && Fill(j, position) == Blue
    ensures i == j == position && 0 <= position < 8
  {
  }

  /** The decimal digit character for `d`. */
  function DigitChar(d: int): char
    requires 0 <= d < 10
  {
    (('0' as int) + d) as char
  }

  /** Value of a digit character. */
  function DigitValue(c: char): int
  {
    (c as int) - ('0' as int)
  }

  predicate IsDigit(c: char) { '0' <= c <= '9' }

  /** `"" + n` for a natural number: its decimal numeral, with no leading zero. */
  function Numeral(n: nat): (s: string)
    ensures |s| >= 1 && (forall k :: 0 <= k < |s| ==> IsDigit(s[k]))
    ensures |s| > 1 ==> s[0] != '0'
    decreases n
  {
    if n < 10 then [DigitChar(n)] else Numeral(n / 10) + [DigitChar(n % 10)]
  }

  /** Reading a string of digits as a decimal number. */
  function ValueOf(s: string): int
    decreases |s|
  {
    if s == [] then 0 else 10 * ValueOf(s[..|s| - 1]) + DigitValue(s[|s| - 1])
  }

  /** The numeral reads back as the number it was made from. */
  lemma {:induction false} NumeralRoundTrip(n: nat)
    ensures ValueOf(Numeral(n)) == n
    decreases n
  {
    if n >= 10 {
      NumeralRoundTrip(n / 10);
      var s := Numeral(n);
      assert s[..|s| - 1] == Numeral(n / 10);
    }
  }

  /** Label of cell `i`: "Go" for the centre, the numeral of `i + 1` for a ring cell. */
  function Label(i: int): (s: string)
    requires 0 <= i < Grid.CellCount
    ensures i == Grid.Centre ==> s == GoLabel
    ensures i != Grid.Centre ==> |s| == 1 && IsDigit(s[0]) && ValueOf(s) == i + 1
  {
    if i == Grid.Centre then GoLabel
    else NumeralRoundTrip(i + 1); Numeral(i + 1)
  }

  /** Ring cells are labelled "1" to "8", each a single digit, so the nine labels are distinct. */
  lemma LabelsDistinct(i: int, j: int)
    requires 0 <= i < Grid.CellCount && 0 <= j < Grid.CellCount && i != j
    ensures Label(i) != Label(j)
    ensures i != Grid.Centre ==> |Label(i)| == 1 && DigitValue(Label(i)[0]) == i + 1
  {
    if i != Grid.Centre && j != Grid.Centre {
      NumeralRoundTrip(i + 1);
      NumeralRoundTrip(j + 1);
    }
  }
}
