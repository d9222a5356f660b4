/**
 * `calculate_mines_count`: every empty cell of a field is replaced by the
 * number of mines among its eight neighbours (as an ASCII digit), or stays
 * b' ' when there are none. Counting reads the original field only; the
 * digits go into a copy.
 */
module MineCount {
  import opened Grid

  /** Whether (a, b) lies inside the field and holds a mine. */
  predicate IsMineAt(m: Field, a: int, b: int) {
    0 <= a < |m| && 0 <= b < |m[a]| && m[a][b] == MINE
  }

  /**
   * Mines in row i+di at columns j-1 .. j+dj-1, the centre (i, j) left out:
   * the count the inner `dj` loop has added once it reaches dj.
   * ColPrefixSize gives its value as the size of a set of mine positions.
   */
  function ColSum(m: Field, i: int, j: int, di: int, dj: int): (n: nat)
    requires -1 <= dj <= 2
    ensures n <= dj + 1
    ensures di == 0 && dj >= 1 ==> n <= dj
    decreases dj + 1
  {
    if dj == -1 then 0
    else ColSum(m, i, j, di, dj - 1) + (if (di != 0 || dj - 1 != 0) && IsMineAt(m, i + di, j + dj - 1) then 1 else 0)
  }

  /**
   * Mines in rows i-1 .. i+di-1 around (i, j): the count the outer `di` loop
   * has reached at di. RowPrefixSize gives its value as the size of a set of
   * mine positions.
   */
  function RowSum(m: Field, i: int, j: int, di: int): (n: nat)
    requires -1 <= di <= 2
    ensures n <= 3 * (di + 1) - (if di >= 1 then 1 else 0)
    decreases di + 1
  {
    if di == -1 then 0 else RowSum(m, i, j, di - 1) + ColSum(m, i, j, di - 1, 2)
  }

  /** The neighbour count of (i, j); never more than 8, so b'0' + count fits in a byte. */
  function NeighbourMines(m: Field, i: int, j: int): (k: nat)
    ensures k <= 8
  {
    RowSum(m, i, j, 2)
  }

  /** The eight positions around (i, j) that lie inside the field and hold a mine. */
  function MineNeighbours(m: Field, i: int, j: int): set<(int, int)> {
    set a, b | i - 1 <= a <= i + 1 && j - 1 <= b <= j + 1 && (a, b) != (i, j) && IsMineAt(m, a, b) :: (a, b)
  }

  /** The mine positions other than (i, j) in rows rowLo .. rowHi-1 and columns colLo .. colHi-1. */
  function MinesIn(m: Field, i: int, j: int, rowLo: int, rowHi: int, colLo: int, colHi: int): set<(int, int)> {
    set a, b | rowLo <= a < rowHi && colLo <= b < colHi && (a, b) != (i, j) && IsMineAt(m, a, b) :: (a, b)
  }

  /** Widening a one-row window by one column adds at most that column's cell. */
  lemma MinesInNextColumn(m: Field, i: int, j: int, r: int, colLo: int, c: int)
    requires colLo <= c
    ensures var added := if (r, c) != (i, j) && IsMineAt(m, r, c) then {(r, c)} else {};
      MinesIn(m, i, j, r, r + 1, colLo, c + 1) == MinesIn(m, i, j, r, r + 1, colLo, c) + added
      && |MinesIn(m, i, j, r, r + 1, colLo, c + 1)| == |MinesIn(m, i, j, r, r + 1, colLo, c)| + |added|
  {
    var now := MinesIn(m, i, j, r, r + 1, colLo, c + 1);
    var before := MinesIn(m, i, j, r, r + 1, colLo, c);
    var added := if (r, c) != (i, j) && IsMineAt(m, r, c) then {(r, c)} else {};
    forall p | p in now ensures p in before + added { }
    forall p | p in before + added ensures p in now { }
    assert now == before + added;
    assert before * added == {};
  }

  /** Widening a window by one row adds that row's positions, none of them counted before. */
  lemma MinesInNextRow(m: Field, i: int, j: int, rowLo: int, r: int, colLo: int, colHi: int)
    requires rowLo <= r
    ensures MinesIn(m, i, j, rowLo, r + 1, colLo, colHi) == MinesIn(m, i, j, rowLo, r, colLo, colHi) + MinesIn(m, i, j, r, r + 1, colLo, colHi)
    ensures |MinesIn(m, i, j, rowLo, r + 1, colLo, colHi)| == |MinesIn(m, i, j, rowLo, r, colLo, colHi)| + |MinesIn(m, i, j, r, r + 1, colLo, colHi)|
  {
    var now := MinesIn(m, i, j, rowLo, r + 1, colLo, colHi);
    var above := MinesIn(m, i, j, rowLo, r, colLo, colHi);
    var row := MinesIn(m, i, j, r, r + 1, colLo, colHi);
    forall p | p in now ensures p in above + row { }
    forall p | p in above + row ensures p in now { }
    assert now == above + row;
    forall p | p in above ensures p !in row { }
    assert above * row == {};
  }

  lemma {:induction false} ColPrefixSize(m: Field, i: int, j: int, di: int, dj: int)
    requires -1 <= dj <= 2
    ensures |MinesIn(m, i, j, i + di, i + di + 1, j - 1, j + dj)| == ColSum(m, i, j, di, dj)
    decreases dj + 1
  {
    if dj == -1 {
      assert MinesIn(m, i, j, i + di, i + di + 1, j - 1, j + dj) == {};
    } else {
      ColPrefixSize(m, i, j, di, dj - 1);
      MinesInNextColumn(m, i, j, i + di, j - 1, j + dj - 1);
    }
  }

  lemma {:induction false} RowPrefixSize(m: Field, i: int, j: int, di: int)
    requires -1 <= di <= 2
    ensures |MinesIn(m, i, j, i - 1, i + di, j - 1, j + 2)| == RowSum(m, i, j, di)
    decreases di + 1
  {
    if di == -1 {
      assert MinesIn(m, i, j, i - 1, i + di, j - 1, j + 2) == {};
    } else {
      RowPrefixSize(m, i, j, di - 1);
      ColPrefixSize(m, i, j, di - 1, 2);
      MinesInNextRow(m, i, j, i - 1, i + di - 1, j - 1, j + 2);
    }
  }

  /** The loop's count is the number of mine positions among the eight neighbours. */
  lemma NeighbourMinesCounts(m: Field, i: int, j: int)
    ensures NeighbourMines(m, i, j) == |MineNeighbours(m, i, j)|
  {
    RowPrefixSize(m, i, j, 2);
    assert MinesIn(m, i, j, i - 1, i + 2, j - 1, j + 2) == MineNeighbours(m, i, j);
  }

  /** Cell (i, j) after counting. */
  function MarkedCell(m: Field, i: int, j: int): byte
    requires 0 <= i < |m| && 0 <= j < |m[i]|
  {
    if m[i][j] == NO_MINE then
      var k := NeighbourMines(m, i, j);
      if k != 0 then DIGIT_ZERO + k as byte else NO_MINE
    else m[i][j]
  }

  /** Row i after counting. */
  function MarkedRow(m: Field, i: int): Row
    requires 0 <= i < |m|
  {
    seq(|m[i]|, j requires 0 <= j < |m[i]| => MarkedCell(m, i, j))
  }

  /** The whole field after counting, every cell computed from the original field. */
  function Marked(m: Field): Field {
    seq(|m|, i requires 0 <= i < |m| => MarkedRow(m, i))
  }

  /**
   * What `calculate_mines_count` needs not to panic: it reads all eight
   * neighbours of every b' ' cell (a negative index wraps to a huge `usize`),
   * so each b' ' cell must have rows above and below and columns left and
   * right inside the field.
   */
  predicate NeighboursInBounds(m: Field) {
    forall i, j :: 0 <= i < |m| && 0 <= j < |m[i]| && m[i][j] == NO_MINE ==>
      1 <= i < |m| - 1 && 1 <= j && j + 1 < |m[i - 1]| && j + 1 < |m[i]| && j + 1 < |m[i + 1]|
  }

  /** The two inner loops of `calculate_mines_count`: the mines around (i, j), the centre skipped. */
  method CountNeighbours(minefield: Field, i: int, j: int) returns (bombCount: nat)
    requires 1 <= i < |minefield| - 1 && 1 <= j
    requires j + 1 < |minefield[i - 1]| && j + 1 < |minefield[i]| && j + 1 < |minefield[i + 1]|
    ensures bombCount == NeighbourMines(minefield, i, j)
  {
    bombCount := 0;
    for di := -1 to 2
      invariant bombCount == RowSum(minefield, i, j, di)
    {
      for dj := -1 to 2
        invariant bombCount == RowSum(minefield, i, j, di) + ColSum(minefield, i, j, di, dj)
      {
        if di == 0 && dj == 0 {
          continue;
        }
        if minefield[i + di][j + dj] == MINE {
          bombCount := bombCount + 1;
        }
      }
    }
  }

  /** `calculate_mines_count`: count into a copy of the field, reading only the original. */
  method CountMines(minefield: Field) returns (counted: Field)
    requires NeighboursInBounds(minefield)
    ensures counted == Marked(minefield)
  {
    counted := minefield;
    for i := 0 to |minefield|
      invariant |counted| == |minefield|
      invariant forall a :: 0 <= a < i ==> counted[a] == MarkedRow(minefield, a)
      invariant forall a :: i <= a < |minefield| ==> counted[a] == minefield[a]
    {
      for j := 0 to |minefield[i]|
        invariant |counted| == |minefield| && |counted[i]| == |minefield[i]|
        invariant forall a :: 0 <= a < i ==> counted[a] == MarkedRow(minefield, a)
        invariant forall a :: i < a < |minefield| ==> counted[a] == minefield[a]
        invariant forall b :: 0 <= b < j ==> counted[i][b] == MarkedCell(minefield, i, b)
        invariant forall b :: j <= b < |minefield[i]| ==> counted[i][b] == minefield[i][b]
      {
        if minefield[i][j] == NO_MINE {
          var bombCount := CountNeighbours(minefield, i, j);
          if bombCount != 0 {
            counted := counted[i := counted[i][j := DIGIT_ZERO + bombCount as byte]];
          } else {
            counted := counted[i := counted[i][j := NO_MINE]];
          }
        }
      }
      assert counted[i] == MarkedRow(minefield, i);
    }
  }

  /** Counting keeps the number of rows and the length of every row. */
  lemma MarkedShape(m: Field)
    ensures |Marked(m)| == |m|
    ensures forall i :: 0 <= i < |m| ==> |Marked(m)[i]| == |m[i]|
  {
    forall i | 0 <= i < |m| ensures |Marked(m)[i]| == |m[i]| {
      assert Marked(m)[i] == MarkedRow(m, i);
    }
  }

  /**
   * Counting keeps the shape and changes only b' ' cells: a b' ' cell with k
   * neighbouring mines becomes the digit k when k >= 1 and stays b' ' when
   * k = 0; every other cell, a mine in particular, is kept.
   */
  lemma MarkedCellMeaning(m: Field, i: int, j: int)
    requires 0 <= i < |m| && 0 <= j < |m[i]|
    ensures |Marked(m)| == |m| && |Marked(m)[i]| == |m[i]|
    ensures m[i][j] != NO_MINE ==> Marked(m)[i][j] == m[i][j]
    ensures m[i][j] == NO_MINE && |MineNeighbours(m, i, j)| == 0 ==> Marked(m)[i][j] == NO_MINE
    ensures m[i][j] == NO_MINE && |MineNeighbours(m, i, j)| > 0 ==>
      1 <= |MineNeighbours(m, i, j)| <= 8 && Marked(m)[i][j] as int == DIGIT_ZERO as int + |MineNeighbours(m, i, j)|
  {
    NeighbourMinesCounts(m, i, j);
  }

  /** A field without b' ' cells (an all-mine field, say) comes back unchanged. */
  lemma NoEmptyCellUnchanged(m: Field)
    requires forall i, j :: 0 <= i < |m| && 0 <= j < |m[i]| ==> m[i][j] != NO_MINE
    ensures Marked(m) == m
  {
    forall i | 0 <= i < |m| ensures Marked(m)[i] == m[i] {
      assert MarkedRow(m, i) == m[i];
    }
  }

  /** Without mines every neighbour count is zero. */
  lemma {:induction false} MineFreeCountsZero(m: Field, i: int, j: int, di: int)
    requires forall a, b :: 0 <= a < |m| && 0 <= b < |m[a]| ==> m[a][b] != MINE
    requires -1 <= di <= 2
    ensures RowSum(m, i, j, di) == 0
    decreases di + 1
  {
    if di != -1 {
      MineFreeCountsZero(m, i, j, di - 1);
      assert ColSum(m, i, j, di - 1, 2) == 0 by {
        assert ColSum(m, i, j, di - 1, 0) == 0;
        assert ColSum(m, i, j, di - 1, 1) == 0;
      }
    }
  }

  /** A field without mines comes back unchanged: every b' ' cell stays b' '. */
  lemma MineFreeUnchanged(m: Field)
    requires forall i, j :: 0 <= i < |m| && 0 <= j < |m[i]| ==> m[i][j] != MINE
    ensures Marked(m) == m
  {
    forall i | 0 <= i < |m| ensures Marked(m)[i] == m[i] {
      forall j | 0 <= j < |m[i]| ensures MarkedCell(m, i, j) == m[i][j] {
        MineFreeCountsZero(m, i, j, 2);
      }
      assert MarkedRow(m, i) == m[i];
    }
  }
}
