# Minesweeper annotator, modelled in Dafny

This project models the minesweeper annotator in `minesweeper/src/main.rs`. It takes a field of rows made of `'*'` (a mine) and `' '` (an empty cell). It returns the same field with every empty cell replaced by the number of mines among its eight neighbours, written as an ASCII digit. An empty cell with no neighbouring mine stays `' '`.

Both entry points, `annotate` and `minefield_calculation`, run the same pipeline:

1. An empty field is returned as an empty result.
2. `add_spacer_to_minefield` lays a one-cell border of `'/'` around the field.
3. `calculate_mines_count` clones the bordered field. For every `' '` cell it counts the mines among the eight neighbours, reading only the original. It writes `b'0' + count` (or `' '` for zero) into the clone.
4. `remove_spacer_from_minefield` strips the border again.

Files and modules:

- `grid.dfy`, module `Grid`: cells are bytes (Rust `u8`), rows are `seq<byte>`, a field is a `seq` of rows. It also holds the four byte constants and the field as the annotator reads it (`Truncated`).
- `spacer.dfy`, module `Spacer`: laying and stripping the border. `Padded` and `Trimmed` are the specifications. `AddSpacer` and `RemoveSpacer` are the loops, proved against them.
- `mine_count.dfy`, module `MineCount`: neighbour counting and the annotation. `Marked` is the specification. `CountMines` is the four nested loops, proved against it. `MineNeighbours` is an independent definition of the count: the set of neighbouring mine positions.
- `annotate.dfy`, module `Annotator`: the two entry points. It also proves that the border makes every neighbour read safe and leaves every count unchanged.
- `test_cases.dfy`, module `TestCases`: the source's unit tests. Each of the first six is stated twice: as a lemma about the annotation `Marked`, and as a method that calls `Annotate` the way the Rust test does and promises the expected rows. `wrong_input` is stated only as a method (`WrongInputAnnotates`), since what it checks is the early return of `annotate` on an empty field.

Rust `Vec<Vec<u8>>` values are owned and cloned, never shared, so they become Dafny `seq` values. A loop that writes `v[i][j] = x` becomes a reassignment `v := v[i := v[i][j := x]]` of a local `seq`.

Each helper panics on some inputs. Its `requires` clause is exactly the condition under which it does not panic:

- `add_spacer_to_minefield` takes the width from row 0 and reads every row up to that width. A shorter row panics. A longer row is cut to the width, so the pipeline annotates `Truncated(g)`. For a rectangular field this is the field itself.
- `calculate_mines_count` reads all eight neighbours of every `' '` cell through an `isize` to `usize` cast. A `-1` wraps to a huge index and panics. So every `' '` cell needs neighbours on all sides (`NeighboursInBounds`).
- `remove_spacer_from_minefield` reads row 0. When its loop runs, it also slices `[1..y_len - 1]` from every middle row (`Trimmable`).

## Model

| member | source | states |
|---|---|---|
| Grid.Truncated | minesweeper/src/main.rs:104-118 | the field as read has the same number of rows, every row as wide as row 0, and the same cells up to that width |
| Grid.TruncatedRectangular | minesweeper/src/main.rs:105-118 | a rectangular field is read unchanged |
| Spacer.AddSpacer | minesweeper/src/main.rs:101-124 | the nested loops over the zeroed (R+2)x(C+2) buffer produce exactly the bordered field `Padded` |
| Spacer.PaddedShape | minesweeper/src/main.rs:104-121 | the bordered field has R+2 rows of C+2 cells; every border cell is `'/'`; inner cell (i, j) is input cell (i-1, j-1) |
| Spacer.RemoveSpacer | minesweeper/src/main.rs:126-139 | the push loop produces exactly the stripped field `Trimmed`: rows 1 .. R-2, each cut to columns 1 .. C-2 of row 0's width; fewer than three rows give no rows |
| Spacer.TrimPadded | minesweeper/src/main.rs:101-139 | stripping the border after laying it is defined, and gives back the field as read |
| Spacer.TrimPaddedRectangular | minesweeper/src/main.rs:101-139 | round trip: for a non-empty rectangular field, stripping the border after laying it gives the field back |
| MineCount.ColSum | minesweeper/src/main.rs:73-84 | the inner loop's partial count after reaching dj is at most dj+1, and one less in the centre row, where the centre is skipped |
| MineCount.RowSum | minesweeper/src/main.rs:72-85 | the outer loop's partial count is at most three per finished row, less the skipped centre |
| MineCount.NeighbourMines | minesweeper/src/main.rs:70-89 | the neighbour count is at most 8, so `b'0' + bomb_count` cannot overflow a `u8` |
| MineCount.NeighbourMinesCounts | minesweeper/src/main.rs:70-85 | the loop-order count equals the number of positions among the eight neighbours that lie in the field and hold a mine |
| MineCount.CountNeighbours | minesweeper/src/main.rs:70-85 | the two inner loops, centre skipped, count exactly `NeighbourMines(minefield, i, j)`; the requires is exactly the no-panic condition of the eight reads |
| MineCount.CountMines | minesweeper/src/main.rs:50-99 | the four nested loops, counting from the original and writing into the clone, produce exactly `Marked`. Every cell depends only on the original field, so the visiting order does not matter |
| MineCount.MarkedCellMeaning | minesweeper/src/main.rs:55-92 | counting keeps the shape; a non-`' '` cell (a mine in particular) is kept; a `' '` cell with k neighbouring mines becomes `'0'+k` for 1 <= k <= 8 and stays `' '` for k = 0 |
| MineCount.NoEmptyCellUnchanged | minesweeper/src/main.rs:55-69 | a field without `' '` cells, such as an all-mine field, is returned unchanged |
| MineCount.MineFreeCountsZero | minesweeper/src/main.rs:72-85 | in a field without mines, every partial neighbour count is 0 |
| MineCount.MineFreeUnchanged | minesweeper/src/main.rs:70-92 | a field without mines is returned unchanged |
| Annotator.PaddedNeighboursInBounds | minesweeper/src/main.rs:67-81 | on a bordered field, all eight neighbour reads of every `' '` cell are in bounds, because only inner cells can be `' '` |
| Annotator.PaddedMineAt | minesweeper/src/main.rs:114-118 | position (a, b) of the bordered field holds a mine exactly when position (a-1, b-1) of the field as read does |
| Annotator.PaddedCountAgrees | minesweeper/src/main.rs:72-85 | the border adds no mines: inner cell (i+1, j+1) of the bordered field has the same neighbour count as cell (i, j) of the bare field |
| Annotator.PipelineAnnotates | minesweeper/src/main.rs:38-47 | border, count, strip gives the annotation of the bare field as read, and every step is defined |
| Annotator.Annotate | minesweeper/src/main.rs:24-48 | an empty field gives an empty result. Otherwise the result has the field's row count and width and is the annotation of the field as read. A rectangular field gives its own annotation |
| Annotator.MinefieldCalculation | minesweeper/src/main.rs:207-229 | the same result as `annotate` on every input: the annotation of the field as read, empty for an empty field |
| TestCases.CaseOne | minesweeper/src/main.rs:240-258 | `" * * "/"  *  "/"  *  "/"     "` annotates to `"1*3*1"/"13*31"/" 2*2 "/" 111 "` |
| TestCases.CaseTwo | minesweeper/src/main.rs:260-279 | `"    *    "/" * * * * "/"*********"/"         "` annotates to `"1122*2211"/"3*5*6*5*3"/"*********"/"233333332"` |
| TestCases.EmptyField | minesweeper/src/main.rs:281-297 | a 3x5 field of `' '` is unchanged |
| TestCases.AllMines | minesweeper/src/main.rs:299-315 | a 3x4 field of `'*'` is unchanged |
| TestCases.AlternatingRow | minesweeper/src/main.rs:317-329 | `"* * * * *"` annotates to `"*2*2*2*2*"` |
| TestCases.SingleColumn | minesweeper/src/main.rs:331-347 | `" "/"*"/" "` annotates to `"1"/"*"/"1"` |
| TestCases.CaseOneAnnotates | minesweeper/src/main.rs:240-258 | `annotate` on test_case_01's rows returns its expected rows |
| TestCases.CaseTwoAnnotates | minesweeper/src/main.rs:260-279 | `annotate` on test_case_02's rows returns its expected rows |
| TestCases.EmptyFieldAnnotates | minesweeper/src/main.rs:281-297 | `annotate` returns the 3x5 all-`' '` field unchanged |
| TestCases.AllMinesAnnotates | minesweeper/src/main.rs:299-315 | `annotate` returns the 3x4 all-`'*'` field unchanged |
| TestCases.AlternatingRowAnnotates | minesweeper/src/main.rs:317-329 | `annotate` on `"* * * * *"` returns `"*2*2*2*2*"` |
| TestCases.SingleColumnAnnotates | minesweeper/src/main.rs:331-347 | `annotate` on `" "/"*"/" "` returns `"1"/"*"/"1"` |
| TestCases.WrongInputAnnotates | minesweeper/src/main.rs:349-355 | `annotate` on no rows returns no rows |

## Left out

- `main`, `run_tests`, `test_files` and `read_minefiel_from_file` (minesweeper/src/main.rs:12-18, 145-205) are left out. They do file I/O, list a directory, collect file stems in a `HashSet` and compare results with `assert_eq!`. What they check is the `MinefieldCalculation` contract.
- Text conversion: the model takes and returns rows as bytes. `str::as_bytes` is the row itself. `String::from_utf8_lossy` is taken as the identity. This is exact when the result rows are valid UTF-8. They are whenever the input rows are and no longer row is cut inside a multi-byte character, because only ASCII `' '` bytes are rewritten, and only into ASCII bytes.
- Panics are not modelled as results. Each helper's `requires` is its non-panic condition, as stated above. The entry points require only that no row is shorter than row 0, which is all the pipeline needs.
- Machine integers: `usize`/`isize` index arithmetic is done on unbounded integers. The wrap of `0 - 1` to a huge `usize` shows up only as the out-of-bounds case that `NeighboursInBounds` excludes. `bomb_count` is a `u8`; it is at most 8, so it never wraps.
- `aufgabe_02/src/main.rs` (the doubly-linked-list exercise) is not part of this model. Four of its operations (`DLL_pop`, `DLL_switch`, `DLL_len`, `iter_forward`) are empty stubs, `DLL_push` does not type-check as written (it passes an `Rc` where `link_to_weak` takes a `&Link<T>`), and its subject is `Rc`/`Weak`/`RefCell` ownership.
