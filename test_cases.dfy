/**
 * The annotator's unit tests, stated about the annotation its entry points
 * return (for a rectangular field `Annotate` returns `Marked` of it).
 * Cells are spelled with short names: `o` is b' ', `X` is b'*', `D1` .. `D6`
 * are b'1' .. b'6'.
 */
module TestCases {
  import opened Grid
  import opened MineCount
  import opened Annotator

  const o: byte := NO_MINE
  const X: byte := MINE
  const D1: byte := DIGIT_ZERO + 1
  const D2: byte := DIGIT_ZERO + 2
  const D3: byte := DIGIT_ZERO + 3
  const D5: byte := DIGIT_ZERO + 5
  const D6: byte := DIGIT_ZERO + 6

  /** Rows lo .. hi-1 of a field's annotation, given cell by cell. */
  lemma MarkedRowsByCells(m: Field, e: Field, lo: int, hi: int)
    requires 0 <= lo <= hi <= |m| == |e|
    requires forall i :: lo <= i < hi ==> |e[i]| == |m[i]|
    requires forall i, j :: lo <= i < hi && 0 <= j < |m[i]| ==> MarkedCell(m, i, j) == e[i][j]
    ensures forall i :: lo <= i < hi ==> Marked(m)[i] == e[i]
  {
    forall i | lo <= i < hi ensures Marked(m)[i] == e[i] {
      assert MarkedRow(m, i) == e[i];
    }
  }

  /** A field's annotation, given cell by cell. */
  lemma MarkedByCells(m: Field, e: Field)
    requires |e| == |m| && forall i :: 0 <= i < |m| ==> |e[i]| == |m[i]|
    requires forall i, j :: 0 <= i < |m| && 0 <= j < |m[i]| ==> MarkedCell(m, i, j) == e[i][j]
    ensures Marked(m) == e
  {
    MarkedRowsByCells(m, e, 0, |m|);
  }

  /** The rows of test_case_01 and what it expects. */
  const CaseOneField: Field :=
    [[o, X, o, X, o],
     [o, o, X, o, o],
     [o, o, X, o, o],
     [o, o, o, o, o]]
  const CaseOneExpected: Field :=
    [[D1, X, D3, X, D1],
     [D1, D3, X, D3, D1],
     [o, D2, X, D2, o],
     [o, D1, D1, D1, o]]

  /** test_case_01: " * * " / "  *  " / "  *  " / "     " gives "1*3*1" / "13*31" / " 2*2 " / " 111 ". */
  lemma CaseOne()
    ensures Marked(CaseOneField) == CaseOneExpected
  {
    MarkedByCells(CaseOneField, CaseOneExpected);
  }

  /** The rows of test_case_02 and what it expects. */
  const CaseTwoField: Field :=
    [[o, o, o, o, X, o, o, o, o],
     [o, X, o, X, o, X, o, X, o],
     [X, X, X, X, X, X, X, X, X],
     [o, o, o, o, o, o, o, o, o]]
  const CaseTwoExpected: Field :=
    [[D1, D1, D2, D2, X, D2, D2, D1, D1],
     [D3, X, D5, X, D6, X, D5, X, D3],
     [X, X, X, X, X, X, X, X, X],
     [D2, D3, D3, D3, D3, D3, D3, D3, D2]]

  /** test_case_02: "    *    " / " * * * * " / "*********" / "         " gives "1122*2211" / "3*5*6*5*3" / "*********" / "233333332". */
  lemma CaseTwo()
    ensures Marked(CaseTwoField) == CaseTwoExpected
  {
    CaseTwoUpper();
    CaseTwoLower();
  }

  /** The first two rows of test_case_02. */
  lemma CaseTwoUpper()
    ensures forall i :: 0 <= i < 2 ==> Marked(CaseTwoField)[i] == CaseTwoExpected[i]
  {
    MarkedRowsByCells(CaseTwoField, CaseTwoExpected, 0, 2);
  }

  /** The last two rows of test_case_02. */
  lemma CaseTwoLower()
    ensures forall i :: 2 <= i < 4 ==> Marked(CaseTwoField)[i] == CaseTwoExpected[i]
  {
    MarkedRowsByCells(CaseTwoField, CaseTwoExpected, 2, 4);
  }

  /** test_empty_field: a field of b' ' only comes back unchanged. */
  lemma EmptyField()
    ensures Marked([[o, o, o, o, o], [o, o, o, o, o], [o, o, o, o, o]])
         == [[o, o, o, o, o], [o, o, o, o, o], [o, o, o, o, o]]
  {
    MineFreeUnchanged([[o, o, o, o, o], [o, o, o, o, o], [o, o, o, o, o]]);
  }

  /** test_all_mines: a field of mines only comes back unchanged. */
  lemma AllMines()
    ensures Marked([[X, X, X, X], [X, X, X, X], [X, X, X, X]])
         == [[X, X, X, X], [X, X, X, X], [X, X, X, X]]
  {
    NoEmptyCellUnchanged([[X, X, X, X], [X, X, X, X], [X, X, X, X]]);
  }

  /** test_alternating_row_mines: "* * * * *" gives "*2*2*2*2*". */
  lemma AlternatingRow()
    ensures Marked([[X, o, X, o, X, o, X, o, X]]) == [[X, D2, X, D2, X, D2, X, D2, X]]
  {
    MarkedByCells([[X, o, X, o, X, o, X, o, X]], [[X, D2, X, D2, X, D2, X, D2, X]]);
  }

  /** test_single_column_with_mine: " " / "*" / " " gives "1" / "*" / "1". */
  lemma SingleColumn()
    ensures Marked([[o], [X], [o]]) == [[D1], [X], [D1]]
  {
    MarkedByCells([[o], [X], [o]], [[D1], [X], [D1]]);
  }

  /** test_case_01 as written: `annotate` on its rows returns the expected rows. */
  method CaseOneAnnotates() returns (result: Field)
    ensures result == CaseOneExpected
  {
    result := Annotate(CaseOneField);
    CaseOne();
  }

  /** test_case_02 as written: `annotate` on its rows returns the expected rows. */
  method CaseTwoAnnotates() returns (result: Field)
    ensures result == CaseTwoExpected
  {
    result := Annotate(CaseTwoField);
    CaseTwo();
  }

  /** test_empty_field as written. */
  method EmptyFieldAnnotates() returns (result: Field)
    ensures result == [[o, o, o, o, o], [o, o, o, o, o], [o, o, o, o, o]]
  {
    result := Annotate([[o, o, o, o, o], [o, o, o, o, o], [o, o, o, o, o]]);
    EmptyField();
  }

  /** test_all_mines as written. */
  method AllMinesAnnotates() returns (result: Field)
    ensures result == [[X, X, X, X], [X, X, X, X], [X, X, X, X]]
  {
    result := Annotate([[X, X, X, X], [X, X, X, X], [X, X, X, X]]);
    AllMines();
  }

  /** test_alternating_row_mines as written. */
  method AlternatingRowAnnotates() returns (result: Field)
    ensures result == [[X, D2, X, D2, X, D2, X, D2, X]]
  {
    result := Annotate([[X, o, X, o, X, o, X, o, X]]);
    AlternatingRow();
  }

  /** test_single_column_with_mine as written. */
  method SingleColumnAnnotates() returns (result: Field)
    ensures result == [[D1], [X], [D1]]
  {
    result := Annotate([[o], [X], [o]]);
    SingleColumn();
  }

  /** wrong_input as written: `annotate` on no rows returns no rows. */
  method WrongInputAnnotates() returns (result: Field)
    ensures result == []
  {
    result := Annotate([]);
  }
}
