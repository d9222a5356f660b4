/** Minefields as the annotator sees them: rows of bytes (Rust `Vec<Vec<u8>>`). */
module Grid {

  /** One cell: a Rust `u8`. */
  newtype byte = x: int | 0 <= x < 256

  type Row = seq<byte>
  type Field = seq<Row>

  /** b'*', a mine. */
  const MINE: byte := 42
  /** b' ', an empty cell still to be annotated. */
  const NO_MINE: byte := 32
  /** b'/', the border laid around the field while counting. */
  const SPACER: byte := 47
  /** b'0', the base of the digit written into an annotated cell. */
  const DIGIT_ZERO: byte := 48

  /**
   * Every row is at least as long as the first one. The annotator takes the
   * width of the field from row 0 and reads every row up to that width, so a
   * shorter row is out of bounds; a longer row is cut to the width.
   */
  predicate RowsCoverFirst(g: Field) {
    forall r :: 0 <= r < |g| ==> |g[0]| <= |g[r]|
  }

  /** All rows have the same length. */
  predicate Rectangular(g: Field) {
    forall r :: 0 <= r < |g| ==> |g[r]| == |g[0]|
  }

  /** The field as the annotator reads it: every row cut to the width of row 0. */
  function Truncated(g: Field): (t: Field)
    requires RowsCoverFirst(g)
    ensures |t| == |g| && forall r :: 0 <= r < |g| ==> |t[r]| == |g[0]|
    ensures forall r, c :: 0 <= r < |g| && 0 <= c < |g[0]| ==> t[r][c] == g[r][c]
  {
    seq(|g|, r requires 0 <= r < |g| => g[r][..|g[0]|])
  }

  /** A rectangular field is read as it is. */
  lemma TruncatedRectangular(g: Field)
    requires Rectangular(g)
    ensures RowsCoverFirst(g) && Truncated(g) == g
  {
    forall r | 0 <= r < |g| ensures Truncated(g)[r] == g[r] {
      assert g[r][..|g[0]|] == g[r];
    }
  }
}
