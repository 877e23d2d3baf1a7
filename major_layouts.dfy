/**
 The two storage orders a data layout comes in, with the leading-dimension
 convention of the load/store test: a rows x cols matrix stored row-major has
 leading dimension cols, stored column-major it has leading dimension rows. Under
 that convention each order is a bijection between the coordinates of the matrix
 and the offsets of a buffer of rows * cols elements.
 */
module MajorLayouts {
  import opened Layout
  import opened Arith

  datatype Order = RowMajor | ColMajor

  /** The data layout of a storage order. */
  function Linear(order: Order): DataLayout
  {
    match order
    case RowMajor => DataLayout((c: Coord, ld: nat) => c.row * ld + c.col)
    case ColMajor => DataLayout((c: Coord, ld: nat) => c.col * ld + c.row)
  }

  /** The leading dimension the test gives a rows x cols matrix in storage order `order`. */
  function LeadingDim(order: Order, rows: nat, cols: nat): nat
  {
    if order == RowMajor then cols else rows
  }

  predicate InMatrix(c: Coord, rows: nat, cols: nat)
  {
    c.row < rows && c.col < cols
  }

  /** The offset of coordinate `c` of a rows x cols matrix stored in order `order`. */
  function OffsetOf(order: Order, rows: nat, cols: nat, c: Coord): nat
  {
    Linear(order).fromMatrixCoord(c, LeadingDim(order, rows, cols))
  }

  /** The coordinate stored at `offset`, the inverse of OffsetOf. */
  function CoordOf(order: Order, rows: nat, cols: nat, offset: nat): Coord
    requires offset < rows * cols
  {
    match order
    case RowMajor => Coord(offset / cols, offset % cols)
    case ColMajor => Coord(offset % rows, offset / rows)
  }

  /** Every coordinate of the matrix lands inside its buffer and is recovered from its offset. */
  lemma OffsetOfInverse(order: Order, rows: nat, cols: nat, c: Coord)
    requires InMatrix(c, rows, cols)
    ensures OffsetOf(order, rows, cols, c) < rows * cols
    ensures CoordOf(order, rows, cols, OffsetOf(order, rows, cols, c)) == c
  {
    match order
    case RowMajor =>
      assert OffsetOf(order, rows, cols, c) == c.row * cols + c.col;
      BlockPosition(c.row, c.col, cols, rows);
    case ColMajor =>
      assert OffsetOf(order, rows, cols, c) == c.col * rows + c.row;
      BlockPosition(c.col, c.row, rows, cols);
  }

  /** Every offset of the buffer holds some coordinate of the matrix. */
  lemma CoordOfInverse(order: Order, rows: nat, cols: nat, offset: nat)
    requires offset < rows * cols
    ensures InMatrix(CoordOf(order, rows, cols, offset), rows, cols)
    ensures OffsetOf(order, rows, cols, CoordOf(order, rows, cols, offset)) == offset
  {
    match order
    case RowMajor =>
      var q := offset / cols;
      assert offset == q * cols + offset % cols;
      if q >= rows {
        LeMul(rows, q, cols);
      }
    case ColMajor =>
      var q := offset / rows;
      assert offset == q * rows + offset % rows;
      if q >= cols {
        LeMul(cols, q, rows);
      }
  }

  /** Distinct coordinates of the matrix never share an offset. */
  lemma OffsetOfInjective(order: Order, rows: nat, cols: nat, a: Coord, b: Coord)
    requires InMatrix(a, rows, cols) && InMatrix(b, rows, cols)
    ensures OffsetOf(order, rows, cols, a) == OffsetOf(order, rows, cols, b) <==> a == b
  {
    OffsetOfInverse(order, rows, cols, a);
    OffsetOfInverse(order, rows, cols, b);
  }
}
