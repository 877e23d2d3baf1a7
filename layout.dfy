/**
 The matrix-space side of a store: a (row, col) coordinate, the matrix layout that
 gives a lane its first coordinate and the increment after each transaction, and the
 data layout that turns a coordinate and a leading dimension into an element offset.
 Both layouts are parameters here: only their shape is part of the model.
 */
module Layout {

  /** A position in matrix-tile space. Rows and columns are unsigned. */
  datatype Coord = Coord(row: nat, col: nat)

  const Origin := Coord(0, 0)

  /** Component-wise addition: the `+=` the store loop applies to its coordinate. */
  function Add(a: Coord, b: Coord): Coord
  {
    Coord(a.row + b.row, a.col + b.col)
  }

  /**
   What a matrix layout supplies to the store engine: the lane's starting coordinate
   and the coordinate delta to apply after transaction `i`.
   */
  datatype MatrixLayout = MatrixLayout(baseOffset: Coord, incrementalOffset: nat -> Coord)

  /** What a data layout supplies: the linear element offset of a coordinate for a leading dimension. */
  datatype DataLayout = DataLayout(fromMatrixCoord: (Coord, nat) -> nat)

  /**
   The coordinate in force before transaction `i` of the store loop: the base offset
   before the first one, and afterwards the previous coordinate plus the increment of
   the transaction just issued.
   */
  function CoordAt(matrix: MatrixLayout, i: nat): Coord
  {
    if i == 0 then matrix.baseOffset
    else Add(CoordAt(matrix, i - 1), matrix.incrementalOffset(i - 1))
  }

  /** The component-wise sum incrementalOffset(lo) + ... + incrementalOffset(hi - 1). */
  function Displacement(inc: nat -> Coord, lo: nat, hi: nat): Coord
    decreases hi - lo
  {
    if lo >= hi then Origin else Add(inc(lo), Displacement(inc, lo + 1, hi))
  }

  /** Extending the range of a displacement by one adds the increment at its end. */
  lemma {:induction false} DisplacementSnoc(inc: nat -> Coord, lo: nat, hi: nat)
    requires lo <= hi
    ensures Displacement(inc, lo, hi + 1) == Add(Displacement(inc, lo, hi), inc(hi))
    decreases hi - lo
  {
    if lo < hi {
      DisplacementSnoc(inc, lo + 1, hi);
    }
  }

  /**
   The coordinate used by transaction `i` is the base offset plus the component-wise
   sum of the increments of transactions 0 .. i-1: increments accumulate in matrix
   space, whatever the data layout.
   */
  lemma {:induction false} CoordAtIsBasePlusDisplacement(matrix: MatrixLayout, i: nat)
    ensures CoordAt(matrix, i) == Add(matrix.baseOffset, Displacement(matrix.incrementalOffset, 0, i))
  {
    if i > 0 {
      CoordAtIsBasePlusDisplacement(matrix, i - 1);
      DisplacementSnoc(matrix.incrementalOffset, 0, i - 1);
    }
  }
}
