/**
 What a store leaves in memory. The first group of lemmas is about any sequence of
 vector transactions issued in order; the second applies them to the transactions
 `OpaqueStore.Exec` issues, which is what `Exec`'s postcondition puts in memory.
 */
module StoreProperties {
  import opened Layout
  import opened OpaqueStore

  // ---------------------------------------------------------------------------
  // Any sequence of transactions
  // ---------------------------------------------------------------------------

  /** An element no transaction covers keeps its old value. */
  lemma {:induction false} ApplyUnchangedOutside<T>(mem: seq<T>, ops: seq<StoreOp<T>>, k: nat)
    requires InBounds(ops, |mem|)
    requires k < |mem|
    requires forall j :: 0 <= j < |ops| ==> !Covers(ops[j], k)
    ensures Apply(mem, ops)[k] == mem[k]
  {
    if ops != [] {
      ApplyUnchangedOutside(mem, ops[..|ops| - 1], k);
    }
  }

  /** An element holds the value written by the last transaction that covers it. */
  lemma {:induction false} ApplyLastWriterWins<T>(mem: seq<T>, ops: seq<StoreOp<T>>, j: nat, k: nat)
    requires InBounds(ops, |mem|)
    requires j < |ops| && Covers(ops[j], k)
    requires forall j' :: j < j' < |ops| ==> !Covers(ops[j'], k)
    ensures k < |mem|
    ensures Apply(mem, ops)[k] == ops[j].values[k - ops[j].offset]
  {
    if j < |ops| - 1 {
      ApplyLastWriterWins(mem, ops[..|ops| - 1], j, k);
    }
  }

  /** When no two windows overlap, each window ends up holding exactly its values. */
  lemma {:induction false} DisjointReadBack<T>(mem: seq<T>, ops: seq<StoreOp<T>>, j: nat)
    requires InBounds(ops, |mem|) && Disjoint(ops)
    requires j < |ops|
    ensures ops[j].offset + |ops[j].values| <= |mem|
    ensures Apply(mem, ops)[ops[j].offset .. ops[j].offset + |ops[j].values|] == ops[j].values
  {
    var r := Apply(mem, ops);
    var lo, w := ops[j].offset, |ops[j].values|;
    forall k | lo <= k < lo + w
      ensures r[k] == ops[j].values[k - lo]
    {
      forall j' | j < j' < |ops|
        ensures !Covers(ops[j'], k)
      {
      }
      ApplyLastWriterWins(mem, ops, j, k);
    }
    assert r[lo .. lo + w] == ops[j].values;
  }

  /** If every transaction writes only `v`, every covered element ends up equal to `v`. */
  lemma {:induction false} ApplyConstant<T>(mem: seq<T>, ops: seq<StoreOp<T>>, v: T, j: nat, k: nat)
    requires InBounds(ops, |mem|)
    requires forall j' :: 0 <= j' < |ops| ==> forall e :: e in ops[j'].values ==> e == v
    requires j < |ops| && Covers(ops[j], k)
    ensures k < |mem| && Apply(mem, ops)[k] == v
  {
    var last := ops[|ops| - 1];
    if Covers(last, k) {
      assert last.values[k - last.offset] in last.values;
    } else {
      ApplyConstant(mem, ops[..|ops| - 1], v, j, k);
    }
  }

  // ---------------------------------------------------------------------------
  // The transactions of OpaqueStore.Exec
  // ---------------------------------------------------------------------------

  /**
   A store issues exactly `ioCount` transactions; transaction `i` writes chunk `i`
   of the register data, elements i*VectorWidth .. (i+1)*VectorWidth-1 in order, at
   the data layout's offset for the base coordinate plus the increments 0 .. i-1.
   */
  lemma StoreTransactionAt<T>(traits: IOTraits, matrix: MatrixLayout, layout: DataLayout,
                              data: seq<T>, ldm: nat, i: nat)
    requires traits.Accepted() && |data| == traits.unpackedSize
    requires i < traits.ioCount
    ensures |Plan(traits, matrix, layout, data, ldm)| == traits.ioCount
    ensures (i + 1) * traits.vectorWidth <= |data|
    ensures Plan(traits, matrix, layout, data, ldm)[i] ==
      StoreOp(layout.fromMatrixCoord(Add(matrix.baseOffset, Displacement(matrix.incrementalOffset, 0, i)), ldm),
              data[i * traits.vectorWidth .. (i + 1) * traits.vectorWidth])
  {
    ChunkFits(traits, i);
    CoordAtIsBasePlusDisplacement(matrix, i);
  }

  /** Every window of a store is `vectorWidth` elements wide. */
  lemma StoreWindowWidth<T>(traits: IOTraits, matrix: MatrixLayout, layout: DataLayout,
                            data: seq<T>, ldm: nat, i: nat)
    requires traits.Accepted() && |data| == traits.unpackedSize
    requires i < traits.ioCount
    ensures |Plan(traits, matrix, layout, data, ldm)[i].values| == traits.vectorWidth
  {
    ChunkFits(traits, i);
  }

  /** Element d of the window of transaction `i` is element i*VectorWidth + d of the register data. */
  lemma StoreElementAt<T>(traits: IOTraits, matrix: MatrixLayout, layout: DataLayout,
                          data: seq<T>, ldm: nat, i: nat, d: nat)
    requires traits.Accepted() && |data| == traits.unpackedSize
    requires i < traits.ioCount && d < traits.vectorWidth
    ensures |Plan(traits, matrix, layout, data, ldm)| == traits.ioCount
    ensures Plan(traits, matrix, layout, data, ldm)[i].offset == layout.fromMatrixCoord(CoordAt(matrix, i), ldm)
    ensures i * traits.vectorWidth + d < |data|
    ensures Plan(traits, matrix, layout, data, ldm)[i].values[d] == data[i * traits.vectorWidth + d]
  {
    var e := Chunk(traits, data, i)[d];
  }

  /** A store leaves every element outside its windows as it was. */
  lemma StoreUnchangedOutside<T>(traits: IOTraits, matrix: MatrixLayout, layout: DataLayout,
                                 mem: seq<T>, data: seq<T>, ldm: nat, k: nat)
    requires traits.Accepted() && |data| == traits.unpackedSize
    requires InBounds(Plan(traits, matrix, layout, data, ldm), |mem|)
    requires k < |mem|
    requires forall i :: 0 <= i < traits.ioCount ==>
      !(layout.fromMatrixCoord(CoordAt(matrix, i), ldm) <= k <
        layout.fromMatrixCoord(CoordAt(matrix, i), ldm) + traits.vectorWidth)
    ensures Apply(mem, Plan(traits, matrix, layout, data, ldm))[k] == mem[k]
  {
    var plan := Plan(traits, matrix, layout, data, ldm);
    forall j | 0 <= j < |plan|
      ensures !Covers(plan[j], k)
    {
      StoreWindowWidth(traits, matrix, layout, data, ldm, j);
    }
    ApplyUnchangedOutside(mem, plan, k);
  }

  /**
   Read-back: when the windows of a store do not overlap, reading the window of
   transaction `i` back from memory gives chunk `i` of the register data.
   */
  lemma StoreReadBack<T>(traits: IOTraits, matrix: MatrixLayout, layout: DataLayout,
                         mem: seq<T>, data: seq<T>, ldm: nat, i: nat)
    requires traits.Accepted() && |data| == traits.unpackedSize
    requires InBounds(Plan(traits, matrix, layout, data, ldm), |mem|)
    requires Disjoint(Plan(traits, matrix, layout, data, ldm))
    requires i < traits.ioCount
    ensures var off := layout.fromMatrixCoord(CoordAt(matrix, i), ldm);
      var w := traits.vectorWidth;
      off + w <= |mem| && (i + 1) * w <= |data| &&
      Apply(mem, Plan(traits, matrix, layout, data, ldm))[off .. off + w] == data[i * w .. (i + 1) * w]
  {
    StoreTransactionAt(traits, matrix, layout, data, ldm, i);
    CoordAtIsBasePlusDisplacement(matrix, i);
    DisjointReadBack(mem, Plan(traits, matrix, layout, data, ldm), i);
  }

  /**
   Where windows overlap, an element holds the value from the last transaction that
   covers it: element k - off of chunk `i`, for the last such `i`.
   */
  lemma StoreLastWriterWins<T>(traits: IOTraits, matrix: MatrixLayout, layout: DataLayout,
                               mem: seq<T>, data: seq<T>, ldm: nat, i: nat, k: nat)
    requires traits.Accepted() && |data| == traits.unpackedSize
    requires InBounds(Plan(traits, matrix, layout, data, ldm), |mem|)
    requires i < traits.ioCount
    requires var off := layout.fromMatrixCoord(CoordAt(matrix, i), ldm);
      off <= k < off + traits.vectorWidth
    requires forall i' :: i < i' < traits.ioCount ==>
      !(layout.fromMatrixCoord(CoordAt(matrix, i'), ldm) <= k <
        layout.fromMatrixCoord(CoordAt(matrix, i'), ldm) + traits.vectorWidth)
    ensures var off := layout.fromMatrixCoord(CoordAt(matrix, i), ldm);
      k < |mem| && i * traits.vectorWidth + (k - off) < |data| &&
      Apply(mem, Plan(traits, matrix, layout, data, ldm))[k] == data[i * traits.vectorWidth + (k - off)]
  {
    var plan := Plan(traits, matrix, layout, data, ldm);
    forall i' | i < i' < |plan|
      ensures !Covers(plan[i'], k)
    {
      StoreWindowWidth(traits, matrix, layout, data, ldm, i');
    }
    StoreWindowWidth(traits, matrix, layout, data, ldm, i);
    ApplyLastWriterWins(mem, plan, i, k);
    StoreElementAt(traits, matrix, layout, data, ldm, i, k - plan[i].offset);
  }

  /**
   Fill then store: when every element of the register data equals `v` (as after
   filling a fragment with `v`), the store leaves `v` in every element some window
   covers and the old value everywhere else.
   */
  lemma FillThenStore<T>(traits: IOTraits, matrix: MatrixLayout, layout: DataLayout,
                         mem: seq<T>, data: seq<T>, ldm: nat, v: T)
    requires traits.Accepted() && |data| == traits.unpackedSize
    requires InBounds(Plan(traits, matrix, layout, data, ldm), |mem|)
    requires forall e :: e in data ==> e == v
    ensures forall k :: 0 <= k < |mem| ==>
      Apply(mem, Plan(traits, matrix, layout, data, ldm))[k] ==
        if exists i :: 0 <= i < traits.ioCount && Covers(Plan(traits, matrix, layout, data, ldm)[i], k)
        then v else mem[k]
  {
    var plan := Plan(traits, matrix, layout, data, ldm);
    forall j, e | 0 <= j < |plan| && e in plan[j].values
      ensures e == v
    {
      var chunk := Chunk(traits, data, j);
      assert plan[j].values == chunk;
      var idx :| 0 <= idx < |chunk| && chunk[idx] == e;
      assert data[j * traits.vectorWidth + idx] in data;
    }
    forall k | 0 <= k < |mem|
      ensures Apply(mem, plan)[k] ==
        if exists i :: 0 <= i < traits.ioCount && Covers(plan[i], k) then v else mem[k]
    {
      if i :| 0 <= i < traits.ioCount && Covers(plan[i], k) {
        ApplyConstant(mem, plan, v, i, k);
      } else {
        ApplyUnchangedOutside(mem, plan, k);
      }
    }
  }
}
