/**
 The fragment store engine. `VectorStore` is the primitive that writes one
 `VectorWidth`-wide vector into memory at an element offset; `Exec` walks a thread's
 register data in `IOCount` chunks, linearising the current matrix coordinate for
 each chunk, storing the chunk there and then advancing the coordinate.

 Device memory is an array the engine updates in place; the register data is a
 sequence, since the engine only reads it.
 */
module OpaqueStore {
  import opened Layout
  import opened Arith

  // ---------------------------------------------------------------------------
  // Single vector transaction
  // ---------------------------------------------------------------------------

  /** Memory after writing the vector `v` at element offset `offset`. */
  function VectorWrite<T>(mem: seq<T>, v: seq<T>, offset: nat): (r: seq<T>)
    requires offset + |v| <= |mem|
    ensures |r| == |mem|
    ensures forall k :: 0 <= k < |mem| ==>
      r[k] == if offset <= k < offset + |v| then v[k - offset] else mem[k]
  {
    mem[..offset] + v + mem[offset + |v|..]
  }

  /**
   One vector store: the `vectorWidth` elements of `data` land in
   dataPtr[offset .. offset + vectorWidth), in order, and nothing else changes.
   */
  method VectorStore<T>(vectorWidth: nat, dataPtr: array<T>, data: seq<T>, offset: nat := 0)
    requires vectorWidth > 0
    requires |data| == vectorWidth
    requires offset + vectorWidth <= dataPtr.Length
    modifies dataPtr
    ensures dataPtr[..] == VectorWrite(old(dataPtr[..]), data, offset)
  {
    forall k | offset <= k < offset + vectorWidth {
      dataPtr[k] := data[k - offset];
    }
  }

  // ---------------------------------------------------------------------------
  // Configuration
  // ---------------------------------------------------------------------------

  /**
   The sizes the engine is instantiated with: the register data holds `unpackedSize`
   elements, moved by `ioCount` transactions of `vectorWidth` elements each.
   */
  datatype IOTraits = IOTraits(unpackedSize: nat, ioCount: nat, vectorWidth: nat)
  {
    /** A configuration whose chunks exactly tile the register data. */
    predicate Valid()
    {
      vectorWidth > 0 && ioCount * vectorWidth == unpackedSize
    }

    /**
     A configuration both compile-time checks let through: a positive vector width,
     and a chunk iterator whose range is `ioCount`.
     */
    predicate Accepted()
    {
      vectorWidth > 0 && ChunkRange(unpackedSize, vectorWidth) == ioCount
    }
  }

  /** The two ways an instantiation is refused before any store exists. */
  datatype ConfigError = ZeroVectorWidth | IOCountMismatch

  datatype Result<T, E> = Ok(value: T) | Err(error: E)

  /**
   Instantiating the engine: a zero vector width is refused first, then a chunk
   iterator whose range differs from `ioCount`.
   */
  function Instantiate(unpackedSize: nat, ioCount: nat, vectorWidth: nat): (r: Result<IOTraits, ConfigError>)
    ensures vectorWidth == 0 <==> r == Err(ZeroVectorWidth)
    ensures r.Ok? <==> vectorWidth > 0 && unpackedSize / vectorWidth == ioCount
    ensures r.Ok? ==> r.value == IOTraits(unpackedSize, ioCount, vectorWidth) && r.value.Accepted()
  {
    if vectorWidth == 0 then Err(ZeroVectorWidth)
    else if ChunkRange(unpackedSize, vectorWidth) != ioCount then
      Err(IOCountMismatch)
    else
      Ok(IOTraits(unpackedSize, ioCount, vectorWidth))
  }

  /** Every configuration whose chunks exactly tile the register data is accepted. */
  lemma ValidIsAccepted(traits: IOTraits)
    requires traits.Valid()
    ensures traits.Accepted()
    ensures Instantiate(traits.unpackedSize, traits.ioCount, traits.vectorWidth) == Ok(traits)
  {
    DivModUnique(traits.ioCount, 0, traits.vectorWidth);
  }

  // ---------------------------------------------------------------------------
  // Register data, read chunk by chunk
  // ---------------------------------------------------------------------------

  /** How many whole `width`-wide chunks a buffer of `size` elements holds. */
  function ChunkRange(size: nat, width: nat): nat
    requires width > 0
  {
    size / width
  }

  /** A read-only forward iterator over the `width`-wide chunks of `data`. */
  datatype ChunkIterator<T> = ChunkIterator(data: seq<T>, width: nat, index: nat)
  {
    /** How many chunks the iterator walks over. */
    function Range(): nat
      requires width > 0
    {
      ChunkRange(|data|, width)
    }

    /** The chunk the iterator points at. */
    function Current(): (chunk: seq<T>)
      requires width > 0 && (index + 1) * width <= |data|
      ensures |chunk| == width
      ensures forall k :: 0 <= k < width ==> chunk[k] == data[index * width + k]
    {
      data[index * width .. (index + 1) * width]
    }

    function Next(): ChunkIterator<T>
    {
      this.(index := index + 1)
    }
  }

  function CBegin<T>(data: seq<T>, width: nat): ChunkIterator<T>
  {
    ChunkIterator(data, width, 0)
  }

  /** Chunk `i` of the register data. */
  function Chunk<T>(traits: IOTraits, data: seq<T>, i: nat): (chunk: seq<T>)
    requires traits.Accepted() && |data| == traits.unpackedSize && i < traits.ioCount
    ensures |chunk| == traits.vectorWidth
    ensures forall k :: 0 <= k < traits.vectorWidth ==>
      i * traits.vectorWidth + k < |data| && chunk[k] == data[i * traits.vectorWidth + k]
  {
    ChunkFits(traits, i);
    ChunkIterator(data, traits.vectorWidth, i).Current()
  }

  /**
   When the chunks exactly tile the register data, every register element is stored:
   element p is element p % vectorWidth of chunk p / vectorWidth, one of the
   `ioCount` chunks.
   */
  lemma ValidChunksCoverData<T>(traits: IOTraits, data: seq<T>, p: nat)
    requires traits.Valid() && |data| == traits.unpackedSize
    requires p < traits.unpackedSize
    ensures traits.Accepted()
    ensures p / traits.vectorWidth < traits.ioCount
    ensures Chunk(traits, data, p / traits.vectorWidth)[p % traits.vectorWidth] == data[p]
  {
    ValidIsAccepted(traits);
    var w := traits.vectorWidth;
    var q, r := p / w, p % w;
    assert p == q * w + r;
    if q >= traits.ioCount {
      LeMul(traits.ioCount, q, w);
    }
    var e := Chunk(traits, data, q)[r];
  }

  /** In an accepted configuration every chunk lies inside the register data. */
  lemma ChunkFits(traits: IOTraits, i: nat)
    requires traits.Accepted() && i < traits.ioCount
    ensures (i + 1) * traits.vectorWidth <= traits.unpackedSize
  {
    var w := traits.vectorWidth;
    assert traits.unpackedSize == traits.ioCount * w + traits.unpackedSize % w;
    LeMul(i + 1, traits.ioCount, w);
  }

  // ---------------------------------------------------------------------------
  // The transactions of one store and their effect on memory
  // ---------------------------------------------------------------------------

  /** One vector transaction: `values` written starting at element `offset`. */
  datatype StoreOp<T> = StoreOp(offset: nat, values: seq<T>)

  /** Transaction `i` of a store: chunk `i` at the linearised coordinate `i`. */
  function Transaction<T>(traits: IOTraits, matrix: MatrixLayout, layout: DataLayout,
                          data: seq<T>, ldm: nat, i: nat): StoreOp<T>
    requires traits.Accepted() && |data| == traits.unpackedSize && i < traits.ioCount
  {
    StoreOp(layout.fromMatrixCoord(CoordAt(matrix, i), ldm), Chunk(traits, data, i))
  }

  /** The transactions a store issues, in issue order. */
  function Plan<T>(traits: IOTraits, matrix: MatrixLayout, layout: DataLayout,
                   data: seq<T>, ldm: nat): seq<StoreOp<T>>
    requires traits.Accepted() && |data| == traits.unpackedSize
  {
    seq(traits.ioCount, i requires 0 <= i < traits.ioCount =>
      Transaction(traits, matrix, layout, data, ldm, i))
  }

  /** True when transaction `op` writes element `k`. */
  predicate Covers<T>(op: StoreOp<T>, k: nat)
  {
    op.offset <= k < op.offset + |op.values|
  }

  /** Every transaction's window lies inside a buffer of `size` elements. */
  predicate InBounds<T>(ops: seq<StoreOp<T>>, size: nat)
  {
    forall j :: 0 <= j < |ops| ==> ops[j].offset + |ops[j].values| <= size
  }

  /** No two transactions write a common element. */
  predicate Disjoint<T>(ops: seq<StoreOp<T>>)
  {
    forall j1, j2 :: 0 <= j1 < j2 < |ops| ==>
      ops[j1].offset + |ops[j1].values| <= ops[j2].offset ||
      ops[j2].offset + |ops[j2].values| <= ops[j1].offset
  }

  /** Memory after issuing the transactions `ops` one after another. */
  function Apply<T>(mem: seq<T>, ops: seq<StoreOp<T>>): (r: seq<T>)
    requires InBounds(ops, |mem|)
    ensures |r| == |mem|
  {
    if ops == [] then mem
    else
      var last := ops[|ops| - 1];
      VectorWrite(Apply(mem, ops[..|ops| - 1]), last.values, last.offset)
  }

  /** Issuing one more transaction writes its vector over the memory the others left. */
  lemma ApplySnoc<T>(mem: seq<T>, ops: seq<StoreOp<T>>, op: StoreOp<T>)
    requires InBounds(ops + [op], |mem|)
    ensures InBounds(ops, |mem|) && op.offset + |op.values| <= |mem|
    ensures Apply(mem, ops + [op]) == VectorWrite(Apply(mem, ops), op.values, op.offset)
  {
    var all := ops + [op];
    assert all[..|all| - 1] == ops;
    assert all[|all| - 1] == op;
    forall j | 0 <= j < |ops|
      ensures ops[j].offset + |ops[j].values| <= |mem|
    {
      assert all[j] == ops[j];
    }
  }

  // ---------------------------------------------------------------------------
  // The store loop
  // ---------------------------------------------------------------------------

  /**
   Stores a thread's register data: transaction `i` writes chunk `i` at
   `layout.fromMatrixCoord(CoordAt(matrix, i), ldm)`, for i = 0 .. ioCount-1 in
   that order. The caller guarantees that every window lies inside `dataPtr`.
   */
  method Exec<T>(traits: IOTraits, matrix: MatrixLayout, layout: DataLayout,
                 dataPtr: array<T>, data: seq<T>, ldm: nat)
    requires traits.Accepted() && |data| == traits.unpackedSize
    requires InBounds(Plan(traits, matrix, layout, data, ldm), dataPtr.Length)
    modifies dataPtr
    ensures dataPtr[..] == Apply(old(dataPtr[..]), Plan(traits, matrix, layout, data, ldm))
  {
    ghost var plan := Plan(traits, matrix, layout, data, ldm);
    ghost var mem := dataPtr[..];
    var baseOffset := matrix.baseOffset;
    var it := CBegin(data, traits.vectorWidth);
    assert it.Range() == traits.ioCount;
    var i := 0;
    while i < traits.ioCount
      invariant 0 <= i <= traits.ioCount
      invariant it == ChunkIterator(data, traits.vectorWidth, i)
      invariant baseOffset == CoordAt(matrix, i)
      invariant dataPtr[..] == Apply(mem, plan[..i])
    {
      ChunkFits(traits, i);
      var chunk := it.Current();
      var offset := layout.fromMatrixCoord(baseOffset, ldm);
      assert plan[i] == StoreOp(offset, chunk);
      assert plan[..i + 1] == plan[..i] + [plan[i]];
      ApplySnoc(mem, plan[..i], plan[i]);
      VectorStore(traits.vectorWidth, dataPtr, chunk, offset);
      baseOffset := Add(baseOffset, matrix.incrementalOffset(it.index));
      it := it.Next();
      i := i + 1;
    }
    assert plan[..i] == plan;
  }
}
