# rocWMMA fragment store engine, modelled in Dafny

This project models the store half of rocWMMA's fragment data movement. rocWMMA is a
library for GPU matrix-multiply-accumulate. A fragment is a matrix tile held
cooperatively by the threads of a wave, and each thread keeps its share of the tile in
a register buffer. Storing a fragment works per thread, in two parts:

- `detail::amdgcn_opaque_store<DataT, VectorWidth>::exec` writes one `VectorWidth`-wide
  vector into device memory at an element offset. The offset defaults to 0.
- `OpaqueStore<...>::exec` walks the register buffer in `IOCount` chunks of `VectorWidth`
  elements. It starts from the matrix layout's base coordinate. For each chunk it
  linearises the current coordinate with the data layout, stores the chunk there, and
  adds the matrix layout's increment for that iteration to the coordinate.

The matrix layout, the data layout and the IO traits are template parameters in the
source, and their headers are not part of this model. Here they are parameters:

- `Layout.MatrixLayout` holds the base coordinate and the increment function.
- `Layout.DataLayout` holds `fromMatrixCoord`.
- `OpaqueStore.IOTraits` holds `UnpackedSize`, `IOCount` and `VectorWidth`.

Files:

- `layout.dfy` (module `Layout`): coordinates, the two layout parameters, and the
  coordinate walk of the store loop with its closed form.
- `opaque_store.dfy` (module `OpaqueStore`): the vector-store primitive, the
  configuration checks, the chunk iterator over the register data, the list of
  transactions a store issues, their effect on memory, and the store loop `Exec` over
  an array.
- `store_properties.dfy` (module `StoreProperties`): what a store leaves in memory.
  This covers untouched elements, last-writer-wins on overlap, read-back for disjoint
  windows, and fill-then-store.
- `major_layouts.dfy` (module `MajorLayouts`): row-major and column-major data
  layouts with the test's leading-dimension convention, proved to be bijections.
- `arith.dfy` (module `Arith`): two multiplication and division facts.

`Exec` is proved against a specification. Its postcondition says that memory
afterwards equals `Apply(old memory, Plan(...))`. `Plan` is the list of the `IOCount`
transactions in issue order. Transaction `i` writes chunk `i` of the register data at
`fromMatrixCoord(CoordAt(matrix, i), ldm)`, and `Apply` issues the transactions one
after another. The lemmas in `StoreProperties` state what that memory holds.

The register data is a Dafny sequence. The source passes it by `const&`, so a store
cannot change it.

The source asserts only `VectorWidth > 0` and that the chunk iterator's range equals
`IOCount`. `OpaqueStore.Instantiate` models those two checks, and
`IOTraits.Accepted` is the predicate they define. `Exec`, `Plan` and the store lemmas
require exactly that predicate, so every configuration `Instantiate` accepts can be
stored. When `UnpackedSize` is not a multiple of `VectorWidth`, the trailing
`UnpackedSize - IOCount * VectorWidth` register elements are not stored. The exact
tiling `IOCount * VectorWidth == UnpackedSize` (`IOTraits.Valid`) is what `IOTraits`
in io_traits.hpp, which is not part of this model, is taken to provide;
`OpaqueStore.ValidIsAccepted` shows that every exactly tiled configuration passes
both checks, and `OpaqueStore.ValidChunksCoverData` that in such a configuration every
register element is stored.

## Model

| member | source | states |
|---|---|---|
| `OpaqueStore.VectorWrite` | library/include/rocwmma/internal/opaque_store.hpp:45-49 | one vector write keeps the buffer length; element k holds v[k - offset] inside [offset, offset + VectorWidth) and its old value everywhere else |
| `OpaqueStore.VectorStore` | library/include/rocwmma/internal/opaque_store.hpp:39-50 | needs VectorWidth > 0 and a vector of VectorWidth elements; offset defaults to 0; the array afterwards is exactly the old contents with that window overwritten in order |
| `OpaqueStore.Instantiate` | library/include/rocwmma/internal/opaque_store.hpp:42-79 | a zero VectorWidth is refused with ZeroVectorWidth, and only then; otherwise the configuration is accepted exactly when the chunk iterator's range UnpackedSize / VectorWidth equals IOCount; an accepted configuration satisfies `Accepted`, the precondition of the store |
| `OpaqueStore.ValidIsAccepted` | library/include/rocwmma/internal/opaque_store.hpp:62-79 | every configuration with VectorWidth > 0 and IOCount * VectorWidth == UnpackedSize is `Accepted` and passes both compile-time checks |
| `OpaqueStore.Exec` | library/include/rocwmma/internal/opaque_store.hpp:71-89 | for any configuration the compile-time checks accept, memory afterwards is the old memory with the IOCount transactions applied in ascending order; transaction i writes chunk i at fromMatrixCoord(coordinate i, ldm); the loop passes the iterator's pre-advance index, i, to incrementalOffset |
| `OpaqueStore.ChunkIterator.Current` | library/include/rocwmma/internal/opaque_store.hpp:77-87 | the chunk the iterator points at (`*it`) holds VectorWidth elements, and its element k is register element index * VectorWidth + k |
| `OpaqueStore.ValidChunksCoverData` | library/include/rocwmma/internal/opaque_store.hpp:62-88 | when IOCount * VectorWidth == UnpackedSize, every register element p lies in chunk p / VectorWidth, one of the IOCount chunks the loop stores, at position p % VectorWidth |
| `OpaqueStore.ApplySnoc` | library/include/rocwmma/internal/opaque_store.hpp:83-88 | issuing one more transaction writes its vector over the memory the earlier transactions left, and keeps the earlier windows in bounds |
| `OpaqueStore.ChunkFits` | library/include/rocwmma/internal/opaque_store.hpp:77-79 | in a configuration the compile-time checks accept, each of the IOCount chunks lies inside the register data: (i+1) * VectorWidth <= UnpackedSize |
| `Layout.CoordAtIsBasePlusDisplacement` | library/include/rocwmma/internal/opaque_store.hpp:75-87 | the coordinate of iteration i is baseOffset() plus the component-wise sum incrementalOffset(0) + ... + incrementalOffset(i-1) |
| `StoreProperties.StoreTransactionAt` | library/include/rocwmma/internal/opaque_store.hpp:75-87 | a store issues exactly IOCount transactions; transaction i writes data[i*VectorWidth .. (i+1)*VectorWidth) at fromMatrixCoord(baseOffset + increments 0..i-1, ldm) |
| `StoreProperties.ApplyUnchangedOutside` | library/include/rocwmma/internal/opaque_store.hpp:83-88 | after a sequence of vector writes, an element no window covers keeps its old value |
| `StoreProperties.ApplyLastWriterWins` | library/include/rocwmma/internal/opaque_store.hpp:83-88 | after a sequence of vector writes, an element holds the value from the last write whose window covers it |
| `StoreProperties.DisjointReadBack` | library/include/rocwmma/internal/opaque_store.hpp:83-88 | when no two windows overlap, each window afterwards holds exactly the values written to it |
| `StoreProperties.ApplyConstant` | library/include/rocwmma/internal/opaque_store.hpp:83-88 | if every write carries only the value v, every covered element ends up equal to v |
| `StoreProperties.StoreElementAt` | library/include/rocwmma/internal/opaque_store.hpp:77-87 | transaction i is issued at fromMatrixCoord(coordinate i, ldm), and its element d is register element i * VectorWidth + d |
| `StoreProperties.StoreUnchangedOutside` | library/include/rocwmma/internal/opaque_store.hpp:83-88 | a store leaves every memory element outside the IOCount windows [off_i, off_i + VectorWidth) unchanged |
| `StoreProperties.StoreReadBack` | library/include/rocwmma/internal/opaque_store.hpp:83-88 | with pairwise disjoint windows, reading window i back after a store gives chunk i of the register data |
| `StoreProperties.StoreLastWriterWins` | library/include/rocwmma/internal/opaque_store.hpp:83-88 | where windows overlap, an element holds the matching element of the chunk of the last iteration whose window covers it |
| `StoreProperties.FillThenStore` | test/unit/device/FillFragment.h:42-46 | storing register data whose elements all equal v leaves v in every element some window covers and the old value everywhere else |
| `MajorLayouts.OffsetOfInverse` | test/LoadStoreMatrixSyncTest.cpp:33-35 | with ld = cols for row-major and ld = rows for column-major, every in-range coordinate of a rows x cols matrix maps below rows * cols and is recovered from its offset |
| `MajorLayouts.CoordOfInverse` | test/LoadStoreMatrixSyncTest.cpp:33-35 | under the same convention every offset below rows * cols is the offset of some in-range coordinate |
| `MajorLayouts.OffsetOfInjective` | test/LoadStoreMatrixSyncTest.cpp:33-35 | under the same convention two in-range coordinates share an offset exactly when they are equal |

## Left out

- The load path (`load_matrix_sync` and an opaque load) is not part of this model. So there is no load/store round trip beyond the store-side read-back lemma.
- The bodies of `IOTraits`, `MatrixLayout` and `DataLayout` (io_traits.hpp, layout.hpp) are not part of this model. They are parameters, and no tiling policy or coverage proof is claimed for them.
- `VecT` and its chunk iterator (types.hpp) are not part of this model. The iterator is modelled as `OpaqueStore.ChunkIterator` over consecutive VectorWidth-wide slices: chunk i is register elements i * VectorWidth .. (i + 1) * VectorWidth - 1, and the range is UnpackedSize / VectorWidth. This is assumed, not derived from types.hpp.
- OpaqueStore.Instantiate: the chunk iterator's range is taken to be UnpackedSize / VectorWidth, for the same reason.
- The lane and wave identity behind `MatrixLayout::baseOffset()` is not modelled. The base coordinate is an explicit input.
- The `reinterpret_cast` vector type-punning and its alignment are not modelled. A vector store is an element-wise copy of `VectorWidth` elements, done as one parallel assignment.
- `#pragma unroll` and compile-time specialisation are not modelled. The store is an ordinary loop bounded by `IOCount`.
- Element types (`float16_t`, `hfloat16_t`, `bfloat16_t`, `float32_t`) are one generic type `T`. No numerics are modelled.
- Coordinates, offsets and `ldm` are unbounded naturals. The source's 32-bit unsigned wrap-around is not modelled. Increments are non-negative too, so a matrix layout whose walk steps a row or column back, which the source's unsigned `+=` can express through wrap-around, has no instance in the model.
- Bounds checking: the source performs none. In-bounds windows are a caller obligation, stated as a `requires` on `Exec`.
- Concurrency across threads and waves is not modelled. Each store is one thread's sequential loop.
- `fill_fragment` and `MappingUtil::dataCoord` are not part of this model. Their effect appears only as the constant-input lemma `FillThenStore`.
- The host-side test driver is not modelled: allocation, copies, kernel launch, printing and comparison. Only its leading-dimension convention appears, in `MajorLayouts`.
