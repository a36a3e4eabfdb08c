# Dictionary-of-keys sparse matrix and Cartesian-product iterator

A Dafny model of the two components of the `revolver` library:

- **`Sparse`** (`sparse.dfy`) models `DOKMatrix`: a shape `(nrows, ncols)` and a
  finite map from `(row, col)` coordinates to elements. The element capability
  (the `Zero` and `One` traits, bundled as `MatrixElem`) becomes the datatype
  `MatrixElem<T>` holding the two identities, passed explicitly to the
  operations that use them. The matrix is a value (`datatype DOKMatrix`), since
  no operation updates it in place. `new` and `zeros` are functions. `identity`
  and `transposed` are methods whose loops insert into a map one entry at a time,
  each proved equal to a functional specification (`IdentityOf`, `Transpose`).
  Guarded indexing is the function `Index`. It returns `Err(OutOfBounds(row,
  col, nrows, ncols))` where the code panics.
- **`Itertools`** (`itertools.dfy`) models `CartesianProduct` as a class with the
  four fields of the struct: `first`, `savedFirst`, `second` and `secondClone`.
  Both input iterators are finite sequences, and "cloning" is copying the
  sequence. The constructor models `cartesian_product`. `Next` models
  `Iterator::next`, and its contract gives the new value of every field in each
  of the three branches of the code. The ghost function `Remaining` gives the
  pairs still to come. `Next` yields its head and drops it. `Collect` drains the
  iterator, as a `for` loop over it does, and returns exactly `Product(i, j)`,
  the row-major enumeration. The lemmas about `Product` give its length
  `|i| * |j|`, the pair at each position, and emptiness when either input is
  empty.
- **`Wrappers`** (`wrappers.dfy`) holds `Option` and `Result`.

Coordinates and extents are `U64`, the integers in `[0, 2^64)`. No arithmetic is
performed on them, so no wrap-around arises.

## Model

| member | source | states |
|---|---|---|
| `Sparse.New` | src/sparse.rs:57-63 | the matrix keeps the given shape and exactly the given map; nothing is required of the map's keys |
| `Sparse.NewIndex` | src/sparse.rs:57-63 | a matrix built by `new` keeps out-of-shape keys; in bounds a read returns the stored value or zero; out of bounds it fails with the coordinate and the shape |
| `Sparse.Zeros` | src/sparse.rs:71-73 | a zero matrix has the given shape and stores no entry |
| `Sparse.ZerosIndex` | src/sparse.rs:126-131 | every in-bounds read of a zero matrix yields zero |
| `Sparse.Index` | src/sparse.rs:98-112 | fails exactly when `row >= nrows` or `col >= ncols`, with the error carrying row, col, nrows and ncols; otherwise yields the stored value if the key is present and zero if it is absent |
| `Sparse.AbsentMeansZero` | src/sparse.rs:107-111 | storing an explicit zero at a key and storing nothing there give matrices that no read can tell apart |
| `Sparse.Diagonal` | src/sparse.rs:76-79 | the map holds `(i, j)` exactly when `i == j` and `i < size`, each mapped to one |
| `Sparse.IdentityOf` | src/sparse.rs:75-81 | the identity is `size × size` and all its keys lie inside its shape |
| `Sparse.Identity` | src/sparse.rs:75-81 | the loop that inserts `(i, i) -> one` for `i` in `0..size` builds exactly the identity value |
| `Sparse.IdentityIndex` | src/sparse.rs:142-155 | reading the identity gives one on the diagonal, zero at every other in-bounds coordinate, and fails outside the shape |
| `Sparse.Transpose` | src/sparse.rs:83-89 | the transpose has shape `(ncols, nrows)`; `(j, i)` is a key of it exactly when `(i, j)` is a key of the original, with the same value |
| `Sparse.Transposed` | src/sparse.rs:83-89 | the loop that re-inserts every entry under its swapped key builds exactly the transpose; the receiver is a value and is not changed |
| `Sparse.TransposeIndex` | src/sparse.rs:83-89 | reading `(j, i)` of the transpose succeeds exactly when reading `(i, j)` of the original does, and then gives the same value |
| `Sparse.TransposeInvolution` | src/sparse.rs:83-89 | transposing twice gives back the original shape and map |
| `Sparse.TransposeWellFormed` | src/sparse.rs:83-89 | the transpose has all keys inside its shape exactly when the original does |
| `Sparse.IdentitySymmetric` | src/sparse.rs:75-89 | the identity matrix is its own transpose |
| `Sparse.ExampleMatrix` | src/sparse.rs:166-175 | the 4 × 8 matrix of the transpose scenario, with its four entries |
| `Sparse.ExampleIndex` | src/sparse.rs:175-179 | the scenario's reads: 1, 2, 3 and -4 at the stored coordinates, zero at `(1, 1)`, failure at `(4, 0)` |
| `Sparse.ExampleTranspose` | src/sparse.rs:181-185 | after transposing: shape 8 × 4, 1, 2, 3 and -4 at the swapped coordinates, failure at `(0, 4)` |
| `Itertools.ProductLength` | src/util.rs:65-75 | the enumeration has `|xs| * |ys|` pairs |
| `Itertools.ProductAt` | src/util.rs:65-75 | position `k * |ys| + l` of the enumeration is `(xs[k], ys[l])`: row-major order |
| `Itertools.RowsBefore` | src/util.rs:65-75 | the same position counted as `k` whole rows followed by `l` pairs |
| `Itertools.ProductEmptyInner` | src/util.rs:82-87 | with an empty inner sequence there is nothing to enumerate |
| `Itertools.ProductEmptyOuter` | src/util.rs:79-81 | with an empty outer sequence there is nothing to enumerate |
| `Itertools.PendingInnerStep` | src/util.rs:37-38 | while the inner sequence has items, the next pair is the current outer item with the next inner item |
| `Itertools.PendingRestartStep` | src/util.rs:39-46 | once the inner sequence is exhausted, the next pair is the next outer item with the first inner item, or nothing if the outer sequence is exhausted |
| `Itertools.CartesianProduct.constructor` | src/util.rs:14-24 | `savedFirst` is the head of the outer sequence (or none), `first` its rest, and `second` and `secondClone` both the inner sequence; what remains to be yielded is the whole row-major enumeration |
| `Itertools.CartesianProduct.Next` | src/util.rs:33-57 | the new value of every field in each branch; `secondClone` never changes and `second` stays a suffix of it; a pair is yielded only with `savedFirst` present, and it is `(savedFirst, the inner item just taken)`; the yielded value is the head of what remained and the rest is what remains now |
| `Itertools.Collect` | src/util.rs:65-75 | draining the iterator yields exactly the row-major enumeration of the two inputs |
| `Itertools.FirstPair` | src/util.rs:77-87 | the first call to `next` yields `(i[0], j[0])`, or nothing when either input is empty |

## Left out

- The `f64` element type and its constants `ZERO_F64`/`ONE_F64` (src/sparse.rs:9-13, 19-33): floating point is not modelled. The element type is generic, and the scenario lemmas use integers in place of the floats.
- Static references, lifetimes and the `Copy` bound: `Index` returns the element value, not a reference to it.
- Hashing and the iteration order of `HashMap`: storage is a Dafny `map`, and `Transposed` takes the keys in an arbitrary order, which does not change the result.
- The text of the panic message: the error value carries only the four numbers it reports.
- Arbitrary and infinite iterators: both inputs of the Cartesian product are finite sequences. An iterator that is not fused (one that yields again after returning none) is therefore outside the model.
- The commented-out arithmetic operators: they are not implemented in the source.
