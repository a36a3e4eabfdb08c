/**
 A dictionary-of-keys sparse matrix: a shape `(nrows, ncols)` together with a
 finite map from `(row, col)` coordinates to the stored elements. Coordinates
 that have no entry read as the element type's zero.
 */
module Sparse {
  import opened Wrappers

  /** The unsigned 64-bit integers used for extents and coordinates. */
  const U64_LIMIT: int := 0x1_0000_0000_0000_0000
  type U64 = x: int | 0 <= x < U64_LIMIT

  type Coords = (U64, U64)
  type CoordMap<T> = map<Coords, T>

  /**
   The capability an element type must have: its additive identity `zero` and
   its multiplicative identity `one`. The code asks for these through the traits
   `Zero` and `One`; here the pair is passed explicitly to the operations that
   use it.
   */
  datatype MatrixElem<T> = MatrixElem(zero: T, one: T)

  /** The matrix value. Nothing forces the keys of `elems` to lie inside the shape. */
  datatype DOKMatrix<T> = DOKMatrix(nrows: U64, ncols: U64, elems: CoordMap<T>)

  /** The error that guarded indexing reports: the coordinate and the shape. */
  datatype IndexError = OutOfBounds(row: U64, col: U64, nrows: U64, ncols: U64)

  /** A matrix all of whose stored coordinates lie inside its shape. */
  predicate WellFormed<T>(m: DOKMatrix<T>)
  {
    forall k :: k in m.elems ==> k.0 < m.nrows && k.1 < m.ncols
  }

  /** Two matrices that no guarded read can tell apart. */
  predicate SameReads<T(==)>(e: MatrixElem<T>, m: DOKMatrix<T>, n: DOKMatrix<T>)
  {
    forall i: U64, j: U64 :: Index(m, e, i, j) == Index(n, e, i, j)
  }

  /** Wraps a caller's map as a matrix of the given shape, without validation. */
  function New<T>(nrows: U64, ncols: U64, elems: CoordMap<T>): (m: DOKMatrix<T>)
    ensures m.nrows == nrows && m.ncols == ncols && m.elems == elems
  {
    DOKMatrix(nrows, ncols, elems)
  }

  /** A matrix of the given shape with no stored entries. */
  function Zeros<T>(nrows: U64, ncols: U64): (m: DOKMatrix<T>)
    ensures m.nrows == nrows && m.ncols == ncols && m.elems.Keys == {}
  {
    New(nrows, ncols, map[])
  }

  /**
   Bounds-checked lookup. Out of bounds it reports the coordinate and the shape;
   in bounds it yields the stored value, or `zero` when nothing is stored.
   */
  function Index<T>(m: DOKMatrix<T>, e: MatrixElem<T>, row: U64, col: U64): (r: Result<T, IndexError>)
    ensures r.Err? <==> row >= m.nrows || col >= m.ncols
    ensures r.Err? ==> r.error == OutOfBounds(row, col, m.nrows, m.ncols)
    ensures r.Ok? && (row, col) in m.elems ==> r.value == m.elems[(row, col)]
    ensures r.Ok? && (row, col) !in m.elems ==> r.value == e.zero
  {
    if row >= m.nrows || col >= m.ncols then
      Err(OutOfBounds(row, col, m.nrows, m.ncols))
    else
      match Get(m.elems, (row, col))
      case None => Ok(e.zero)
      case Some(v) => Ok(v)
  }

  /** The map lookup `HashMap::get`: the value stored under `k`, if any. */
  function Get<K, V>(m: map<K, V>, k: K): (r: Option<V>)
  {
    if k in m then Some(m[k]) else None
  }

  /** The diagonal map `(i, i) -> one` for every `i < n`. */
  function Diagonal<T>(one: T, n: U64): (d: CoordMap<T>)
    ensures forall i: U64, j: U64 :: (i, j) in d <==> i == j && i < n
    ensures forall k :: k in d ==> d[k] == one
  {
    map i: U64 | i < n :: (i, i) := one
  }

  /** The `size × size` identity matrix, as a value. */
  function IdentityOf<T>(e: MatrixElem<T>, size: U64): (m: DOKMatrix<T>)
    ensures m.nrows == size && m.ncols == size
    ensures WellFormed(m)
  {
    New(size, size, Diagonal(e.one, size))
  }

  /** The transpose, as a value: the shape swapped and every key `(i, j)` moved to `(j, i)`. */
  function Transpose<T>(m: DOKMatrix<T>): (t: DOKMatrix<T>)
    ensures t.nrows == m.ncols && t.ncols == m.nrows
    ensures forall i: U64, j: U64 :: (j, i) in t.elems <==> (i, j) in m.elems
    ensures forall i: U64, j: U64 :: (i, j) in m.elems ==> t.elems[(j, i)] == m.elems[(i, j)]
  {
    New(m.ncols, m.nrows, map k | k in m.elems :: (k.1, k.0) := m.elems[k])
  }

  /** Builds the identity matrix by inserting the diagonal one entry at a time. */
  method Identity<T>(e: MatrixElem<T>, size: U64) returns (m: DOKMatrix<T>)
    ensures m == IdentityOf(e, size)
  {
    var elems: CoordMap<T> := map[];
    for i: U64 := 0 to size
      invariant elems == Diagonal(e.one, i)
    {
      elems := elems[(i, i) := e.one];
    }
    m := New(size, size, elems);
  }

  /** Builds the transpose by re-inserting every entry of `m` under its swapped key. */
  method Transposed<T>(m: DOKMatrix<T>) returns (t: DOKMatrix<T>)
    ensures t == Transpose(m)
  {
    var elems: CoordMap<T> := map[];
    var todo := m.elems.Keys;
    while todo != {}
      invariant todo <= m.elems.Keys
      invariant forall i: U64, j: U64 :: (j, i) in elems <==> (i, j) in m.elems && (i, j) !in todo
      invariant forall i: U64, j: U64 :: (j, i) in elems ==> elems[(j, i)] == m.elems[(i, j)]
      decreases todo
    {
      var k :| k in todo;
      elems := elems[(k.1, k.0) := m.elems[k]];
      todo := todo - {k};
    }
    t := New(m.ncols, m.nrows, elems);
    assert elems == Transpose(m).elems;
  }

  /** `New` keeps every key it is given; in bounds a read sees the map, out of bounds it fails. */
  lemma NewIndex<T>(e: MatrixElem<T>, nrows: U64, ncols: U64, elems: CoordMap<T>, i: U64, j: U64)
    ensures New(nrows, ncols, elems).elems == elems
    ensures i < nrows && j < ncols ==>
      Index(New(nrows, ncols, elems), e, i, j) == Ok(if (i, j) in elems then elems[(i, j)] else e.zero)
    ensures i >= nrows || j >= ncols ==>
      Index(New(nrows, ncols, elems), e, i, j) == Err(OutOfBounds(i, j, nrows, ncols))
  {
  }

  /** Every in-bounds read of a zero matrix yields `zero`. */
  lemma ZerosIndex<T>(e: MatrixElem<T>, nrows: U64, ncols: U64, i: U64, j: U64)
    requires i < nrows && j < ncols
    ensures Index(Zeros(nrows, ncols), e, i, j) == Ok(e.zero)
  {
  }

  /** An explicitly stored zero reads exactly as an absent entry. */
  lemma AbsentMeansZero<T>(e: MatrixElem<T>, nrows: U64, ncols: U64, elems: CoordMap<T>, k: Coords)
    ensures SameReads(e, New(nrows, ncols, elems[k := e.zero]), New(nrows, ncols, elems - {k}))
  {
  }

  /** Reads of the identity: `one` on the diagonal, `zero` elsewhere in bounds, failure outside. */
  lemma IdentityIndex<T>(e: MatrixElem<T>, size: U64, i: U64, j: U64)
    ensures Index(IdentityOf(e, size), e, i, j) ==
      if i < size && j < size then Ok(if i == j then e.one else e.zero)
      else Err(OutOfBounds(i, j, size, size))
  {
  }

  /** Reading `(j, i)` of the transpose is reading `(i, j)` of the original, failures included. */
  lemma TransposeIndex<T>(e: MatrixElem<T>, m: DOKMatrix<T>, i: U64, j: U64)
    ensures Index(Transpose(m), e, j, i).Ok? <==> Index(m, e, i, j).Ok?
    ensures Index(m, e, i, j).Ok? ==> Index(Transpose(m), e, j, i).value == Index(m, e, i, j).value
  {
  }

  /** Transposing twice restores the original shape and map. */
  lemma TransposeInvolution<T>(m: DOKMatrix<T>)
    ensures Transpose(Transpose(m)) == m
  {
  }

  /** Transposing keeps a matrix's keys inside its (swapped) shape, and only then. */
  lemma TransposeWellFormed<T>(m: DOKMatrix<T>)
    ensures WellFormed(Transpose(m)) <==> WellFormed(m)
  {
  }

  /** The identity matrix is its own transpose. */
  lemma IdentitySymmetric<T>(e: MatrixElem<T>, size: U64)
    ensures Transpose(IdentityOf(e, size)) == IdentityOf(e, size)
  {
  }

  /** The matrix built from the entries `{(0,1): 1, (0,2): 2, (0,3): 3, (2,2): -4}`, with integer elements. */
  function ExampleMatrix(): (m: DOKMatrix<int>)
    ensures m.nrows == 4 && m.ncols == 8 && |m.elems| == 4
  {
    New(4, 8, map[(0, 1) := 1, (0, 2) := 2, (0, 3) := 3, (2, 2) := -4])
  }

  /** The reads of the example matrix: the four stored values, and zero elsewhere in bounds. */
  lemma ExampleIndex()
    ensures var m, e := ExampleMatrix(), MatrixElem(0, 1);
      && Index(m, e, 0, 1) == Ok(1)
      && Index(m, e, 0, 2) == Ok(2)
      && Index(m, e, 0, 3) == Ok(3)
      && Index(m, e, 2, 2) == Ok(-4)
      && Index(m, e, 1, 1) == Ok(0)
      && Index(m, e, 4, 0).Err?
  {
  }

  /** The reads of the transposed example matrix: an 8 × 4 matrix with the four values moved. */
  lemma ExampleTranspose()
    ensures var t, e := Transpose(ExampleMatrix()), MatrixElem(0, 1);
      && t.nrows == 8 && t.ncols == 4
      && Index(t, e, 1, 0) == Ok(1)
      && Index(t, e, 2, 0) == Ok(2)
      && Index(t, e, 3, 0) == Ok(3)
      && Index(t, e, 2, 2) == Ok(-4)
      && Index(t, e, 0, 4).Err?
  {
  }
}
