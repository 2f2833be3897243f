/** Compressed sparse column encoding of the matrices handed to the QP solver. */
module CscConversion {
  import opened Sums
  import opened Reals
  import opened Matchings
  import opened LinearAlgebra

  const THRESHOLD := 0.000000001

  datatype Csc = Csc(vals: seq<real>, rowIdxs: seq<int>, colIdxs: seq<int>)

  datatype Conversion = Converted(csc: Csc) | InvalidArgument

  /** Entries from..to of the vectors are the significant cells of column j above row `limit`, in row order. */
  ghost predicate ColumnSlice(m: Matrix, j: int, limit: int, vals: seq<real>, rowIdxs: seq<int>, from: int, to: int) {
    && 0 <= from <= to <= |vals| && |vals| == |rowIdxs|
    && (forall k :: from <= k < to ==>
                      0 <= rowIdxs[k] < limit && vals[k] == Cell(m, rowIdxs[k], j) && Abs(vals[k]) >= THRESHOLD)
    && (forall k, l :: from <= k < l < to ==> rowIdxs[k] < rowIdxs[l])
    && (forall i :: 0 <= i < limit && Abs(Cell(m, i, j)) >= THRESHOLD ==> Listed(rowIdxs, from, to, i))
  }

  ghost predicate Listed(rowIdxs: seq<int>, from: int, to: int, i: int) {
    exists k :: 0 <= from <= k < to <= |rowIdxs| && rowIdxs[k] == i
  }

  /** Column pointers start at 0, never decrease, and end at the number of entries. */
  ghost predicate Pointers(csc: Csc, cols: nat) {
    && |csc.colIdxs| == cols + 1 && |csc.vals| == |csc.rowIdxs|
    && csc.colIdxs[0] == 0 && csc.colIdxs[cols] == |csc.vals|
    && forall j :: 0 <= j < cols ==> csc.colIdxs[j] <= csc.colIdxs[j + 1]
  }

  /** How many rows of column j are encoded: all of them, or those down to the diagonal. */
  function Limit(rows: nat, upper: bool, j: int): int {
    if upper then j + 1 else rows
  }

  ghost predicate Encodes(m: Matrix, rows: nat, cols: nat, upper: bool, csc: Csc) {
    && Rectangular(m, rows, cols) && (upper ==> rows == cols)
    && Pointers(csc, cols)
    && forall j :: 0 <= j < cols ==>
         ColumnSlice(m, j, Limit(rows, upper, j), csc.vals, csc.rowIdxs, csc.colIdxs[j], csc.colIdxs[j + 1])
  }

  lemma SliceKept(m: Matrix, j: int, limit: int, vals: seq<real>, rowIdxs: seq<int>, from: int, to: int, v: real,
      r: int)
    requires ColumnSlice(m, j, limit, vals, rowIdxs, from, to)
    ensures ColumnSlice(m, j, limit, vals + [v], rowIdxs + [r], from, to)
  {
    forall i | 0 <= i < limit && Abs(Cell(m, i, j)) >= THRESHOLD ensures Listed(rowIdxs + [r], from, to, i) {
      var k :| 0 <= from <= k < to <= |rowIdxs| && rowIdxs[k] == i;
      assert (rowIdxs + [r])[k] == i;
    }
  }

  /** Scanning one more cell: a significant one is appended, any other is passed over. */
  lemma SliceGrows(m: Matrix, j: int, limit: int, vals: seq<real>, rowIdxs: seq<int>, from: int)
    requires ColumnSlice(m, j, limit, vals, rowIdxs, from, |vals|)
    requires limit >= 0
    ensures if Abs(Cell(m, limit, j)) < THRESHOLD then ColumnSlice(m, j, limit + 1, vals, rowIdxs, from, |vals|)
            else ColumnSlice(m, j, limit + 1, vals + [Cell(m, limit, j)], rowIdxs + [limit], from, |vals| + 1)
  {
    if Abs(Cell(m, limit, j)) >= THRESHOLD {
      forall i | 0 <= i < limit + 1 && Abs(Cell(m, i, j)) >= THRESHOLD
        ensures Listed(rowIdxs + [limit], from, |vals| + 1, i)
      {
        if i < limit {
          var k :| 0 <= from <= k < |vals| <= |rowIdxs| && rowIdxs[k] == i;
          assert (rowIdxs + [limit])[k] == i;
        } else {
          assert (rowIdxs + [limit])[|vals|] == i;
        }
      }
    }
  }

  /** The columns before j are encoded, column j down to row `limit`. */
  ghost predicate Encoding(m: Matrix, rows: nat, upper: bool, vals: seq<real>, rowIdxs: seq<int>, colIdxs: seq<int>,
      j: int, limit: int) {
    && 0 <= j && |colIdxs| == j + 1 && colIdxs[0] == 0 && |vals| == |rowIdxs|
    && (forall c :: 0 <= c < j ==> colIdxs[c] <= colIdxs[c + 1] &&
                                   ColumnSlice(m, c, Limit(rows, upper, c), vals, rowIdxs, colIdxs[c], colIdxs[c + 1]))
    && ColumnSlice(m, j, limit, vals, rowIdxs, colIdxs[j], |vals|)
  }

  lemma EncodeCell(m: Matrix, rows: nat, cols: nat, upper: bool, vals: seq<real>, rowIdxs: seq<int>, colIdxs: seq<int>,
      j: int, limit: int)
    requires Rectangular(m, rows, cols) && 0 <= j < cols && 0 <= limit < rows
    requires Encoding(m, rows, upper, vals, rowIdxs, colIdxs, j, limit)
    ensures if Abs(m[limit][j]) < THRESHOLD then Encoding(m, rows, upper, vals, rowIdxs, colIdxs, j, limit + 1)
            else Encoding(m, rows, upper, vals + [m[limit][j]], rowIdxs + [limit], colIdxs, j, limit + 1)
  {
    hide ColumnSlice;
    SliceGrows(m, j, limit, vals, rowIdxs, colIdxs[j]);
    forall c | 0 <= c < j
      ensures ColumnSlice(m, c, Limit(rows, upper, c), vals + [m[limit][j]], rowIdxs + [limit], colIdxs[c],
        colIdxs[c + 1])
    {
      SliceKept(m, c, Limit(rows, upper, c), vals, rowIdxs, colIdxs[c], colIdxs[c + 1], m[limit][j], limit);
    }
  }

  lemma CloseColumn(m: Matrix, rows: nat, cols: nat, upper: bool, vals: seq<real>, rowIdxs: seq<int>,
      colIdxs: seq<int>, j: int)
    requires Rectangular(m, rows, cols) && 0 <= j < cols
    requires Encoding(m, rows, upper, vals, rowIdxs, colIdxs, j, Limit(rows, upper, j))
    ensures Encoding(m, rows, upper, vals, rowIdxs, colIdxs + [|vals|], j + 1, 0)
  {
    EmptySlice(m, vals, rowIdxs);
  }

  method CalCscMatrix(m: Matrix, rows: nat, cols: nat) returns (csc: Csc)
    requires Rectangular(m, rows, cols)
    ensures Encodes(m, rows, cols, false, csc)
  {
    hide ColumnSlice;
    var vals, rowIdxs, colIdxs, elemCount := [], [], [0], 0;
    EmptySlice(m, [], []);
    for j := 0 to cols
      invariant elemCount == |vals|
      invariant Encoding(m, rows, false, vals, rowIdxs, colIdxs, j, 0) && colIdxs[j] == elemCount
    {
      for i := 0 to rows
        invariant elemCount == |vals|
        invariant Encoding(m, rows, false, vals, rowIdxs, colIdxs, j, i)
      {
        EncodeCell(m, rows, cols, false, vals, rowIdxs, colIdxs, j, i);
        var val := m[i][j];
        if Abs(val) < THRESHOLD { continue; }
        elemCount := elemCount + 1;
        vals := vals + [val];
        rowIdxs := rowIdxs + [i];
      }
      CloseColumn(m, rows, cols, false, vals, rowIdxs, colIdxs, j);
      colIdxs := colIdxs + [elemCount];
    }
    csc := Csc(vals, rowIdxs, colIdxs);
  }

  method CalCscMatrixTrapezoidal(m: Matrix, rows: nat, cols: nat) returns (r: Conversion)
    requires Rectangular(m, rows, cols)
    ensures r.Converted? <==> rows == cols
    ensures r.Converted? ==> Encodes(m, rows, cols, true, r.csc)
  {
    hide ColumnSlice;
    if rows != cols { return InvalidArgument; }
    var vals, rowIdxs, colIdxs, elemCount, trapLastIdx := [], [], [0], 0, 0;
    EmptySlice(m, [], []);
    for j := 0 to cols
      invariant elemCount == |vals| && trapLastIdx == j
      invariant Encoding(m, rows, true, vals, rowIdxs, colIdxs, j, 0) && colIdxs[j] == elemCount
    {
      for i := 0 to trapLastIdx + 1
        invariant elemCount == |vals|
        invariant Encoding(m, rows, true, vals, rowIdxs, colIdxs, j, i)
      {
        EncodeCell(m, rows, cols, true, vals, rowIdxs, colIdxs, j, i);
        var val := m[i][j];
        if Abs(val) < THRESHOLD { continue; }
        elemCount := elemCount + 1;
        vals := vals + [val];
        rowIdxs := rowIdxs + [i];
      }
      CloseColumn(m, rows, cols, true, vals, rowIdxs, colIdxs, j);
      colIdxs := colIdxs + [elemCount];
      trapLastIdx := trapLastIdx + 1;
    }
    r := Converted(Csc(vals, rowIdxs, colIdxs));
  }

  lemma EmptySlice(m: Matrix, vals: seq<real>, rowIdxs: seq<int>)
    requires |vals| == |rowIdxs|
    ensures forall j :: ColumnSlice(m, j, 0, vals, rowIdxs, |vals|, |vals|)
  {
  }

  // ---- decoding ------------------------------------------------------------------------------

  ghost predicate EntryAt(csc: Csc, i: int, j: int, k: int)
    requires |csc.vals| == |csc.rowIdxs| && 0 <= j < |csc.colIdxs| - 1
  {
    0 <= csc.colIdxs[j] <= k < csc.colIdxs[j + 1] <= |csc.vals| && csc.rowIdxs[k] == i
  }

  /** The value a CSC reader finds at (i, j). */
  ghost function Decoded(csc: Csc, i: int, j: int): real
    requires |csc.vals| == |csc.rowIdxs| && 0 <= j < |csc.colIdxs| - 1
  {
    if k :| EntryAt(csc, i, j, k) then csc.vals[k] else 0.0
  }

  function Thresholded(m: Matrix, i: int, j: int): real {
    if Abs(Cell(m, i, j)) < THRESHOLD then 0.0 else Cell(m, i, j)
  }

  /** In an encoding the entry between a column's pointers that names the row is the one that is read. */
  lemma DecodedAt(m: Matrix, rows: nat, cols: nat, upper: bool, csc: Csc, j: nat, k: nat)
    requires Encodes(m, rows, cols, upper, csc) && j < cols && csc.colIdxs[j] <= k < csc.colIdxs[j + 1]
    ensures |csc.vals| == |csc.rowIdxs| && |csc.colIdxs| == cols + 1 && k < |csc.vals|
    ensures 0 <= csc.rowIdxs[k] < rows && (upper ==> csc.rowIdxs[k] <= j)
    ensures Decoded(csc, csc.rowIdxs[k], j) == csc.vals[k]
  {
    assert ColumnSlice(m, j, Limit(rows, upper, j), csc.vals, csc.rowIdxs, csc.colIdxs[j], csc.colIdxs[j + 1]);
    assert EntryAt(csc, csc.rowIdxs[k], j, k);
  }

  /** The three vectors in full. */
  lemma EncodingExact(m: Matrix, rows: nat, cols: nat, upper: bool, csc: Csc, j: nat)
    requires Encodes(m, rows, cols, upper, csc) && j < cols
    ensures |csc.colIdxs| == cols + 1 && csc.colIdxs[0] == 0 && |csc.vals| == |csc.rowIdxs| == csc.colIdxs[cols]
    ensures 0 <= csc.colIdxs[j] <= csc.colIdxs[j + 1] <= |csc.vals|
    ensures forall k :: csc.colIdxs[j] <= k < csc.colIdxs[j + 1] ==>
      var i := csc.rowIdxs[k];
      && 0 <= i < rows && (upper ==> i <= j) && csc.vals[k] == m[i][j]
      && !(-0.000000001 < csc.vals[k] < 0.000000001)
      && (k + 1 < csc.colIdxs[j + 1] ==> i < csc.rowIdxs[k + 1])
    ensures forall i :: 0 <= i < rows && !(-0.000000001 < m[i][j] < 0.000000001) && (upper ==> i <= j) ==>
      exists k :: csc.colIdxs[j] <= k < csc.colIdxs[j + 1] && csc.rowIdxs[k] == i
  {
    assert ColumnSlice(m, j, Limit(rows, upper, j), csc.vals, csc.rowIdxs, csc.colIdxs[j], csc.colIdxs[j + 1]);
    forall i | 0 <= i < rows && !(-0.000000001 < m[i][j] < 0.000000001) && (upper ==> i <= j)
      ensures exists k :: csc.colIdxs[j] <= k < csc.colIdxs[j + 1] && csc.rowIdxs[k] == i
    {
      assert Abs(Cell(m, i, j)) >= THRESHOLD;
      assert Listed(csc.rowIdxs, csc.colIdxs[j], csc.colIdxs[j + 1], i);
    }
  }

  /** Reading the encoding back gives the thresholded matrix, or its upper triangle. */
  lemma RoundTrip(m: Matrix, rows: nat, cols: nat, upper: bool, csc: Csc, i: int, j: int)
    requires Encodes(m, rows, cols, upper, csc) && 0 <= i < rows && 0 <= j < cols
    ensures Decoded(csc, i, j) == if upper && i > j then 0.0 else Thresholded(m, i, j)
    ensures Decoded(csc, i, j) ==
            if (upper && i > j) || -0.000000001 < m[i][j] < 0.000000001 then 0.0 else m[i][j]
  {
    var limit := Limit(rows, upper, j);
    assert ColumnSlice(m, j, limit, csc.vals, csc.rowIdxs, csc.colIdxs[j], csc.colIdxs[j + 1]);
    if i < limit && Abs(m[i][j]) >= THRESHOLD {
      assert Listed(csc.rowIdxs, csc.colIdxs[j], csc.colIdxs[j + 1], i);
      var k :| csc.colIdxs[j] <= k < csc.colIdxs[j + 1] && csc.rowIdxs[k] == i;
      assert EntryAt(csc, i, j, k);
    }
  }

  // ---- the quadratic form ----------------------------------------------------------------------

  /** What column j of an upper triangle stands for: its diagonal entry, and each other entry twice. */
  ghost function UpperColumn(p: (int, int) -> real, x: int -> real, j: int): real
    requires j >= 0
  {
    Term(p, x, j, j) + 2.0 * Sum(i => Term(p, x, i, j), j)
  }

  /** The form read off an upper triangle. */
  ghost function UpperQuadratic(p: (int, int) -> real, x: int -> real, n: nat): real {
    if n == 0 then 0.0 else UpperQuadratic(p, x, n - 1) + UpperColumn(p, x, n - 1)
  }

  /** For a symmetric matrix the upper triangle determines the quadratic form. */
  lemma {:induction false} SymmetricForm(p: (int, int) -> real, x: int -> real, n: nat)
    requires forall i, j :: 0 <= i < n && 0 <= j < n ==> p(i, j) == p(j, i)
    ensures Quadratic(p, x, n) == UpperQuadratic(p, x, n)
  {
    if n > 0 {
      var m := n - 1;
      SymmetricForm(p, x, m);
      TermSymmetric(p, x, n);
      hide Term;
      var inner := (i: int) => FormRow(p, x, i, m);
      var last := (i: int) => Term(p, x, i, m);
      SumAdd(inner, last, m);
      SumEq(i => FormRow(p, x, i, n), i => inner(i) + last(i), m);
      SumEq(j => Term(p, x, m, j), last, m);
    }
  }

  /**
   * What a solver reads off the trapezoidal encoding of a symmetric matrix is the quadratic form of
   * the thresholded matrix.
   */
  lemma TrapezoidalForm(m: Matrix, n: nat, csc: Csc, x: int -> real)
    requires Encodes(m, n, n, true, csc)
    requires forall i, j :: 0 <= i < n && 0 <= j < n ==> m[i][j] == m[j][i]
    ensures var read := (i: int, j: int) => if 0 <= i < n && 0 <= j < n then Decoded(csc, i, j) else 0.0;
            UpperQuadratic(read, x, n) == Quadratic((i: int, j: int) => Thresholded(m, i, j), x, n)
  {
    var read := (i: int, j: int) => if 0 <= i < n && 0 <= j < n then Decoded(csc, i, j) else 0.0;
    var full := (i: int, j: int) => Thresholded(m, i, j);
    SymmetricForm(full, x, n);
    forall i, j | 0 <= i <= j < n ensures read(i, j) == full(i, j) { RoundTrip(m, n, n, true, csc, i, j); }
    SameUpper(read, full, x, n);
  }

  lemma {:induction false} SameUpper(p: (int, int) -> real, q: (int, int) -> real, x: int -> real, n: nat)
    requires forall i, j :: 0 <= i <= j < n ==> p(i, j) == q(i, j)
    ensures UpperQuadratic(p, x, n) == UpperQuadratic(q, x, n)
  {
    hide Term;
    if n > 0 {
      SameUpper(p, q, x, n - 1);
      var last := n - 1;
      forall i | 0 <= i < n ensures Term(p, x, i, last) == Term(q, x, i, last) { SameTerm(p, q, x, i, last); }
      SumEq(i => Term(p, x, i, n - 1), i => Term(q, x, i, n - 1), n - 1);
    }
  }

  lemma SameTerm(p: (int, int) -> real, q: (int, int) -> real, x: int -> real, i: int, j: int)
    requires p(i, j) == q(i, j)
    ensures Term(p, x, i, j) == Term(q, x, i, j)
  {
  }
}
