/**
 * `parcel::maths::Matrix<int>` (`matrixi`): a `rows` by `columns` grid of
 * ints held as a vector of columns, so `elements[c][r]` is the element in
 * row `r` and column `c`. The structural operations only: construction,
 * identity, flattening to an array, transpose, the element-wise and matrix
 * products, equality and the cofactor determinant.
 */
module Matrices {
  import opened Base

  /** A vector of columns. */
  type Grid = seq<seq<int>>

  /** `columns` columns of `rows` elements each. */
  predicate Shaped(g: Grid, rows: nat, columns: nat)
  {
    |g| == columns && forall c :: 0 <= c < columns ==> |g[c]| == rows
  }

  /** The value-initialised columns of a freshly constructed matrix. */
  function ZeroGrid(rows: nat, columns: nat): (g: Grid)
    ensures Shaped(g, rows, columns)
    ensures forall c, r :: 0 <= c < columns && 0 <= r < rows ==> g[c][r] == 0
  {
    seq(columns, c => seq(rows, r => 0))
  }

  function IdentityGrid(n: nat): (g: Grid)
    ensures Shaped(g, n, n)
  {
    seq(n, c => seq(n, r => if r == c then 1 else 0))
  }

  /** Element by element `a + b`, or `a - b` when `minus` is set. */
  function Combined(a: Grid, b: Grid, rows: nat, columns: nat, minus: bool): (g: Grid)
    requires Shaped(a, rows, columns) && Shaped(b, rows, columns)
    ensures Shaped(g, rows, columns)
  {
    seq(columns, c requires 0 <= c < columns =>
      seq(rows, r requires 0 <= r < rows => if minus then a[c][r] - b[c][r] else a[c][r] + b[c][r]))
  }

  /** Every element times `k`. */
  function Scaled(a: Grid, rows: nat, columns: nat, k: int): (g: Grid)
    requires Shaped(a, rows, columns)
    ensures Shaped(g, rows, columns)
  {
    seq(columns, c requires 0 <= c < columns => seq(rows, r requires 0 <= r < rows => a[c][r] * k))
  }

  /** The first `n` terms of row `r` of `a` times column `c` of `b`: the sum of `a(r, k) * b(k, c)`. */
  function Dot(a: Grid, b: Grid, rows: nat, inner: nat, columns: nat, r: nat, c: nat, n: nat): int
    requires Shaped(a, rows, inner) && Shaped(b, inner, columns)
    requires r < rows && c < columns && n <= inner
  {
    if n == 0 then 0 else Dot(a, b, rows, inner, columns, r, c, n - 1) + a[n - 1][r] * b[c][n - 1]
  }

  /** The `rows` by `columns` product of a `rows` by `inner` and an `inner` by `columns` grid. */
  function Product(a: Grid, b: Grid, rows: nat, inner: nat, columns: nat): (g: Grid)
    requires Shaped(a, rows, inner) && Shaped(b, inner, columns)
    ensures Shaped(g, rows, columns)
  {
    seq(columns, c requires 0 <= c < columns =>
      seq(rows, r requires 0 <= r < rows => Dot(a, b, rows, inner, columns, r, c, inner)))
  }

  /** The `columns` by `rows` grid with `t(c, r) == g(r, c)`. */
  function Transposed(g: Grid, rows: nat, columns: nat): (t: Grid)
    requires Shaped(g, rows, columns)
    ensures Shaped(t, columns, rows)
  {
    seq(rows, i requires 0 <= i < rows => seq(columns, j requires 0 <= j < columns => g[j][i]))
  }

  /** Position `k` of a flat array of a grid `columns` wide lies in row `k / columns`, column `k % columns`. */
  lemma {:induction false} CellOf(k: nat, rows: nat, columns: nat)
    requires k < rows * columns
    ensures columns > 0 && k % columns < columns && k / columns < rows
  {
    assert rows * columns == columns * rows;
    CellBelow(k, columns, rows);
  }

  /** The data array of `Matrix(nr, nc, data)` and `ToArray`: element `(r, c)` at `c + columns * r`. */
  function Flatten(g: Grid, rows: nat, columns: nat): (a: seq<int>)
    requires Shaped(g, rows, columns)
    ensures |a| == rows * columns
  {
    seq(rows * columns, k requires 0 <= k < rows * columns =>
      CellOf(k, rows, columns); g[k % columns][k / columns])
  }

  /** The grid the data constructor reads from a flat array. */
  function Unflatten(data: seq<int>, rows: nat, columns: nat): (g: Grid)
    requires rows * columns <= |data|
    ensures Shaped(g, rows, columns)
  {
    seq(columns, i requires 0 <= i < columns =>
      seq(rows, j requires 0 <= j < rows => IdxBound(j, i, columns, rows); data[Idx(j, i, columns)]))
  }

  /** Element `(r, c)` of a grid sits at `Idx(r, c, columns)` of its flat array. */
  lemma {:induction false} FlattenAt(g: Grid, rows: nat, columns: nat, r: nat, c: nat)
    requires Shaped(g, rows, columns) && r < rows && c < columns
    ensures Idx(r, c, columns) < rows * columns
    ensures Flatten(g, rows, columns)[Idx(r, c, columns)] == g[c][r]
  {
    IdxBound(r, c, columns, rows);
    IdxUnique(r, c, columns);
  }

  /** Reading back what `ToArray` wrote gives the matrix again. */
  lemma {:induction false} UnflattenFlatten(g: Grid, rows: nat, columns: nat)
    requires Shaped(g, rows, columns)
    ensures Unflatten(Flatten(g, rows, columns), rows, columns) == g
  {
    var h := Unflatten(Flatten(g, rows, columns), rows, columns);
    forall c | 0 <= c < columns
      ensures h[c] == g[c]
    {
      forall r | 0 <= r < rows
        ensures h[c][r] == g[c][r]
      {
        FlattenAt(g, rows, columns, r, c);
      }
    }
  }

  /** `ToArray` of `Matrix(nr, nc, data)` gives back the first `nr * nc` values of `data`. */
  lemma {:induction false} FlattenUnflatten(data: seq<int>, rows: nat, columns: nat)
    requires rows * columns <= |data|
    ensures Flatten(Unflatten(data, rows, columns), rows, columns) == data[..rows * columns]
  {
    var a := Flatten(Unflatten(data, rows, columns), rows, columns);
    forall k | 0 <= k < rows * columns
      ensures a[k] == data[k]
    {
      CellOf(k, rows, columns);
      IdxSplit(k, columns);
    }
  }

  /** Transposing twice gives the grid back. */
  lemma {:induction false} TransposeTwice(g: Grid, rows: nat, columns: nat)
    requires Shaped(g, rows, columns)
    ensures Transposed(Transposed(g, rows, columns), columns, rows) == g
  {
    var t := Transposed(Transposed(g, rows, columns), columns, rows);
    forall c | 0 <= c < columns
      ensures t[c] == g[c]
    {
    }
  }

  /** Subtracting what was added gives the first operand back. */
  lemma {:induction false} CombinedCancel(a: Grid, b: Grid, rows: nat, columns: nat)
    requires Shaped(a, rows, columns) && Shaped(b, rows, columns)
    ensures Combined(Combined(a, b, rows, columns, false), b, rows, columns, true) == a
  {
    var s := Combined(Combined(a, b, rows, columns, false), b, rows, columns, true);
    forall c | 0 <= c < columns
      ensures s[c] == a[c]
    {
    }
  }

  /** Multiplying by the identity on the left changes nothing. */
  lemma {:induction false} DotIdentityLeft(b: Grid, rows: nat, columns: nat, r: nat, c: nat, n: nat)
    requires Shaped(b, rows, columns) && r < rows && c < columns && n <= rows
    ensures Dot(IdentityGrid(rows), b, rows, rows, columns, r, c, n) == if r < n then b[c][r] else 0
  {
    if n > 0 {
      DotIdentityLeft(b, rows, columns, r, c, n - 1);
    }
  }

  lemma {:induction false} ProductIdentityLeft(b: Grid, rows: nat, columns: nat)
    requires Shaped(b, rows, columns)
    ensures Product(IdentityGrid(rows), b, rows, rows, columns) == b
  {
    var p := Product(IdentityGrid(rows), b, rows, rows, columns);
    forall c | 0 <= c < columns
      ensures p[c] == b[c]
    {
      forall r | 0 <= r < rows
        ensures p[c][r] == b[c][r]
      {
        DotIdentityLeft(b, rows, columns, r, c, rows);
      }
    }
  }

  /** Multiplying by the identity on the right changes nothing. */
  lemma {:induction false} DotIdentityRight(a: Grid, rows: nat, columns: nat, r: nat, c: nat, n: nat)
    requires Shaped(a, rows, columns) && r < rows && c < columns && n <= columns
    ensures Dot(a, IdentityGrid(columns), rows, columns, columns, r, c, n) == if c < n then a[c][r] else 0
  {
    if n > 0 {
      DotIdentityRight(a, rows, columns, r, c, n - 1);
    }
  }

  lemma {:induction false} ProductIdentityRight(a: Grid, rows: nat, columns: nat)
    requires Shaped(a, rows, columns)
    ensures Product(a, IdentityGrid(columns), rows, columns, columns) == a
  {
    var p := Product(a, IdentityGrid(columns), rows, columns, columns);
    forall c | 0 <= c < columns
      ensures p[c] == a[c]
    {
      forall r | 0 <= r < rows
        ensures p[c][r] == a[c][r]
      {
        DotIdentityRight(a, rows, columns, r, c, columns);
      }
    }
  }

  /** A square grid without column `c` and without its top row. */
  function Minor(g: Grid, n: nat, c: nat): (m: Grid)
    requires Shaped(g, n, n) && c < n
    ensures Shaped(m, n - 1, n - 1)
  {
    seq(n - 1, k requires 0 <= k < n - 1 => (if k < c then g[k] else g[k + 1])[1..])
  }

  /**
   * `Determinant`: 0 unless square and at least 2 by 2, `ad - bc` for 2 by
   * 2, and otherwise the expansion along the top row.
   */
  function Det(g: Grid, rows: nat, columns: nat): int
    requires Shaped(g, rows, columns)
    decreases rows, 1
  {
    if rows != columns || rows < 2 then 0
    else if rows == 2 then g[0][0] * g[1][1] - g[1][0] * g[0][1]
    else Expansion(g, rows, rows)
  }

  /** The first `i` terms of the expansion along the top row, added and subtracted in turn. */
  function Expansion(g: Grid, n: nat, i: nat): int
    requires n >= 3 && Shaped(g, n, n) && i <= n
    decreases n, 0, i
  {
    if i == 0 then 0
    else
      var term := g[i - 1][0] * Det(Minor(g, n, i - 1), n - 1, n - 1);
      if (i - 1) % 2 == 1 then Expansion(g, n, i - 1) - term else Expansion(g, n, i - 1) + term
  }

  /**
   * The determinant loop: 0 unless square and at least 2 by 2, `ad - bc`
   * for 2 by 2, and otherwise each top-row element times the determinant
   * of its minor, added and subtracted in turn. The minor is the copy with
   * column `i` erased and the top row erased from every column left.
   */
  method DeterminantOf(g: Grid, rows: nat, columns: nat) returns (d: int)
    requires Shaped(g, rows, columns)
    ensures d == Det(g, rows, columns)
    decreases rows
  {
    d := 0;
    if rows != columns || rows < 2 {
      return;
    } else if rows == 2 {
      d := g[0][0] * g[1][1] - g[1][0] * g[0][1];
    } else {
      for i := 0 to columns
        invariant d == Expansion(g, rows, i)
      {
        var minor := Minor(g, rows, i);
        var m := DeterminantOf(minor, rows - 1, rows - 1);
        if i % 2 == 1 {
          d := d - g[i][0] * m;
        } else {
          d := d + g[i][0] * m;
        }
      }
    }
  }

  /** Removing the first column and the top row of an identity leaves a smaller identity. */
  lemma {:induction false} MinorIdentity(n: nat)
    requires n >= 1
    ensures Minor(IdentityGrid(n), n, 0) == IdentityGrid(n - 1)
  {
    var m := Minor(IdentityGrid(n), n, 0);
    forall k | 0 <= k < n - 1
      ensures m[k] == IdentityGrid(n - 1)[k]
    {
    }
  }

  lemma {:induction false} ExpansionIdentity(n: nat, i: nat)
    requires n >= 3 && 1 <= i <= n
    ensures Expansion(IdentityGrid(n), n, i) == Det(IdentityGrid(n - 1), n - 1, n - 1)
  {
    var g := IdentityGrid(n);
    if i == 1 {
      MinorIdentity(n);
    } else {
      ExpansionIdentity(n, i - 1);
      assert g[i - 1][0] == 0;
    }
  }

  /** The identity's determinant is 1 for every size the determinant expands. */
  lemma {:induction false} DetIdentity(n: nat)
    requires n >= 2
    ensures Det(IdentityGrid(n), n, n) == 1
  {
    if n > 2 {
      ExpansionIdentity(n, n);
      DetIdentity(n - 1);
    }
  }

  lemma {:induction false} ExpansionZeroTopRow(g: Grid, n: nat, i: nat)
    requires n >= 3 && Shaped(g, n, n) && i <= n
    requires forall c :: 0 <= c < n ==> g[c][0] == 0
    ensures Expansion(g, n, i) == 0
  {
    if i > 0 {
      ExpansionZeroTopRow(g, n, i - 1);
    }
  }

  /** A zero top row makes the determinant 0. */
  lemma {:induction false} DetZeroTopRow(g: Grid, n: nat)
    requires Shaped(g, n, n) && n >= 1
    requires forall c :: 0 <= c < n ==> g[c][0] == 0
    ensures Det(g, n, n) == 0
  {
    if n > 2 {
      ExpansionZeroTopRow(g, n, n);
    }
  }

  /**
   * Column-by-column filling: the cells before row `j` of column `i`, and
   * all cells of earlier columns, hold `target`; the rest still hold `base`.
   */
  ghost function ColumnFill(target: Grid, base: Grid, rows: nat, columns: nat, i: nat, j: nat): (g: Grid)
    requires Shaped(target, rows, columns) && Shaped(base, rows, columns)
    ensures Shaped(g, rows, columns)
  {
    seq(columns, c requires 0 <= c < columns =>
      seq(rows, r requires 0 <= r < rows => if c < i || (c == i && r < j) then target[c][r] else base[c][r]))
  }

  lemma {:induction false} ColumnFillStep(target: Grid, base: Grid, rows: nat, columns: nat, i: nat, j: nat)
    requires Shaped(target, rows, columns) && Shaped(base, rows, columns) && i < columns && j < rows
    ensures var g := ColumnFill(target, base, rows, columns, i, j);
            g[i := g[i][j := target[i][j]]] == ColumnFill(target, base, rows, columns, i, j + 1)
  {
    var g := ColumnFill(target, base, rows, columns, i, j);
    var h := ColumnFill(target, base, rows, columns, i, j + 1);
    assert g[i][j := target[i][j]] == h[i];
    assert forall c :: 0 <= c < columns && c != i ==> g[c] == h[c];
  }

  lemma {:induction false} ColumnFillEnds(target: Grid, base: Grid, rows: nat, columns: nat)
    requires Shaped(target, rows, columns) && Shaped(base, rows, columns)
    ensures ColumnFill(target, base, rows, columns, 0, 0) == base
    ensures ColumnFill(target, base, rows, columns, columns, 0) == target
    ensures forall i :: 0 <= i < columns ==>
              ColumnFill(target, base, rows, columns, i, rows) == ColumnFill(target, base, rows, columns, i + 1, 0)
  {
    var g := ColumnFill(target, base, rows, columns, 0, 0);
    assert forall c :: 0 <= c < columns ==> g[c] == base[c];
    var h := ColumnFill(target, base, rows, columns, columns, 0);
    assert forall c :: 0 <= c < columns ==> h[c] == target[c];
    forall i | 0 <= i < columns
      ensures ColumnFill(target, base, rows, columns, i, rows) == ColumnFill(target, base, rows, columns, i + 1, 0)
    {
      var p := ColumnFill(target, base, rows, columns, i, rows);
      var q := ColumnFill(target, base, rows, columns, i + 1, 0);
      assert forall c :: 0 <= c < columns ==> p[c] == q[c];
    }
  }

  /**
   * Row-by-row filling, as the product loops go: the cells before column
   * `j` of row `i`, and all cells of earlier rows, hold `target`.
   */
  ghost function RowFill(target: Grid, base: Grid, rows: nat, columns: nat, i: nat, j: nat): (g: Grid)
    requires Shaped(target, rows, columns) && Shaped(base, rows, columns)
    ensures Shaped(g, rows, columns)
  {
    seq(columns, c requires 0 <= c < columns =>
      seq(rows, r requires 0 <= r < rows => if r < i || (r == i && c < j) then target[c][r] else base[c][r]))
  }

  lemma {:induction false} RowFillStep(target: Grid, base: Grid, rows: nat, columns: nat, i: nat, j: nat)
    requires Shaped(target, rows, columns) && Shaped(base, rows, columns) && i < rows && j < columns
    ensures var g := RowFill(target, base, rows, columns, i, j);
            g[j := g[j][i := target[j][i]]] == RowFill(target, base, rows, columns, i, j + 1)
  {
    var g := RowFill(target, base, rows, columns, i, j);
    var h := RowFill(target, base, rows, columns, i, j + 1);
    assert g[j][i := target[j][i]] == h[j];
    assert forall c :: 0 <= c < columns && c != j ==> g[c] == h[c];
  }

  lemma {:induction false} RowFillEnds(target: Grid, base: Grid, rows: nat, columns: nat)
    requires Shaped(target, rows, columns) && Shaped(base, rows, columns)
    ensures RowFill(target, base, rows, columns, 0, 0) == base
    ensures RowFill(target, base, rows, columns, rows, 0) == target
    ensures forall i :: 0 <= i < rows ==>
              RowFill(target, base, rows, columns, i, columns) == RowFill(target, base, rows, columns, i + 1, 0)
  {
    var g := RowFill(target, base, rows, columns, 0, 0);
    assert forall c :: 0 <= c < columns ==> g[c] == base[c];
    var h := RowFill(target, base, rows, columns, rows, 0);
    assert forall c :: 0 <= c < columns ==> h[c] == target[c];
    forall i | 0 <= i < rows
      ensures RowFill(target, base, rows, columns, i, columns) == RowFill(target, base, rows, columns, i + 1, 0)
    {
      var p := RowFill(target, base, rows, columns, i, columns);
      var q := RowFill(target, base, rows, columns, i + 1, 0);
      assert forall c :: 0 <= c < columns ==> p[c] == q[c];
    }
  }

  /**
   * `ToArray`'s column-by-column walk over a flat array: positions whose
   * cell comes before row `j` of column `i`, or lies in an earlier column,
   * hold the grid's element; the rest hold `before`.
   */
  ghost function FlatFill(g: Grid, before: seq<int>, rows: nat, columns: nat, i: nat, j: nat): (a: seq<int>)
    requires Shaped(g, rows, columns) && |before| == rows * columns
    ensures |a| == rows * columns
  {
    seq(rows * columns, k requires 0 <= k < rows * columns =>
      CellOf(k, rows, columns);
      if k % columns < i || (k % columns == i && k / columns < j) then g[k % columns][k / columns] else before[k])
  }

  lemma {:induction false} FlatFillStep(g: Grid, before: seq<int>, rows: nat, columns: nat, i: nat, j: nat)
    requires Shaped(g, rows, columns) && |before| == rows * columns && i < columns && j < rows
    ensures Idx(j, i, columns) < rows * columns
    ensures FlatFill(g, before, rows, columns, i, j)[Idx(j, i, columns) := g[i][j]]
            == FlatFill(g, before, rows, columns, i, j + 1)
  {
    var p := Idx(j, i, columns);
    IdxBound(j, i, columns, rows);
    IdxUnique(j, i, columns);
    var x := FlatFill(g, before, rows, columns, i, j)[p := g[i][j]];
    var y := FlatFill(g, before, rows, columns, i, j + 1);
    forall k | 0 <= k < rows * columns
      ensures x[k] == y[k]
    {
      CellOf(k, rows, columns);
      IdxSplit(k, columns);
    }
  }

  lemma {:induction false} FlatFillEnds(g: Grid, before: seq<int>, rows: nat, columns: nat)
    requires Shaped(g, rows, columns) && |before| == rows * columns
    ensures FlatFill(g, before, rows, columns, 0, 0) == before
    ensures FlatFill(g, before, rows, columns, columns, 0) == Flatten(g, rows, columns)
  {
    var start := FlatFill(g, before, rows, columns, 0, 0);
    assert forall k :: 0 <= k < rows * columns ==> start[k] == before[k];
    var end := FlatFill(g, before, rows, columns, columns, 0);
    forall k | 0 <= k < rows * columns
      ensures end[k] == Flatten(g, rows, columns)[k]
    {
      CellOf(k, rows, columns);
    }
  }

  lemma {:induction false} FlatFillNext(g: Grid, before: seq<int>, rows: nat, columns: nat, i: nat)
    requires Shaped(g, rows, columns) && |before| == rows * columns && i < columns
    ensures FlatFill(g, before, rows, columns, i, rows) == FlatFill(g, before, rows, columns, i + 1, 0)
  {
    var x := FlatFill(g, before, rows, columns, i, rows);
    var y := FlatFill(g, before, rows, columns, i + 1, 0);
    forall k | 0 <= k < rows * columns
      ensures x[k] == y[k]
    {
      CellOf(k, rows, columns);
    }
  }

  class Matrix {
    var rows: nat
    var columns: nat
    var elements: Grid

    ghost predicate Valid()
      reads this
    {
      Shaped(elements, rows, columns)
    }

    /** Element `(r, c)`: `operator()` and `Element`. */
    function At(r: nat, c: nat): int
      reads this
      requires Valid() && r < rows && c < columns
    {
      elements[c][r]
    }

    /** `Matrix(nr, nc)`: `nc` columns of `nr` zeros. */
    constructor (nr: nat, nc: nat)
      ensures Valid() && rows == nr && columns == nc && elements == ZeroGrid(nr, nc)
    {
      rows, columns := nr, nc;
      elements := ZeroGrid(nr, nc);
    }

    /** `Matrix()`: 3 by 3 zeros. */
    constructor Default()
      ensures Valid() && rows == 3 && columns == 3 && elements == ZeroGrid(3, 3)
    {
      rows, columns := 3, 3;
      elements := ZeroGrid(3, 3);
    }

    /** `Matrix(n)`: `n` by `n` zeros. */
    constructor Square(n: nat)
      ensures Valid() && rows == n && columns == n && elements == ZeroGrid(n, n)
    {
      rows, columns := n, n;
      elements := ZeroGrid(n, n);
    }

    /** `Matrix(nr, nc, data)`: element `(j, i)` is `data[i + nc * j]`. */
    constructor FromData(nr: nat, nc: nat, data: seq<int>)
      requires nr * nc <= |data|
      ensures Valid() && rows == nr && columns == nc && elements == Unflatten(data, nr, nc)
    {
      rows, columns := nr, nc;
      var g: Grid := [];
      for i := 0 to nc
        invariant g == Unflatten(data, nr, nc)[..i]
      {
        var column: seq<int> := [];
        for j := 0 to nr
          invariant column == Unflatten(data, nr, nc)[i][..j]
        {
          IdxBound(j, i, nc, nr);
          column := column + [data[Idx(j, i, nc)]];
        }
        assert column == Unflatten(data, nr, nc)[i];
        g := g + [column];
      }
      elements := g;
    }

    /** The copy constructor. */
    constructor Copy(m: Matrix)
      requires m.Valid()
      ensures Valid() && rows == m.rows && columns == m.columns && elements == m.elements
    {
      rows, columns, elements := m.rows, m.columns, m.elements;
    }

    /** `Determinant()`: the top-row expansion of the elements. */
    method Determinant() returns (d: int)
      requires Valid()
      ensures d == Det(elements, rows, columns)
    {
      d := DeterminantOf(elements, rows, columns);
    }

    /** `SetElement(r, c, v)`: only element `(r, c)` changes. */
    method SetElement(r: nat, c: nat, v: int)
      requires Valid() && r < rows && c < columns
      modifies this`elements
      ensures Valid() && At(r, c) == v
      ensures elements == old(elements)[c := old(elements)[c][r := v]]
    {
      elements := elements[c := elements[c][r := v]];
    }

    /** `ToArray(array)`: element `(r, c)` goes to `array[c + columns * r]`; the rest of the array is left alone. */
    method ToArrayInto(a: array<int>)
      requires Valid() && rows * columns <= a.Length
      modifies a
      ensures a[..rows * columns] == Flatten(elements, rows, columns)
      ensures a[rows * columns..] == old(a[rows * columns..])
    {
      var n := rows * columns;
      ghost var before := a[..n];
      FlatFillEnds(elements, before, rows, columns);
      for i := 0 to columns
        invariant a[..n] == FlatFill(elements, before, rows, columns, i, 0)
        invariant a[n..] == old(a[n..])
      {
        for j := 0 to rows
          invariant a[..n] == FlatFill(elements, before, rows, columns, i, j)
          invariant a[n..] == old(a[n..])
        {
          FlatFillStep(elements, before, rows, columns, i, j);
          a[Idx(j, i, columns)] := elements[i][j];
        }
        FlatFillNext(elements, before, rows, columns, i);
      }
    }

    /** `ToArray()`: a new array of `rows * columns` elements. */
    method ToArray() returns (a: array<int>)
      requires Valid()
      ensures fresh(a) && a[..] == Flatten(elements, rows, columns)
    {
      a := new int[rows * columns];
      ToArrayInto(a);
    }

    /** `Transpose`: a new `columns` by `rows` matrix with element `(c, r)` equal to this one's `(r, c)`. */
    method Transpose() returns (t: Matrix)
      requires Valid()
      ensures fresh(t) && t.Valid()
      ensures t.rows == columns && t.columns == rows
      ensures t.elements == Transposed(elements, rows, columns)
      ensures forall r, c :: 0 <= r < rows && 0 <= c < columns ==> t.At(c, r) == At(r, c)
    {
      t := new Matrix(columns, rows);
      ghost var target := Transposed(elements, rows, columns);
      ghost var base := ZeroGrid(columns, rows);
      ColumnFillEnds(target, base, columns, rows);
      for i := 0 to t.columns
        invariant t.rows == columns && t.columns == rows
        invariant t.elements == ColumnFill(target, base, columns, rows, i, 0)
      {
        TransposeColumn(t, i, target, base);
      }
    }

    /** The inner loop of `Transpose`: column `i` of `t` gets row `i` of this matrix. */
    method TransposeColumn(t: Matrix, i: nat, ghost target: Grid, ghost base: Grid)
      requires Valid() && t != this
      requires target == Transposed(elements, rows, columns) && base == ZeroGrid(columns, rows)
      requires t.rows == columns && t.columns == rows && i < rows
      requires t.elements == ColumnFill(target, base, columns, rows, i, 0)
      modifies t
      ensures t.rows == columns && t.columns == rows
      ensures t.elements == ColumnFill(target, base, columns, rows, i + 1, 0)
    {
      for j := 0 to t.rows
        invariant t.rows == columns && t.columns == rows
        invariant t.elements == ColumnFill(target, base, columns, rows, i, j)
      {
        ColumnFillStep(target, base, columns, rows, i, j);
        t.elements := t.elements[i := t.elements[i][j := elements[j][i]]];
      }
      ColumnFillEnds(target, base, columns, rows);
    }

    /** `*=` by a matrix: the product, or no change when the columns do not match `m`'s rows. */
    method MulAssign(m: Matrix)
      requires Valid() && m.Valid()
      modifies this
      ensures Valid()
      ensures old(columns) != old(m.rows) ==> rows == old(rows) && columns == old(columns) && elements == old(elements)
      ensures old(columns) == old(m.rows) ==>
                && rows == old(rows) && columns == old(m.columns)
                && elements == Product(old(elements), old(m.elements), old(rows), old(columns), old(m.columns))
    {
      if columns != m.rows {
        return;
      }
      var m2 := new Matrix(rows, m.columns);
      FillProduct(m2, elements, m.elements, rows, columns, m.columns);
      elements := m2.elements;
      rows, columns := m2.rows, m2.columns;
    }

    /** `*=` by a scalar: every element multiplied by `k`. */
    method ScaleAssign(k: int)
      requires Valid()
      modifies this`elements
      ensures Valid() && elements == Scaled(old(elements), rows, columns, k)
    {
      ghost var base := elements;
      ghost var target := Scaled(base, rows, columns, k);
      ColumnFillEnds(target, base, rows, columns);
      for i := 0 to columns
        invariant elements == ColumnFill(target, base, rows, columns, i, 0)
      {
        for j := 0 to rows
          invariant elements == ColumnFill(target, base, rows, columns, i, j)
        {
          ColumnFillStep(target, base, rows, columns, i, j);
          elements := elements[i := elements[i][j := elements[i][j] * k]];
        }
      }
    }

    /** `+=`: element-wise sum when the dimensions agree, no change otherwise. */
    method AddAssign(m: Matrix)
      requires Valid() && m.Valid()
      modifies this`elements
      ensures Valid()
      ensures elements == if rows == m.rows && columns == m.columns
                          then Combined(old(elements), old(m.elements), rows, columns, false) else old(elements)
    {
      if rows == m.rows && columns == m.columns {
        FillCombined(this, elements, m.elements, false);
      }
    }

    /** `-=`: element-wise difference when the dimensions agree, no change otherwise. */
    method SubAssign(m: Matrix)
      requires Valid() && m.Valid()
      modifies this`elements
      ensures Valid()
      ensures elements == if rows == m.rows && columns == m.columns
                          then Combined(old(elements), old(m.elements), rows, columns, true) else old(elements)
    {
      if rows == m.rows && columns == m.columns {
        FillCombined(this, elements, m.elements, true);
      }
    }

    /** `==`: same dimensions and every element equal. */
    method Equals(m: Matrix) returns (eq: bool)
      requires Valid() && m.Valid()
      ensures eq <==> rows == m.rows && columns == m.columns && elements == m.elements
    {
      if rows != m.rows || columns != m.columns {
        return false;
      }
      for i := 0 to columns
        invariant forall c :: 0 <= c < i ==> elements[c] == m.elements[c]
      {
        for j := 0 to rows
          invariant elements[i][..j] == m.elements[i][..j]
        {
          if elements[i][j] != m.elements[i][j] {
            return false;
          }
          assert elements[i][..j + 1] == elements[i][..j] + [elements[i][j]];
          assert m.elements[i][..j + 1] == m.elements[i][..j] + [m.elements[i][j]];
        }
        assert elements[i] == elements[i][..rows] && m.elements[i] == m.elements[i][..rows];
      }
      return true;
    }

    /** `!=`: the negation of `==`, dimensions first. */
    method NotEquals(m: Matrix) returns (ne: bool)
      requires Valid() && m.Valid()
      ensures ne <==> !(rows == m.rows && columns == m.columns && elements == m.elements)
    {
      var eq := Equals(m);
      ne := !eq;
    }
  }

  /** `Identity(n)`: `n` by `n`, 1 on the diagonal and 0 elsewhere. */
  method Identity(n: nat) returns (m: Matrix)
    ensures fresh(m) && m.Valid() && m.rows == n && m.columns == n
    ensures m.elements == IdentityGrid(n)
  {
    m := new Matrix.Square(n);
    for i := 0 to n
      invariant m.rows == n && m.columns == n && m.Valid()
      invariant forall c, r :: 0 <= c < n && 0 <= r < n ==> m.elements[c][r] == if c == r && c < i then 1 else 0
    {
      m.elements := m.elements[i := m.elements[i][i := 1]];
    }
    assert forall c :: 0 <= c < n ==> m.elements[c] == IdentityGrid(n)[c];
  }

  /** Friend `+`: `m1`'s dimensions; the element-wise sum, or zeros when the dimensions differ. */
  method Plus(m1: Matrix, m2: Matrix) returns (m3: Matrix)
    requires m1.Valid() && m2.Valid()
    ensures fresh(m3) && m3.Valid() && m3.rows == m1.rows && m3.columns == m1.columns
    ensures m3.elements == if m1.rows == m2.rows && m1.columns == m2.columns
                           then Combined(m1.elements, m2.elements, m1.rows, m1.columns, false)
                           else ZeroGrid(m1.rows, m1.columns)
  {
    m3 := new Matrix(m1.rows, m1.columns);
    if m1.rows == m2.rows && m1.columns == m2.columns {
      FillCombined(m3, m1.elements, m2.elements, false);
    }
  }

  /** Friend `-`: `m1`'s dimensions; the element-wise difference, or zeros when the dimensions differ. */
  method Minus(m1: Matrix, m2: Matrix) returns (m3: Matrix)
    requires m1.Valid() && m2.Valid()
    ensures fresh(m3) && m3.Valid() && m3.rows == m1.rows && m3.columns == m1.columns
    ensures m3.elements == if m1.rows == m2.rows && m1.columns == m2.columns
                           then Combined(m1.elements, m2.elements, m1.rows, m1.columns, true)
                           else ZeroGrid(m1.rows, m1.columns)
  {
    m3 := new Matrix(m1.rows, m1.columns);
    if m1.rows == m2.rows && m1.columns == m2.columns {
      FillCombined(m3, m1.elements, m2.elements, true);
    }
  }

  /** Friend `*`: the `m1.rows` by `m2.columns` product, or a 3 by 3 zero matrix when they do not conform. */
  method Times(m1: Matrix, m2: Matrix) returns (m3: Matrix)
    requires m1.Valid() && m2.Valid()
    ensures fresh(m3) && m3.Valid()
    ensures m1.columns != m2.rows ==> m3.rows == 3 && m3.columns == 3 && m3.elements == ZeroGrid(3, 3)
    ensures m1.columns == m2.rows ==>
              && m3.rows == m1.rows && m3.columns == m2.columns
              && m3.elements == Product(m1.elements, m2.elements, m1.rows, m1.columns, m2.columns)
  {
    if m1.columns != m2.rows {
      m3 := new Matrix(3, 3);
      return;
    }
    m3 := new Matrix(m1.rows, m2.columns);
    FillProduct(m3, m1.elements, m2.elements, m1.rows, m1.columns, m2.columns);
  }

  /** The element-wise loops shared by `+`, `-`, `+=` and `-=`: each cell of `dest` set from `a` and `b`. */
  method FillCombined(dest: Matrix, a: Grid, b: Grid, minus: bool)
    requires dest.Valid() && Shaped(a, dest.rows, dest.columns) && Shaped(b, dest.rows, dest.columns)
    modifies dest`elements
    ensures dest.Valid() && dest.elements == Combined(a, b, dest.rows, dest.columns, minus)
  {
    var rows, columns := dest.rows, dest.columns;
    ghost var base := dest.elements;
    ghost var target := Combined(a, b, rows, columns, minus);
    ColumnFillEnds(target, base, rows, columns);
    for i := 0 to columns
      invariant dest.elements == ColumnFill(target, base, rows, columns, i, 0)
    {
      for j := 0 to rows
        invariant dest.elements == ColumnFill(target, base, rows, columns, i, j)
      {
        ColumnFillStep(target, base, rows, columns, i, j);
        var v := if minus then a[i][j] - b[i][j] else a[i][j] + b[i][j];
        dest.elements := dest.elements[i := dest.elements[i][j := v]];
      }
    }
  }

  /** The product loops shared by `*` and `*=`: row by row, each cell the sum over the inner dimension. */
  method FillProduct(dest: Matrix, a: Grid, b: Grid, rows: nat, inner: nat, columns: nat)
    requires dest.Valid() && dest.rows == rows && dest.columns == columns
    requires Shaped(a, rows, inner) && Shaped(b, inner, columns)
    modifies dest`elements
    ensures dest.Valid() && dest.elements == Product(a, b, rows, inner, columns)
  {
    ghost var base := dest.elements;
    ghost var target := Product(a, b, rows, inner, columns);
    RowFillEnds(target, base, rows, columns);
    for i := 0 to rows
      invariant dest.elements == RowFill(target, base, rows, columns, i, 0)
    {
      for j := 0 to columns
        invariant dest.elements == RowFill(target, base, rows, columns, i, j)
      {
        var sum := 0;
        for k := 0 to inner
          invariant sum == Dot(a, b, rows, inner, columns, i, j, k)
        {
          sum := sum + a[k][i] * b[j][k];
        }
        RowFillStep(target, base, rows, columns, i, j);
        dest.elements := dest.elements[j := dest.elements[j][i := sum]];
      }
    }
  }
}
