/** Real matrices of any size. */
module Matrices {

  datatype Grid = Grid(rows: nat, cols: nat, cells: seq<seq<real>>)

  predicate Rectangular(g: Grid) {
    |g.cells| == g.rows && forall i :: 0 <= i < |g.cells| ==> |g.cells[i]| == g.cols
  }

  type Matrix = g: Grid | Rectangular(g) witness Grid(0, 0, [])

  predicate Shape(m: Matrix, rows: nat, cols: nat) {
    m.rows == rows && m.cols == cols
  }

  function At(m: Matrix, i: nat, j: nat): real {
    if i < m.rows && j < m.cols then m.cells[i][j] else 0.0
  }

  function Build(rows: nat, cols: nat, f: (nat, nat) -> real): (m: Matrix)
    ensures Shape(m, rows, cols)
    ensures forall i: nat, j: nat :: i < rows && j < cols ==> At(m, i, j) == f(i, j)
  {
    Grid(rows, cols, seq(rows, i requires 0 <= i < rows => seq(cols, j requires 0 <= j < cols => f(i, j))))
  }

  lemma SameEntries(a: Matrix, b: Matrix)
    requires Shape(a, b.rows, b.cols)
    requires forall i: nat, j: nat :: i < a.rows && j < a.cols ==> At(a, i, j) == At(b, i, j)
    ensures a == b
  {
    forall i: nat | i < a.rows ensures a.cells[i] == b.cells[i] {
      assert forall j: nat :: j < a.cols ==> a.cells[i][j] == At(a, i, j) && b.cells[i][j] == At(b, i, j);
    }
    assert a.cells == b.cells;
  }

  function Zero(rows: nat, cols: nat): (m: Matrix)
    ensures Shape(m, rows, cols)
  {
    Build(rows, cols, (i: nat, j: nat) => 0.0)
  }

  function Identity(n: nat): (m: Matrix)
    ensures Shape(m, n, n)
  {
    Build(n, n, (i: nat, j: nat) => if i == j then 1.0 else 0.0)
  }

  function Transpose(a: Matrix): (m: Matrix)
    ensures Shape(m, a.cols, a.rows)
  {
    Build(a.cols, a.rows, (i: nat, j: nat) => At(a, j, i))
  }

  function Sum(a: Matrix, b: Matrix): (m: Matrix)
    requires Shape(a, b.rows, b.cols)
    ensures Shape(m, a.rows, a.cols)
  {
    Build(a.rows, a.cols, (i: nat, j: nat) => At(a, i, j) + At(b, i, j))
  }

  function Difference(a: Matrix, b: Matrix): (m: Matrix)
    requires Shape(a, b.rows, b.cols)
    ensures Shape(m, a.rows, a.cols)
  {
    Build(a.rows, a.cols, (i: nat, j: nat) => At(a, i, j) - At(b, i, j))
  }

  /** The first n terms of a row of a times a column of b. */
  function RowTimesColumn(a: Matrix, i: nat, b: Matrix, j: nat, n: nat): real {
    if n == 0 then 0.0 else RowTimesColumn(a, i, b, j, n - 1) + At(a, i, n - 1) * At(b, n - 1, j)
  }

  function Product(a: Matrix, b: Matrix): (m: Matrix)
    requires a.cols == b.rows
    ensures Shape(m, a.rows, b.cols)
  {
    Build(a.rows, b.cols, (i: nat, j: nat) => RowTimesColumn(a, i, b, j, a.cols))
  }

  predicate Symmetric(a: Matrix) {
    Transpose(a) == a
  }

  // -------------------------------------------------------------------------
  // Algebra
  // -------------------------------------------------------------------------

  lemma TransposeTwice(a: Matrix)
    ensures Transpose(Transpose(a)) == a
  {
    SameEntries(Transpose(Transpose(a)), a);
  }

  lemma TransposedRow(a: Matrix, i: nat, b: Matrix, j: nat, n: nat)
    requires i < a.rows && j < b.cols && n <= a.cols == b.rows
    ensures RowTimesColumn(Transpose(b), j, Transpose(a), i, n) == RowTimesColumn(a, i, b, j, n)
  {
  }

  lemma TransposeOfProduct(a: Matrix, b: Matrix)
    requires a.cols == b.rows
    ensures Transpose(Product(a, b)) == Product(Transpose(b), Transpose(a))
  {
    var l, r := Transpose(Product(a, b)), Product(Transpose(b), Transpose(a));
    forall i: nat, j: nat | i < l.rows && j < l.cols ensures At(l, i, j) == At(r, i, j) {
      TransposedRow(a, j, b, i, a.cols);
    }
    SameEntries(l, r);
  }

  lemma IdentityRow(i: nat, b: Matrix, j: nat, n: nat)
    requires n <= b.rows && i < b.rows && j < b.cols
    ensures RowTimesColumn(Identity(b.rows), i, b, j, n) == if i < n then At(b, i, j) else 0.0
  {
  }

  lemma IdentityTimes(b: Matrix)
    ensures Product(Identity(b.rows), b) == b
  {
    var l := Product(Identity(b.rows), b);
    forall i: nat, j: nat | i < b.rows && j < b.cols ensures At(l, i, j) == At(b, i, j) {
      IdentityRow(i, b, j, b.rows);
    }
    SameEntries(l, b);
  }

  lemma TransposeOfIdentity(n: nat)
    ensures Symmetric(Identity(n))
  {
    SameEntries(Transpose(Identity(n)), Identity(n));
  }

  lemma TimesIdentity(b: Matrix)
    ensures Product(b, Identity(b.cols)) == b
  {
    IdentityTimes(Transpose(b));
    TransposeOfProduct(b, Identity(b.cols));
    TransposeOfIdentity(b.cols);
    TransposeTwice(Product(b, Identity(b.cols)));
    TransposeTwice(b);
  }

  lemma ZeroRow(a: Matrix, i: nat, cols: nat, j: nat, n: nat)
    requires i < a.rows && j < cols && n <= a.cols
    ensures RowTimesColumn(a, i, Zero(a.cols, cols), j, n) == 0.0
  {
  }

  lemma TimesZero(a: Matrix, cols: nat)
    ensures Product(a, Zero(a.cols, cols)) == Zero(a.rows, cols)
  {
    var l := Product(a, Zero(a.cols, cols));
    forall i: nat, j: nat | i < a.rows && j < cols ensures At(l, i, j) == 0.0 {
      ZeroRow(a, i, cols, j, a.cols);
    }
    SameEntries(l, Zero(a.rows, cols));
  }

  lemma ZeroTimes(rows: nat, b: Matrix)
    ensures Product(Zero(rows, b.rows), b) == Zero(rows, b.cols)
  {
    TimesZero(Transpose(b), rows);
    TransposeOfProduct(Zero(rows, b.rows), b);
    SameEntries(Transpose(Zero(rows, b.rows)), Zero(b.rows, rows));
    SameEntries(Transpose(Zero(b.cols, rows)), Zero(rows, b.cols));
    TransposeTwice(Product(Zero(rows, b.rows), b));
  }

  lemma {:induction false} SumRow(a: Matrix, i: nat, b: Matrix, c: Matrix, j: nat, n: nat)
    requires Shape(b, c.rows, c.cols) && n <= a.cols == b.rows && i < a.rows && j < b.cols
    ensures RowTimesColumn(a, i, Sum(b, c), j, n) == RowTimesColumn(a, i, b, j, n) + RowTimesColumn(a, i, c, j, n)
    ensures RowTimesColumn(a, i, Difference(b, c), j, n) ==
      RowTimesColumn(a, i, b, j, n) - RowTimesColumn(a, i, c, j, n)
  {
    if n > 0 {
      SumRow(a, i, b, c, j, n - 1);
      Spread(At(a, i, n - 1), At(b, n - 1, j), At(c, n - 1, j));
    }
  }

  lemma Spread(x: real, y: real, z: real)
    ensures x * (y + z) == x * y + x * z && x * (y - z) == x * y - x * z
  {
  }

  lemma TimesSum(a: Matrix, b: Matrix, c: Matrix)
    requires Shape(b, c.rows, c.cols) && a.cols == b.rows
    ensures Product(a, Sum(b, c)) == Sum(Product(a, b), Product(a, c))
    ensures Product(a, Difference(b, c)) == Difference(Product(a, b), Product(a, c))
  {
    forall i: nat, j: nat | i < a.rows && j < b.cols
      ensures At(Product(a, Sum(b, c)), i, j) == At(Sum(Product(a, b), Product(a, c)), i, j)
      ensures At(Product(a, Difference(b, c)), i, j) == At(Difference(Product(a, b), Product(a, c)), i, j)
    {
      SumRow(a, i, b, c, j, a.cols);
    }
    SameEntries(Product(a, Sum(b, c)), Sum(Product(a, b), Product(a, c)));
    SameEntries(Product(a, Difference(b, c)), Difference(Product(a, b), Product(a, c)));
  }

  lemma DifferenceTimes(a: Matrix, b: Matrix, c: Matrix)
    requires Shape(a, b.rows, b.cols) && a.cols == c.rows
    ensures Product(Difference(a, b), c) == Difference(Product(a, c), Product(b, c))
  {
    var d, at, bt, ct := Difference(a, b), Transpose(a), Transpose(b), Transpose(c);
    TransposeOfDifference(a, b);
    TransposeOfProduct(d, c);
    TransposeOfProduct(a, c);
    TransposeOfProduct(b, c);
    TimesSum(ct, at, bt);
    TransposeOfDifference(Product(a, c), Product(b, c));
    TransposeTwice(Product(d, c));
    TransposeTwice(Difference(Product(a, c), Product(b, c)));
  }

  lemma TransposeOfDifference(a: Matrix, b: Matrix)
    requires Shape(a, b.rows, b.cols)
    ensures Transpose(Difference(a, b)) == Difference(Transpose(a), Transpose(b))
  {
    SameEntries(Transpose(Difference(a, b)), Difference(Transpose(a), Transpose(b)));
  }

  /** The first n columns of the first m terms of a row of a times b, times a column of c. */
  function Twice(a: Matrix, i: nat, b: Matrix, m: nat, c: Matrix, j: nat, n: nat): real {
    if n == 0 then 0.0 else Twice(a, i, b, m, c, j, n - 1) + RowTimesColumn(a, i, b, n - 1, m) * At(c, n - 1, j)
  }

  lemma TwiceIsProduct(a: Matrix, i: nat, b: Matrix, c: Matrix, j: nat, n: nat)
    requires i < a.rows && a.cols == b.rows && b.cols == c.rows && n <= b.cols
    ensures RowTimesColumn(Product(a, b), i, c, j, n) == Twice(a, i, b, a.cols, c, j, n)
  {
  }

  lemma {:induction false} TwiceStep(a: Matrix, i: nat, b: Matrix, m: nat, c: Matrix, j: nat, n: nat)
    ensures Twice(a, i, b, m + 1, c, j, n) == Twice(a, i, b, m, c, j, n) + At(a, i, m) * RowTimesColumn(b, m, c, j, n)
  {
    if n > 0 {
      TwiceStep(a, i, b, m, c, j, n - 1);
      Reassociate(RowTimesColumn(a, i, b, n - 1, m), At(a, i, m), At(b, m, n - 1), At(c, n - 1, j),
        RowTimesColumn(b, m, c, j, n - 1));
    }
  }

  lemma Reassociate(r: real, x: real, y: real, z: real, s: real)
    ensures (r + x * y) * z == r * z + x * (y * z)
    ensures x * (s + y * z) == x * s + x * (y * z)
  {
  }

  lemma {:induction false} TwiceIsNested(a: Matrix, i: nat, b: Matrix, m: nat, c: Matrix, j: nat)
    requires m <= b.rows && a.cols == b.rows && b.cols == c.rows && i < a.rows && j < c.cols
    ensures Twice(a, i, b, m, c, j, b.cols) == RowTimesColumn(a, i, Product(b, c), j, m)
  {
    if m == 0 {
      TwiceOfNothing(a, i, b, c, j, b.cols);
    } else {
      TwiceIsNested(a, i, b, m - 1, c, j);
      TwiceStep(a, i, b, m - 1, c, j, b.cols);
    }
  }

  lemma TwiceOfNothing(a: Matrix, i: nat, b: Matrix, c: Matrix, j: nat, n: nat)
    ensures Twice(a, i, b, 0, c, j, n) == 0.0
  {
  }

  lemma Associative(a: Matrix, b: Matrix, c: Matrix)
    requires a.cols == b.rows && b.cols == c.rows
    ensures Product(Product(a, b), c) == Product(a, Product(b, c))
  {
    var l, r := Product(Product(a, b), c), Product(a, Product(b, c));
    forall i: nat, j: nat | i < a.rows && j < c.cols ensures At(l, i, j) == At(r, i, j) {
      TwiceIsProduct(a, i, b, c, j, b.cols);
      TwiceIsNested(a, i, b, a.cols, c, j);
    }
    SameEntries(l, r);
  }
}
