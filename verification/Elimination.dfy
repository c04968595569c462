/** Inverting a matrix row operation by row operation, and what it means when no pivot is found. */
module Elimination {
  import opened Wrappers
  import opened GaloisField
  import opened LinearAlgebra

  function Identity(n: nat): (m: seq<Vector>)
    ensures Square(m, n)
  {
    seq(n, r requires 0 <= r < n => Unit(n, r))
  }

  // `m` of `x` is `inv` of `y`, row by row.
  ghost predicate Balanced(m: seq<Vector>, inv: seq<Vector>, x: Vector, y: Vector)
    requires |m| == |inv| && Sized(m, |x|) && Sized(inv, |y|)
  {
    forall r :: 0 <= r < |m| ==> Dot(m[r], x) == Dot(inv[r], y)
  }

  // Nothing was lost on the way from `rows` to `m` and `inv`, and nothing gained.
  ghost predicate Equivalent(rows: seq<Vector>, m: seq<Vector>, inv: seq<Vector>, n: nat)
    requires Square(rows, n) && Square(m, n) && Square(inv, n)
  {
    forall x: Vector, y: Vector :: |x| == n && |y| == n ==> (Solves(rows, x, y) <==> Balanced(m, inv, x, y))
  }

  lemma EquivalentAtStart(rows: seq<Vector>, n: nat)
    requires Square(rows, n)
    ensures Equivalent(rows, rows, Identity(n), n)
  {
    hide Dot, Unit;
    forall x: Vector, y: Vector | |x| == n && |y| == n
      ensures Solves(rows, x, y) <==> Balanced(rows, Identity(n), x, y)
    {
      forall r | 0 <= r < n ensures Dot(Identity(n)[r], y) == y[r] {
        DotUnit(n, r, y);
      }
    }
  }

  // ---- Row operations ----

  function Swap(m: seq<Vector>, a: nat, b: nat): (s: seq<Vector>)
    requires a < |m| && b < |m|
  {
    m[a := m[b]][b := m[a]]
  }

  lemma SwapKeeps(rows: seq<Vector>, m: seq<Vector>, inv: seq<Vector>, n: nat, a: nat, b: nat)
    requires Square(rows, n) && Square(m, n) && Square(inv, n) && Equivalent(rows, m, inv, n)
    requires a < n && b < n
    ensures Square(Swap(m, a, b), n) && Square(Swap(inv, a, b), n)
    ensures Equivalent(rows, Swap(m, a, b), Swap(inv, a, b), n)
  {
    hide Dot, Solves;
    forall x: Vector, y: Vector | |x| == n && |y| == n
      ensures Solves(rows, x, y) <==> Balanced(Swap(m, a, b), Swap(inv, a, b), x, y)
    {
      assert Balanced(Swap(m, a, b), Swap(inv, a, b), x, y) ==>
        Dot(m[a], x) == Dot(Swap(m, a, b)[b], x) && Dot(m[b], x) == Dot(Swap(m, a, b)[a], x);
      assert Balanced(Swap(m, a, b), Swap(inv, a, b), x, y) ==>
        forall r :: 0 <= r < n && r != a && r != b ==> Dot(m[r], x) == Dot(Swap(m, a, b)[r], x);
    }
  }

  lemma ScaleKeeps(rows: seq<Vector>, m: seq<Vector>, inv: seq<Vector>, n: nat, row: nat, s: Elem)
    requires Square(rows, n) && Square(m, n) && Square(inv, n) && Equivalent(rows, m, inv, n)
    requires row < n && s != 0
    ensures Equivalent(rows, m[row := Scaled(m[row], s)], inv[row := Scaled(inv[row], s)], n)
  {
    hide Dot, Solves, Mul, Scaled;
    var m', inv' := m[row := Scaled(m[row], s)], inv[row := Scaled(inv[row], s)];
    forall x: Vector, y: Vector | |x| == n && |y| == n
      ensures Solves(rows, x, y) <==> Balanced(m', inv', x, y)
    {
      DotScaled(m[row], s, x);
      DotScaled(inv[row], s, y);
      CancelFactor(s, Dot(m[row], x), Dot(inv[row], y));
      OneRow(m, inv, m', inv', row, x, y);
    }
  }

  lemma PlusKeeps(rows: seq<Vector>, m: seq<Vector>, inv: seq<Vector>, n: nat, row: nat, factor: Elem, other: nat)
    requires Square(rows, n) && Square(m, n) && Square(inv, n) && Equivalent(rows, m, inv, n)
    requires row < n && other < n && row != other
    ensures Equivalent(rows, m[row := Plus(m[row], factor, m[other])],
                       inv[row := Plus(inv[row], factor, inv[other])], n)
  {
    hide Dot, Solves, Mul, Plus, Add;
    var m', inv' := m[row := Plus(m[row], factor, m[other])], inv[row := Plus(inv[row], factor, inv[other])];
    forall x: Vector, y: Vector | |x| == n && |y| == n
      ensures Solves(rows, x, y) <==> Balanced(m', inv', x, y)
    {
      DotPlus(m[row], factor, m[other], x);
      DotPlus(inv[row], factor, inv[other], y);
      CancelTerm(Dot(m[row], x), Dot(inv[row], y), Mul(factor, Dot(m[other], x)));
      assert m'[other] == m[other] && inv'[other] == inv[other];
      OneRow(m, inv, m', inv', row, x, y);
    }
  }

  // Two systems that differ in one row.
  lemma OneRow(m: seq<Vector>, inv: seq<Vector>, m': seq<Vector>, inv': seq<Vector>, row: nat, x: Vector, y: Vector)
    requires |m| == |inv| == |m'| == |inv'| && Sized(m, |x|) && Sized(inv, |y|) && Sized(m', |x|) && Sized(inv', |y|)
    requires row < |m|
    requires forall r :: 0 <= r < |m| && r != row ==> m'[r] == m[r] && inv'[r] == inv[r]
    requires (forall r :: 0 <= r < |m| && r != row ==> Dot(m[r], x) == Dot(inv[r], y)) ==>
               (Dot(m'[row], x) == Dot(inv'[row], y) <==> Dot(m[row], x) == Dot(inv[row], y))
    ensures Balanced(m', inv', x, y) <==> Balanced(m, inv, x, y)
  {
    hide Dot;
    if Balanced(m', inv', x, y) {
      forall r | 0 <= r < |m| && r != row ensures Dot(m[r], x) == Dot(inv[r], y) {
        assert Dot(m'[r], x) == Dot(inv'[r], y);
      }
    }
  }

  lemma CancelFactor(s: Elem, a: Elem, b: Elem)
    requires s != 0
    ensures Mul(s, a) == Mul(s, b) <==> a == b
  {
    hide Mul, Inverse;
    MulInverse(s);
    MulCommutes(s, Inverse(s));
    MulAssociates(Inverse(s), s, a);
    MulAssociates(Inverse(s), s, b);
    ByOne(a);
    ByOne(b);
  }

  lemma CancelTerm(a: Elem, b: Elem, c: Elem)
    ensures Add(a, c) == Add(b, c) <==> a == b
  {
    hide Add;
    AddLaws(a, c, c);
    AddLaws(b, c, c);
    AddLaws(c, 0, 0);
  }

  // ---- Elimination ----

  // The first `cols` columns are those of the identity.
  ghost predicate Reduced(m: seq<Vector>, n: nat, cols: nat)
    requires Square(m, n) && cols <= n
  {
    forall r, c :: 0 <= r < n && 0 <= c < cols ==> m[r][c] == if r == c then 1 else 0
  }

  // `inv` answers every system of `rows`.
  ghost predicate Inverts(inv: seq<Vector>, rows: seq<Vector>, n: nat)
    requires Square(rows, n) && Square(inv, n)
  {
    forall x: Vector, y: Vector :: |x| == n && |y| == n ==>
      (Solves(rows, x, y) <==> forall r :: 0 <= r < n ==> x[r] == Dot(inv[r], y))
  }

  method ScaleRow(t: Tables, row: Vector, s: Elem) returns (v: Vector)
    requires Tabled(t)
    ensures v == Scaled(row, s)
  {
    hide Mul;
    v := row;
    for c := 0 to |row|
      invariant |v| == |row|
      invariant forall k :: 0 <= k < |row| ==> v[k] == if k < c then Mul(row[k], s) else row[k]
    {
      var p := Multiply(t, v[c], s);
      v := v[c := p];
    }
  }

  method AddRow(t: Tables, row: Vector, factor: Elem, other: Vector) returns (v: Vector)
    requires Tabled(t) && |row| == |other|
    ensures v == Plus(row, factor, other)
  {
    hide Mul, Add;
    v := row;
    for c := 0 to |row|
      invariant |v| == |row|
      invariant forall k :: 0 <= k < |row| ==> v[k] == if k < c then Add(row[k], Mul(factor, other[k])) else row[k]
    {
      var p := Multiply(t, factor, other[c]);
      v := v[c := Add(v[c], p)];
    }
  }

  // Gauss and Jordan's way: an inverse, or none exactly when the rows are dependent.
  method Solve(t: Tables, rows: seq<Vector>, n: nat) returns (r: Option<seq<Vector>>)
    requires Tabled(t) && Square(rows, n)
    ensures r.Some? <==> Regular(rows, n)
    ensures r.Some? ==> Square(r.value, n) && Inverts(r.value, rows, n)
  {
    hide Regular, Inverts, Equivalent, Tabled, Inverse;
    var m := rows;
    var inv := Identity(n);
    EquivalentAtStart(rows, n);
    for col := 0 to n
      invariant Square(m, n) && Square(inv, n) && Equivalent(rows, m, inv, n)
      invariant Reduced(m, n, col)
    {
      var pivot := col;
      while pivot < n && m[pivot][col] == 0
        invariant col <= pivot <= n
        invariant forall r :: col <= r < pivot ==> m[r][col] == 0
      {
        pivot := pivot + 1;
      }
      if pivot == n {
        NoPivot(rows, m, inv, n, col);
        return None;
      }
      SwapKeeps(rows, m, inv, n, col, pivot);
      m, inv := Swap(m, col, pivot), Swap(inv, col, pivot);
      m, inv := ClearColumn(t, rows, m, inv, n, col);
    }
    AllReduced(rows, m, inv, n);
    r := Some(inv);
  }

  method ClearColumn(t: Tables, ghost rows: seq<Vector>, m0: seq<Vector>, inv0: seq<Vector>, n: nat, col: nat)
    returns (m: seq<Vector>, inv: seq<Vector>)
    requires Tabled(t) && Square(rows, n) && Square(m0, n) && Square(inv0, n) && Equivalent(rows, m0, inv0, n)
    requires col < n && Reduced(m0, n, col) && m0[col][col] != 0
    ensures Square(m, n) && Square(inv, n) && Equivalent(rows, m, inv, n) && Reduced(m, n, col + 1)
  {
    hide Equivalent, Tabled, Inverse, Mul, Add;
    m, inv := m0, inv0;
    var scale := Invert(t, m[col][col]);
    MulInverse(m[col][col]);
    ScaleKeeps(rows, m, inv, n, col, scale);
    ScaleReduced(m, n, col, scale);
    var row := ScaleRow(t, m[col], scale);
    m := m[col := row];
    row := ScaleRow(t, inv[col], scale);
    inv := inv[col := row];
    for r := 0 to n
      invariant Square(m, n) && Square(inv, n) && Equivalent(rows, m, inv, n)
      invariant Reduced(m, n, col) && m[col][col] == 1
      invariant forall q :: 0 <= q < r && q != col ==> m[q][col] == 0
    {
      var factor := m[r][col];
      if r != col && factor != 0 {
        PlusKeeps(rows, m, inv, n, r, factor, col);
        PlusReduced(m, n, r, factor, col);
        row := AddRow(t, m[r], factor, m[col]);
        m := m[r := row];
        row := AddRow(t, inv[r], factor, inv[col]);
        inv := inv[r := row];
      }
    }
  }

  lemma ScaleReduced(m: seq<Vector>, n: nat, col: nat, scale: Elem)
    requires Square(m, n) && col < n && Reduced(m, n, col) && Mul(m[col][col], scale) == 1
    ensures var m' := m[col := Scaled(m[col], scale)]; Reduced(m', n, col) && m'[col][col] == 1
  {
    hide Mul;
    ByZero(scale);
  }

  lemma PlusReduced(m: seq<Vector>, n: nat, r: nat, factor: Elem, col: nat)
    requires Square(m, n) && col < n && r < n && r != col && Reduced(m, n, col) && m[col][col] == 1
    requires factor == m[r][col]
    ensures var m' := m[r := Plus(m[r], factor, m[col])];
            Reduced(m', n, col) && m'[r][col] == 0
  {
    hide Mul, Add;
    ByZero(factor);
    ByOne(factor);
    AddLaws(factor, 0, 0);
    AddLaws(0, 0, 0);
    AddLaws(1, 0, 0);
  }

  // With every column cleared, the answer to `y` is `inv` of it.
  lemma AllReduced(rows: seq<Vector>, m: seq<Vector>, inv: seq<Vector>, n: nat)
    requires Square(rows, n) && Square(m, n) && Square(inv, n) && Equivalent(rows, m, inv, n) && Reduced(m, n, n)
    ensures Regular(rows, n) && Inverts(inv, rows, n)
  {
    hide Dot, Solves;
    forall x: Vector, y: Vector | |x| == n && |y| == n
      ensures Solves(rows, x, y) <==> forall r :: 0 <= r < n ==> x[r] == Dot(inv[r], y)
    {
      forall r | 0 <= r < n ensures Dot(m[r], x) == x[r] {
        assert m[r] == Unit(n, r);
        DotUnit(n, r, x);
      }
      assert Solves(rows, x, y) <==> Balanced(m, inv, x, y);
    }
    InverseIsRegular(inv, rows, n);
  }

  lemma InverseIsRegular(inv: seq<Vector>, rows: seq<Vector>, n: nat)
    requires Square(rows, n) && Square(inv, n) && Inverts(inv, rows, n)
    ensures Regular(rows, n)
  {
    hide Dot, Solves;
    forall x: Vector | |x| == n && Solves(rows, x, Zero(n))
      ensures x == Zero(n)
    {
      forall r | 0 <= r < n ensures x[r] == 0 {
        DotZero(inv[r]);
      }
    }
  }

  // Without a pivot the column depends on those before it: a vector other than 0 answers every row with 0.
  function Dependent(m: seq<Vector>, n: nat, col: nat): (x: Vector)
    requires Square(m, n) && col < n
    ensures |x| == n
  {
    seq(n, c requires 0 <= c < n => if c < col then m[c][col] else if c == col then 1 else 0)
  }

  lemma NoPivot(rows: seq<Vector>, m: seq<Vector>, inv: seq<Vector>, n: nat, col: nat)
    requires Square(rows, n) && Square(m, n) && Square(inv, n) && Equivalent(rows, m, inv, n)
    requires col < n && Reduced(m, n, col) && forall r :: col <= r < n ==> m[r][col] == 0
    ensures !Regular(rows, n)
  {
    hide Dot, Solves;
    var x := Dependent(m, n, col);
    forall r | 0 <= r < n ensures Dot(m[r], x) == Dot(inv[r], Zero(n)) {
      DependentRow(m, n, col, r, n);
      assert m[r][..n] == m[r] && x[..n] == x;
      DotZero(inv[r]);
    }
    assert Solves(rows, x, Zero(n)) by { assert Balanced(m, inv, x, Zero(n)); }
    assert x[col] == 1;
  }

  lemma {:induction false} DependentRow(m: seq<Vector>, n: nat, col: nat, r: nat, c: nat)
    requires Square(m, n) && col < n && r < n && c <= n && Reduced(m, n, col)
    requires forall r :: col <= r < n ==> m[r][col] == 0
    ensures Dot(m[r][..c], Dependent(m, n, col)[..c])
            == if r < c <= col then m[r][col] else 0
  {
    hide Add, Mul;
    var x := Dependent(m, n, col);
    if c > 0 {
      DependentRow(m, n, col, r, c - 1);
      assert m[r][..c][..c - 1] == m[r][..c - 1] && x[..c][..c - 1] == x[..c - 1];
      ByOne(x[c - 1]);
      ByOne(m[r][c - 1]);
      ByZero(x[c - 1]);
      ByZero(m[r][c - 1]);
      AddLaws(m[r][col], 0, 0);
      AddLaws(0, 0, 0);
    }
  }
}
