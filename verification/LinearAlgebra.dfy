/** Vectors and square systems of equations over the field of 256 elements. */
module LinearAlgebra {
  import opened GaloisField

  type Vector = seq<Elem>

  function Dot(row: Vector, x: Vector): Elem
    requires |row| == |x|
  {
    if row == [] then 0
    else
      var n := |row| - 1;
      Add(Dot(row[..n], x[..n]), Mul(row[n], x[n]))
  }

  function Zero(n: nat): (v: Vector)
    ensures |v| == n
  {
    seq(n, _ => 0)
  }

  function Unit(n: nat, i: nat): (v: Vector)
    ensures |v| == n
  {
    seq(n, c => if c == i then 1 else 0)
  }

  function Scaled(row: Vector, s: Elem): (v: Vector)
    ensures |v| == |row|
  {
    seq(|row|, c requires 0 <= c < |row| => Mul(row[c], s))
  }

  // `row` and `factor` times `other`.
  function Plus(row: Vector, factor: Elem, other: Vector): (v: Vector)
    requires |row| == |other|
    ensures |v| == |row|
  {
    seq(|row|, c requires 0 <= c < |row| => Add(row[c], Mul(factor, other[c])))
  }

  lemma {:induction false} DotScaled(row: Vector, s: Elem, x: Vector)
    requires |row| == |x|
    ensures Dot(Scaled(row, s), x) == Mul(s, Dot(row, x))
  {
    hide Add, Mul;
    if row == [] {
      ByZero(s);
    } else {
      var n := |row| - 1;
      DotScaled(row[..n], s, x[..n]);
      assert Scaled(row, s)[..n] == Scaled(row[..n], s);
      MulAdds(s, Dot(row[..n], x[..n]), Mul(row[n], x[n]));
      MulAssociates(s, row[n], x[n]);
      MulCommutes(s, row[n]);
    }
  }

  lemma {:induction false} DotPlus(row: Vector, factor: Elem, other: Vector, x: Vector)
    requires |row| == |other| == |x|
    ensures Dot(Plus(row, factor, other), x) == Add(Dot(row, x), Mul(factor, Dot(other, x)))
  {
    hide Add, Mul;
    if row == [] {
      ByZero(factor);
      AddLaws(0, 0, 0);
    } else {
      var n := |row| - 1;
      DotPlus(row[..n], factor, other[..n], x[..n]);
      assert Plus(row, factor, other)[..n] == Plus(row[..n], factor, other[..n]);
      MulAdds(factor, Dot(other[..n], x[..n]), Mul(other[n], x[n]));
      MulAdds(x[n], row[n], Mul(factor, other[n]));
      MulAssociates(factor, other[n], x[n]);
      AddSwap(Dot(row[..n], x[..n]), Mul(factor, Dot(other[..n], x[..n])),
              Mul(row[n], x[n]), Mul(Mul(factor, other[n]), x[n]));
    }
  }

  lemma {:induction false} DotZero(row: Vector)
    ensures Dot(row, Zero(|row|)) == 0
  {
    hide Add, Mul;
    if row != [] {
      var n := |row| - 1;
      DotZero(row[..n]);
      assert Zero(|row|)[..n] == Zero(n);
      ByZero(row[n]);
      AddLaws(0, 0, 0);
    }
  }

  lemma {:induction false} DotUnit(n: nat, i: nat, x: Vector)
    requires |x| == n
    ensures Dot(Unit(n, i), x) == if i < n then x[i] else 0
  {
    hide Add, Mul;
    if n > 0 {
      DotUnit(n - 1, i, x[..n - 1]);
      assert Unit(n, i)[..n - 1] == Unit(n - 1, i);
      ByOne(x[n - 1]);
      ByZero(x[n - 1]);
      AddLaws(Dot(Unit(n - 1, i), x[..n - 1]), 0, 0);
      AddLaws(x[n - 1], 0, 0);
    }
  }

  // ---- Systems ----

  predicate Sized(rows: seq<Vector>, n: nat) {
    forall r :: 0 <= r < |rows| ==> |rows[r]| == n
  }

  predicate Square(m: seq<Vector>, n: nat) {
    |m| == n && Sized(m, n)
  }

  // `x` answers every row of `m` with `y`.
  ghost predicate Solves(m: seq<Vector>, x: Vector, y: Vector)
    requires Sized(m, |x|) && |y| == |m|
  {
    forall r :: 0 <= r < |m| ==> Dot(m[r], x) == y[r]
  }

  // Only the zero vector answers every row with 0.
  ghost predicate Regular(rows: seq<Vector>, n: nat)
    requires Sized(rows, n)
  {
    forall x: Vector :: |x| == n && Solves(rows, x, Zero(|rows|)) ==> x == Zero(n)
  }

  // Rows of full rank have at most one answer.
  lemma RegularOnce(rows: seq<Vector>, n: nat, x: Vector, x': Vector, y: Vector)
    requires Sized(rows, n) && Regular(rows, n) && |x| == |x'| == n && |y| == |rows|
    requires Solves(rows, x, y) && Solves(rows, x', y)
    ensures x == x'
  {
    hide Add, Mul, Dot, Regular;
    var d := Plus(x, 1, x');
    forall r | 0 <= r < |rows| ensures Dot(rows[r], d) == 0 {
      DotCommutes(rows[r], d);
      DotCommutes(rows[r], x);
      DotCommutes(rows[r], x');
      DotPlus(x, 1, x', rows[r]);
      ByOne(Dot(rows[r], x'));
      AddLaws(Dot(rows[r], x), 0, 0);
    }
    assert d == Zero(n) by { RegularMeans(rows, n, d); }
    forall i | 0 <= i < n ensures x[i] == x'[i] {
      assert Add(x[i], Mul(1, x'[i])) == d[i] == Zero(n)[i] == 0;
      ByOne(x'[i]);
      AddLaws(x[i], x'[i], x'[i]);
      AddLaws(x'[i], 0, 0);
    }
  }

  lemma RegularMeans(rows: seq<Vector>, n: nat, x: Vector)
    requires Sized(rows, n) && Regular(rows, n) && |x| == n && Solves(rows, x, Zero(|rows|))
    ensures x == Zero(n)
  {}

  lemma {:induction false} DotCommutes(a: Vector, b: Vector)
    requires |a| == |b|
    ensures Dot(a, b) == Dot(b, a)
  {
    hide Add, Mul;
    if a != [] {
      var n := |a| - 1;
      DotCommutes(a[..n], b[..n]);
      MulCommutes(a[n], b[n]);
    }
  }
}
