/** Why any rows of a Cauchy matrix, with unit rows beside them, determine every unknown. */
module CauchyMatrix {
  import opened Counting
  import opened GaloisField
  import opened LinearAlgebra

  function Byte(i: nat): Elem
    requires i < 256
  {
    i as Elem
  }

  lemma {:induction false} NumberByte(i: nat)
    requires i < 256
    ensures Number(Byte(i)) == i
  {
    if i > 0 {
      NumberByte(i - 1);
      NextNumber(Byte(i - 1));
      NumberBack(Byte(i - 1) + 1);
    }
  }

  lemma NextNumber(b: Elem)
    requires Number(b) < 255
    ensures b < 255 && Number(b + 1) == Number(b) + 1
  {}

  lemma NumberBack(b: Elem)
    ensures Number(b) as Elem == b
  {}

  lemma ByteInjective(i: nat, j: nat)
    requires i < 256 && j < 256 && Byte(i) == Byte(j)
    ensures i == j
  {
    hide Byte;
    NumberByte(i);
    NumberByte(j);
  }

  // The sum of the names of two different positions.
  function Apart(p: nat, q: nat): Elem
    requires p < 256 && q < 256
  {
    Add(Byte(p), Byte(q))
  }

  lemma ApartNotZero(p: nat, q: nat)
    requires p < 256 && q < 256
    ensures Apart(p, q) == 0 <==> p == q
  {
    hide Byte, Add;
    AddLaws(Byte(p), Byte(q), Byte(q));
    AddLaws(Byte(q), 0, 0);
    if Apart(p, q) == 0 {
      ByteInjective(p, q);
    }
  }

  // The inverses of the sums with `p`, for every column.
  function PointRow(n: nat, p: nat): (row: Vector)
    requires n <= p < 256
    ensures |row| == n
  {
    seq(n, k requires 0 <= k < n => (ApartNotZero(p, k); Inverse(Apart(p, k))))
  }

  // ---- Folding two points into one ----

  // What column `k` becomes when column `c` and point `q` are taken out.
  function Folded(n: nat, q: nat, c: nat, u: Vector): (v: Vector)
    requires n <= q < 256 && c < n && |u| == n
    ensures |v| == n
  {
    seq(n, k requires 0 <= k < n => Mul(PointRow(n, q)[k], Mul(Apart(k, c), u[k])))
  }

  lemma {:induction false} FoldedSum(n: nat, p: nat, q: nat, c: nat, u: Vector, k: nat)
    requires n <= p < 256 && n <= q < 256 && c < n && |u| == n && k <= n
    ensures Mul(Apart(p, q), Dot(PointRow(n, p)[..k], Folded(n, q, c, u)[..k]))
            == Add(Mul(Apart(p, c), Dot(PointRow(n, p)[..k], u[..k])),
                   Mul(Apart(q, c), Dot(PointRow(n, q)[..k], u[..k])))
  {
    hide Add, Mul, Inverse, Apart, Folded, PointRow;
    var s, t, w := Apart(p, q), Apart(p, c), Apart(q, c);
    var a, b, v := PointRow(n, p), PointRow(n, q), Folded(n, q, c, u);
    if k == 0 {
      ByZero(s); ByZero(t); ByZero(w);
      AddLaws(0, 0, 0);
    } else {
      var i := k - 1;
      FoldedSum(n, p, q, c, u, i);
      FoldedTerm(n, p, q, c, u, i);
      assert a[..k][..i] == a[..i] && b[..k][..i] == b[..i] && v[..k][..i] == v[..i] && u[..k][..i] == u[..i];
      MulAdds(s, Dot(a[..i], v[..i]), Mul(a[i], v[i]));
      MulAdds(t, Dot(a[..i], u[..i]), Mul(a[i], u[i]));
      MulAdds(w, Dot(b[..i], u[..i]), Mul(b[i], u[i]));
      AddSwap(Mul(t, Dot(a[..i], u[..i])), Mul(w, Dot(b[..i], u[..i])),
              Mul(t, Mul(a[i], u[i])), Mul(w, Mul(b[i], u[i])));
    }
  }

  lemma FoldedTerm(n: nat, p: nat, q: nat, c: nat, u: Vector, k: nat)
    requires n <= p < 256 && n <= q < 256 && c < n && |u| == n && k < n
    ensures Mul(Apart(p, q), Mul(PointRow(n, p)[k], Folded(n, q, c, u)[k]))
            == Add(Mul(Apart(p, c), Mul(PointRow(n, p)[k], u[k])), Mul(Apart(q, c), Mul(PointRow(n, q)[k], u[k])))
  {
    hide Add, Mul, Inverse, Byte;
    ApartNotZero(p, k);
    ApartNotZero(q, k);
    SumsTelescope(Byte(p), Byte(q), Byte(k));
    SumsTelescope(Byte(p), Byte(c), Byte(k));
    SumsTelescope(Byte(q), Byte(c), Byte(k));
    AddLaws(Byte(c), Byte(k), 0);
    Fractions(Apart(p, k), Apart(q, k), Apart(k, c), u[k]);
  }

  lemma SumsTelescope(a: Elem, b: Elem, k: Elem)
    ensures Add(a, b) == Add(Add(a, k), Add(b, k))
  {
    hide Add;
    AddSwap(a, b, k, k);
    AddLaws(k, k, k);
    AddLaws(Add(a, b), 0, 0);
    AddSwap(a, k, b, k);
  }

  // (a + b) (1/a) (1/b) d u = (a + d) (1/a) u + (b + d) (1/b) u, where 1 + 1 = 0.
  lemma Fractions(a: Elem, b: Elem, d: Elem, u: Elem)
    requires a != 0 && b != 0
    ensures Mul(Add(a, b), Mul(Inverse(a), Mul(Inverse(b), Mul(d, u))))
            == Add(Mul(Add(a, d), Mul(Inverse(a), u)), Mul(Add(b, d), Mul(Inverse(b), u)))
  {
    hide Add, Mul, Inverse;
    var i, j := Inverse(a), Inverse(b);
    calc {
      Mul(Add(a, b), Mul(i, Mul(j, Mul(d, u))));
      { MulAssociates(i, j, Mul(d, u)); MulAssociates(Add(a, b), Mul(i, j), Mul(d, u)); }
      Mul(Mul(Add(a, b), Mul(i, j)), Mul(d, u));
      { InverseSum(a, b); }
      Mul(Add(j, i), Mul(d, u));
      { MulAssociates(Add(j, i), d, u); }
      Mul(Mul(Add(j, i), d), u);
      { MulAdds(d, j, i); AddLaws(Mul(j, d), Mul(i, d), 0); MulCommutes(i, d); MulCommutes(j, d); }
      Mul(Add(Mul(d, i), Mul(d, j)), u);
      { CancelOnes(Mul(d, i), Mul(d, j)); }
      Mul(Add(Add(1, Mul(d, i)), Add(1, Mul(d, j))), u);
      { MulAdds(u, Add(1, Mul(d, i)), Add(1, Mul(d, j))); }
      Add(Mul(Add(1, Mul(d, i)), u), Mul(Add(1, Mul(d, j)), u));
      { OverInverse(a, d, u); OverInverse(b, d, u); }
      Add(Mul(Add(a, d), Mul(i, u)), Mul(Add(b, d), Mul(j, u)));
    }
  }

  lemma InverseSum(a: Elem, b: Elem)
    requires a != 0 && b != 0
    ensures Mul(Add(a, b), Mul(Inverse(a), Inverse(b))) == Add(Inverse(b), Inverse(a))
  {
    hide Add, Mul, Inverse;
    var i, j := Inverse(a), Inverse(b);
    MulAdds(Mul(i, j), a, b);
    MulAssociates(a, i, j);
    MulInverse(a);
    ByOne(j);
    MulCommutes(i, j);
    MulAssociates(b, j, i);
    MulInverse(b);
    ByOne(i);
  }

  lemma CancelOnes(x: Elem, y: Elem)
    ensures Add(Add(1, x), Add(1, y)) == Add(x, y)
  {
    hide Add;
    AddSwap(1, x, 1, y);
    AddLaws(1, 0, 0);
    AddLaws(Add(x, y), 0, 0);
  }

  lemma OverInverse(a: Elem, d: Elem, u: Elem)
    requires a != 0
    ensures Mul(Add(a, d), Mul(Inverse(a), u)) == Mul(Add(1, Mul(d, Inverse(a))), u)
  {
    hide Add, Mul, Inverse;
    MulAssociates(Add(a, d), Inverse(a), u);
    MulAdds(Inverse(a), a, d);
    MulInverse(a);
  }

  // ---- Independence ----

  function Nonzeros(u: Vector): (s: set<nat>)
    ensures forall k: nat :: k in s <==> k < |u| && u[k] != 0
  {
    set k: nat | k < |u| && u[k] != 0
  }

  // A vector with no more entries than points, whose sum vanishes at each, has no entries.
  lemma {:induction false} Independent(n: nat, points: set<nat>, u: Vector)
    requires |u| == n && forall p :: p in points ==> n <= p < 256 && Dot(PointRow(n, p), u) == 0
    requires |Nonzeros(u)| <= |points|
    ensures u == Zero(n)
    decreases |points|
  {
    hide Add, Mul, Inverse, PointRow, Dot, Folded, Apart;
    if c :| 0 <= c < n && u[c] != 0 {
      SubsetSize({c}, Nonzeros(u));
      assert points != {};
      var q :| q in points;
      var rest, v := points - {q}, Folded(n, q, c, u);
      forall p | p in rest ensures Dot(PointRow(n, p), v) == 0 {
        FoldedVanishes(n, p, q, c, u);
      }
      forall k: nat | k < n ensures v[k] == 0 <==> k == c || u[k] == 0 {
        FoldedEntry(n, q, c, u, k);
      }
      forall k | k in Nonzeros(v) ensures k in Nonzeros(u) - {c} {
        assert k < n && v[k] != 0;
        assert u[k] != 0;
        assert k != c;
      }
      SubsetSize(Nonzeros(v), Nonzeros(u) - {c});
      Independent(n, rest, v);
      OneEntry(n, q, c, u);
    }
  }

  lemma FoldedVanishes(n: nat, p: nat, q: nat, c: nat, u: Vector)
    requires n <= p < 256 && n <= q < 256 && p != q && c < n && |u| == n
    requires Dot(PointRow(n, p), u) == 0 && Dot(PointRow(n, q), u) == 0
    ensures Dot(PointRow(n, p), Folded(n, q, c, u)) == 0
  {
    hide Add, Mul, Inverse, PointRow, Dot, Folded, Apart;
    var a, b, v := PointRow(n, p), PointRow(n, q), Folded(n, q, c, u);
    FoldedSum(n, p, q, c, u, n);
    assert a[..n] == a && b[..n] == b && v[..n] == v && u[..n] == u;
    ByZero(Apart(p, c));
    ByZero(Apart(q, c));
    AddLaws(0, 0, 0);
    ApartNotZero(p, q);
    if Dot(a, v) != 0 {
      NoZeroDivisors(Apart(p, q), Dot(a, v));
    }
  }

  lemma FoldedEntry(n: nat, q: nat, c: nat, u: Vector, k: nat)
    requires n <= q < 256 && c < n && |u| == n && k < n
    ensures Folded(n, q, c, u)[k] == 0 <==> k == c || u[k] == 0
  {
    hide Add, Mul, Inverse, Apart;
    ApartNotZero(k, c);
    ApartNotZero(q, k);
    MulInverse(Apart(q, k));
    ByZero(u[k]);
    ByZero(Apart(k, c));
    ByZero(Inverse(Apart(q, k)));
    if k != c && u[k] != 0 {
      NoZeroDivisors(Apart(k, c), u[k]);
      NoZeroDivisors(Inverse(Apart(q, k)), Mul(Apart(k, c), u[k]));
    }
  }

  // A single entry does not vanish anywhere.
  lemma OneEntry(n: nat, q: nat, c: nat, u: Vector)
    requires n <= q < 256 && c < n && |u| == n && u[c] != 0
    requires forall k :: 0 <= k < n && k != c ==> u[k] == 0
    ensures Dot(PointRow(n, q), u) != 0
  {
    hide Add, Mul, Inverse, Apart, Dot;
    var row := PointRow(n, q);
    assert u == Scaled(Unit(n, c), u[c]) by { ByOne(u[c]); ByZero(u[c]); }
    DotCommutes(row, u);
    DotScaled(Unit(n, c), u[c], row);
    DotUnit(n, c, row);
    ApartNotZero(q, c);
    MulInverse(Apart(q, c));
    NoZeroDivisors(u[c], row[c]);
  }

  // ---- Rows of the code ----

  // Row `index` of the code: a unit row for a data shard, a row of inverses for a parity shard.
  function CodeRow(n: nat, index: nat): (row: Vector)
    requires index < 256
    ensures |row| == n
  {
    if index < n then Unit(n, index) else PointRow(n, index)
  }

  // Any n different rows determine all n unknowns.
  lemma AnyRowsRegular(n: nat, present: seq<nat>, rows: seq<Vector>)
    requires |present| == |rows| == n && Distinct(present)
    requires forall k :: 0 <= k < n ==> present[k] < 256 && rows[k] == CodeRow(n, present[k])
    ensures Sized(rows, n) && Regular(rows, n)
  {
    hide Dot, PointRow, Unit;
    var data, points := set k | k in present && k < n, set k | k in present && k >= n;
    forall x: Vector | |x| == n && Solves(rows, x, Zero(n))
      ensures x == Zero(n)
    {
      forall k | 0 <= k < n ensures Dot(CodeRow(n, present[k]), x) == 0 {
        assert rows[k] == CodeRow(n, present[k]);
        assert Dot(rows[k], x) == Zero(n)[k];
      }
      forall i | i in data ensures i !in Nonzeros(x) {
        DotUnit(n, i, x);
      }
      Shares(n, present, data, points, Nonzeros(x));
      Independent(n, points, x);
    }
  }

  // As many parity rows as data rows are missing.
  lemma Shares(n: nat, present: seq<nat>, data: set<nat>, points: set<nat>, unknown: set<nat>)
    requires |present| == n && Distinct(present)
    requires forall k: nat :: k in data <==> k in present && k < n
    requires forall k: nat :: k in points <==> k in present && k >= n
    requires unknown !! data && forall k :: k in unknown ==> k < n
    ensures |unknown| <= |points|
  {
    MembersSize(present);
    assert Members(present) == data + points && data !! points;
    RangeSize(0, n);
    SubsetSize(unknown + data, Range(0, n));
  }
}
