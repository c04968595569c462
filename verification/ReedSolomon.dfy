/** Erasure codes from a parity matrix: encoding, recovery, and when recovery gives the data back. */
module ReedSolomon {
  import opened Wrappers
  import opened GaloisField
  import opened LinearAlgebra
  import opened Elimination
  import opened CauchyMatrix

  datatype CodeError =
    | Shape
    | TooManyShards(data: nat, parity: nat)
    | ShardCount(expected: nat, got: nat)
    | ShardSize

  // The data shards taken in, and the coefficients of each parity shard put out.
  datatype Matrix = Matrix(data: nat, parity: seq<Vector>)

  type Coder = m: Matrix | m.data > 0 && Sized(m.parity, m.data) witness Matrix(1, [])

  function CauchyRows(data: nat, parity: nat): (rows: seq<Vector>)
    requires data + parity <= 256
    ensures |rows| == parity && Sized(rows, data)
  {
    var rows := seq(parity, j requires 0 <= j < parity => PointRow(data, data + j));
    assert forall j :: 0 <= j < parity ==> rows[j] == PointRow(data, data + j);
    rows
  }

  function Cauchy(data: nat, parity: nat): Result<Coder, CodeError> {
    if data == 0 then Err(Shape)
    else if data + parity > 256 then Err(TooManyShards(data, parity))
    else Ok(Matrix(data, CauchyRows(data, parity)))
  }

  // What is refused; and that in every other case each element of the matrix, times the sum of its row's and its
  // column's numbers, is 1.
  lemma CauchyElements(data: nat, parity: nat)
    ensures var r := Cauchy(data, parity);
            && (r == Err(Shape) <==> data == 0)
            && (r == Err(TooManyShards(data, parity)) <==> data > 0 && data + parity > 256)
            && (r.Ok? ==>
                  && r.value.data == data && |r.value.parity| == parity
                  && forall j, i :: 0 <= j < parity && 0 <= i < data ==>
                       Mul(r.value.parity[j][i], Byte(data + j) ^ Byte(i)) == 1)
  {
    hide Mul, Inverse, Byte;
    if Cauchy(data, parity).Ok? {
      forall j, i | 0 <= j < parity && 0 <= i < data
        ensures Mul(CauchyRows(data, parity)[j][i], Byte(data + j) ^ Byte(i)) == 1
      {
        var x := Apart(data + j, i);
        ApartNotZero(data + j, i);
        MulInverse(x);
        MulCommutes(x, Inverse(x));
        assert CauchyRows(data, parity)[j] == PointRow(data, data + j);
      }
    }
  }

  function Shards(code: Coder): nat {
    code.data + |code.parity|
  }

  function Row(code: Coder, index: nat): (row: Vector)
    requires index < Shards(code)
    ensures |row| == code.data
  {
    if index < code.data then Unit(code.data, index) else code.parity[index - code.data]
  }

  // ---- Encoding ----

  type Shard = seq<Elem>

  predicate Uniform(shards: seq<Shard>, size: nat) {
    forall i :: 0 <= i < |shards| ==> |shards[i]| == size
  }

  // Byte `b` of every shard.
  function Column(shards: seq<Shard>, size: nat, b: nat): (v: Vector)
    requires Uniform(shards, size) && b < size
    ensures |v| == |shards|
  {
    seq(|shards|, i requires 0 <= i < |shards| => shards[i][b])
  }

  // The shards, each times its coefficient, summed.
  function Combine(row: Vector, shards: seq<Shard>, size: nat): (s: Shard)
    requires |row| == |shards| && Uniform(shards, size)
    ensures |s| == size
  {
    seq(size, b requires 0 <= b < size => Dot(row, Column(shards, size, b)))
  }

  // What a parity shard is made of: one more data shard, scaled and added.
  lemma CombineStep(row: Vector, shards: seq<Shard>, size: nat, k: nat)
    requires |row| == |shards| && Uniform(shards, size) && k < |row|
    ensures Combine(row[..k + 1], shards[..k + 1], size)
            == Plus(Combine(row[..k], shards[..k], size), row[k], shards[k])
  {
    hide Add, Mul;
    forall b | 0 <= b < size
      ensures Dot(row[..k + 1], Column(shards[..k + 1], size, b))
              == Add(Dot(row[..k], Column(shards[..k], size, b)), Mul(row[k], shards[k][b]))
    {
      assert row[..k + 1][..k] == row[..k];
      assert Column(shards[..k + 1], size, b)[..k] == Column(shards[..k], size, b);
    }
  }

  function Encode(code: Coder, data: seq<Shard>): Result<seq<Shard>, CodeError> {
    if |data| != code.data then Err(ShardCount(code.data, |data|))
    else if !Uniform(data, |data[0]|) then Err(ShardSize)
    else Ok(Parities(code, data, |data[0]|))
  }

  lemma EncodeRefuses(code: Coder, data: seq<Shard>)
    ensures var r := Encode(code, data);
            && (r == Err(ShardCount(code.data, |data|)) <==> |data| != code.data)
            && (r == Err(ShardSize) <==>
                  |data| == code.data && exists i, j :: 0 <= i < j < |data| && |data[i]| != |data[j]|)
            && (r.Err? ==> r.error.ShardCount? || r.error.ShardSize?)
  {
    hide Combine;
    if |data| == code.data && exists i, j :: 0 <= i < j < |data| && |data[i]| != |data[j]| {
      var i, j :| 0 <= i < j < |data| && |data[i]| != |data[j]|;
      assert |data[i]| != |data[0]| || |data[j]| != |data[0]|;
    }
  }

  function Parities(code: Coder, data: seq<Shard>, size: nat): (p: seq<Shard>)
    requires |data| == code.data && Uniform(data, size)
    ensures |p| == |code.parity| && Uniform(p, size)
  {
    seq(|code.parity|, j requires 0 <= j < |code.parity| => Combine(code.parity[j], data, size))
  }

  method AddScaled(t: Tables, out: array<Elem>, coefficient: Elem, shard: Shard)
    requires Tabled(t) && out.Length == |shard|
    modifies out
    ensures out[..] == Plus(old(out[..]), coefficient, shard)
  {
    hide Add, Mul;
    if coefficient == 0 {
      forall b | 0 <= b < |shard| ensures Add(out[b], Mul(0, shard[b])) == out[b] {
        ByZero(shard[b]);
        AddLaws(out[b], 0, 0);
      }
      return;
    }
    for b := 0 to |shard|
      invariant forall k :: 0 <= k < |shard| ==>
        out[k] == if k < b then Add(old(out[k]), Mul(coefficient, shard[k])) else old(out[k])
    {
      var p := Multiply(t, coefficient, shard[b]);
      out[b] := Add(out[b], p);
    }
  }

  method Combined(t: Tables, row: Vector, shards: seq<Shard>, size: nat) returns (s: Shard)
    requires Tabled(t) && |row| == |shards| && Uniform(shards, size)
    ensures s == Combine(row, shards, size)
  {
    hide Add, Mul, Tabled, Dot, Plus;
    var out := new Elem[size](_ => 0);
    assert out[..] == Combine(row[..0], shards[..0], size) by { NothingCombined(size); }
    for k := 0 to |row|
      invariant out[..] == Combine(row[..k], shards[..k], size)
    {
      CombineStep(row, shards, size, k);
      AddScaled(t, out, row[k], shards[k]);
    }
    assert row[..|row|] == row && shards[..|row|] == shards;
    s := out[..];
  }

  lemma NothingCombined(size: nat)
    ensures Combine([], [], size) == Zero(size)
  {}

  method EncodeShards(t: Tables, code: Coder, data: seq<Shard>) returns (r: Result<seq<Shard>, CodeError>)
    requires Tabled(t)
    ensures r == Encode(code, data)
  {
    if |data| != code.data {
      return Err(ShardCount(code.data, |data|));
    }
    var size := |data[0]|;
    for i := 0 to |data|
      invariant forall k :: 0 <= k < i ==> |data[k]| == size
    {
      if |data[i]| != size {
        return Err(ShardSize);
      }
    }
    var parity := [];
    for j := 0 to |code.parity|
      invariant parity == Parities(code, data, size)[..j]
    {
      var s := Combined(t, code.parity[j], data, size);
      parity := parity + [s];
    }
    assert parity == Parities(code, data, size);
    r := Ok(parity);
  }

  // ---- Recovery ----

  type Arrived = Option<Shard>

  // The positions that hold a shard, in order.
  function Present(shards: seq<Arrived>): (p: seq<nat>)
    ensures forall k :: 0 <= k < |p| ==> p[k] < |shards| && shards[p[k]].Some?
    ensures forall j, k :: 0 <= j < k < |p| ==> p[j] < p[k]
    ensures forall i :: 0 <= i < |shards| && shards[i].Some? ==> i in p
  {
    if shards == [] then []
    else
      var last := |shards| - 1;
      Present(shards[..last]) + if shards[last].Some? then [last] else []
  }

  function First(p: seq<nat>, n: nat): seq<nat> {
    if |p| <= n then p else p[..n]
  }

  lemma {:induction false} PositionAtMost(p: seq<nat>, k: nat)
    requires k < |p| && forall i, j :: 0 <= i < j < |p| ==> p[i] < p[j]
    ensures k <= p[k]
  {
    if k > 0 {
      PositionAtMost(p, k - 1);
    }
  }

  // A data shard that came is among the first n that came.
  lemma DataAmongFirst(shards: seq<Arrived>, n: nat, d: nat)
    requires d < n && d < |shards| && shards[d].Some?
    ensures d in First(Present(shards), n)
  {
    var p := Present(shards);
    var k :| 0 <= k < |p| && p[k] == d;
    PositionAtMost(p, k);
    assert First(p, n)[k] == d;
  }

  function Rows(code: Coder, present: seq<nat>): (rows: seq<Vector>)
    requires forall k :: 0 <= k < |present| ==> present[k] < Shards(code)
    ensures |rows| == |present| && Sized(rows, code.data)
  {
    seq(|present|, k requires 0 <= k < |present| => Row(code, present[k]))
  }

  predicate SameSize(shards: seq<Arrived>, present: seq<nat>, size: nat) {
    forall k :: 0 <= k < |present| ==>
      present[k] < |shards| && shards[present[k]].Some? && |shards[present[k]].value| == size
  }

  function Values(shards: seq<Arrived>, present: seq<nat>, size: nat): (v: seq<Shard>)
    requires SameSize(shards, present, size)
    ensures |v| == |present| && Uniform(v, size)
  {
    seq(|present|, k requires 0 <= k < |present| => shards[present[k]].value)
  }

  // Data shards of which the code makes the shards that came.
  ghost predicate Explains(code: Coder, data: seq<Shard>, size: nat, present: seq<nat>, values: seq<Shard>)
    requires forall k :: 0 <= k < |present| ==> present[k] < Shards(code)
    requires |values| == |present|
  {
    && |data| == code.data && Uniform(data, size)
    && forall k :: 0 <= k < |present| ==> Combine(Row(code, present[k]), data, size) == values[k]
  }

  function DataOf(shards: seq<Arrived>, n: nat): seq<Shard>
    requires n <= |shards| && forall i :: 0 <= i < n ==> shards[i].Some?
  {
    seq(n, i requires 0 <= i < n => shards[i].value)
  }

  // The data shards when all came; otherwise the only ones that explain the first n shards that came.
  ghost function Recovered(code: Coder, shards: seq<Arrived>): Option<seq<Shard>> {
    var n := code.data;
    if |shards| != Shards(code) then None
    else if forall i :: 0 <= i < n ==> shards[i].Some? then Some(DataOf(shards, n))
    else
      var present := First(Present(shards), n);
      if |present| < n then None
      else
        var size := |shards[present[0]].value|;
        if !SameSize(shards, present, size) || !Regular(Rows(code, present), n) then None
        else if data :| Explains(code, data, size, present, Values(shards, present, size)) then Some(data)
        else None
  }

  // Column by column, explaining the shards is solving the rows.
  lemma ExplainsSolves(code: Coder, data: seq<Shard>, size: nat, present: seq<nat>, values: seq<Shard>, b: nat)
    requires forall k :: 0 <= k < |present| ==> present[k] < Shards(code)
    requires |values| == |present| && Uniform(values, size) && b < size
    requires Explains(code, data, size, present, values)
    ensures Solves(Rows(code, present), Column(data, size, b), Column(values, size, b))
  {
    hide Dot, Row;
    forall k | 0 <= k < |present|
      ensures Dot(Rows(code, present)[k], Column(data, size, b)) == Column(values, size, b)[k]
    {
      assert Combine(Row(code, present[k]), data, size)[b] == values[k][b];
    }
  }

  lemma ExplainsOnce(code: Coder, data: seq<Shard>, data': seq<Shard>, size: nat, present: seq<nat>, values: seq<Shard>)
    requires forall k :: 0 <= k < |present| ==> present[k] < Shards(code)
    requires |values| == |present| && Uniform(values, size) && Regular(Rows(code, present), code.data)
    requires Explains(code, data, size, present, values) && Explains(code, data', size, present, values)
    ensures data == data'
  {
    hide Dot, Row, Regular, Solves, Combine;
    forall i, b | 0 <= i < code.data && 0 <= b < size ensures data[i][b] == data'[i][b] {
      ExplainsSolves(code, data, size, present, values, b);
      ExplainsSolves(code, data', size, present, values, b);
      RegularOnce(Rows(code, present), code.data,
                  Column(data, size, b), Column(data', size, b), Column(values, size, b));
      assert Column(data, size, b)[i] == Column(data', size, b)[i];
    }
    forall i | 0 <= i < code.data ensures data[i] == data'[i] {}
  }

  // The rows of the inverse, combining the shards that came.
  function Inverted(inv: seq<Vector>, values: seq<Shard>, size: nat): (data: seq<Shard>)
    requires Square(inv, |values|) && Uniform(values, size)
    ensures |data| == |values| && Uniform(data, size)
  {
    seq(|inv|, d requires 0 <= d < |inv| => Combine(inv[d], values, size))
  }

  lemma InvertedExplains(code: Coder, inv: seq<Vector>, present: seq<nat>, values: seq<Shard>, size: nat)
    requires forall k :: 0 <= k < |present| ==> present[k] < Shards(code)
    requires |present| == |values| == code.data && Square(inv, code.data) && Uniform(values, size)
    requires Inverts(inv, Rows(code, present), code.data)
    ensures Explains(code, Inverted(inv, values, size), size, present, values)
  {
    hide Dot, Row;
    var rows, data := Rows(code, present), Inverted(inv, values, size);
    forall k | 0 <= k < |present| ensures Combine(Row(code, present[k]), data, size) == values[k] {
      forall b | 0 <= b < size ensures Dot(rows[k], Column(data, size, b)) == values[k][b] {
        var x, y := Column(data, size, b), Column(values, size, b);
        forall r | 0 <= r < code.data ensures x[r] == Dot(inv[r], y) {}
        assert Solves(rows, x, y);
        assert y[k] == values[k][b];
      }
    }
  }

  // A data shard that came is itself in whatever explains it.
  lemma DataExplained(code: Coder, data: seq<Shard>, size: nat, present: seq<nat>, values: seq<Shard>, k: nat)
    requires forall k :: 0 <= k < |present| ==> present[k] < Shards(code)
    requires |values| == |present| && Explains(code, data, size, present, values)
    requires k < |present| && present[k] < code.data
    ensures data[present[k]] == values[k]
  {
    CombineUnit(data, size, present[k]);
  }

  lemma CombineUnit(data: seq<Shard>, size: nat, d: nat)
    requires Uniform(data, size) && d < |data|
    ensures Combine(Unit(|data|, d), data, size) == data[d]
  {
    hide Dot, Unit;
    forall b | 0 <= b < size ensures Dot(Unit(|data|, d), Column(data, size, b)) == data[d][b] {
      DotUnit(|data|, d, Column(data, size, b));
    }
  }

  // The data shards that came as they are, the others from the inverse.
  method Rebuild(t: Tables, code: Coder, shards: seq<Arrived>, inv: seq<Vector>, size: nat, present: seq<nat>)
    returns (out: seq<Shard>)
    requires Tabled(t) && |shards| == Shards(code)
    requires present == First(Present(shards), code.data) && |present| == code.data && SameSize(shards, present, size)
    requires Square(inv, code.data) && Inverts(inv, Rows(code, present), code.data)
    ensures Explains(code, out, size, present, Values(shards, present, size))
  {
    hide Tabled, Row, Combine, Inverts, First, Rows, Present, Explains;
    var values := Values(shards, present, size);
    ghost var data := Inverted(inv, values, size);
    InvertedExplains(code, inv, present, values, size);
    out := [];
    for d := 0 to code.data
      invariant out == data[..d]
    {
      if shards[d].Some? {
        ExplainedShard(code, shards, data, size, present, d);
        out := out + [shards[d].value];
      } else {
        var s := Combined(t, inv[d], values, size);
        out := out + [s];
      }
    }
    assert out == data;
  }

  lemma ExplainedShard(code: Coder, shards: seq<Arrived>, data: seq<Shard>, size: nat, present: seq<nat>, d: nat)
    requires |shards| == Shards(code) && d < code.data && shards[d].Some?
    requires present == First(Present(shards), code.data) && SameSize(shards, present, size)
    requires Explains(code, data, size, present, Values(shards, present, size))
    ensures |data| == code.data && data[d] == shards[d].value
  {
    hide Combine, Row, First;
    DataAmongFirst(shards, code.data, d);
    var k :| 0 <= k < |present| && present[k] == d;
    DataExplained(code, data, size, present, Values(shards, present, size), k);
  }

  method Recover(t: Tables, code: Coder, shards: seq<Arrived>) returns (r: Option<seq<Shard>>)
    requires Tabled(t)
    ensures r == Recovered(code, shards)
  {
    hide Tabled, Regular, Rows, Combine, Inverts, Explains, Values;
    var n := code.data;
    if |shards| != Shards(code) {
      return None;
    }
    if forall i :: 0 <= i < n ==> shards[i].Some? {
      return Some(DataOf(shards, n));
    }
    var present := First(Present(shards), n);
    if |present| < n {
      return None;
    }
    var size := |shards[present[0]].value|;
    if !SameSize(shards, present, size) {
      return None;
    }
    var inv := Solve(t, Rows(code, present), n);
    if inv.None? {
      return None;
    }
    var data := Rebuild(t, code, shards, inv.value, size, present);
    OnlyExplanation(code, shards, data, size, present);
    r := Some(data);
  }

  lemma OnlyExplanation(code: Coder, shards: seq<Arrived>, data: seq<Shard>, size: nat, present: seq<nat>)
    requires |shards| == Shards(code) && exists i :: 0 <= i < code.data && shards[i].None?
    requires present == First(Present(shards), code.data) && |present| == code.data
    requires size == |shards[present[0]].value| && SameSize(shards, present, size)
    requires Regular(Rows(code, present), code.data)
    requires Explains(code, data, size, present, Values(shards, present, size))
    ensures Recovered(code, shards) == Some(data)
  {
    hide Regular, Row, Combine, Rows, Explains;
    var values := Values(shards, present, size);
    forall other | Explains(code, other, size, present, values) ensures other == data {
      ExplainsOnce(code, data, other, size, present, values);
    }
  }

  // ---- What recovery gives ----

  // Shard `index` of the coded data.
  function Coded(code: Coder, data: seq<Shard>, size: nat, index: nat): Shard
    requires |data| == code.data && Uniform(data, size) && index < Shards(code)
  {
    Combine(Row(code, index), data, size)
  }

  // Of shards coded from `data`, recovery gives the data back when no data shard is missing, or the first n that came
  // have independent rows, and otherwise nothing.
  lemma RecoversData(code: Coder, data: seq<Shard>, size: nat, shards: seq<Arrived>)
    requires |data| == code.data && Uniform(data, size) && |shards| == Shards(code)
    requires forall i :: 0 <= i < |shards| && shards[i].Some? ==> shards[i].value == Coded(code, data, size, i)
    ensures var present := First(Present(shards), code.data);
            Recovered(code, shards)
            == if (forall i :: 0 <= i < code.data ==> shards[i].Some?)
                  || (|present| == code.data && Regular(Rows(code, present), code.data))
               then Some(data) else None
  {
    hide Regular, Row, Combine, Rows;
    var present := First(Present(shards), code.data);
    if forall i :: 0 <= i < code.data ==> shards[i].Some? {
      forall i | 0 <= i < code.data ensures shards[i].value == data[i] {
        CodedData(code, data, size, i);
      }
      assert DataOf(shards, code.data) == data;
    } else if |present| == code.data && Regular(Rows(code, present), code.data) {
      assert SameSize(shards, present, size);
      assert Explains(code, data, size, present, Values(shards, present, size));
      OnlyExplanation(code, shards, data, size, present);
    }
  }

  lemma CodedData(code: Coder, data: seq<Shard>, size: nat, i: nat)
    requires |data| == code.data && Uniform(data, size) && i < code.data
    ensures Coded(code, data, size, i) == data[i]
  {
    hide Combine, Unit;
    CombineUnit(data, size, i);
  }

  lemma CodedParity(code: Coder, data: seq<Shard>, size: nat, j: nat)
    requires |data| == code.data && Uniform(data, size) && j < |code.parity|
    ensures Coded(code, data, size, code.data + j) == Parities(code, data, size)[j]
  {}

  // With a Cauchy matrix any n shards will do.
  lemma CauchyRecovers(data: seq<Shard>, parity: nat, size: nat, shards: seq<Arrived>)
    requires |data| > 0 && |data| + parity <= 256 && Uniform(data, size)
    requires |shards| == |data| + parity && |Present(shards)| >= |data|
    requires var code := Cauchy(|data|, parity).value;
             forall i :: 0 <= i < |shards| && shards[i].Some? ==> shards[i].value == Coded(code, data, size, i)
    ensures Recovered(Cauchy(|data|, parity).value, shards) == Some(data)
  {
    hide Regular, Combine, PointRow;
    var code := Cauchy(|data|, parity).value;
    var present := First(Present(shards), |data|);
    RecoversData(code, data, size, shards);
    AnyRowsRegular(|data|, present, Rows(code, present));
  }

  // Too many or too few places, too few shards, or shards of different sizes among the first n recover nothing, unless
  // every data shard came: then they are returned as they are.
  lemma RecoverRefuses(code: Coder, shards: seq<Arrived>)
    ensures |shards| != Shards(code) ==> Recovered(code, shards) == None
    ensures |shards| == Shards(code) && (forall i :: 0 <= i < code.data ==> shards[i].Some?) ==>
              var r := Recovered(code, shards);
              r.Some? && |r.value| == code.data && forall i :: 0 <= i < code.data ==> r.value[i] == shards[i].value
    ensures |shards| == Shards(code) && (exists i :: 0 <= i < code.data && shards[i].None?) ==>
              var present := First(Present(shards), code.data);
              |present| < code.data || Differ(shards, present) ==> Recovered(code, shards) == None
  {
    hide Regular, Rows, Values, Explains;
  }

  predicate Differ(shards: seq<Arrived>, present: seq<nat>)
    requires forall k :: 0 <= k < |present| ==> present[k] < |shards| && shards[present[k]].Some?
  {
    exists j, k :: 0 <= j < k < |present| && |shards[present[j]].value| != |shards[present[k]].value|
  }
}
