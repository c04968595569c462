/**
 The field of 256 elements, the polynomials over bits modulo 0x11d: addition is
 `^`, and multiplication adds logarithms to the base 2.
 */
module GaloisField {
  import opened Counting

  type Elem = bv8

  // Addition.
  function Add(a: Elem, b: Elem): Elem {
    a ^ b
  }

  lemma AddLaws(a: Elem, b: Elem, c: Elem)
    ensures Add(a, b) == Add(b, a)
    ensures Add(a, Add(b, c)) == Add(Add(a, b), c)
    ensures Add(a, 0) == a && Add(0, a) == a && Add(a, a) == 0
  {}

  lemma AddSwap(a: Elem, b: Elem, c: Elem, d: Elem)
    ensures Add(Add(a, b), Add(c, d)) == Add(Add(a, c), Add(b, d))
  {
    hide Add;
    AddLaws(a, b, Add(c, d));
    AddLaws(b, c, d);
    AddLaws(c, b, d);
    AddLaws(a, c, Add(b, d));
  }

  // ---- Doubling ----

  function Shift(a: Elem): Elem {
    a << 1
  }

  function Carry(a: Elem): Elem {
    if a & 0x80 != 0 then 0x1d else 0
  }

  function Twice(a: Elem): Elem {
    Add(Shift(a), Carry(a))
  }

  lemma TwiceAdds(a: Elem, b: Elem)
    ensures Twice(Add(a, b)) == Add(Twice(a), Twice(b))
  {
    hide Carry, Shift, Add;
    ShiftAdds(a, b);
    CarryAdds(a, b);
    AddSwap(Shift(a), Shift(b), Carry(a), Carry(b));
  }

  lemma ShiftAdds(a: Elem, b: Elem)
    ensures Shift(Add(a, b)) == Add(Shift(a), Shift(b))
  {}

  lemma CarryAdds(a: Elem, b: Elem)
    ensures Carry(Add(a, b)) == Add(Carry(a), Carry(b))
  {}

  lemma TwiceInjective(a: Elem, b: Elem)
    requires Twice(a) == Twice(b)
    ensures a == b
  {}

  function Times(n: nat, a: Elem): Elem {
    if n == 0 then a else Twice(Times(n - 1, a))
  }

  lemma {:induction false} TimesAdds(n: nat, a: Elem, b: Elem)
    ensures Times(n, Add(a, b)) == Add(Times(n, a), Times(n, b))
  {
    hide Twice, Add;
    if n > 0 {
      TimesAdds(n - 1, a, b);
      TwiceAdds(Times(n - 1, a), Times(n - 1, b));
    }
  }

  lemma {:induction false} TimesInjective(n: nat, a: Elem, b: Elem)
    requires Times(n, a) == Times(n, b)
    ensures a == b
  {
    hide Twice;
    if n > 0 {
      TwiceInjective(Times(n - 1, a), Times(n - 1, b));
      TimesInjective(n - 1, a, b);
    }
  }

  lemma {:induction false} TimesTimes(m: nat, n: nat, a: Elem)
    ensures Times(m, Times(n, a)) == Times(m + n, a)
  {
    hide Twice;
    if m > 0 {
      TimesTimes(m - 1, n, a);
    }
  }

  lemma {:induction false} TimesZero(n: nat)
    ensures Times(n, 0) == 0
  {
    hide Twice;
    if n > 0 {
      TimesZero(n - 1);
      assert Twice(0) == 0 by { TwiceAdds(0, 0); }
    }
  }

  // ---- Powers of 2 ----

  function Exp(n: nat): Elem {
    Times(n, 1)
  }

  function Times5(a: Elem): (r: Elem)
    ensures r == Times(5, a)
  {
    hide Twice;
    assert Times(1, a) == Twice(a);
    assert Times(3, a) == Twice(Twice(Times(1, a)));
    Twice(Twice(Twice(Twice(Twice(a)))))
  }

  // Fifteen doublings at a time.
  function Times15(a: Elem): (r: Elem)
    ensures r == Times(15, a)
  {
    hide Twice, Times;
    TimesTimes(5, 5, a);
    TimesTimes(5, 10, a);
    Times5(Times5(Times5(a)))
  }

  lemma Exp15(n: nat)
    ensures Exp(n + 15) == Times15(Exp(n))
  {
    hide Times, Times15;
    TimesTimes(15, n, 1);
  }

  lemma Doublings()
    ensures Times15(0x01) == 0x26
    ensures Times15(0x26) == 0x60
    ensures Times15(0x60) == 0xc1
    ensures Times15(0xc1) == 0xb9
    ensures Times15(0xb9) == 0x0f
    ensures Times15(0x0f) == 0xdf
  {}

  lemma MoreDoublings()
    ensures Times15(0xdf) == 0x1a
    ensures Times15(0x1a) == 0x3b
    ensures Times15(0x3b) == 0xa9
    ensures Times15(0xa9) == 0x55
    ensures Times15(0x55) == 0x91
    ensures Times15(0x91) == 0x96
  {}

  lemma LastDoublings()
    ensures Times15(0x96) == 0x64
    ensures Times15(0x64) == 0x59
    ensures Times15(0x59) == 0x24
    ensures Times15(0x24) == 0x2c
    ensures Times15(0x2c) == 0x01
  {}

  lemma PowersOf15()
    ensures Exp(45) == 0xc1 && Exp(75) == 0x0f && Exp(15) == 0x26 && Exp(255) == 1
  {
    hide Times, Exp, Times15;
    Zeroth();
    Doublings(); MoreDoublings(); LastDoublings();
    Exp15(0); Exp15(15); Exp15(30); Exp15(45); Exp15(60); Exp15(75); Exp15(90); Exp15(105); Exp15(120);
    Exp15(135); Exp15(150); Exp15(165); Exp15(180); Exp15(195); Exp15(210); Exp15(225); Exp15(240);
  }

  lemma Zeroth()
    ensures Exp(0) == 1
  {}

  // 255 doublings change nothing, and the powers whose exponents divide 255 are not 1.
  lemma Order()
    ensures Exp(255) == 1 && Exp(15) != 1 && Exp(51) != 1 && Exp(85) != 1
  {
    hide Times, Times5, Exp;
    PowersOf15();
    assert Exp(50) == Times5(Exp(45)) by { Exp5(45); }
    assert Exp(51) == Twice(Exp(50)) by { Exp1(50); }
    assert Exp(80) == Times5(Exp(75)) by { Exp5(75); }
    assert Exp(85) == Times5(Exp(80)) by { Exp5(80); }
    FewSteps();
  }

  lemma FewSteps()
    ensures Times5(0xc1) == 0x05 && Twice(0x05) == 0x0a
    ensures Times5(0x0f) == 0xfd && Times5(0xfd) == 0xd6
  {}

  lemma Exp1(n: nat)
    ensures Exp(n + 1) == Twice(Exp(n))
  {
    hide Twice;
  }

  lemma Exp5(n: nat)
    ensures Exp(n + 5) == Times5(Exp(n))
  {
    hide Times, Times5;
    TimesTimes(5, n, 1);
  }

  // A number of doublings below 255 that changes nothing, divided into 255, leaves a smaller one.
  lemma {:induction false} OrderIsNoLess(d: nat)
    requires 0 < d < 255
    ensures Exp(d) != 1
  {
    hide Times, Exp;
    if Exp(d) == 1 {
      Order();
      var q, r := 255 / d, 255 % d;
      ExpMultiple(d, q, r);
      if r > 0 {
        OrderIsNoLess(r);
      } else {
        Divisors(d);
        if 15 % d == 0 {
          ExpMultiple(d, 15 / d, 0);
        } else if 51 % d == 0 {
          ExpMultiple(d, 51 / d, 0);
        } else {
          ExpMultiple(d, 85 / d, 0);
        }
      }
    }
  }

  lemma {:induction false} ExpMultiple(d: nat, q: nat, r: nat)
    requires Exp(d) == 1
    ensures Exp(d * q + r) == Exp(r)
  {
    hide Times;
    if q > 0 {
      ExpMultiple(d, q - 1, r);
      TimesTimes(d * (q - 1) + r, d, 1);
      assert d * (q - 1) + r + d == d * q + r;
    }
  }

  lemma Divisors(d: nat)
    requires 0 < d < 255 && 255 % d == 0
    ensures 15 % d == 0 || 51 % d == 0 || 85 % d == 0
  {
    var q := 255 / d;
    assert q * d == 255;
    if d <= 15 {
      assert d == 1 || d == 2 || d == 3 || d == 4 || d == 5 || d == 6 || d == 7 || d == 8
        || d == 9 || d == 10 || d == 11 || d == 12 || d == 13 || d == 14 || d == 15;
    } else {
      assert q <= 15;
      assert q == 1 || q == 2 || q == 3 || q == 4 || q == 5 || q == 6 || q == 7 || q == 8
        || q == 9 || q == 10 || q == 11 || q == 12 || q == 13 || q == 14 || q == 15;
    }
  }

  lemma ExpInjective(i: nat, j: nat)
    requires i < j < 255
    ensures Exp(i) != Exp(j)
  {
    hide Times;
    TimesTimes(i, j - i, 1);
    if Exp(i) == Exp(j) {
      TimesInjective(i, 1, Exp(j - i));
      OrderIsNoLess(j - i);
    }
  }

  lemma ExpNotZero(n: nat)
    ensures Exp(n) != 0
  {
    hide Times;
    TimesZero(n);
    if Exp(n) == 0 {
      TimesInjective(n, 1, 0);
    }
  }

  function Number(a: Elem): nat {
    a as int
  }

  lemma NumberInjective(a: Elem, b: Elem)
    ensures Number(a) < 256
    ensures Number(a) == Number(b) ==> a == b
  {
    assert Number(a) as Elem == a && Number(b) as Elem == b;
  }

  // The 255 powers of 2 are all different, so they are all the elements but 0.
  lemma EveryIsAPower(a: Elem)
    requires a != 0
    ensures exists i :: 0 <= i < 255 && Exp(i) == a
  {
    hide Exp, Times, Number;
    assert Number(0) == 0 by { NumberOfZero(); }
    NumberInjective(a, 0);
    var powers := seq(255, i requires 0 <= i < 255 => Number(Exp(i)));
    forall i, j | 0 <= i < j < 255
      ensures powers[i] != powers[j]
    {
      ExpInjective(i, j);
      NumberInjective(Exp(i), Exp(j));
    }
    MembersSize(powers);
    RangeSize(1, 256);
    forall i | 0 <= i < 255
      ensures powers[i] in Range(1, 256)
    {
      ExpNotZero(i);
      NumberInjective(Exp(i), 0);
    }
    SubsetSize(Members(powers), Range(1, 256));
    assert Number(a) in Members(powers);
    var i :| 0 <= i < 255 && powers[i] == Number(a);
    NumberInjective(Exp(i), a);
  }

  lemma NumberOfZero()
    ensures Number(0) == 0
  {}

  function Log(a: Elem): (i: nat)
    requires a != 0
    ensures i < 255 && Exp(i) == a
  {
    hide Exp;
    EveryIsAPower(a);
    OnePowerOnly();
    var i: nat :| i < 255 && Exp(i) == a;
    i
  }

  lemma OnePowerOnly()
    ensures forall i: nat, j: nat :: i < 255 && j < 255 && Exp(i) == Exp(j) ==> i == j
  {
    hide Exp;
    forall i: nat, j: nat | i < j < 255
      ensures Exp(i) != Exp(j)
    {
      ExpInjective(i, j);
    }
  }

  function Mul(a: Elem, b: Elem): Elem {
    if a == 0 || b == 0 then 0 else Exp(Log(a) + Log(b))
  }

  function Inverse(a: Elem): Elem
    requires a != 0
  {
    Exp(255 - Log(a))
  }

  // ---- The field ----

  // Multiplying is doubling over and over.
  lemma MulIsTimes(a: Elem, b: Elem)
    requires a != 0
    ensures Mul(a, b) == Times(Log(a), b)
  {
    hide Times, Exp, Log;
    TimesZero(Log(a));
    if b != 0 {
      TimesExp(Log(a), Log(b));
    }
  }

  lemma TimesExp(m: nat, n: nat)
    ensures Times(m, Exp(n)) == Exp(m + n)
  {
    hide Times;
    TimesTimes(m, n, 1);
  }

  lemma MulCommutes(a: Elem, b: Elem)
    ensures Mul(a, b) == Mul(b, a)
  {}

  lemma MulAdds(a: Elem, b: Elem, c: Elem)
    ensures Mul(a, Add(b, c)) == Add(Mul(a, b), Mul(a, c))
    ensures Mul(Add(b, c), a) == Add(Mul(b, a), Mul(c, a))
  {
    hide Times, Mul, Add;
    AddLaws(0, 0, 0);
    MulCommutes(a, Add(b, c));
    MulCommutes(a, b);
    MulCommutes(a, c);
    if a == 0 {
      ByZero(b); ByZero(c); ByZero(Add(b, c));
    } else {
      MulIsTimes(a, b); MulIsTimes(a, c); MulIsTimes(a, Add(b, c));
      TimesAdds(Log(a), b, c);
    }
  }

  lemma ByZero(a: Elem)
    ensures Mul(a, 0) == 0 && Mul(0, a) == 0
  {}

  lemma MulAssociates(a: Elem, b: Elem, c: Elem)
    ensures Mul(a, Mul(b, c)) == Mul(Mul(a, b), c)
  {
    hide Times, Mul;
    MulCommutes(Mul(a, b), c);
    MulCommutes(b, c);
    ByZero(a); ByZero(b); ByZero(c);
    if a == 0 {
      ByZero(Mul(b, c));
    } else if c == 0 {
      ByZero(Mul(a, b));
    } else {
      // Both are b, doubled as often as a and c say, in one order or the other.
      MulIsTimes(a, b);
      MulIsTimes(a, Mul(c, b));
      MulIsTimes(c, b);
      MulIsTimes(c, Mul(a, b));
      TimesTimes(Log(a), Log(c), b);
      TimesTimes(Log(c), Log(a), b);
    }
  }

  lemma ByOne(a: Elem)
    ensures Mul(1, a) == a && Mul(a, 1) == a
  {
    hide Times, Mul, Exp, Log;
    MulCommutes(1, a);
    MulIsTimes(1, a);
    LogOfOne();
    TimesNone(a);
  }

  lemma TimesNone(a: Elem)
    ensures Times(0, a) == a
  {}

  lemma LogOfOne()
    ensures Log(1) == 0
  {
    hide Exp;
    Zeroth();
    if Log(1) > 0 {
      OrderIsNoLess(Log(1));
    }
  }

  lemma MulInverse(a: Elem)
    requires a != 0
    ensures Inverse(a) != 0 && Mul(a, Inverse(a)) == 1
  {
    hide Times, Mul, Exp, Log;
    ExpNotZero(255 - Log(a));
    MulIsTimes(a, Inverse(a));
    TimesExp(Log(a), 255 - Log(a));
    Order();
  }

  // A product is 0 only if a factor is.
  lemma NoZeroDivisors(a: Elem, b: Elem)
    requires a != 0 && b != 0
    ensures Mul(a, b) != 0
  {
    hide Exp, Log;
    ExpNotZero(Log(a) + Log(b));
  }

  // ---- Tables ----

  // The powers up to 509, and the logarithm of every element but 0.
  datatype Tables = Tables(log: seq<nat>, exp: seq<Elem>)

  ghost predicate Tabled(t: Tables) {
    && |t.log| == 256 && |t.exp| == 512
    && (forall i :: 0 <= i < 510 ==> t.exp[i] == Exp(i))
    && (forall a: Elem :: a != 0 ==> Number(a) < 256 && t.log[Number(a)] == Log(a))
  }

  // Doubling in a wider word, with the polynomial taken off when it overflows.
  function Doubled(x: bv16): bv16 {
    if (x << 1) & 0x100 != 0 then (x << 1) ^ 0x11d else x << 1
  }

  function Low(x: bv16): Elem
    requires x < 0x100
  {
    x as Elem
  }

  lemma DoubledIsTwice(x: bv16)
    requires x < 0x100
    ensures Doubled(x) < 0x100 && Low(Doubled(x)) == Twice(Low(x))
  {}

  // The tables after the first i powers.
  ghost predicate Filled(log: seq<nat>, exp: seq<Elem>, i: nat)
    requires i <= 255
  {
    && |log| == 256 && |exp| == 512
    && (forall k :: 0 <= k < i ==> exp[k] == Exp(k) && exp[k + 255] == Exp(k))
    && (forall k :: 0 <= k < i ==> Number(Exp(k)) < 256 && log[Number(Exp(k))] == k)
  }

  lemma FillNext(log: seq<nat>, exp: seq<Elem>, i: nat)
    requires i < 255 && Filled(log, exp, i)
    ensures Number(Exp(i)) < 256
    ensures Filled(log[Number(Exp(i)) := i], exp[i := Exp(i)][i + 255 := Exp(i)], i + 1)
  {
    hide Exp, Number;
    NumberInjective(Exp(i), 0);
    forall k | 0 <= k < i ensures Number(Exp(k)) != Number(Exp(i)) {
      ExpInjective(k, i);
      NumberInjective(Exp(k), Exp(i));
    }
  }

  method BuildTables() returns (t: Tables)
    ensures Tabled(t)
  {
    hide Exp, Number, Twice, Doubled, Low, Filled, Tabled;
    var log := new nat[256](_ => 0);
    var exp := new Elem[512](_ => 0);
    var x: bv16 := 1;
    assert Low(x) == Exp(0) && Filled(log[..], exp[..], 0) by { Unfilled(log[..], exp[..]); }
    var i := 0;
    while i < 255
      invariant 0 <= i <= 255 && x < 0x100 && Low(x) == Exp(i)
      invariant Filled(log[..], exp[..], i)
    {
      FillNext(log[..], exp[..], i);
      ghost var logs, exps := log[..], exp[..];
      exp[i] := Low(x);
      exp[i + 255] := Low(x);
      log[Number(Low(x))] := i;
      assert log[..] == logs[Number(Exp(i)) := i] && exp[..] == exps[i := Exp(i)][i + 255 := Exp(i)];
      DoubledIsTwice(x);
      Exp1(i);
      x := Doubled(x);
      i := i + 1;
    }
    t := Tables(log[..], exp[..]);
    TablesDone(t);
  }

  lemma Unfilled(log: seq<nat>, exp: seq<Elem>)
    requires |log| == 256 && |exp| == 512
    ensures Low(1) == Exp(0) && Filled(log, exp, 0)
  {}

  lemma TablesDone(t: Tables)
    requires Filled(t.log, t.exp, 255)
    ensures Tabled(t)
  {
    hide Exp, Number;
    forall i: nat | 255 <= i < 510 ensures t.exp[i] == Exp(i) {
      Order();
      ExpMultiple(255, 1, i - 255);
      assert t.exp[(i - 255) + 255] == Exp(i - 255);
    }
    forall a: Elem | a != 0 ensures Number(a) < 256 && t.log[Number(a)] == Log(a) {
      assert Number(Exp(Log(a))) < 256;
    }
  }

  method Multiply(t: Tables, a: Elem, b: Elem) returns (p: Elem)
    requires Tabled(t)
    ensures p == Mul(a, b)
  {
    if a == 0 || b == 0 {
      return 0;
    }
    p := t.exp[t.log[Number(a)] + t.log[Number(b)]];
  }

  method Invert(t: Tables, a: Elem) returns (r: Elem)
    requires Tabled(t) && a != 0
    ensures r == Inverse(a)
  {
    r := t.exp[255 - t.log[Number(a)]];
  }
}
