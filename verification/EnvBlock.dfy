/** Windows environment blocks, in UTF-16 code units: setting variables over others, sorting, writing and reading. */
module EnvBlock {
  import opened Wrappers
  import opened Words
  import opened Sequences

  type Units = seq<u16>

  const EQUALS: u16 := 61

  datatype Variable = Variable(name: Units, value: Units)

  // ---- Names without case ----

  function AsciiUpper(unit: u16): u16 {
    if 97 <= unit <= 122 then unit - 32 else unit
  }

  predicate SameName(a: Units, b: Units) {
    |a| == |b| && forall i :: 0 <= i < |a| ==> AsciiUpper(a[i]) == AsciiUpper(b[i])
  }

  // Two names are one when they are as long as each other and at every place hold the same unit, or an ASCII letter in
  // either case.
  lemma SameNameMeans(a: Units, b: Units)
    ensures SameName(a, b) <==>
              |a| == |b| && forall i :: 0 <= i < |a| ==>
                a[i] == b[i] || (65 <= a[i] <= 90 && b[i] == a[i] + 32) || (65 <= b[i] <= 90 && a[i] == b[i] + 32)
  {}

  // ---- Setting variables ----

  function Retain(vars: seq<Variable>, name: Units): seq<Variable> {
    if vars == [] then []
    else
      Retain(vars[..|vars| - 1], name)
      + if SameName(vars[|vars| - 1].name, name) then [] else [vars[|vars| - 1]]
  }

  function SetAll(base: seq<Variable>, extra: seq<Variable>): seq<Variable> {
    if extra == [] then base
    else
      var v := extra[|extra| - 1];
      Retain(SetAll(base, extra[..|extra| - 1]), v.name) + [v]
  }

  predicate Names(vars: seq<Variable>, name: Units) {
    exists i :: 0 <= i < |vars| && SameName(vars[i].name, name)
  }

  // The variables no `extra` one takes the place of.
  function Untouched(base: seq<Variable>, extra: seq<Variable>): seq<Variable> {
    if base == [] then []
    else
      Untouched(base[..|base| - 1], extra) + if Names(extra, base[|base| - 1].name) then [] else [base[|base| - 1]]
  }

  // The last variable of each name.
  function LastOfEach(extra: seq<Variable>): seq<Variable> {
    if extra == [] then []
    else if Names(extra[1..], extra[0].name) then LastOfEach(extra[1..])
    else [extra[0]] + LastOfEach(extra[1..])
  }

  lemma {:induction false} RetainSplit(a: seq<Variable>, b: seq<Variable>, name: Units)
    ensures Retain(a + b, name) == Retain(a, name) + Retain(b, name)
  {
    if b == [] {
      assert a + b == a;
    } else {
      RetainSplit(a, b[..|b| - 1], name);
      assert (a + b)[..|a + b| - 1] == a + b[..|b| - 1];
    }
  }

  lemma {:induction false} RetainUntouched(base: seq<Variable>, extra: seq<Variable>, v: Variable)
    ensures Retain(Untouched(base, extra), v.name) == Untouched(base, extra + [v])
  {
    hide Names, SameName;
    if base != [] {
      var init, last := base[..|base| - 1], base[|base| - 1];
      var before, after := Untouched(init, extra), Untouched(init, extra + [v]);
      RetainUntouched(init, extra, v);
      NamesAppend(extra, v, last.name);
      assert before + [] == before && after + [] == after;
      if !Names(extra, last.name) {
        RetainSplit(Untouched(init, extra), [last], v.name);
        RetainOne(last, v.name);
        SameNameSymmetric(last.name, v.name);
      }
    }
  }

  lemma RetainOne(v: Variable, name: Units)
    ensures Retain([v], name) == if SameName(v.name, name) then [] else [v]
  {
    assert [v][..0] == [];
  }

  lemma SameNameSymmetric(a: Units, b: Units)
    ensures SameName(a, b) <==> SameName(b, a)
  {}

  lemma NamesAppend(extra: seq<Variable>, v: Variable, name: Units)
    ensures Names(extra + [v], name) <==> Names(extra, name) || SameName(v.name, name)
  {
    var all := extra + [v];
    assert forall i :: 0 <= i < |extra| ==> all[i] == extra[i];
    assert all[|extra|] == v;
    if i :| 0 <= i < |extra| && SameName(extra[i].name, name) {
      assert SameName(all[i].name, name);
    }
  }

  lemma LastOfEachStep(first: Variable, rest: seq<Variable>)
    ensures LastOfEach([first] + rest)
            == if Names(rest, first.name) then LastOfEach(rest) else [first] + LastOfEach(rest)
  {
    assert ([first] + rest)[1..] == rest;
  }

  lemma {:induction false} LastOfEachAppend(extra: seq<Variable>, v: Variable)
    ensures LastOfEach(extra + [v]) == Retain(LastOfEach(extra), v.name) + [v]
  {
    if extra == [] {
      NoneBefore([v]);
      LastOfEachStep(v, []);
    } else {
      hide Names, SameName, Retain, LastOfEach;
      var first, rest := extra[0], extra[1..];
      var kept := Retain(LastOfEach(rest), v.name);
      LastOfEachAppend(rest, v);
      assert extra == [first] + rest;
      Assoc([first], rest, [v]);
      LastOfEachStep(first, rest);
      LastOfEachStep(first, rest + [v]);
      NamesAppend(rest, v, first.name);
      if !Names(rest, first.name) {
        RetainSplit([first], LastOfEach(rest), v.name);
        SameNameSymmetric(first.name, v.name);
        RetainOne(first, v.name);
        NoneBefore(kept);
        Assoc([first], kept, [v]);
      }
    }
  }

  // Setting variables one after the other keeps every base variable whose name is not among them, in order, and
  // adds each name once, as it was last set.
  lemma {:induction false} SetAllMeans(base: seq<Variable>, extra: seq<Variable>)
    ensures SetAll(base, extra) == Untouched(base, extra) + LastOfEach(extra)
  {
    hide Retain, Untouched, LastOfEach;
    if extra == [] {
      NothingTouched(base);
      assert LastOfEach([]) == [] by { LastOfNone(); }
      assert base + [] == base;
    } else {
      var init, v := extra[..|extra| - 1], extra[|extra| - 1];
      SetAllMeans(base, init);
      RetainSplit(Untouched(base, init), LastOfEach(init), v.name);
      RetainUntouched(base, init, v);
      LastOfEachAppend(init, v);
      assert init + [v] == extra;
    }
  }

  lemma LastOfNone()
    ensures LastOfEach([]) == []
  {}

  lemma {:induction false} NothingTouched(base: seq<Variable>)
    ensures Untouched(base, []) == base
  {
    if base != [] {
      NothingTouched(base[..|base| - 1]);
    }
  }

  lemma SameNameTransitive(a: Units, b: Units, c: Units)
    requires SameName(a, b) && SameName(b, c)
    ensures SameName(a, c)
  {}

  lemma NamesPrepend(first: Variable, rest: seq<Variable>, name: Units)
    ensures Names([first] + rest, name) <==> SameName(first.name, name) || Names(rest, name)
  {
    var all := [first] + rest;
    assert all[0] == first && forall i :: 0 <= i < |rest| ==> all[i + 1] == rest[i];
    if i :| 0 <= i < |rest| && SameName(rest[i].name, name) {
      assert SameName(all[i + 1].name, name);
    }
    if i :| 0 <= i < |all| && SameName(all[i].name, name) {
      assert i > 0 ==> rest[i - 1] == all[i];
    }
  }

  lemma NamesThrough(vars: seq<Variable>, a: Units, b: Units)
    requires Names(vars, a) && SameName(a, b)
    ensures Names(vars, b)
  {
    var i :| 0 <= i < |vars| && SameName(vars[i].name, a);
    SameNameTransitive(vars[i].name, a, b);
  }

  // The variables set keep their names, each once, ignoring case.
  lemma {:induction false} LastOfEachOnce(extra: seq<Variable>)
    ensures var last := LastOfEach(extra);
            && (forall i, j :: 0 <= i < j < |last| ==> !SameName(last[i].name, last[j].name))
            && (forall name :: Names(last, name) <==> Names(extra, name))
  {
    hide SameName, Names;
    if extra == [] {
      assert LastOfEach(extra) == extra;
    } else {
      var first, rest := extra[0], extra[1..];
      assert extra == [first] + rest;
      LastOfEachStep(first, rest);
      LastOfEachOnce(rest);
      var kept := LastOfEach(rest);
      forall name
        ensures Names(LastOfEach(extra), name) <==> Names(extra, name)
      {
        NamesPrepend(first, rest, name);
        NamesPrepend(first, kept, name);
        if Names(rest, first.name) && SameName(first.name, name) {
          NamesThrough(rest, first.name, name);
        }
      }
      if !Names(rest, first.name) {
        forall j | 0 <= j < |kept|
          ensures !SameName(first.name, kept[j].name)
        {
          SameNameSymmetric(first.name, kept[j].name);
          if SameName(kept[j].name, first.name) {
            NamesHas(kept, j, first.name);
          }
        }
      }
    }
  }

  lemma NamesHas(vars: seq<Variable>, i: nat, name: Units)
    requires i < |vars| && SameName(vars[i].name, name)
    ensures Names(vars, name)
  {}

  // ---- Sorting ----

  // What names are sorted by, upper-cased: compared unit by unit.
  type Key = seq<nat>

  type Upper = Units -> Key

  predicate KeyLe(a: Key, b: Key) {
    a == [] || (b != [] && (a[0] < b[0] || (a[0] == b[0] && KeyLe(a[1..], b[1..]))))
  }

  lemma {:induction false} KeyOrder(a: Key, b: Key, c: Key)
    ensures KeyLe(a, a)
    ensures KeyLe(a, b) || KeyLe(b, a)
    ensures KeyLe(a, b) && KeyLe(b, a) ==> a == b
    ensures KeyLe(a, b) && KeyLe(b, c) ==> KeyLe(a, c)
    decreases |a| + |b| + |c|
  {
    if a != [] {
      KeyOrder(a[1..], if b == [] then [] else b[1..], if c == [] then [] else c[1..]);
      if b != [] {
        assert a == [a[0]] + a[1..] && b == [b[0]] + b[1..];
      }
    }
  }

  // The order of dictionaries.
  lemma {:induction false} KeyLeMeans(a: Key, b: Key)
    ensures KeyLe(a, b) <==> a <= b || exists i :: 0 <= i < |a| && i < |b| && a[..i] == b[..i] && a[i] < b[i]
  {
    if a != [] && b != [] {
      KeyLeMeans(a[1..], b[1..]);
      assert a == [a[0]] + a[1..] && b == [b[0]] + b[1..];
      if a[0] < b[0] {
        assert a[..0] == b[..0];
      } else if a[0] == b[0] {
        if i :| 0 <= i < |a| - 1 && i < |b| - 1 && a[1..][..i] == b[1..][..i] && a[1..][i] < b[1..][i] {
          assert a[..i + 1] == [a[0]] + a[1..][..i] && b[..i + 1] == [b[0]] + b[1..][..i];
        }
        if i :| 0 <= i < |a| && i < |b| && a[..i] == b[..i] && a[i] < b[i] {
          assert a[1..][..i - 1] == a[..i][1..] && b[1..][..i - 1] == b[..i][1..];
        }
      } else {
        forall i | 0 <= i < |a| && i < |b| && a[i] < b[i] ensures a[..i] != b[..i] {
          if i > 0 {
            assert a[..i][0] == a[0] && b[..i][0] == b[0];
          }
        }
      }
    }
  }

  function Insert(v: Variable, vars: seq<Variable>, upper: Upper): seq<Variable> {
    if vars == [] || KeyLe(upper(vars[|vars| - 1].name), upper(v.name)) then vars + [v]
    else Insert(v, vars[..|vars| - 1], upper) + [vars[|vars| - 1]]
  }

  // A stable sort by upper-cased name.
  function SortByName(vars: seq<Variable>, upper: Upper): seq<Variable> {
    if vars == [] then [] else Insert(vars[|vars| - 1], SortByName(vars[..|vars| - 1], upper), upper)
  }

  ghost predicate Sorted(vars: seq<Variable>, upper: Upper) {
    forall i, j :: 0 <= i < j < |vars| ==> KeyLe(upper(vars[i].name), upper(vars[j].name))
  }

  // The variables whose names have one key, in order.
  function WithKey(vars: seq<Variable>, upper: Upper, key: Key): seq<Variable> {
    if vars == [] then []
    else
      WithKey(vars[..|vars| - 1], upper, key)
      + Picked(vars[|vars| - 1], upper, key)
  }

  lemma {:induction false} InsertSorted(v: Variable, vars: seq<Variable>, upper: Upper)
    requires Sorted(vars, upper)
    ensures Sorted(Insert(v, vars, upper), upper)
    ensures forall x :: x in Insert(v, vars, upper) <==> x in vars || x == v
  {
    if vars == [] {
    } else {
      var init, last := vars[..|vars| - 1], vars[|vars| - 1];
      assert vars == init + [last];
      KeyOrder(upper(last.name), upper(v.name), upper(v.name));
      if KeyLe(upper(last.name), upper(v.name)) {
        forall i | 0 <= i < |vars|
          ensures KeyLe(upper(vars[i].name), upper(v.name))
        {
          KeyOrder(upper(vars[i].name), upper(last.name), upper(v.name));
        }
      } else {
        InsertSorted(v, init, upper);
        var inserted := Insert(v, init, upper);
        forall i | 0 <= i < |inserted|
          ensures KeyLe(upper(inserted[i].name), upper(last.name))
        {
          assert inserted[i] in inserted;
        }
      }
    }
  }

  function Picked(v: Variable, upper: Upper, key: Key): seq<Variable> {
    if upper(v.name) == key then [v] else []
  }

  lemma WithKeyAppend(vars: seq<Variable>, v: Variable, upper: Upper, key: Key)
    ensures WithKey(vars + [v], upper, key) == WithKey(vars, upper, key) + Picked(v, upper, key)
  {
    assert (vars + [v])[..|vars|] == vars;
  }

  lemma PickedSwap(a: seq<Variable>, v: Variable, w: Variable, upper: Upper, key: Key)
    requires upper(v.name) != upper(w.name)
    ensures (a + Picked(v, upper, key)) + Picked(w, upper, key) == (a + Picked(w, upper, key)) + Picked(v, upper, key)
  {}

  lemma {:induction false} InsertStable(v: Variable, vars: seq<Variable>, upper: Upper, key: Key)
    ensures WithKey(Insert(v, vars, upper), upper, key) == WithKey(vars + [v], upper, key)
  {
    hide WithKey, KeyLe, Picked;
    if vars != [] && !KeyLe(upper(vars[|vars| - 1].name), upper(v.name)) {
      var init, last := vars[..|vars| - 1], vars[|vars| - 1];
      InsertStable(v, init, upper, key);
      KeyOrder(upper(last.name), upper(v.name), upper(v.name));
      WithKeyAppend(Insert(v, init, upper), last, upper, key);
      WithKeyAppend(init, v, upper, key);
      WithKeyAppend(init, last, upper, key);
      WithKeyAppend(vars, v, upper, key);
      assert vars == init + [last];
      PickedSwap(WithKey(init, upper, key), v, last, upper, key);
    }
  }

  // Sorted by name, with the variables of any one key in the order they had.
  lemma {:induction false} SortIsStable(vars: seq<Variable>, upper: Upper)
    ensures Sorted(SortByName(vars, upper), upper)
    ensures forall key :: WithKey(SortByName(vars, upper), upper, key) == WithKey(vars, upper, key)
    ensures forall x :: x in SortByName(vars, upper) <==> x in vars
  {
    if vars != [] {
      var init, v := vars[..|vars| - 1], vars[|vars| - 1];
      SortIsStable(init, upper);
      var sorted := SortByName(init, upper);
      InsertSorted(v, sorted, upper);
      hide WithKey, Insert, Sorted;
      assert vars == init + [v];
      forall key
        ensures WithKey(Insert(v, sorted, upper), upper, key) == WithKey(vars, upper, key)
      {
        InsertStable(v, sorted, upper, key);
        WithKeyAppend(sorted, v, upper, key);
        WithKeyAppend(init, v, upper, key);
      }
    }
  }

  // ---- Writing ----

  function EntryText(v: Variable): Units {
    v.name + [EQUALS] + v.value
  }

  function Written(vars: seq<Variable>): Units {
    if vars == [] then [] else EntryText(vars[0]) + ([0] + Written(vars[1..]))
  }

  function BlockOf(base: seq<Variable>, extra: seq<Variable>, upper: Upper): Units {
    var text := Written(SortByName(SetAll(base, extra), upper));
    (if text == [] then [0] else text) + [0]
  }

  method WriteBlock(base: seq<Variable>, extra: seq<Variable>, upper: Upper) returns (block: Units)
    ensures block == BlockOf(base, extra, upper)
  {
    var vars := base;
    for i := 0 to |extra|
      invariant vars == SetAll(base, extra[..i])
    {
      assert extra[..i + 1][..i] == extra[..i];
      vars := Retain(vars, extra[i].name);
      vars := vars + [extra[i]];
    }
    assert extra[..|extra|] == extra;
    vars := SortByName(vars, upper);
    block := [];
    assert vars[0..] == vars;
    NoneBefore(Written(vars));
    for i := 0 to |vars|
      invariant block + Written(vars[i..]) == Written(vars)
    {
      hide EntryText;
      ghost var was, rest := block, Written(vars[i + 1..]);
      assert vars[i..][0] == vars[i] && vars[i..][1..] == vars[i + 1..];
      block := block + EntryText(vars[i]);
      block := block + [0];
      Assoc(was, EntryText(vars[i]), [0] + rest);
      Assoc(was + EntryText(vars[i]), [0], rest);
    }
    assert vars[|vars|..] == [];
    NoneBefore(block);
    if block == [] {
      block := block + [0];
    }
    block := block + [0];
  }

  // ---- Text ----

  predicate High(unit: u16) {
    0xd800 <= unit < 0xdc00
  }

  predicate Low(unit: u16) {
    0xdc00 <= unit < 0xe000
  }

  // Units with every surrogate paired.
  predicate IsText(s: Units) {
    if s == [] then true
    else if High(s[0]) then |s| > 1 && Low(s[1]) && IsText(s[2..])
    else !Low(s[0]) && IsText(s[1..])
  }

  // The text units are read as: a surrogate without its other half becomes the replacement character.
  function Lossy(s: Units): (t: Units)
    ensures |t| == |s|
  {
    if s == [] then []
    else if High(s[0]) && |s| > 1 && Low(s[1]) then s[..2] + Lossy(s[2..])
    else [if High(s[0]) || Low(s[0]) then 0xfffd else s[0]] + Lossy(s[1..])
  }

  lemma {:induction false} LossyIsText(s: Units)
    ensures IsText(Lossy(s))
  {
    if s != [] {
      if High(s[0]) && |s| > 1 && Low(s[1]) {
        LossyIsText(s[2..]);
        assert Lossy(s)[2..] == Lossy(s[2..]);
      } else {
        LossyIsText(s[1..]);
        assert Lossy(s)[1..] == Lossy(s[1..]);
      }
    }
  }

  lemma {:induction false} TextIsKept(s: Units)
    requires IsText(s)
    ensures Lossy(s) == s
  {
    if s != [] {
      if High(s[0]) {
        TextIsKept(s[2..]);
        assert s == s[..2] + s[2..];
      } else {
        TextIsKept(s[1..]);
        assert s == [s[0]] + s[1..];
      }
    }
  }

  // Only surrogates are replaced, and only by the replacement character.
  lemma {:induction false} LossyUnits(s: Units, i: nat)
    requires i < |s|
    ensures Lossy(s)[i] == s[i] || ((High(s[i]) || Low(s[i])) && Lossy(s)[i] == 0xfffd)
  {
    if High(s[0]) && |s| > 1 && Low(s[1]) {
      if i >= 2 {
        LossyUnits(s[2..], i - 2);
      }
    } else if i >= 1 {
      LossyUnits(s[1..], i - 1);
    }
  }

  lemma LossyFirst(s: Units)
    requires s != []
    ensures Lossy(s)[0] >= 0x80 <==> s[0] >= 0x80
  {}

  lemma {:induction false} LossyNoNul(s: Units)
    requires 0 !in s
    ensures 0 !in Lossy(s)
  {
    if s != [] {
      assert s[0] in s;
      if High(s[0]) && |s| > 1 && Low(s[1]) {
        assert forall u :: u in s[2..] ==> u in s;
        LossyNoNul(s[2..]);
      } else {
        assert forall u :: u in s[1..] ==> u in s;
        LossyNoNul(s[1..]);
      }
    }
  }

  // An equals sign never falls inside a pair.
  lemma {:induction false} TextJoins(a: Units, b: Units)
    ensures IsText(a + [EQUALS] + b) <==> IsText(a) && IsText(b)
    decreases |a|
  {
    var s := a + [EQUALS] + b;
    if a == [] {
      assert s[1..] == b;
    } else if High(a[0]) {
      if |a| > 1 {
        TextJoins(a[2..], b);
        assert s[2..] == a[2..] + [EQUALS] + b;
      }
    } else {
      TextJoins(a[1..], b);
      assert s[1..] == a[1..] + [EQUALS] + b;
    }
  }

  // ---- Reading ----

  function Find(s: Units, unit: u16): (i: nat)
    ensures i <= |s| && unit !in s[..i] && (i < |s| ==> s[i] == unit)
  {
    if s == [] || s[0] == unit then 0
    else
      var i := 1 + Find(s[1..], unit);
      assert s[..i] == [s[0]] + s[1..][..i - 1];
      i
  }

  // The strings before the first empty one.
  function Entries(block: Units): seq<Units>
    decreases |block|
  {
    var end := Find(block, 0);
    if end == 0 then []
    else if end == |block| then [block]
    else [block[..end]] + Entries(block[end + 1..])
  }

  // What reading one string gives: a variable, nothing, or a panic.
  datatype Reading = Panics | Skipped | Holds(variable: Variable)

  // A name may start with an equals sign, so the search begins one byte in: not a place to cut the string if its first
  // character takes more than one.
  function ParseEntry(entry: Units): Reading
    requires entry != []
  {
    var text := Lossy(entry);
    if text[0] >= 0x80 then Panics
    else
      var split := Find(text[1..], EQUALS) + 1;
      if split == |text| then Skipped else Holds(Variable(text[..split], text[split + 1..]))
  }

  function ParseEntries(entries: seq<Units>): Option<seq<Variable>>
    requires forall e :: e in entries ==> e != []
  {
    if entries == [] then Some([])
    else
      assert entries[0] in entries;
      var rest := entries[1..];
      assert forall e :: e in rest ==> e in entries;
      match ParseEntry(entries[0])
      case Panics => None
      case Skipped => ParseEntries(rest)
      case Holds(v) =>
        match ParseEntries(rest)
        case None => None
        case Some(vars) => Some([v] + vars)
  }

  lemma {:induction false} EntriesNotEmpty(block: Units)
    ensures forall e :: e in Entries(block) ==> e != []
    decreases |block|
  {
    var end := Find(block, 0);
    if 0 < end < |block| {
      EntriesNotEmpty(block[end + 1..]);
    }
  }

  // The strings of a block: each up to its zero, the last with or without one, and none from an empty one on.
  lemma EntriesAre(entry: Units, rest: Units)
    requires 0 !in entry
    ensures Entries(entry) == if entry == [] then [] else [entry]
    ensures Entries(entry + ([0] + rest)) == if entry == [] then [] else [entry] + Entries(rest)
  {
    hide Find;
    FindIs(entry, 0, |entry|) by { assert entry[..|entry|] == entry; }
    if entry == [] {
      assert entry + ([0] + rest) == [0] + rest;
      FindIs([0] + rest, 0, 0);
    } else {
      EntriesStep(entry, rest);
    }
  }

  // The variables of a block, or nothing when reading it panics.
  function Parse(block: Units): Option<seq<Variable>> {
    EntriesNotEmpty(block);
    ParseEntries(Entries(block))
  }

  // ---- Which blocks panic ----

  lemma {:induction false} EntriesPanic(entries: seq<Units>)
    requires forall e :: e in entries ==> e != []
    ensures ParseEntries(entries).None? <==> exists e :: e in entries && e[0] >= 0x80
  {
    hide Lossy, Find;
    if entries != [] {
      assert entries[0] in entries;
      var rest := entries[1..];
      assert forall e :: e in rest ==> e in entries;
      assert forall e :: e in entries ==> e == entries[0] || e in rest;
      EntriesPanic(rest);
      LossyFirst(entries[0]);
    }
  }

  // Reading a block panics exactly when a string before the first empty one starts outside ASCII.
  lemma ParsePanics(block: Units)
    ensures forall e :: e in Entries(block) ==> e != []
    ensures Parse(block).None? <==> exists e :: e in Entries(block) && e[0] >= 0x80
  {
    EntriesNotEmpty(block);
    EntriesPanic(Entries(block));
  }

  // A name with an accent on its first letter, written as a block of its own, is enough.
  lemma AccentPanics(upper: Upper)
    ensures Parse(BlockOf([], [Variable([0xc9], [0x31])], upper)) == None
  {
    var v := Variable([0xc9], [0x31]);
    assert SetAll([], [v]) == [v] by { assert [v][..0] == []; }
    assert SortByName([v], upper) == [v] by { SortOne(v, upper); }
    var entry: Units := [0xc9, EQUALS, 0x31];
    assert EntryText(v) == entry && Written([v]) + [0] == entry + ([0] + [0]) by {
      assert [v][1..] == [];
    }
    EntriesStep(entry, [0]);
    ParsePanics(entry + ([0] + [0]));
    assert entry in Entries(entry + ([0] + [0]));
  }

  lemma SortOne(v: Variable, upper: Upper)
    ensures SortByName([v], upper) == [v]
  {
    assert [v][..0] == [];
  }

  // ---- Reading what was written ----

  // A name and value a block can hold.
  predicate Holdable(v: Variable) {
    && Readable(v)
    && 0 !in v.name && 0 !in v.value
  }

  // A name and value that read back from a string of their own.
  predicate Readable(v: Variable) {
    && v.name != [] && v.name[0] < 0x80 && EQUALS !in v.name[1..]
    && IsText(v.name) && IsText(v.value)
  }

  lemma {:induction false} FindIs(s: Units, unit: u16, i: nat)
    requires i <= |s| && unit !in s[..i] && (i < |s| ==> s[i] == unit)
    ensures Find(s, unit) == i
  {
    if i > 0 {
      assert s[0] == s[..i][0];
      assert s[1..][..i - 1] == s[..i][1..];
      FindIs(s[1..], unit, i - 1);
    }
  }

  // An entry reads back exactly when its name is not empty, starts with an ASCII character and has no equals sign
  // after that; and name and value are text.
  lemma EntryReads(v: Variable)
    ensures ParseEntry(EntryText(v)) == Holds(v) <==> Readable(v)
  {
    hide Find, Lossy, IsText;
    var entry := EntryText(v);
    var text := Lossy(entry);
    TextJoins(v.name, v.value);
    if Readable(v) {
      TextIsKept(entry);
      assert entry[1..] == v.name[1..] + ([EQUALS] + v.value);
      assert entry[1..][..|v.name| - 1] == v.name[1..];
      FindIs(entry[1..], EQUALS, |v.name| - 1);
      assert entry[..|v.name|] == v.name && entry[|v.name| + 1..] == v.value;
    } else if ParseEntry(entry) == Holds(v) {
      HoldsReadable(entry);
    }
  }

  // Whatever the string, what is read from it reads back.
  lemma HoldsReadable(entry: Units)
    requires entry != [] && ParseEntry(entry).Holds?
    ensures Readable(ParseEntry(entry).variable)
    ensures EntryText(ParseEntry(entry).variable) == Lossy(entry)
  {
    hide Find, Lossy, IsText;
    var text, v := Lossy(entry), ParseEntry(entry).variable;
    var split := Find(text[1..], EQUALS) + 1;
    assert v.name[1..] == text[1..][..split - 1];
    assert text == v.name + [EQUALS] + v.value;
    LossyIsText(entry);
    TextJoins(v.name, v.value);
  }

  lemma FindEnd(entry: Units, rest: Units)
    requires 0 !in entry
    ensures Find(entry + ([0] + rest), 0) == |entry|
  {
    assert (entry + ([0] + rest))[..|entry|] == entry;
    FindIs(entry + ([0] + rest), 0, |entry|);
  }

  lemma EntriesTurn(block: Units, entry: Units, tail: Units)
    requires 0 < Find(block, 0) < |block| && block[..Find(block, 0)] == entry && block[Find(block, 0) + 1..] == tail
    ensures Entries(block) == [entry] + Entries(tail)
  {
    hide Find;
  }

  lemma EntriesStep(entry: Units, tail: Units)
    requires entry != [] && 0 !in entry
    ensures Entries(entry + ([0] + tail)) == [entry] + Entries(tail)
  {
    hide Find, Entries;
    var block := entry + ([0] + tail);
    FindEnd(entry, tail);
    assert block[..|entry|] == entry && block[|entry| + 1..] == tail;
    EntriesTurn(block, entry, tail);
  }

  lemma ParseStep(entry: Units, tail: Units, v: Variable)
    requires entry != [] && 0 !in entry && ParseEntry(entry) == Holds(v) && Parse(tail).Some?
    ensures Parse(entry + ([0] + tail)) == Some([v] + Parse(tail).value)
  {
    hide ParseEntry, Entries;
    EntriesStep(entry, tail);
    EntriesNotEmpty(tail);
    EntriesNotEmpty(entry + ([0] + tail));
    assert ([entry] + Entries(tail))[1..] == Entries(tail);
  }

  lemma {:induction false} WrittenReads(vars: seq<Variable>)
    requires forall v :: v in vars ==> Holdable(v)
    ensures Parse(Written(vars) + [0]) == Some(vars)
  {
    hide EntryText, ParseEntry, Parse, Holdable;
    if vars == [] {
      NoneBefore([0]);
      EndReads();
    } else {
      var v, rest := vars[0], vars[1..];
      WrittenReads(rest);
      EntryHolds(v);
      Assoc(EntryText(v), [0] + Written(rest), [0]);
      Assoc([0], Written(rest), [0]);
      ParseStep(EntryText(v), Written(rest) + [0], v);
      assert vars == [v] + rest;
    }
  }

  lemma EndReads()
    ensures Parse([0]) == Some([]) && Parse([0, 0]) == Some([])
  {}

  lemma EntryHolds(v: Variable)
    requires Holdable(v)
    ensures 0 !in EntryText(v) && EntryText(v) != [] && ParseEntry(EntryText(v)) == Holds(v)
  {
    EntryReads(v);
  }

  // Everything read from a block is something a block can hold.
  lemma {:induction false} ReadHoldable(entries: seq<Units>)
    requires forall e :: e in entries ==> e != [] && 0 !in e
    requires ParseEntries(entries).Some?
    ensures forall v :: v in ParseEntries(entries).value ==> Holdable(v)
  {
    hide ParseEntry, Readable;
    if entries != [] {
      assert entries[0] in entries;
      var rest := entries[1..];
      assert forall e :: e in rest ==> e in entries;
      ReadHoldable(rest);
      if ParseEntry(entries[0]).Holds? {
        HoldsReadable(entries[0]);
        LossyNoNul(entries[0]);
        var v := ParseEntry(entries[0]).variable;
        assert 0 !in v.name && 0 !in v.value by {
          forall u | u in v.name || u in v.value ensures u in EntryText(v) {}
        }
      }
    }
  }

  lemma {:induction false} EntriesNoNul(block: Units)
    ensures forall e :: e in Entries(block) ==> 0 !in e
    decreases |block|
  {
    hide Find;
    var end := Find(block, 0);
    if end == |block| {
      assert block[..end] == block;
    } else if 0 < end {
      EntriesNoNul(block[end + 1..]);
    }
  }

  // Parsing the block gives the variables set, sorted by upper-cased name, exactly when a block can hold them all.
  lemma BlockReads(base: seq<Variable>, extra: seq<Variable>, upper: Upper)
    ensures Parse(BlockOf(base, extra, upper)) == Some(SortByName(Untouched(base, extra) + LastOfEach(extra), upper))
            <==> forall v :: v in Untouched(base, extra) + LastOfEach(extra) ==> Holdable(v)
  {
    hide Holdable, Entries, ParseEntries, SortByName, Written, SetAll;
    var merged := SetAll(base, extra);
    var vars := SortByName(merged, upper);
    SetAllMeans(base, extra);
    SortIsStable(merged, upper);
    var block := BlockOf(base, extra, upper);
    if forall v :: v in merged ==> Holdable(v) {
      WrittenReads(vars);
      EndReads();
      assert Parse(block) == Some(vars) by {
        if Written(vars) == [] {
          assert block == [0, 0];
          NothingWritten(vars);
        }
      }
    } else if Parse(block) == Some(vars) {
      EntriesNotEmpty(block);
      EntriesNoNul(block);
      ReadHoldable(Entries(block));
    }
  }

  lemma NothingWritten(vars: seq<Variable>)
    requires Written(vars) == []
    ensures vars == []
  {}

  // A base entry whose name an extra one takes, in whatever case, is not among the variables set; nor is one in the
  // block when it is parsed.
  lemma OverriddenIsGone(base: seq<Variable>, extra: seq<Variable>, upper: Upper, have: Variable, over: Variable)
    requires have in base && over in extra && have !in extra
    requires |have.name| == |over.name| && forall i :: 0 <= i < |have.name| ==>
               var a, b := have.name[i], over.name[i];
               a == b || (65 <= a <= 90 && b == a + 32) || (65 <= b <= 90 && a == b + 32)
    ensures have !in Untouched(base, extra) + LastOfEach(extra)
    ensures (forall v :: v in Untouched(base, extra) + LastOfEach(extra) ==> Holdable(v)) ==>
              Parse(BlockOf(base, extra, upper)).Some? && have !in Parse(BlockOf(base, extra, upper)).value
  {
    hide Holdable, SameName, Parse;
    SameNameMeans(have.name, over.name);
    SameNameSymmetric(have.name, over.name);
    assert Names(extra, have.name);
    UntouchedHas(base, extra);
    LastOfEachHas(extra);
    BlockReads(base, extra, upper);
    SortIsStable(Untouched(base, extra) + LastOfEach(extra), upper);
  }

  lemma {:induction false} UntouchedHas(base: seq<Variable>, extra: seq<Variable>)
    ensures forall v :: v in Untouched(base, extra) <==> v in base && !Names(extra, v.name)
  {
    if base != [] {
      UntouchedHas(base[..|base| - 1], extra);
      assert base == base[..|base| - 1] + [base[|base| - 1]];
    }
  }

  lemma {:induction false} LastOfEachHas(extra: seq<Variable>)
    ensures forall v :: v in LastOfEach(extra) ==> v in extra
  {
    if extra != [] {
      LastOfEachHas(extra[1..]);
      assert extra == [extra[0]] + extra[1..];
    }
  }

  // A block ends in two zeros, also when it holds nothing, and a variable is its name, an equals sign and its value.
  lemma BlockShape(base: seq<Variable>, extra: seq<Variable>, upper: Upper, v: Variable)
    ensures var block := BlockOf(base, extra, upper);
            |block| >= 2 && block[|block| - 2..] == [0, 0]
    ensures BlockOf([], [], upper) == [0, 0]
    ensures BlockOf([v], [], upper) == v.name + [61] + v.value + [0, 0]
  {
    hide EntryText, SortByName;
    WrittenEnds(SortByName(SetAll(base, extra), upper));
    assert SortByName([], upper) == [] by { SortNone(upper); }
    SortOne(v, upper);
    assert [v][1..] == [];
    EntryShape(v);
    assert v.name + [61] + v.value + ([0] + []) + [0] == v.name + [61] + v.value + [0, 0];
  }

  lemma SortNone(upper: Upper)
    ensures SortByName([], upper) == []
  {}

  lemma EntryShape(v: Variable)
    ensures EntryText(v) == v.name + [61] + v.value
  {}

  lemma {:induction false} WrittenEnds(vars: seq<Variable>)
    ensures vars == [] <==> Written(vars) == []
    ensures vars != [] ==> Written(vars)[|Written(vars)| - 1] == 0
  {
    hide EntryText;
    if vars != [] {
      WrittenEnds(vars[1..]);
      var text := EntryText(vars[0]);
      assert Written(vars) == text + ([0] + Written(vars[1..]));
      if vars[1..] != [] {
        var tail := [0] + Written(vars[1..]);
        assert tail[|tail| - 1] == 0;
      }
    }
  }
}
