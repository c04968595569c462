/** The code of a Cauchy matrix as the packet layer uses it: every hypothesis about codes holds of it. */
module CauchyErasure {
  import opened Wrappers
  import opened Words
  import opened Slots
  import opened GaloisField
  import opened CauchyMatrix
  import RS = ReedSolomon
  import opened Erasure

  function ToShard(s: Bytes): (e: RS.Shard)
    ensures |e| == |s|
  {
    seq(|s|, i requires 0 <= i < |s| => Byte(s[i]))
  }

  function FromShard(e: RS.Shard): (s: Bytes)
    ensures |s| == |e|
  {
    seq(|e|, i requires 0 <= i < |e| => (NumberInjective(e[i], 0); Number(e[i])))
  }

  lemma ShardRoundTrip(s: Bytes)
    ensures FromShard(ToShard(s)) == s
  {
    hide Byte, Number;
    forall i | 0 <= i < |s| ensures FromShard(ToShard(s))[i] == s[i] {
      NumberByte(s[i]);
    }
  }

  lemma ShardBack(e: RS.Shard)
    ensures ToShard(FromShard(e)) == e
  {
    hide Byte, Number;
    forall i | 0 <= i < |e| ensures ToShard(FromShard(e))[i] == e[i] {
      NumberInjective(e[i], 0);
      NumberByte(Number(e[i]));
      NumberInjective(Byte(Number(e[i])), e[i]);
    }
  }

  function ToShards(data: seq<Bytes>): (d: seq<RS.Shard>)
    ensures |d| == |data|
  {
    seq(|data|, i requires 0 <= i < |data| => ToShard(data[i]))
  }

  function FromShards(data: seq<RS.Shard>): (d: seq<Bytes>)
    ensures |d| == |data|
  {
    seq(|data|, i requires 0 <= i < |data| => FromShard(data[i]))
  }

  function ToArrived(shards: seq<Slot>): (a: seq<RS.Arrived>)
    ensures |a| == |shards|
  {
    seq(|shards|, i requires 0 <= i < |shards| => if shards[i].Some? then Some(ToShard(shards[i].value)) else None)
  }

  function CauchyEncode(m: nat, data: seq<Bytes>): seq<Bytes> {
    var code := RS.Cauchy(|data|, m);
    if code.Err? then []
    else
      var coded := RS.Encode(code.value, ToShards(data));
      if coded.Err? then [] else FromShards(coded.value)
  }

  ghost function CauchyRecover(k: nat, shards: seq<Slot>): Option<seq<Bytes>> {
    if |shards| < k then None
    else
      var code := RS.Cauchy(k, |shards| - k);
      if code.Err? then None
      else
        var data := RS.Recovered(code.value, ToArrived(shards));
        if data.None? then None else Some(FromShards(data.value))
  }

  predicate Sized(shards: seq<Bytes>, size: nat) {
    forall i :: 0 <= i < |shards| ==> |shards[i]| == size
  }

  lemma EncodeShape(m: nat, data: seq<Bytes>, size: nat)
    requires 1 <= |data| && |data| + m <= MAX_SHARDS && Sized(data, size)
    ensures RS.Cauchy(|data|, m).Ok?
    ensures RS.Uniform(ToShards(data), size)
    ensures CauchyEncode(m, data) == FromShards(RS.Parities(RS.Cauchy(|data|, m).value, ToShards(data), size))
    ensures |CauchyEncode(m, data)| == m && Sized(CauchyEncode(m, data), size)
  {
    hide RS.Combine, RS.CauchyRows, ToShard, FromShard;
  }

  lemma RecoverShape(k: nat, shards: seq<Slot>)
    requires 1 <= k <= |shards| <= MAX_SHARDS && FullSlots(shards) && CauchyRecover(k, shards).Some?
    ensures |CauchyRecover(k, shards).value| == k && Full(CauchyRecover(k, shards).value)
  {
    hide RS.Combine, RS.Rows, RS.CauchyRows, ToShard, FromShard;
    var a := ToArrived(shards);
    forall i | 0 <= i < |a| && a[i].Some? ensures |a[i].value| == FRAGMENT_SIZE {}
  }

  ghost function CauchyCode(): (c: RawCode)
    ensures Shaped(c)
  {
    var c := RawCode(CauchyEncode, (k: nat, shards: seq<Slot>) => CauchyRecover(k, shards));
    assert Shaped(c) by {
      forall m: nat, data | 1 <= |data| && |data| + m <= MAX_SHARDS && Full(data)
        ensures |c.encode(m, data)| == m && Full(c.encode(m, data))
      {
        EncodeShape(m, data, FRAGMENT_SIZE);
      }
      forall k: nat, shards | 1 <= k <= |shards| <= MAX_SHARDS && FullSlots(shards) && c.recover(k, shards).Some?
        ensures |c.recover(k, shards).value| == k && Full(c.recover(k, shards).value)
      {
        RecoverShape(k, shards);
      }
    }
    c
  }

  lemma {:induction false} PresentCount(shards: seq<Slot>)
    ensures |RS.Present(ToArrived(shards))| == CountSome(shards)
  {
    hide ToShard;
    if shards != [] {
      PresentCount(shards[..|shards| - 1]);
      assert ToArrived(shards)[..|shards| - 1] == ToArrived(shards[..|shards| - 1]);
    }
  }

  lemma ArrivedIsCoded(k: nat, m: nat, data: seq<Bytes>, size: nat, shards: seq<Slot>, i: nat)
    requires 1 <= k && k + m <= MAX_SHARDS && |data| == k && Sized(data, size)
    requires |CauchyEncode(m, data)| == m && ShardsOf(shards, data + CauchyEncode(m, data))
    requires i < k + m && shards[i].Some?
    ensures RS.Cauchy(k, m).Ok? && RS.Uniform(ToShards(data), size)
    ensures ToArrived(shards)[i].value == RS.Coded(RS.Cauchy(k, m).value, ToShards(data), size, i)
  {
    hide RS.Combine, RS.CauchyRows, ToShard, FromShard, CauchyEncode;
    EncodeShape(m, data, size);
    var code, d := RS.Cauchy(k, m).value, ToShards(data);
    if i < k {
      RS.CodedData(code, d, size, i);
    } else {
      RS.CodedParity(code, d, size, i - k);
      ShardBack(RS.Parities(code, d, size)[i - k]);
    }
  }

  // Any k of the k + m shards give the k data shards back, whatever their size.
  lemma AnyShardsRecover(m: nat, data: seq<Bytes>, size: nat, shards: seq<Slot>)
    requires 1 <= |data| && |data| + m <= MAX_SHARDS && Sized(data, size)
    requires ShardsOf(shards, data + CauchyEncode(m, data)) && CountSome(shards) >= |data|
    ensures CauchyRecover(|data|, shards) == Some(data)
  {
    hide RS.Coded, RS.CauchyRows, RS.Recovered, ToShard, CauchyEncode, ToArrived, ToShards, FromShards;
    var k := |data|;
    EncodeShape(m, data, size);
    forall i | 0 <= i < |shards| && ToArrived(shards)[i].Some?
      ensures ToArrived(shards)[i].value == RS.Coded(RS.Cauchy(k, m).value, ToShards(data), size, i)
    {
      WhatArrived(shards, i);
      ArrivedIsCoded(k, m, data, size, shards, i);
    }
    PresentCount(shards);
    RS.CauchyRecovers(ToShards(data), m, size, ToArrived(shards));
    ShardsRoundTrip(data);
  }

  // In particular the packet layer's.
  lemma CauchyMds(k: nat, m: nat)
    requires 1 <= k && k + m <= MAX_SHARDS
    ensures Mds(CauchyCode(), k, m)
  {
    hide CauchyEncode;
    forall data: seq<Bytes>, shards: seq<Slot> |
      |data| == k && Full(data) && ShardsOf(shards, data + CauchyEncode(m, data)) && CountSome(shards) >= k
      ensures CauchyRecover(k, shards) == Some(data)
    {
      AnyShardsRecover(m, data, FRAGMENT_SIZE, shards);
    }
  }

  lemma WhatArrived(shards: seq<Slot>, i: nat)
    requires i < |shards|
    ensures ToArrived(shards)[i].Some? <==> shards[i].Some?
  {}

  lemma ShardsRoundTrip(data: seq<Bytes>)
    ensures FromShards(ToShards(data)) == data
  {
    hide ToShard, FromShard;
    forall i | 0 <= i < |data| ensures FromShards(ToShards(data))[i] == data[i] {
      ShardRoundTrip(data[i]);
    }
  }
}
