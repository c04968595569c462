/**
 The erasure code as its users see it. What the field arithmetic inside it
 guarantees is `Mds`, which the results that need it ask for; `CauchyErasure`
 proves it of the code that is used.
 */
module Erasure {
  import opened Wrappers
  import opened Words
  import opened Headers
  import opened Slots

  const PREFIX_LEN: nat := 6
  const FRAGMENT_SIZE: nat := MAX_PAYLOAD - PREFIX_LEN
  const MAX_SHARDS: nat := 256

  // `encode(m, data)` are the m parity shards; `recover(k, shards)` the k data shards, if it can.
  datatype RawCode = RawCode(
    encode: (nat, seq<Bytes>) -> seq<Bytes>,
    recover: (nat, seq<Slot>) -> Option<seq<Bytes>>)

  predicate Full(shards: seq<Bytes>) {
    forall i :: 0 <= i < |shards| ==> |shards[i]| == FRAGMENT_SIZE
  }

  predicate FullSlots(shards: seq<Slot>) {
    forall i :: 0 <= i < |shards| && shards[i].Some? ==> |shards[i].value| == FRAGMENT_SIZE
  }

  // The shape of what comes out, whatever the bytes.
  ghost predicate Shaped(c: RawCode) {
    && (forall m: nat, data :: 1 <= |data| && |data| + m <= MAX_SHARDS && Full(data) ==>
          |c.encode(m, data)| == m && Full(c.encode(m, data)))
    && (forall k: nat, shards ::
          1 <= k <= |shards| <= MAX_SHARDS && FullSlots(shards) && c.recover(k, shards).Some? ==>
            |c.recover(k, shards).value| == k && Full(c.recover(k, shards).value))
  }

  function Zeros(): (z: Bytes)
    ensures |z| == FRAGMENT_SIZE
  {
    seq(FRAGMENT_SIZE, _ => 0)
  }

  type Code = c: RawCode | Shaped(c)
    ghost witness RawCode((m: nat, data: seq<Bytes>) => seq(m, _ => Zeros()), (k: nat, shards: seq<Slot>) => None)

  // Some of the shards of `all`, each in its place.
  predicate ShardsOf(shards: seq<Slot>, all: seq<Bytes>) {
    |shards| == |all| && forall i :: 0 <= i < |all| ==> shards[i].None? || shards[i].value == all[i]
  }

  // Any k of the k + m shards give the k data shards back.
  ghost predicate Mds(c: Code, k: nat, m: nat) {
    forall data: seq<Bytes>, shards: seq<Slot> ::
      |data| == k && Full(data) && ShardsOf(shards, data + c.encode(m, data)) && CountSome(shards) >= k ==>
        c.recover(k, shards) == Some(data)
  }

  lemma MdsRecovers(c: Code, k: nat, m: nat, data: seq<Bytes>, shards: seq<Slot>)
    requires Mds(c, k, m)
    requires |data| == k && Full(data) && ShardsOf(shards, data + c.encode(m, data)) && CountSome(shards) >= k
    ensures c.recover(k, shards) == Some(data)
  {}
}
