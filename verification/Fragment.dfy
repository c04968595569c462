/** Cutting a frame into data packets, and every packet a sent frame has. */
module Fragments {
  import opened Wrappers
  import opened Words
  import opened Headers
  import opened Blocks
  import opened Slots
  import opened Erasure
  import opened Parity

  const MAX_FRAME: nat := 16 * 1024 * 1024

  datatype FragmentError = TooLarge(size: nat)

  function FragmentCount(size: nat): (n: nat)
    ensures n >= 1
    ensures size == 0 ==> n == 1
    ensures size > 0 ==> (n - 1) * FRAGMENT_SIZE < size <= n * FRAGMENT_SIZE
    ensures size <= MAX_FRAME ==> n <= 14539
  {
    if size == 0 then 1 else (size + FRAGMENT_SIZE - 1) / FRAGMENT_SIZE
  }

  // Piece `i` of a frame: a whole fragment, or what is left.
  function Piece(data: Bytes, i: nat): (p: Bytes)
    requires i < FragmentCount(|data|)
    ensures |p| <= FRAGMENT_SIZE
    ensures i + 1 < FragmentCount(|data|) ==> |p| == FRAGMENT_SIZE
  {
    var n := FragmentCount(|data|);
    assert i + 1 < n ==> (i + 1) * FRAGMENT_SIZE <= (n - 1) * FRAGMENT_SIZE;
    data[i * FRAGMENT_SIZE..Min((i + 1) * FRAGMENT_SIZE, |data|)]
  }

  function Pieces(data: Bytes): (s: seq<Slot>)
    ensures |s| == FragmentCount(|data|)
  {
    seq(FragmentCount(|data|), i requires 0 <= i < FragmentCount(|data|) => Some(Piece(data, i)))
  }

  lemma {:induction false} JoinPieces(data: Bytes, n: nat)
    requires n <= FragmentCount(|data|)
    ensures Join(Pieces(data)[..n]) == data[..Min(n * FRAGMENT_SIZE, |data|)]
  {
    hide FragmentCount;
    if n > 0 {
      JoinPieces(data, n - 1);
      var s := Pieces(data)[..n];
      var lo, hi := (n - 1) * FRAGMENT_SIZE, Min(n * FRAGMENT_SIZE, |data|);
      assert lo <= hi && Piece(data, n - 1) == data[lo..hi];
      assert data[..lo] + data[lo..hi] == data[..hi];
      assert s[..n - 1] == Pieces(data)[..n - 1];
      assert s[n - 1] == Some(Piece(data, n - 1));
    }
  }

  // The pieces of a frame, joined in order, are the frame.
  lemma PiecesJoin(data: Bytes)
    ensures Join(Pieces(data)) == data
    ensures TotalBytes(Pieces(data)) == |data|
  {
    JoinPieces(data, FragmentCount(|data|));
    assert Pieces(data)[..FragmentCount(|data|)] == Pieces(data);
    assert data[..|data|] == data;
  }

  // A frame as it was sent, with the parity policy it was sent under.
  datatype SentFrame = SentFrame(stream: u16, frame: u32, sentUs: u32, data: Bytes, policy: Policy)
  {
    function Count(): nat {
      FragmentCount(|data|)
    }

    function DataPacket(i: nat): Packet
      requires i < Count() && Count() < 0x1_0000
    {
      Packet(Header(0, stream, frame, i, Count(), 0, sentUs), Piece(data, i))
    }

    function DataPackets(): (s: seq<Packet>)
      requires |data| <= MAX_FRAME
      ensures |s| == Count() && Cut(s)
    {
      seq(Count(), i requires 0 <= i < Count() => DataPacket(i))
    }

    // Data packets are numbered in order, each saying how many there are and whose they are.
    lemma DataNumbered(i: nat)
      requires |data| <= MAX_FRAME && i < |DataPackets()|
      ensures var h := DataPackets()[i].header;
              && h.fragment == i && h.fragments == |DataPackets()| && h.flags == 0 && h.packet == 0
              && h.stream == stream && h.frame == frame && h.sentUs == sentUs
    {}

    function Packets(code: Code): seq<Packet>
      requires |data| <= MAX_FRAME
    {
      DataPackets() + ParityBefore(code, policy, DataPackets(), BlockCount(Count()))
    }
  }

  method Fragment(sent: SentFrame) returns (r: Result<seq<Packet>, FragmentError>)
    ensures r == if |sent.data| > MAX_FRAME then Err(TooLarge(|sent.data|)) else Ok(sent.DataPackets())
  {
    var data := sent.data;
    if |data| > MAX_FRAME {
      return Err(TooLarge(|data|));
    }
    var count := Max((|data| + FRAGMENT_SIZE - 1) / FRAGMENT_SIZE, 1);
    if count > U16_MAX {
      return Err(TooLarge(|data|));
    }
    var out := [];
    for index := 0 to count
      invariant out == sent.DataPackets()[..index]
    {
      var start := index * FRAGMENT_SIZE;
      var end := Min(start + FRAGMENT_SIZE, |data|);
      var header := Header(0, sent.stream, sent.frame, index, count, 0, sent.sentUs);
      assert Packet(header, data[start..end]) == sent.DataPackets()[index];
      out := out + [Packet(header, data[start..end])];
    }
    assert out == sent.DataPackets();
    return Ok(out);
  }

  method FragmentWithParity(code: Code, sent: SentFrame) returns (r: Result<seq<Packet>, FragmentError>)
    ensures r == if |sent.data| > MAX_FRAME then Err(TooLarge(|sent.data|)) else Ok(sent.Packets(code))
  {
    var parts := Fragment(sent);
    if parts.Err? {
      return parts;
    }
    var parity := EncodeParity(code, parts.value, sent.policy);
    return Ok(parts.value + parity);
  }
}
