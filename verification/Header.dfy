/** The 24-byte packet header in front of every datagram. */
module Headers {
  import opened Wrappers
  import opened Words

  const VERSION: u8 := 1
  const HEADER_LEN: nat := 24
  const TAG_LEN: nat := 16
  const MAX_DATAGRAM: nat := 1200
  const MAX_PAYLOAD: nat := MAX_DATAGRAM - HEADER_LEN - TAG_LEN

  datatype Header = Header(
    flags: u8, stream: u16, frame: u32, fragment: u16, fragments: u16, packet: u64, sentUs: u32)
  {
    // Bit 0 of the flags marks parity.
    predicate IsParity() {
      flags % 2 == 1
    }

    // What the decoder accepts: a position inside its frame, or any parity number.
    predicate Decodable() {
      fragments != 0 && (IsParity() || fragment < fragments)
    }
  }

  datatype HeaderError =
    | Short
    | Version(version: u8)
    | Fragment(fragment: u16, fragments: u16)

  method EncodeInto(h: Header) returns (out: array<u8>)
    ensures fresh(out) && out[..] == Encode(h)
  {
    hide Be16, Be32, Be64;
    out := new u8[HEADER_LEN](_ => 0);
    out[0] := VERSION;
    out[1] := h.flags;
    CopyFrom(out, 2, Be16(h.stream));
    CopyFrom(out, 4, Be32(h.frame));
    CopyFrom(out, 8, Be16(h.fragment));
    CopyFrom(out, 10, Be16(h.fragments));
    CopyFrom(out, 12, Be64(h.packet));
    CopyFrom(out, 20, Be32(h.sentUs));
    assert out[..] == out[..2] + out[2..4] + out[4..8] + out[8..10] + out[10..12] + out[12..20] + out[20..24];
  }

  // Overwrites the slice of `out` that starts at `at`.
  method CopyFrom(out: array<u8>, at: nat, field: Bytes)
    requires at + |field| <= out.Length
    modifies out
    ensures out[..] == old(out[..at]) + field + old(out[at + |field|..])
  {
    forall i | 0 <= i < |field| {
      out[at + i] := field[i];
    }
  }

  function Encode(h: Header): (s: Bytes)
    ensures |s| == HEADER_LEN
  {
    [VERSION, h.flags] + Be16(h.stream) + Be32(h.frame) + Be16(h.fragment) + Be16(h.fragments)
    + Be64(h.packet) + Be32(h.sentUs)
  }

  function Fields(datagram: Bytes): Header
    requires |datagram| >= HEADER_LEN
  {
    Header(datagram[1], FromBe16(datagram[2..4]), FromBe32(datagram[4..8]), FromBe16(datagram[8..10]),
           FromBe16(datagram[10..12]), FromBe64(datagram[12..20]), FromBe32(datagram[20..24]))
  }

  function Decode(datagram: Bytes): Result<Header, HeaderError>
  {
    if |datagram| < HEADER_LEN then Err(Short)
    else if datagram[0] != VERSION then Err(Version(datagram[0]))
    else
      var header := Fields(datagram);
      if header.fragments == 0 || (!header.IsParity() && header.fragment >= header.fragments) then
        Err(Fragment(header.fragment, header.fragments))
      else
        Ok(header)
  }

  // Whatever follows the header, it reads back, unless its position is refused.
  lemma DecodeEncode(h: Header, rest: Bytes)
    ensures Decode(Encode(h) + rest)
            == if h.Decodable() then Ok(h) else Err(Fragment(h.fragment, h.fragments))
  {
    var d := Encode(h) + rest;
    assert d[2..4] == Be16(h.stream) && d[4..8] == Be32(h.frame);
    assert d[8..10] == Be16(h.fragment) && d[10..12] == Be16(h.fragments);
    assert d[12..20] == Be64(h.packet) && d[20..24] == Be32(h.sentUs);
    Be16RoundTrip(h.stream);
    Be32RoundTrip(h.frame);
    Be16RoundTrip(h.fragment);
    Be16RoundTrip(h.fragments);
    Be64RoundTrip(h.packet);
    Be32RoundTrip(h.sentUs);
  }

  // Only one byte string decodes to a given header, so the encoding can be authenticated in its place.
  lemma EncodeDecode(datagram: Bytes)
    requires Decode(datagram).Ok?
    ensures Decode(datagram).value.Decodable()
    ensures Encode(Decode(datagram).value) == datagram[..HEADER_LEN]
  {
    var d := datagram[..HEADER_LEN];
    assert d == [d[0], d[1]] + d[2..4] + d[4..8] + d[8..10] + d[10..12] + d[12..20] + d[20..24];
    FromBe16RoundTrip(datagram[2..4]);
    FromBe32RoundTrip(datagram[4..8]);
    FromBe16RoundTrip(datagram[8..10]);
    FromBe16RoundTrip(datagram[10..12]);
    FromBe64RoundTrip(datagram[12..20]);
    FromBe32RoundTrip(datagram[20..24]);
    assert d[2..4] == datagram[2..4] && d[4..8] == datagram[4..8] && d[8..10] == datagram[8..10];
    assert d[10..12] == datagram[10..12] && d[12..20] == datagram[12..20] && d[20..24] == datagram[20..24];
  }

  // Where each field is, most significant byte first.
  lemma HeaderLayout(h: Header)
    ensures var s := Encode(h);
            && s[0] == 1 && s[1] == h.flags
            && BigEndian(s[2..4]) == h.stream && BigEndian(s[4..8]) == h.frame
            && BigEndian(s[8..10]) == h.fragment && BigEndian(s[10..12]) == h.fragments
            && BigEndian(s[12..20]) == h.packet && BigEndian(s[20..]) == h.sentUs
  {
    hide Be16, Be32, Be64, BigEndian;
    var s := Encode(h);
    assert s[2..4] == Be16(h.stream) && s[4..8] == Be32(h.frame);
    assert s[8..10] == Be16(h.fragment) && s[10..12] == Be16(h.fragments);
    assert s[12..20] == Be64(h.packet) && s[20..] == Be32(h.sentUs);
    BeIsBigEndian(h.stream, h.frame, h.packet);
    BeIsBigEndian(h.fragment, h.sentUs, h.packet);
    BeIsBigEndian(h.fragments, h.sentUs, h.packet);
  }

  // What is refused, and as what: too short a datagram, then a foreign one, then a position outside its frame.
  lemma DecodeRefuses(d: Bytes)
    ensures Decode(d) == Err(Short) <==> |d| < 24
    ensures |d| >= 24 ==> (Decode(d) == Err(Version(d[0])) <==> d[0] != 1)
    ensures |d| >= 24 && d[0] == 1 ==>
              var fragment, fragments := FromBe16(d[8..10]), FromBe16(d[10..12]);
              Decode(d) == Err(Fragment(fragment, fragments))
              <==> fragments == 0 || (d[1] % 2 == 0 && fragment >= fragments)
  {
    hide FromBe16, FromBe32, FromBe64;
  }
}
