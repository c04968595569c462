/**
 Sealing and opening datagrams, with an ideal authenticated cipher in place of
 ChaCha20-Poly1305, and what a channel keeps over every run against a network
 that drops, repeats, reorders and injects.
 */
module Packets {
  import opened Wrappers
  import opened Words
  import opened Counting
  import opened Headers
  import opened Replay

  datatype SealError = TooLarge(size: nat) | Exhausted

  datatype OpenError = BadHeader(error: HeaderError) | Truncated | Replayed | Authentication

  // Four zero bytes, then the packet number, least significant byte first.
  function Nonce(packet: u64): (n: Bytes)
    ensures |n| == 12
  {
    [0, 0, 0, 0] + Le64(packet)
  }

  lemma NonceInjective(x: u64, y: u64)
    requires Nonce(x) == Nonce(y)
    ensures x == y
  {
    assert Nonce(x)[4..] == Le64(x) && Nonce(y)[4..] == Le64(y);
    Le64Injective(x, y);
  }

  // Section 12.3 of the Noise Protocol Framework: four zero bytes, then the number, least significant byte first.
  lemma NonceLayout(packet: u64)
    ensures forall i :: 0 <= i < 4 ==> Nonce(packet)[i] == 0
    ensures LittleEndian(Nonce(packet)[4..]) == packet
  {
    hide Le64, LittleEndian;
    assert Nonce(packet)[4..] == Le64(packet);
    LeIsLittleEndian(packet);
  }

  // ---- The ideal cipher ----

  // How a nonce, associated data and a message become a ciphertext with its tag.
  type Cipher = (Bytes, Bytes, Bytes) -> Bytes

  ghost predicate TagSized(cipher: Cipher) {
    forall nonce, aad, msg :: |cipher(nonce, aad, msg)| == |msg| + TAG_LEN
  }

  datatype Sealed = Sealed(nonce: Bytes, aad: Bytes, msg: Bytes, text: Bytes)

  // A ciphertext opens only as what was sealed to it, under its own nonce and associated data.
  function Decrypt(produced: seq<Sealed>, nonce: Bytes, aad: Bytes, text: Bytes): (r: Option<Bytes>)
    ensures r.Some? ==> Sealed(nonce, aad, r.value, text) in produced
    ensures r.None? ==> forall s :: s in produced ==> !(s.nonce == nonce && s.aad == aad && s.text == text)
  {
    if produced == [] then None
    else
      var s := produced[0];
      if s.nonce == nonce && s.aad == aad && s.text == text then Some(s.msg)
      else Decrypt(produced[1..], nonce, aad, text)
  }

  class IdealAead {
    const cipher: Cipher
    // Everything sealed under this key, which is all it opens.
    var produced: seq<Sealed>

    constructor (cipher: Cipher)
      ensures this.cipher == cipher && produced == []
    {
      this.cipher := cipher;
      produced := [];
    }

    method Encrypt(nonce: Bytes, aad: Bytes, msg: Bytes) returns (text: Bytes)
      modifies this
      ensures text == cipher(nonce, aad, msg)
      ensures produced == old(produced) + [Sealed(nonce, aad, msg, text)]
    {
      text := cipher(nonce, aad, msg);
      produced := produced + [Sealed(nonce, aad, msg, text)];
    }
  }

  // ---- What travels ----

  // A sealed packet: the header with its number in, and the payload.
  datatype Sent = Sent(header: Header, payload: Bytes)

  function Wire(cipher: Cipher, sent: Sent): Bytes {
    Encode(sent.header) + cipher(Nonce(sent.header.packet), Encode(sent.header), sent.payload)
  }

  function Entry(cipher: Cipher, sent: Sent): Sealed {
    Sealed(Nonce(sent.header.packet), Encode(sent.header), sent.payload,
           cipher(Nonce(sent.header.packet), Encode(sent.header), sent.payload))
  }

  function Produced(cipher: Cipher, log: seq<Sent>): (p: seq<Sealed>)
    ensures |p| == |log| && forall i :: 0 <= i < |log| ==> p[i] == Entry(cipher, log[i])
  {
    if log == [] then [] else Produced(cipher, log[..|log| - 1]) + [Entry(cipher, log[|log| - 1])]
  }

  // Packets are numbered from 0 in the order they are sealed, and U64_MAX is never used.
  ghost predicate Numbered(log: seq<Sent>) {
    |log| <= U64_MAX && forall i :: 0 <= i < |log| ==> log[i].header.packet == i
  }

  class Sealer {
    const key: IdealAead
    var next: u64
    ghost var log: seq<Sent>

    ghost predicate Valid()
      reads this, key
    {
      next == |log| && Numbered(log) && key.produced == Produced(key.cipher, log)
    }

    constructor (key: IdealAead)
      requires key.produced == []
      ensures Valid() && log == [] && this.key == key
    {
      this.key := key;
      next := 0;
      log := [];
    }

    method Seal(header: Header, payload: Bytes) returns (r: Result<Bytes, SealError>)
      requires Valid()
      modifies this, key
      ensures Valid()
      ensures r == SealResult(key.cipher, old(log), header, payload)
      ensures log == SealLog(old(log), header, payload)
    {
      hide Be16, Be32, Be64, Encode, Le64;
      if |payload| > MAX_PAYLOAD {
        return Err(TooLarge(|payload|));
      }
      if next == U64_MAX {
        return Err(Exhausted);
      }
      var numbered := header.(packet := next);
      var aad := Encode(numbered);
      var text := key.Encrypt(Nonce(numbered.packet), aad, payload);
      next := next + 1;
      log := log + [Sent(numbered, payload)];
      assert log[..|log| - 1] == old(log);
      return Ok(aad + text);
    }
  }

  function SealLog(log: seq<Sent>, header: Header, payload: Bytes): seq<Sent> {
    if |payload| > MAX_PAYLOAD || |log| >= U64_MAX then log
    else log + [Sent(header.(packet := |log|), payload)]
  }

  function SealResult(cipher: Cipher, log: seq<Sent>, header: Header, payload: Bytes): Result<Bytes, SealError> {
    if |payload| > MAX_PAYLOAD then Err(TooLarge(|payload|))
    else if |log| >= U64_MAX then Err(Exhausted)
    else Ok(Wire(cipher, Sent(header.(packet := |log|), payload)))
  }

  function OpenResult(produced: seq<Sealed>, taken: seq<u64>, datagram: Bytes): Result<Sent, OpenError> {
    match Decode(datagram)
    case Err(e) => Err(BadHeader(e))
    case Ok(header) =>
      if |datagram| < HEADER_LEN + TAG_LEN then Err(Truncated)
      else if !Acceptable(taken, header.packet) then Err(Replayed)
      else
        match Decrypt(produced, Nonce(header.packet), datagram[..HEADER_LEN], datagram[HEADER_LEN..])
        case None => Err(Authentication)
        case Some(plain) => Ok(Sent(header, plain))
  }

  class Opener {
    const key: IdealAead
    const replay: ReplayWindow

    ghost predicate Valid()
      reads this, replay, replay.bits
    {
      replay.Valid()
    }

    constructor (key: IdealAead)
      ensures Valid() && replay.taken == [] && this.key == key
      ensures fresh(replay) && fresh(replay.bits)
    {
      this.key := key;
      replay := new ReplayWindow();
    }

    // The highest number received, and how many packets have been.
    function Stats(): (s: (Option<u64>, nat))
      requires Valid()
      reads this, replay, replay.bits
      ensures s == (Highest(replay.taken), |replay.taken|)
    {
      (replay.highest, replay.accepted)
    }

    // The window moves only for a datagram that authenticated.
    method Open(datagram: Bytes) returns (r: Result<Sent, OpenError>)
      requires Valid()
      modifies replay, replay.bits
      ensures Valid()
      ensures r == OpenResult(key.produced, old(replay.taken), datagram)
      ensures replay.taken == old(replay.taken) + if r.Ok? then [r.value.header.packet] else []
    {
      match Decode(datagram) {
        case Err(e) =>
          r := Err(BadHeader(e));
        case Ok(header) =>
          if |datagram| < HEADER_LEN + TAG_LEN {
            return Err(Truncated);
          }
          if !replay.Check(header.packet) {
            return Err(Replayed);
          }
          var plain := Decrypt(key.produced, Nonce(header.packet), datagram[..HEADER_LEN], datagram[HEADER_LEN..]);
          if plain.None? {
            return Err(Authentication);
          }
          replay.Accept(header.packet);
          r := Ok(Sent(header, plain.value));
      }
    }
  }

  // ---- Runs of a channel ----

  // The sender seals; the network delivers any bytes at any time.
  datatype Event = Seal(header: Header, payload: Bytes) | Deliver(datagram: Bytes)

  datatype Channel = Channel(log: seq<Sent>, taken: seq<u64>, received: seq<Sent>)

  function Step(cipher: Cipher, c: Channel, e: Event): Channel {
    match e
    case Seal(header, payload) => c.(log := SealLog(c.log, header, payload))
    case Deliver(datagram) =>
      match OpenResult(Produced(cipher, c.log), c.taken, datagram)
      case Err(_) => c
      case Ok(sent) => c.(taken := c.taken + [sent.header.packet], received := c.received + [sent])
  }

  function Run(cipher: Cipher, events: seq<Event>): Channel {
    if events == [] then Channel([], [], [])
    else Step(cipher, Run(cipher, events[..|events| - 1]), events[|events| - 1])
  }

  ghost predicate Safe(c: Channel) {
    && Numbered(c.log)
    && Distinct(c.taken)
    && |c.taken| == |c.received|
    && (forall i :: 0 <= i < |c.received| ==> c.received[i].header.packet == c.taken[i])
    && (forall i :: 0 <= i < |c.received| ==> c.received[i] in c.log)
  }

  // Decryption finds the entry it opens.
  lemma DecryptFinds(cipher: Cipher, log: seq<Sent>, packet: u64, aad: Bytes, text: Bytes) returns (sent: Sent)
    requires Numbered(log)
    requires Decrypt(Produced(cipher, log), Nonce(packet), aad, text).Some?
    ensures sent in log && sent.header.packet == packet && sent == log[packet]
    ensures Entry(cipher, sent)
            == Sealed(Nonce(packet), aad, Decrypt(Produced(cipher, log), Nonce(packet), aad, text).value, text)
  {
    var p := Produced(cipher, log);
    var i :| 0 <= i < |p| && p[i] == Sealed(Nonce(packet), aad, Decrypt(p, Nonce(packet), aad, text).value, text);
    sent := log[i];
    assert p[i] == Entry(cipher, sent);
    NonceInjective(sent.header.packet, packet);
  }

  // Only a sealed datagram opens, byte for byte, as the packet it was sealed from.
  lemma OpensOnlySealed(cipher: Cipher, log: seq<Sent>, taken: seq<u64>, datagram: Bytes)
    requires Numbered(log)
    requires OpenResult(Produced(cipher, log), taken, datagram).Ok?
    ensures var sent := OpenResult(Produced(cipher, log), taken, datagram).value;
            && sent in log && datagram == Wire(cipher, sent) && sent.header.Decodable()
            && Acceptable(taken, sent.header.packet)
  {
    hide Be16, Be32, Be64, FromBe16, FromBe32, FromBe64, Encode, Fields, Decrypt, Produced, Le64;
    var sent := OpenResult(Produced(cipher, log), taken, datagram).value;
    var aad, text := datagram[..HEADER_LEN], datagram[HEADER_LEN..];
    EncodeDecode(datagram);
    assert Encode(sent.header) == aad;
    var found := DecryptFinds(cipher, log, sent.header.packet, aad, text);
    HeaderInjective(found.header, sent.header);
    assert datagram == aad + text;
  }

  lemma HeaderInjective(a: Header, b: Header)
    requires Encode(a) == Encode(b) && b.Decodable()
    ensures a == b
  {
    DecodeEncode(a, []);
    DecodeEncode(b, []);
  }

  lemma StepSafe(cipher: Cipher, c: Channel, e: Event)
    requires Safe(c)
    ensures Safe(Step(cipher, c, e))
  {
    hide Be16, Be32, Be64, Encode, Decode, Decrypt, OpenResult, Produced, Wire;
    match e
    case Seal(_, _) =>
    case Deliver(datagram) =>
      var r := OpenResult(Produced(cipher, c.log), c.taken, datagram);
      if r.Ok? {
        OpensOnlySealed(cipher, c.log, c.taken, datagram);
        var after := Step(cipher, c, e);
        assert after.taken == c.taken + [r.value.header.packet] && after.received == c.received + [r.value];
      }
  }

  lemma {:induction false} RunSafe(cipher: Cipher, events: seq<Event>)
    ensures Safe(Run(cipher, events))
  {
    if events != [] {
      RunSafe(cipher, events[..|events| - 1]);
      StepSafe(cipher, Run(cipher, events[..|events| - 1]), events[|events| - 1]);
    }
  }

  // No nonce is used twice, every opened packet was sealed, and none opens twice.
  lemma ChannelSafe(cipher: Cipher, events: seq<Event>)
    ensures Safe(Run(cipher, events))
    ensures var log := Run(cipher, events).log;
            forall i, j :: 0 <= i < j < |log| ==> Nonce(log[i].header.packet) != Nonce(log[j].header.packet)
    ensures var received := Run(cipher, events).received;
            forall i, j :: 0 <= i < j < |received| ==> received[i] != received[j]
  {
    hide Step, Nonce;
    RunSafe(cipher, events);
    var log := Run(cipher, events).log;
    forall i, j | 0 <= i < j < |log|
      ensures Nonce(log[i].header.packet) != Nonce(log[j].header.packet)
    {
      if Nonce(log[i].header.packet) == Nonce(log[j].header.packet) {
        NonceInjective(log[i].header.packet, log[j].header.packet);
      }
    }
  }

  // What any sealed datagram does when it arrives, at any point of any run.
  lemma SealedOpens(cipher: Cipher, events: seq<Event>, i: nat)
    requires TagSized(cipher)
    requires i < |Run(cipher, events).log|
    ensures var c := Run(cipher, events);
            var sent := c.log[i];
            OpenResult(Produced(cipher, c.log), c.taken, Wire(cipher, sent))
            == if !sent.header.Decodable() then
                 Err(BadHeader(Fragment(sent.header.fragment, sent.header.fragments)))
               else if sent in c.received || (c.taken != [] && i + WINDOW <= Highest(c.taken).value) then Err(Replayed)
               else Ok(sent)
  {
    hide Be16, Be32, Be64, FromBe16, FromBe32, FromBe64, Encode, Decode, Fields, Decrypt, Le64;
    var c := Run(cipher, events);
    var sent := c.log[i];
    ChannelSafe(cipher, events);
    var text := cipher(Nonce(sent.header.packet), Encode(sent.header), sent.payload);
    DecodeEncode(sent.header, text);
    var d := Wire(cipher, sent);
    assert d[..HEADER_LEN] == Encode(sent.header) && d[HEADER_LEN..] == text;
    if sent.header.Decodable() {
      OpenedIsTaken(c, i);
      if Acceptable(c.taken, sent.header.packet) {
        assert Produced(cipher, c.log)[i] == Entry(cipher, sent);
        OpensOnlySealed(cipher, c.log, c.taken, d);
        var got := OpenResult(Produced(cipher, c.log), c.taken, d).value;
        assert got.header == sent.header;
        assert c.log[sent.header.packet] == got;
      }
    }
  }

  lemma OpenedIsTaken(c: Channel, i: nat)
    requires Safe(c) && i < |c.log|
    ensures c.log[i] in c.received <==> i in c.taken
  {
    if i in c.taken {
      var j :| 0 <= j < |c.taken| && c.taken[j] == i;
      var k :| 0 <= k < |c.log| && c.log[k] == c.received[j];
      assert k == i;
    }
    if c.log[i] in c.received {
      var j :| 0 <= j < |c.received| && c.received[j] == c.log[i];
      assert c.taken[j] == i;
    }
  }

  // Nothing more is opened than was numbered, so the counts a receiver reports are bounded.
  lemma OpenedCount(cipher: Cipher, events: seq<Event>)
    ensures var c := Run(cipher, events);
            |c.received| <= (if c.taken == [] then 0 else Highest(c.taken).value + 1) <= |c.log|
  {
    var c := Run(cipher, events);
    ChannelSafe(cipher, events);
    DistinctCount(c.taken);
    if c.taken != [] {
      var j :| 0 <= j < |c.taken| && c.taken[j] == Highest(c.taken).value;
      var k :| 0 <= k < |c.log| && c.log[k] == c.received[j];
    }
  }

  // ---- What is refused, and what is not ----

  // A payload that fits is sealed while there are numbers left, under the next of them; anything else changes nothing.
  lemma SealRefuses(cipher: Cipher, log: seq<Sent>, header: Header, payload: Bytes)
    ensures var r := SealResult(cipher, log, header, payload);
            && (r == Err(TooLarge(|payload|)) <==> |payload| > 1160)
            && (r == Err(Exhausted) <==> |payload| <= 1160 && |log| >= 0xffff_ffff_ffff_ffff)
            && (r.Err? ==> SealLog(log, header, payload) == log)
            && (r.Ok? ==> SealLog(log, header, payload) == log + [Sent(header.(packet := |log|), payload)])
  {}

  // Each refusal of a datagram has its own condition, and they are looked at in this order.
  lemma OpenRefuses(produced: seq<Sealed>, taken: seq<u64>, d: Bytes)
    ensures var r := OpenResult(produced, taken, d);
            if Decode(d).Err? then r == Err(BadHeader(Decode(d).error))
            else if |d| < 40 then r == Err(Truncated)
            else
              var header := Decode(d).value;
              if header.packet in taken || exists q :: q in taken && header.packet + 1024 <= q then r == Err(Replayed)
              else if forall s :: s in produced ==>
                s.nonce != Nonce(header.packet) || s.aad != d[..24] || s.text != d[24..]
              then
                r == Err(Authentication)
              else r.Ok? && r.value.header == header
  {
    hide Decode, Nonce, Decrypt;
    if Decode(d).Ok? && |d| >= 40 {
      var header := Decode(d).value;
      var aad, text := d[..HEADER_LEN], d[HEADER_LEN..];
      assert Acceptable(taken, header.packet)
        <==> !(header.packet in taken || exists q :: q in taken && header.packet + 1024 <= q);
      if Acceptable(taken, header.packet) {
        var plain := Decrypt(produced, Nonce(header.packet), aad, text);
        if plain.Some? {
          assert Sealed(Nonce(header.packet), aad, plain.value, text) in produced;
        } else {
          assert forall s :: s in produced ==> s.nonce != Nonce(header.packet) || s.aad != aad || s.text != text;
        }
      }
    }
  }

  // What is sealed and delivered next opens, as the header and payload that were sealed, under the next number.
  lemma SealedThenOpened(cipher: Cipher, events: seq<Event>, header: Header, payload: Bytes)
    requires TagSized(cipher) && header.Decodable() && |payload| <= 1160 && |Run(cipher, events).log| < U64_MAX
    ensures var before := Run(cipher, events);
            var sent := Sent(header.(packet := |before.log|), payload);
            && SealResult(cipher, before.log, header, payload) == Ok(Wire(cipher, sent))
            && Run(cipher, events + [Seal(header, payload), Deliver(Wire(cipher, sent))]).received
               == before.received + [sent]
  {
    hide Decode, Encode, Decrypt, Nonce, OpenResult, Produced, Wire;
    var before := Run(cipher, events);
    var n := |before.log|;
    var sent := Sent(header.(packet := n), payload);
    var sealed := events + [Seal(header, payload)];
    assert sealed[..|sealed| - 1] == events;
    var all := sealed + [Deliver(Wire(cipher, sent))];
    assert all[..|all| - 1] == sealed;
    assert events + [Seal(header, payload), Deliver(Wire(cipher, sent))] == all;
    ChannelSafe(cipher, events);
    SealedOpens(cipher, sealed, n);
    var c := Run(cipher, sealed);
    assert c.log[n] == sent;
    forall q | q in c.taken ensures q < n {
      var i :| 0 <= i < |c.taken| && c.taken[i] == q;
      var j :| 0 <= j < n && before.log[j] == before.received[i];
    }
    OpenedIsTaken(c, n);
  }
}
