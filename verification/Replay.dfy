/**
 The receiver's replay window: a bit array over the last WINDOW packet numbers.

 The class keeps the bits as the source does and rewrites them in place. A ghost
 log of the accepted numbers says what the bits stand for.
 */
module Replay {
  import opened Wrappers
  import opened Words
  import opened Counting

  const WINDOW: nat := 1024
  const WORDS: nat := WINDOW / 64

  // ---- What the window means ----

  // Not accepted before, and not WINDOW or more behind any accepted number.
  predicate Acceptable(taken: seq<u64>, packet: u64) {
    packet !in taken && forall q :: q in taken ==> q < packet + WINDOW
  }

  function Highest(taken: seq<u64>): (h: Option<u64>)
    ensures h.None? <==> taken == []
    ensures h.Some? ==> h.value in taken && forall q :: q in taken ==> q <= h.value
  {
    if taken == [] then None
    else
      var rest, last := taken[..|taken| - 1], taken[|taken| - 1];
      assert taken == rest + [last];
      match Highest(rest)
      case None => Some(last)
      case Some(h) => Some(if last > h then last else h)
  }

  // Looking a packet up and recording it if it may be accepted.
  function Take(taken: seq<u64>, packet: u64): seq<u64> {
    if Acceptable(taken, packet) then taken + [packet] else taken
  }

  // ---- Words of bits ----

  // A 64-bit word as its bits, the least significant first: the code only shifts, joins and tests words.
  type Word = w: seq<bool> | |w| == 64 witness seq(64, _ => false)

  function Zero(): Word {
    seq(64, _ => false)
  }

  // `a << n`, `a >> n` and `a | b`: what is shifted past either end is lost.
  function Shl(a: Word, n: nat): Word {
    seq(64, j requires 0 <= j < 64 => j >= n && a[j - n])
  }

  function Shr(a: Word, n: nat): Word {
    seq(64, j requires 0 <= j < 64 => j + n < 64 && a[j + n])
  }

  function Or(a: Word, b: Word): Word {
    seq(64, j requires 0 <= j < 64 => a[j] || b[j])
  }

  function One(): Word {
    seq(64, j => j == 0)
  }

  // ---- The bit array ----

  predicate BitOf(words: seq<Word>, k: nat)
    requires |words| == WORDS && k < WINDOW
  {
    words[k / 64][k % 64]
  }

  // Word `i` after every bit moved `gap` places up, read from the words before.
  function ShiftedWord(words: seq<Word>, gap: nat, i: nat): Word
    requires |words| == WORDS && i < WORDS
  {
    var value := if i >= gap / 64 then words[i - gap / 64] else Zero();
    if gap % 64 == 0 then value
    else if i > gap / 64 then Or(Shl(value, gap % 64), Shr(words[i - gap / 64 - 1], 64 - gap % 64))
    else Shl(value, gap % 64)
  }

  // Moving by `gap` places takes bit `k - gap` to bit `k`, and clears the bits below `gap`.
  lemma ShiftedBit(words: seq<Word>, shifted: seq<Word>, gap: nat, k: nat)
    requires |words| == |shifted| == WORDS && k < WINDOW
    requires shifted[k / 64] == ShiftedWord(words, gap, k / 64)
    ensures BitOf(shifted, k) == (k >= gap && BitOf(words, k - gap))
  {
    var i, j := k / 64, k % 64;
    var whole, part := gap / 64, gap % 64;
    if k >= gap {
      if j >= part {
        assert (k - gap) / 64 == i - whole && (k - gap) % 64 == j - part;
      } else {
        assert (k - gap) / 64 == i - whole - 1 && (k - gap) % 64 == 64 + j - part;
      }
    }
  }

  // Bit `k` says that the number `k` below the highest was accepted.
  ghost predicate Represents(words: seq<Word>, highest: Option<u64>, taken: seq<u64>)
    requires |words| == WORDS
  {
    forall k: nat | k < WINDOW :: BitOf(words, k) <==> highest.Some? && highest.value - k in taken
  }

  // `after` is `words` moved `gap` places, with bit `k` set.
  ghost predicate MovedAndSet(words: seq<Word>, after: seq<Word>, gap: nat, k: nat)
    requires |words| == |after| == WORDS
  {
    forall j: nat | j < WINDOW :: BitOf(after, j) <==> j == k || (j >= gap && BitOf(words, j - gap))
  }

  // `after` is `words` moved `gap` places.
  ghost predicate Moved(words: seq<Word>, after: seq<Word>, gap: nat)
    requires |words| == |after| == WORDS
  {
    forall j: nat | j < WINDOW :: BitOf(after, j) <==> j >= gap && BitOf(words, j - gap)
  }

  lemma MoveThenSet(words: seq<Word>, moved: seq<Word>, after: seq<Word>, gap: nat, k: nat)
    requires |words| == |moved| == |after| == WORDS
    requires Moved(words, moved, gap) && MovedAndSet(moved, after, 0, k)
    ensures MovedAndSet(words, after, gap, k)
  {}

  lemma RepresentsNewer(words: seq<Word>, after: seq<Word>, highest: Option<u64>, taken: seq<u64>, packet: u64)
    requires |words| == |after| == WORDS
    requires highest == Highest(taken) && Represents(words, highest, taken)
    requires highest.Some? ==> packet > highest.value
    requires MovedAndSet(words, after, if highest.Some? then packet - highest.value else 0, 0)
    ensures Highest(taken + [packet]) == Some(packet)
    ensures Represents(after, Some(packet), taken + [packet])
  {
    assert (taken + [packet])[..|taken|] == taken;
    forall k: nat | k < WINDOW
      ensures BitOf(after, k) <==> packet - k in taken + [packet]
    {
      if highest.Some? {
        var gap := packet - highest.value;
        if k >= gap {
          assert highest.value - (k - gap) == packet - k;
        }
      }
    }
  }

  lemma RepresentsOlder(words: seq<Word>, after: seq<Word>, highest: u64, taken: seq<u64>, packet: u64)
    requires |words| == |after| == WORDS
    requires Some(highest) == Highest(taken) && Represents(words, Some(highest), taken)
    requires packet <= highest
    requires if highest - packet < WINDOW then MovedAndSet(words, after, 0, highest - packet) else after == words
    ensures Highest(taken + [packet]) == Some(highest)
    ensures Represents(after, Some(highest), taken + [packet])
  {
    assert (taken + [packet])[..|taken|] == taken;
  }

  // ---- The window itself ----

  class ReplayWindow {
    var highest: Option<u64>
    var accepted: nat
    const bits: array<Word>
    // Every number `Accept` was called with, in order.
    ghost var taken: seq<u64>

    ghost predicate Valid()
      reads this, bits
    {
      && bits.Length == WORDS
      && highest == Highest(taken)
      && accepted == |taken|
      && Represents(bits[..], highest, taken)
    }

    constructor ()
      ensures Valid() && taken == []
      ensures fresh(bits)
    {
      highest := None;
      accepted := 0;
      bits := new Word[WORDS](_ => Zero());
      taken := [];
    }

    predicate Bit(k: nat)
      requires bits.Length == WORDS && k < WINDOW
      reads this, bits
      ensures Bit(k) == BitOf(bits[..], k)
    {
      Shr(bits[k / 64], k % 64)[0]
    }

    method Set(k: nat)
      requires bits.Length == WORDS && k < WINDOW
      modifies bits
      ensures MovedAndSet(old(bits[..]), bits[..], 0, k)
    {
      bits[k / 64] := Or(bits[k / 64], Shl(One(), k % 64));
    }

    // Whether `packet` may be accepted: exactly when it was not, and is not too far back.
    predicate Check(packet: u64)
      requires Valid()
      reads this, bits
      ensures Check(packet) == Acceptable(taken, packet)
    {
      match highest
      case None => true
      case Some(h) =>
        if packet > h then true
        else
          h - packet < WINDOW && !Bit(h - packet)
    }

    // Records `packet`, whether or not it was checked first.
    method Accept(packet: u64)
      requires Valid()
      modifies this, bits
      ensures Valid() && taken == old(taken) + [packet]
    {
      accepted := accepted + 1;
      ghost var was := bits[..];
      match highest {
        case None =>
          highest := Some(packet);
          Set(0);
          RepresentsNewer(was, bits[..], None, taken, packet);
        case Some(h) =>
          if packet > h {
            Shift(packet - h);
            ghost var moved := bits[..];
            highest := Some(packet);
            Set(0);
            MoveThenSet(was, moved, bits[..], packet - h, 0);
            RepresentsNewer(was, bits[..], Some(h), taken, packet);
          } else {
            var back := h - packet;
            if back < WINDOW {
              Set(back);
            }
            RepresentsOlder(was, bits[..], h, taken, packet);
          }
      }
      taken := taken + [packet];
    }

    // Moves every remembered packet `gap` places further back, in place.
    method Shift(gap: nat)
      requires bits.Length == WORDS
      modifies bits
      ensures Moved(old(bits[..]), bits[..], gap)
    {
      if gap >= WINDOW {
        forall i | 0 <= i < WORDS {
          bits[i] := Zero();
        }
        return;
      }
      hide ShiftedWord, BitOf;
      ghost var was := bits[..];
      ShiftWords(gap);
      forall k: nat | k < WINDOW
        ensures BitOf(bits[..], k) == (k >= gap && BitOf(was, k - gap))
      {
        ShiftedBit(was, bits[..], gap, k);
      }
    }

    // The descending loop: every word is read before the pass reaches it.
    method ShiftWords(gap: nat)
      requires bits.Length == WORDS && gap < WINDOW
      modifies bits
      ensures forall i | 0 <= i < WORDS :: bits[i] == ShiftedWord(old(bits[..]), gap, i)
    {
      var whole, part := gap / 64, gap % 64;
      ghost var was := bits[..];
      var i := WORDS;
      while i > 0
        invariant 0 <= i <= WORDS
        invariant forall j | 0 <= j < i :: bits[j] == was[j]
        invariant forall j | i <= j < WORDS :: bits[j] == ShiftedWord(was, gap, j)
      {
        i := i - 1;
        var value := if i >= whole then bits[i - whole] else Zero();
        if part > 0 {
          value := Shl(value, part);
          if i > whole {
            value := Or(value, Shr(bits[i - whole - 1], 64 - part));
          }
        }
        bits[i] := value;
      }
    }
  }

  // ---- Runs of checked packets ----

  function TakeAll(taken: seq<u64>, packets: seq<u64>): seq<u64> {
    if packets == [] then taken else Take(TakeAll(taken, packets[..|packets| - 1]), packets[|packets| - 1])
  }

  // Whatever arrives, no number is accepted twice, so no more are accepted than were ever numbered.
  lemma {:induction false} TakenOnce(packets: seq<u64>)
    ensures Distinct(TakeAll([], packets))
    ensures forall p :: p in TakeAll([], packets) ==> p in packets
  {
    if packets != [] {
      TakenOnce(packets[..|packets| - 1]);
    }
  }

  lemma DistinctCount(taken: seq<u64>)
    requires Distinct(taken)
    ensures |taken| <= if taken == [] then 0 else Highest(taken).value + 1
  {
    var bound := if taken == [] then 0 else Highest(taken).value + 1;
    MembersSize(taken);
    RangeSize(0, bound);
    var numbers: set<nat> := Members(taken);
    SubsetSize(numbers, Range(0, bound));
  }
}
