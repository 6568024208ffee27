/**
 The 16-bit checksum of the NFC hardware library (libs/nfc/include/nfc/Util.h): a
 shift register fed with the bits of each byte, lowest bit first.

 The register is written as its sixteen bits, lowest first, so that exclusive or is
 element by element.  `Compute` is the library's code on machine words; it is proved
 to produce exactly these bits.
 */
module Crc16 {

  type Word = w: seq<bool> | |w| == 16 witness seq(16, _ => false)

  const ZERO: Word :=
    [false, false, false, false, false, false, false, false,
     false, false, false, false, false, false, false, false]

  /** Polynomial 0x8005: the bits that are flipped on feedback. */
  predicate Tap(i: int) { i == 0 || i == 2 || i == 15 }

  /** Polynomial 0xA001, the same bits counted from the other end. */
  predicate ReflectedTap(i: int) { i == 15 || i == 13 || i == 0 }

  function Shift(r: Word, bit: bool): Word {
    seq(16, i requires 0 <= i < 16 => (i > 0 && r[i - 1]) != (Tap(i) && bit != r[15]))
  }

  /** The register after a sequence of bits. */
  function Feed(r: Word, bits: seq<bool>): Word {
    if bits == [] then r else Shift(Feed(r, bits[..|bits| - 1]), bits[|bits| - 1])
  }

  /** The values the bit mask of the inner loop goes through. */
  function Mask(k: nat): bv8 {
    match k
    case 0 => 1
    case 1 => 2
    case 2 => 4
    case 3 => 8
    case 4 => 16
    case 5 => 32
    case 6 => 64
    case 7 => 128
    case _ => 0
  }

  predicate BitAt(b: bv8, k: nat)
    requires k < 8
  {
    b & Mask(k) != 0
  }

  /** The bits of a byte, lowest first. */
  function BitsOf(b: bv8): (bits: seq<bool>)
    ensures |bits| == 8
  {
    seq(8, k requires 0 <= k < 8 => BitAt(b, k))
  }

  /** The bits of a message in the order they are fed. */
  function Bits(data: seq<bv8>): (bits: seq<bool>)
    ensures |bits| == 8 * |data|
  {
    if data == [] then [] else Bits(data[..|data| - 1]) + BitsOf(data[|data| - 1])
  }

  function Checksum(data: seq<bv8>): Word { Feed(ZERO, Bits(data)) }

  // ------------------------------------------------------------ on machine words

  const WORD_MASKS: seq<bv16> :=
    [0x0001, 0x0002, 0x0004, 0x0008, 0x0010, 0x0020, 0x0040, 0x0080,
     0x0100, 0x0200, 0x0400, 0x0800, 0x1000, 0x2000, 0x4000, 0x8000]

  predicate WordBit(w: bv16, k: nat)
    requires k < 16
  {
    w & WORD_MASKS[k] != 0
  }

  function WordOf(w: bv16): Word {
    seq(16, k requires 0 <= k < 16 => WordBit(w, k))
  }

  lemma ShiftedBit(w: bv16, k: nat)
    requires k < 16
    ensures WordBit(w << 1, k) == (k > 0 && WordBit(w, k - 1))
  {
    if k < 8 {
      if k < 4 { } else { }
    } else {
      if k < 12 { } else { }
    }
  }

  lemma TappedBit(w: bv16, k: nat)
    requires k < 16
    ensures WordBit(w ^ 0x8005, k) == (WordBit(w, k) != Tap(k))
  {
    if k < 8 {
      if k < 4 { } else { }
    } else {
      if k < 12 { } else { }
    }
  }

  lemma TopBit(w: bv16)
    ensures (w >> 15 == 1) == WordBit(w, 15)
  {
  }

  lemma WordShifted(w: bv16, x: Word, y: Word)
    requires x == WordOf(w) && y == WordOf(w << 1)
    ensures forall i :: 0 <= i < 16 ==> y[i] == (i > 0 && x[i - 1])
  {
    forall i | 0 <= i < 16 ensures y[i] == (i > 0 && x[i - 1]) {
      ShiftedBit(w, i);
    }
  }

  lemma WordTapped(w: bv16, x: Word, y: Word)
    requires x == WordOf(w) && y == WordOf(w ^ 0x8005)
    ensures forall i :: 0 <= i < 16 ==> y[i] == (x[i] != Tap(i))
  {
    forall i | 0 <= i < 16 ensures y[i] == (x[i] != Tap(i)) {
      TappedBit(w, i);
    }
  }

  /** One round of the inner loop. */
  method ShiftRegister(crc: bv16, dataBit: bool) returns (r: bv16)
    ensures WordOf(r) == Shift(WordOf(crc), dataBit)
  {
    var crcBit := crc >> 15 == 1;
    TopBit(crc);
    r := crc << 1;
    WordShifted(crc, WordOf(crc), WordOf(r));
    if dataBit != crcBit {
      WordTapped(r, WordOf(r), WordOf(r ^ 0x8005));
      r := r ^ 0x8005;
    }
  }

  lemma NextMask(k: nat)
    requires k < 8
    ensures Mask(k) << 1 == Mask(k + 1)
    ensures Mask(k) > 0
  {
  }

  /** The mask, shifted left within its eight bits, becomes zero after eight rounds. */
  method ShiftInByte(start: bv16, b: bv8) returns (crc: bv16)
    ensures WordOf(crc) == Feed(WordOf(start), BitsOf(b))
  {
    crc := start;
    var register: bv8 := 1;
    ghost var bits := BitsOf(b);
    ghost var k := 0;
    while register > 0
      invariant 0 <= k <= 8 && register == Mask(k)
      invariant WordOf(crc) == Feed(WordOf(start), bits[..k])
      decreases 8 - k
    {
      FeedNext(WordOf(start), bits, k);
      NextMask(k);
      crc := ShiftRegister(crc, b & register != 0);
      register := register << 1;
      k := k + 1;
    }
    assert bits[..k] == bits;
  }

  method Compute(data: seq<bv8>) returns (crc: bv16)
    ensures WordOf(crc) == Checksum(data)
  {
    crc := 0;
    ZeroWord();
    var i := 0;
    while i < |data|
      invariant 0 <= i <= |data|
      invariant WordOf(crc) == Checksum(data[..i])
    {
      crc := ShiftInByte(crc, data[i]);
      assert data[..i + 1][..i] == data[..i];
      FeedSplit(ZERO, Bits(data[..i]), BitsOf(data[i]));
      i := i + 1;
    }
    assert data[..i] == data;
  }

  lemma ZeroWord()
    ensures WordOf(0) == ZERO
  {
  }

  lemma FeedNext(r: Word, bits: seq<bool>, k: nat)
    requires k < |bits|
    ensures Feed(r, bits[..k + 1]) == Shift(Feed(r, bits[..k]), bits[k])
  {
    assert bits[..k + 1][..k] == bits[..k];
  }

  lemma {:induction false} FeedSplit(r: Word, a: seq<bool>, b: seq<bool>)
    ensures Feed(r, a + b) == Feed(Feed(r, a), b)
  {
    if b == [] {
      assert a + b == a;
    } else {
      var n := |b| - 1;
      assert (a + b)[..|a + b| - 1] == a + b[..n];
      FeedSplit(r, a, b[..n]);
    }
  }

  // ------------------------------------------------------------------ linearity

  function Sum(a: seq<bool>, b: seq<bool>): (c: seq<bool>)
    requires |a| == |b|
    ensures |c| == |a| && forall i :: 0 <= i < |c| ==> c[i] == (a[i] != b[i])
  {
    seq(|a|, i requires 0 <= i < |a| => a[i] != b[i])
  }

  lemma ShiftLinear(r: Word, s: Word, x: bool, y: bool)
    ensures Shift(Sum(r, s), x != y) == Sum(Shift(r, x), Shift(s, y))
  {
  }

  /** Fed with the sum of two bit sequences, the register is the sum of the registers. */
  lemma {:induction false} FeedLinear(r: Word, s: Word, a: seq<bool>, b: seq<bool>)
    requires |a| == |b|
    ensures Feed(Sum(r, s), Sum(a, b)) == Sum(Feed(r, a), Feed(s, b))
  {
    if a != [] {
      var n := |a| - 1;
      assert Sum(a, b)[..n] == Sum(a[..n], b[..n]);
      FeedLinear(r, s, a[..n], b[..n]);
      ShiftLinear(Feed(r, a[..n]), Feed(s, b[..n]), a[n], b[n]);
    }
  }

  function Xor(a: seq<bv8>, b: seq<bv8>): (c: seq<bv8>)
    requires |a| == |b|
    ensures |c| == |a| && forall i :: 0 <= i < |c| ==> c[i] == a[i] ^ b[i]
  {
    seq(|a|, i requires 0 <= i < |a| => a[i] ^ b[i])
  }

  lemma MaskSum(p: bv8, q: bv8, mask: bv8)
    requires mask & (mask - 1) == 0
    ensures ((p ^ q) & mask != 0) == ((p & mask != 0) != (q & mask != 0))
  {
  }

  lemma MaskIsOneBit(k: nat)
    requires k < 8
    ensures Mask(k) & (Mask(k) - 1) == 0
  {
  }

  lemma BitSum(p: bv8, q: bv8, k: nat)
    requires k < 8
    ensures BitAt(p ^ q, k) == (BitAt(p, k) != BitAt(q, k))
  {
    MaskIsOneBit(k);
    MaskSum(p, q, Mask(k));
  }

  lemma ByteSum(p: bv8, q: bv8)
    ensures BitsOf(p ^ q) == Sum(BitsOf(p), BitsOf(q))
  {
    forall k | 0 <= k < 8 ensures BitsOf(p ^ q)[k] == Sum(BitsOf(p), BitsOf(q))[k] {
      BitSum(p, q, k);
    }
  }

  lemma SumAppends(a: seq<bool>, b: seq<bool>, x: seq<bool>, y: seq<bool>)
    requires |a| == |b| && |x| == |y|
    ensures Sum(a + x, b + y) == Sum(a, b) + Sum(x, y)
  {
  }

  lemma BitsLast(data: seq<bv8>)
    requires data != []
    ensures Bits(data) == Bits(data[..|data| - 1]) + BitsOf(data[|data| - 1])
  {
  }

  lemma {:induction false} BitsSum(a: seq<bv8>, b: seq<bv8>)
    requires |a| == |b|
    ensures Bits(Xor(a, b)) == Sum(Bits(a), Bits(b))
  {
    if a != [] {
      var n := |a| - 1;
      var c := Xor(a, b);
      assert c[..n] == Xor(a[..n], b[..n]);
      BitsSum(a[..n], b[..n]);
      ByteSum(a[n], b[n]);
      BitsLast(a);
      BitsLast(b);
      BitsLast(c);
      SumAppends(Bits(a[..n]), Bits(b[..n]), BitsOf(a[n]), BitsOf(b[n]));
    }
  }

  /** The checksum of the exclusive or of two messages is the exclusive or of their
      checksums. */
  lemma {:induction false} ChecksumLinear(a: seq<bv8>, b: seq<bv8>)
    requires |a| == |b|
    ensures Checksum(Xor(a, b)) == Sum(Checksum(a), Checksum(b))
  {
    BitsSum(a, b);
    FeedLinear(ZERO, ZERO, Bits(a), Bits(b));
    assert Sum(ZERO, ZERO) == ZERO;
  }

  // ------------------------------------------------------------ error detection

  lemma ShiftInjective(r: Word, s: Word, bit: bool)
    requires Shift(r, bit) == Shift(s, bit)
    ensures r == s
  {
    assert Shift(r, bit)[0] == Shift(s, bit)[0];
    forall i | 0 <= i < 15 ensures r[i] == s[i] {
      assert Shift(r, bit)[i + 1] == Shift(s, bit)[i + 1];
    }
  }

  lemma {:induction false} FeedInjective(r: Word, s: Word, bits: seq<bool>)
    requires Feed(r, bits) == Feed(s, bits)
    ensures r == s
  {
    if bits != [] {
      var n := |bits| - 1;
      ShiftInjective(Feed(r, bits[..n]), Feed(s, bits[..n]), bits[n]);
      FeedInjective(r, s, bits[..n]);
    }
  }

  /** If the last `m` bits fed leave the register empty, the register before them
      holds just these bits at its high end. */
  lemma {:induction false} Unwound(r: Word, bits: seq<bool>)
    requires |bits| <= 16 && Feed(r, bits) == ZERO
    ensures forall i :: 0 <= i < 16 ==> r[i] == (i >= 16 - |bits| && bits[15 - i])
    decreases |bits|
  {
    if bits != [] {
      assert bits == bits[..1] + bits[1..];
      FeedSplit(r, bits[..1], bits[1..]);
      FeedOne(r, bits[..1]);
      var s := Shift(r, bits[0]);
      Unwound(s, bits[1..]);
      assert !s[0];
      forall i | 0 <= i < 15 ensures r[i] == (i >= 16 - |bits| && bits[15 - i]) {
        assert s[i + 1] == r[i];
      }
    }
  }

  lemma FeedOne(r: Word, bits: seq<bool>)
    requires |bits| == 1
    ensures Feed(r, bits) == Shift(r, bits[0])
  {
    assert bits[..0] == [];
  }

  /** At most sixteen bits, fed into the same register, can be told from the result. */
  lemma ShortFeedInjective(r: Word, x: seq<bool>, y: seq<bool>)
    requires |x| == |y| <= 16 && Feed(r, x) == Feed(r, y)
    ensures x == y
  {
    FeedLinear(r, r, x, y);
    assert Sum(r, r) == ZERO && Sum(Feed(r, x), Feed(r, y)) == ZERO;
    Unwound(ZERO, Sum(x, y));
    forall i | 0 <= i < |x| ensures x[i] == y[i] {
      assert ZERO[15 - i] == Sum(x, y)[i];
    }
  }

  /** Every burst of at most sixteen changed bits changes the register. */
  lemma {:induction false} BurstDetected(head: seq<bool>, x: seq<bool>, y: seq<bool>, tail: seq<bool>)
    requires |x| == |y| <= 16 && x != y
    ensures Feed(ZERO, head + x + tail) != Feed(ZERO, head + y + tail)
  {
    FeedSplit(ZERO, head + x, tail);
    FeedSplit(ZERO, head, x);
    FeedSplit(ZERO, head + y, tail);
    FeedSplit(ZERO, head, y);
    var r := Feed(ZERO, head);
    if Feed(ZERO, head + x + tail) == Feed(ZERO, head + y + tail) {
      FeedInjective(Feed(r, x), Feed(r, y), tail);
      ShortFeedInjective(r, x, y);
    }
  }

  lemma ByteFromBits(p: bv8, q: bv8)
    requires (p & 1 != 0) == (q & 1 != 0) && (p & 2 != 0) == (q & 2 != 0)
    requires (p & 4 != 0) == (q & 4 != 0) && (p & 8 != 0) == (q & 8 != 0)
    requires (p & 16 != 0) == (q & 16 != 0) && (p & 32 != 0) == (q & 32 != 0)
    requires (p & 64 != 0) == (q & 64 != 0) && (p & 128 != 0) == (q & 128 != 0)
    ensures p == q
  {
  }

  lemma BitsOfInjective(p: bv8, q: bv8)
    requires BitsOf(p) == BitsOf(q)
    ensures p == q
  {
    forall k | 0 <= k < 8 ensures BitAt(p, k) == BitAt(q, k) {
      assert BitsOf(p)[k] == BitsOf(q)[k];
    }
    assert BitAt(p, 0) == BitAt(q, 0) && BitAt(p, 1) == BitAt(q, 1) && BitAt(p, 2) == BitAt(q, 2);
    assert BitAt(p, 3) == BitAt(q, 3) && BitAt(p, 4) == BitAt(q, 4) && BitAt(p, 5) == BitAt(q, 5);
    assert BitAt(p, 6) == BitAt(q, 6) && BitAt(p, 7) == BitAt(q, 7);
    ByteFromBits(p, q);
  }

  lemma {:induction false} BitsInjective(a: seq<bv8>, b: seq<bv8>)
    requires |a| == |b| && Bits(a) == Bits(b)
    ensures a == b
  {
    if a != [] {
      var n := |a| - 1;
      BitsLast(a);
      BitsLast(b);
      assert Bits(a)[..8 * n] == Bits(a[..n]) && Bits(b)[..8 * n] == Bits(b[..n]);
      assert Bits(a)[8 * n..] == BitsOf(a[n]) && Bits(b)[8 * n..] == BitsOf(b[n]);
      BitsInjective(a[..n], b[..n]);
      BitsOfInjective(a[n], b[n]);
      assert a == a[..n] + [a[n]] && b == b[..n] + [b[n]];
    }
  }

  lemma {:induction false} BitsSplit(a: seq<bv8>, b: seq<bv8>)
    ensures Bits(a + b) == Bits(a) + Bits(b)
  {
    if b == [] {
      assert a + b == a;
    } else {
      var n := |b| - 1;
      assert (a + b)[..|a + b| - 1] == a + b[..n];
      BitsSplit(a, b[..n]);
      BitsLast(a + b);
      BitsLast(b);
    }
  }

  lemma InThreeParts(a: seq<bv8>, k: nat, e: nat)
    requires k <= e <= |a|
    ensures a == a[..k] + a[k..e] + a[e..]
  {
  }

  /** Messages of equal length that differ only within one byte or two adjacent bytes
      have different checksums, whatever their length. */
  lemma {:induction false} AdjacentBytesDetected(a: seq<bv8>, b: seq<bv8>, k: nat)
    requires |a| == |b| && k < |a| && a != b
    requires forall i :: 0 <= i < |a| && i != k && i != k + 1 ==> a[i] == b[i]
    ensures Checksum(a) != Checksum(b)
  {
    var e := if k + 2 <= |a| then k + 2 else |a|;
    var head, x, y, tail := a[..k], a[k..e], b[k..e], a[e..];
    InThreeParts(a, k, e);
    InThreeParts(b, k, e);
    assert b[..k] == head && b[e..] == tail;
    BitsSplit(head + x, tail);
    BitsSplit(head, x);
    BitsSplit(head + y, tail);
    BitsSplit(head, y);
    if Bits(x) == Bits(y) {
      BitsInjective(x, y);
    }
    BurstDetected(Bits(head), Bits(x), Bits(y), Bits(tail));
  }

  // ---------------------------------------------------- the reflected algorithm

  function Reverse(w: Word): Word {
    seq(16, i requires 0 <= i < 16 => w[15 - i])
  }

  /** One step of the register that shifts the other way. */
  function ReflectedShift(r: Word, bit: bool): Word {
    seq(16, i requires 0 <= i < 16 => (i < 15 && r[i + 1]) != (ReflectedTap(i) && bit != r[0]))
  }

  function Steps(r: Word, n: nat): Word {
    if n == 0 then r else ReflectedShift(Steps(r, n - 1), false)
  }

  function Widened(b: bv8): Word { BitsOf(b) + seq(8, _ => false) }

  /** The byte-at-a-time reflected checksum: each byte is added to the low end of the
      register, which then makes eight steps. */
  function ReflectedChecksum(data: seq<bv8>): Word {
    if data == [] then ZERO
    else Steps(Sum(ReflectedChecksum(data[..|data| - 1]), Widened(data[|data| - 1])), 8)
  }

  /** The reflected register fed bit by bit. */
  function ReflectedFeed(r: Word, bits: seq<bool>): Word {
    if bits == [] then r else ReflectedShift(ReflectedFeed(r, bits[..|bits| - 1]), bits[|bits| - 1])
  }

  lemma {:induction false} ReverseFeed(r: Word, bits: seq<bool>)
    ensures Reverse(Feed(r, bits)) == ReflectedFeed(Reverse(r), bits)
  {
    if bits != [] {
      var n := |bits| - 1;
      ReverseFeed(r, bits[..n]);
      assert Reverse(Shift(Feed(r, bits[..n]), bits[n])) == ReflectedShift(Reverse(Feed(r, bits[..n])), bits[n]);
    }
  }

  /** What is left of a word after `n` steps downwards. */
  function Rest(w: Word, n: nat): Word {
    seq(16, i requires 0 <= i < 16 => i + n < 16 && w[i + n])
  }

  lemma StepWithWord(r: Word, w: Word, n: nat)
    requires n < 16
    ensures ReflectedShift(Sum(r, Rest(w, n)), false) == Sum(ReflectedShift(r, w[n]), Rest(w, n + 1))
  {
  }

  /** Adding a word at once and stepping, or feeding its bits one by one, is the same. */
  lemma {:induction false} StepsWithWord(r: Word, w: Word, n: nat)
    requires n <= 16
    ensures Steps(Sum(r, w), n) == Sum(ReflectedFeed(r, w[..n]), Rest(w, n))
  {
    if n == 0 {
      assert Rest(w, 0) == w;
    } else {
      StepsWithWord(r, w, n - 1);
      assert w[..n][..n - 1] == w[..n - 1];
      StepWithWord(ReflectedFeed(r, w[..n - 1]), w, n - 1);
    }
  }

  lemma ReflectedByte(r: Word, b: bv8)
    ensures Steps(Sum(r, Widened(b)), 8) == ReflectedFeed(r, BitsOf(b))
  {
    var w := Widened(b);
    StepsWithWord(r, w, 8);
    assert w[..8] == BitsOf(b);
    var s := ReflectedFeed(r, w[..8]);
    forall i | 0 <= i < 16 ensures Sum(s, Rest(w, 8))[i] == s[i] {
    }
  }

  lemma ChecksumLast(data: seq<bv8>)
    requires data != []
    ensures Checksum(data) == Feed(Checksum(data[..|data| - 1]), BitsOf(data[|data| - 1]))
  {
    BitsLast(data);
    FeedSplit(ZERO, Bits(data[..|data| - 1]), BitsOf(data[|data| - 1]));
  }

  /** The shift-register checksum is the bit reversal of the byte-at-a-time reflected
      one, for messages of any length. */
  lemma {:induction false} ChecksumIsReflected(data: seq<bv8>)
    ensures Reverse(Checksum(data)) == ReflectedChecksum(data)
  {
    if data == [] {
      assert Reverse(ZERO) == ZERO;
    } else {
      var n := |data| - 1;
      ChecksumIsReflected(data[..n]);
      ChecksumLast(data);
      ReverseFeed(Checksum(data[..n]), BitsOf(data[n]));
      ReflectedByte(ReflectedChecksum(data[..n]), data[n]);
    }
  }

  // ------------------------------------------------------------- a known value

  /** The message of the one byte 0x80 has the polynomial itself, 0x8005, as its checksum. */
  lemma ChecksumOfOneBit()
    ensures forall i :: 0 <= i < 16 ==> (Checksum([0x80])[i] <==> i == 0 || i == 2 || i == 15)
  {
    var data: seq<bv8> := [0x80];
    LastBitOnly();
    BitsLast(data);
    assert data[..0] == [];
    assert Bits(data) == BitsOf(0x80);
    var bits := BitsOf(0x80);
    ZerosKeepZero(bits[..7]);
    FeedNext(ZERO, bits, 7);
    assert bits[..8] == bits;
  }

  lemma LastBitOnly()
    ensures forall k :: 0 <= k < 8 ==> (BitsOf(0x80)[k] <==> k == 7)
  {
    assert !BitAt(0x80, 0) && !BitAt(0x80, 1) && !BitAt(0x80, 2) && !BitAt(0x80, 3);
    assert !BitAt(0x80, 4) && !BitAt(0x80, 5) && !BitAt(0x80, 6) && BitAt(0x80, 7);
  }

  lemma {:induction false} ZerosKeepZero(bits: seq<bool>)
    requires forall k :: 0 <= k < |bits| ==> !bits[k]
    ensures Feed(ZERO, bits) == ZERO
  {
    if bits != [] {
      ZerosKeepZero(bits[..|bits| - 1]);
    }
  }
}
