/**
 The frames of the serial cable (libs/nfc/include/nfc/Cable.h): a reply is a
 two-byte header, data, and the complement of the 16-bit sum of both, low byte
 first.

 A read from the serial line gives all the bytes asked for, or none if the line
 stalls; the bytes that came before the stall are then lost.
 */
module CableFrame {
  import opened Collections

  const WORD: int := 0x1_0000
  const HEADER: seq<Byte> := [0x04, 0x46]

  function Sum(data: seq<Byte>): int {
    if data == [] then 0 else Sum(data[..|data| - 1]) + data[|data| - 1]
  }

  /** The check word of a sum, in the order it is sent. */
  function CheckOf(sum: int): (r: seq<Byte>)
    ensures |r| == 2
  {
    var word := WORD - 1 - sum % WORD;
    [word % 256, word / 256]
  }

  function Check(data: seq<Byte>): (r: seq<Byte>)
    ensures |r| == 2
    ensures (r[0] as int) + 0x100 * (r[1] as int) + Sum(data) % 0x1_0000 == 0xFFFF
  {
    CheckOf(Sum(data))
  }

  function WithCheck(data: seq<Byte>): seq<Byte> {
    data + Check(data)
  }

  /** The sum in a 16-bit register that wraps around, continued from `start`. */
  method Accumulate(start: int, data: seq<Byte>) returns (sum: int)
    requires 0 <= start < WORD
    ensures sum == (start + Sum(data)) % WORD
  {
    sum := start;
    var i := 0;
    while i < |data|
      invariant 0 <= i <= |data|
      invariant 0 <= sum < WORD && sum == (start + Sum(data[..i])) % WORD
    {
      assert data[..i + 1][..i] == data[..i];
      sum := (sum + data[i]) % WORD;
      i := i + 1;
    }
    assert data[..i] == data;
  }

  method AddCrc(data: seq<Byte>) returns (frame: seq<Byte>)
    ensures frame == WithCheck(data)
  {
    var crc := Accumulate(0, data);
    crc := WORD - 1 - crc;
    frame := data + [crc % 256];
    frame := frame + [crc / 256];
  }

  /** The serial line: the bytes on their way, and after how many of them each coming read stalls. */
  class Line {
    var incoming: seq<Byte>
    var stalls: seq<Option<nat>>

    method DataRead(count: nat) returns (bytes: seq<Byte>)
      modifies this
      ensures (bytes, incoming) == Read(old(incoming), old(stalls), count)
      ensures stalls == Later(old(stalls))
    {
      var given := Given(incoming, stalls, count);
      if given < count {
        bytes := [];
      } else {
        bytes := incoming[..count];
      }
      incoming := incoming[given..];
      stalls := Later(stalls);
    }

    /** The reply is the data, or nothing. */
    method WaitForReply(count: nat) returns (reply: Option<seq<Byte>>)
      modifies this
      ensures reply == Reply(old(incoming), old(stalls), count)
    {
      var header := DataRead(2);
      if |header| != 2 {
        return None;
      }
      assert header == HEADER <==> header[0] == 0x04 && header[1] == 0x46;
      if header[0] != 0x04 || header[1] != 0x46 {
        return None;
      }
      var data: seq<Byte> := [];
      if count != 0 {
        data := DataRead(count);
      }
      var crc := DataRead(2);
      if |crc| != 2 {
        return None;
      }
      var ok := Verify(header, data, crc);
      reply := if ok then Some(data) else None;
    }
  }

  method Verify(header: seq<Byte>, data: seq<Byte>, crc: seq<Byte>) returns (ok: bool)
    requires |crc| == 2
    ensures ok <==> crc == Check(header + data)
  {
    var sum := Accumulate(0, header);
    sum := Accumulate(sum, data);
    SumOfTwo(header, data);
    SumInTwoSteps(Sum(header), Sum(data));
    sum := WORD - 1 - sum;
    ok := sum % 256 == crc[0] && sum / 256 == crc[1];
    assert ok <==> crc == [sum % 256, sum / 256];
  }

  lemma SumInTwoSteps(x: int, y: int)
    ensures (x % WORD + y) % WORD == (x + y) % WORD
  {
  }

  /** How many bytes a read gets before it is complete or stalls. */
  function Given(incoming: seq<Byte>, stalls: seq<Option<nat>>, count: nat): (n: nat)
    ensures n <= count && n <= |incoming|
  {
    var most := if |incoming| < count then |incoming| else count;
    if stalls != [] && stalls[0].Some? && stalls[0].value < most then stalls[0].value else most
  }

  function Later(stalls: seq<Option<nat>>): seq<Option<nat>> {
    if stalls == [] then [] else stalls[1..]
  }

  function Read(incoming: seq<Byte>, stalls: seq<Option<nat>>, count: nat): (seq<Byte>, seq<Byte>) {
    var n := Given(incoming, stalls, count);
    (if n < count then [] else incoming[..n], incoming[n..])
  }

  /** Three reads; the check word must be that of the header and the data. */
  function Reply(incoming: seq<Byte>, stalls: seq<Option<nat>>, count: nat): Option<seq<Byte>> {
    var (header, rest) := Read(incoming, stalls, 2);
    if header != HEADER then None
    else
      var stalls' := Later(stalls);
      var (data, rest') := if count == 0 then ([], rest) else Read(rest, stalls', count);
      var stalls'' := if count == 0 then stalls' else Later(stalls');
      var (crc, _) := Read(rest', stalls'', 2);
      if crc == Check(HEADER + data) then Some(data) else None
  }

  lemma {:induction false} SumOfTwo(a: seq<Byte>, b: seq<Byte>)
    ensures Sum(a + b) == Sum(a) + Sum(b)
  {
    if b == [] {
      assert a + b == a;
    } else {
      SumOfTwo(a, b[..|b| - 1]);
      assert (a + b)[..|a + b| - 1] == a + b[..|b| - 1];
    }
  }

  // ------------------------------------------------------------- properties

  /** No read stalls before the bytes that came are used up. */
  predicate Steady(stalls: seq<Option<nat>>) {
    forall i :: 0 <= i < |stalls| ==> stalls[i].None?
  }

  /** What the receiver makes of a whole frame on a steady line. */
  lemma SteadyReply(frame: seq<Byte>, more: seq<Byte>, stalls: seq<Option<nat>>)
    requires |frame| >= 4 && Steady(stalls)
    ensures var n := |frame|;
            Reply(frame + more, stalls, n - 4) ==
              if frame[..2] == HEADER && frame[n - 2..] == Check(frame[..n - 2]) then Some(frame[2..n - 2]) else None
  {
    var n := |frame|;
    var incoming := frame + more;
    assert incoming[..2] == frame[..2];
    var rest := incoming[2..];
    var data := rest[..n - 4];
    assert data == frame[2..n - 2];
    var rest' := rest[n - 4..];
    assert rest'[..2] == frame[n - 2..];
    assert n == 4 ==> data == [] && rest' == rest;
    assert frame[..2] == HEADER ==> frame[..n - 2] == HEADER + data;
  }

  /** A frame built by the sender is accepted, whatever follows it, and gives exactly its data. */
  lemma {:induction false} FrameIsAccepted(data: seq<Byte>, more: seq<Byte>, stalls: seq<Option<nat>>)
    requires Steady(stalls)
    ensures Reply(WithCheck(HEADER + data) + more, stalls, |data|) == Some(data)
  {
    SteadyReply(WithCheck(HEADER + data), more, stalls);
    Parts(data, Check(HEADER + data));
  }

  /** The shortest reply, byte by byte. */
  lemma ShortestReply()
    ensures WithCheck([0x04, 0x46]) == [0x04, 0x46, 0xB5, 0xFF]
    ensures Reply([0x04, 0x46, 0xB5, 0xFF], [], 0) == Some([])
  {
    assert [0x04, 0x46][..1] == [0x04] && [0x04][..0] == [];
    assert Sum([0x04]) == Sum([]) + 0x04;
    assert Sum([0x04, 0x46]) == 0x4A;
    assert WithCheck(HEADER) == [0x04, 0x46, 0xB5, 0xFF];
    assert HEADER + [] == HEADER;
    FrameIsAccepted([], [], []);
    assert WithCheck(HEADER) + [] == WithCheck(HEADER);
  }

  /** Any frame in which a single byte was replaced is refused. */
  lemma {:induction false} SingleByteDetected(data: seq<Byte>, i: nat, b: Byte, more: seq<Byte>, stalls: seq<Option<nat>>)
    requires Steady(stalls)
    requires i < |data| + 4 && b != WithCheck(HEADER + data)[i]
    ensures Reply(WithCheck(HEADER + data)[i := b] + more, stalls, |data|) == None
  {
    var sent := HEADER + data;
    var frame := WithCheck(sent);
    var bad := frame[i := b];
    SteadyReply(bad, more, stalls);
    if i < 2 {
      assert bad[..2][i] != HEADER[i];
    } else {
      FrameDamaged(sent, i, b);
    }
  }

  lemma FrameDamaged(sent: seq<Byte>, i: nat, b: Byte)
    requires i < |sent| + 2 && b != WithCheck(sent)[i]
    ensures var bad := WithCheck(sent)[i := b];
            bad[|sent|..] != Check(bad[..|sent|])
  {
    var bad, n := WithCheck(sent)[i := b], |sent|;
    if i < n {
      assert bad[..n] == sent[i := b];
      assert bad[n..] == Check(sent);
      SumReplaced(sent, i, b);
      SmallDifference(Sum(sent), b - sent[i]);
      CheckTellsSums(sent, sent[i := b]);
    } else {
      assert bad[..n] == sent;
      assert bad[n..][i - n] == b;
    }
  }

  lemma SmallDifference(x: int, d: int)
    requires d != 0 && -256 < d < 256
    ensures !Congruent(x, x + d)
  {
  }

  lemma {:induction false} SumReplaced(data: seq<Byte>, i: nat, b: Byte)
    requires i < |data|
    ensures Sum(data[i := b]) == Sum(data) - data[i] + b
  {
    var last := |data| - 1;
    if i == last {
      assert data[i := b][..last] == data[..last];
    } else {
      SumReplaced(data[..last], i, b);
      assert data[i := b][..last] == data[..last][i := b];
    }
  }

  /** Equal modulo 65536. */
  predicate Congruent(x: int, y: int) {
    (x - y) % WORD == 0
  }

  lemma Shifted(h: int, x: int, y: int, hx: int, hy: int)
    requires hx == h + x && hy == h + y
    ensures CheckOf(hx) == CheckOf(hy) <==> Congruent(x, y)
  {
    SameCheck(hx, hy);
    SameRemainder(hx, hy);
    assert hx - hy == x - y;
  }

  /** The check word tells sums apart modulo 65536, and no better. */
  lemma CheckTellsSums(a: seq<Byte>, b: seq<Byte>)
    ensures Check(a) == Check(b) <==> Congruent(Sum(a), Sum(b))
  {
    SameCheck(Sum(a), Sum(b));
    SameRemainder(Sum(a), Sum(b));
  }

  lemma SameCheck(x: int, y: int)
    ensures CheckOf(x) == CheckOf(y) <==> x % WORD == y % WORD
  {
    var v, w := WORD - 1 - x % WORD, WORD - 1 - y % WORD;
    if CheckOf(x) == CheckOf(y) {
      assert CheckOf(x)[0] == CheckOf(y)[0] && CheckOf(x)[1] == CheckOf(y)[1];
      assert v == v / 256 * 256 + v % 256 && w == w / 256 * 256 + w % 256;
    }
  }

  lemma SameRemainder(x: int, y: int)
    ensures x % WORD == y % WORD <==> Congruent(x, y)
  {
  }

  /** Data replaced by other data of the same length is accepted exactly if the sums agree modulo 65536. */
  lemma {:induction false} ReplacedDataDetected(data: seq<Byte>, other: seq<Byte>, more: seq<Byte>, stalls: seq<Option<nat>>)
    requires Steady(stalls) && |data| == |other|
    ensures Reply(HEADER + other + Check(HEADER + data) + more, stalls, |data|).Some? <==>
              Congruent(Sum(data), Sum(other))
  {
    var frame := HEADER + other + Check(HEADER + data);
    SteadyReply(frame, more, stalls);
    Parts(other, Check(HEADER + data));
    CheckBehind(HEADER, data, other);
  }

  lemma CheckBehind(header: seq<Byte>, data: seq<Byte>, other: seq<Byte>)
    ensures Check(header + data) == Check(header + other) <==> Congruent(Sum(data), Sum(other))
  {
    SumOfTwo(header, data);
    SumOfTwo(header, other);
    Shifted(Sum(header), Sum(data), Sum(other), Sum(header + data), Sum(header + other));
  }

  lemma Parts(data: seq<Byte>, crc: seq<Byte>)
    requires |crc| == 2
    ensures var frame := HEADER + data + crc;
            && frame[..2] == HEADER && frame[2..|frame| - 2] == data
            && frame[..|frame| - 2] == HEADER + data && frame[|frame| - 2..] == crc
  {
  }

  /** Under any stalls, an accepted reply is exactly the bytes after the header, or
      nothing if the line stalled in them. */
  lemma AcceptedReplyIsWhole(incoming: seq<Byte>, stalls: seq<Option<nat>>, count: nat)
    requires Reply(incoming, stalls, count).Some?
    ensures 2 <= |incoming| && incoming[..2] == HEADER
    ensures var whole := Given(incoming[2..], Later(stalls), count) == count;
            && (whole ==> 2 + count <= |incoming|)
            && Reply(incoming, stalls, count).value == if whole then incoming[2..2 + count] else []
  {
    var rest := incoming[2..];
    if Given(rest, Later(stalls), count) == count {
      assert rest[..count] == incoming[2..2 + count];
    }
  }

  /** A stall in the data can be answered by an accepted reply without data. */
  lemma EmptyReplyCanBeAccepted()
    ensures Reply(HEADER + [7] + Check(HEADER), [None, Some(1), None], 2) == Some([])
  {
    var incoming := HEADER + [7] + Check(HEADER);
    assert incoming[..2] == HEADER;
    var rest := incoming[2..];
    assert rest[1..][..2] == Check(HEADER);
    assert HEADER + [] == HEADER;
  }
}
