/**
 The payload of a discovery response (libs/nfc/include/nfc/Discovery.h): three
 NUL-terminated texts and a 64-bit serial number, written one after another
 into a fixed buffer and cut off where the buffer ends.  The little-endian
 integers are those of libs/nfc/include/nfc/Util.h.
 */
module Discovery {
  import opened Collections

  type Text = seq<Byte>

  const SIZE: nat := 1024

  datatype DeviceInfo = DeviceInfo(game: Text, provider: Text, serial: nat, extra: Text)

  /** What a text means on the wire: everything before its first NUL. */
  function Cut(s: Text): (r: Text)
    ensures r <= s && 0 !in r
    ensures |r| < |s| <==> 0 in s
    ensures |r| < |s| ==> s[|r|] == 0
  {
    if s == [] || s[0] == 0 then [] else [s[0]] + Cut(s[1..])
  }

  // ------------------------------------------------- little-endian integers

  /** The `n` low bytes of `v`, least significant first. */
  function LittleEndian(v: nat, n: nat): (r: Text)
    ensures |r| == n
  {
    if n == 0 then [] else [v % 256] + LittleEndian(v / 256, n - 1)
  }

  /** The number a text of bytes stands for, least significant first. */
  function Value(s: Text): (r: nat) {
    if s == [] then 0 else s[0] + 256 * Value(s[1..])
  }

  /** The number of different values of `n` bytes. */
  function Values(n: nat): (r: nat)
    ensures r > 0
  {
    if n == 0 then 1 else 256 * Values(n - 1)
  }

  lemma {:induction false} ReadingBackNumbers(v: nat, n: nat)
    ensures Value(LittleEndian(v, n)) == v <==> v < Values(n)
    ensures Value(LittleEndian(v, n)) < Values(n)
  {
    if n > 0 {
      ReadingBackNumbers(v / 256, n - 1);
      assert LittleEndian(v, n)[1..] == LittleEndian(v / 256, n - 1);
    }
  }

  lemma {:induction false} ValueOfTwoParts(a: Text, b: Text)
    ensures Value(a + b) == Value(a) + Values(|a|) * Value(b)
  {
    if a == [] {
      assert a + b == b;
    } else {
      ValueOfTwoParts(a[1..], b);
      assert (a + b)[1..] == a[1..] + b;
      Distribute(Values(|a| - 1), Value(b));
    }
  }

  lemma Distribute(x: int, y: int)
    ensures 256 * x * y == 256 * (x * y)
  {
  }

  lemma {:induction false} WritingBackNumbers(s: Text)
    ensures LittleEndian(Value(s), |s|) == s
  {
    if s != [] {
      WritingBackNumbers(s[1..]);
      var b, rest := s[0], Value(s[1..]);
      LowByte(b, rest);
      assert s == [b] + s[1..];
    }
  }

  lemma LowByte(b: Byte, rest: nat)
    ensures (b + 256 * rest) % 256 == b && (b + 256 * rest) / 256 == rest
  {
  }

  lemma LittleEndianInTwoParts(low: nat, high: nat, m: nat, n: nat)
    requires low < Values(m) && high < Values(n)
    ensures LittleEndian(low + Values(m) * high, m + n) == LittleEndian(low, m) + LittleEndian(high, n)
  {
    var s := LittleEndian(low, m) + LittleEndian(high, n);
    ValueOfTwoParts(LittleEndian(low, m), LittleEndian(high, n));
    ReadingBackNumbers(low, m);
    ReadingBackNumbers(high, n);
    WritingBackNumbers(s);
  }

  lemma WordSizes()
    ensures Values(2) == 0x1_0000
    ensures Values(4) == 0x1_0000_0000
    ensures Values(8) == 0x1_0000_0000_0000_0000
  {
    assert Values(2) == 0x1_0000;
    assert Values(4) == 0x1_0000_0000;
    assert Values(6) == 0x1_0000_0000_0000;
  }

  lemma SplitInTwo(value: nat, n: nat, unit: nat)
    requires (n == 2 && unit == 0x1_0000 && value < 0x1_0000_0000)
          || (n == 4 && unit == 0x1_0000_0000 && value < 0x1_0000_0000_0000_0000)
    ensures value % unit < unit && value / unit < unit
    ensures LittleEndian(value, 2 * n) == LittleEndian(value % unit, n) + LittleEndian(value / unit, n)
  {
    WordSizes();
    LittleEndianInTwoParts(value % unit, value / unit, n, n);
  }

  /** `data` with `bytes` in place of what was at `pos`. */
  function Overwritten(data: Text, pos: nat, bytes: Text): (r: Text)
    requires pos + |bytes| <= |data|
    ensures |r| == |data|
    ensures forall i :: 0 <= i < |data| ==>
              r[i] == if pos <= i < pos + |bytes| then bytes[i - pos] else data[i]
  {
    data[..pos] + bytes + data[pos + |bytes|..]
  }

  lemma OverwrittenTwice(data: Text, pos: nat, a: Text, b: Text)
    requires pos + |a| + |b| <= |data|
    ensures Overwritten(Overwritten(data, pos, a), pos + |a|, b) == Overwritten(data, pos, a + b)
  {
  }

  method WriteLE16(data: array<Byte>, pos: nat, value: nat) returns (ok: bool)
    requires value < 0x1_0000
    modifies data
    ensures ok <==> pos + 2 <= data.Length
    ensures !ok ==> data[..] == old(data[..])
    ensures ok ==> data[..] == Overwritten(old(data[..]), pos, LittleEndian(value, 2))
  {
    if pos + 2 > data.Length {
      return false;
    }
    data[pos] := value % 256;
    data[pos + 1] := value / 256;
    assert LittleEndian(value, 2) == [value % 256, value / 256];
    return true;
  }

  method WriteLE32(data: array<Byte>, pos: nat, value: nat) returns (ok: bool)
    requires value < 0x1_0000_0000
    modifies data
    ensures ok <==> pos + 4 <= data.Length
    ensures !ok ==> data[..] == old(data[..])
    ensures ok ==> data[..] == Overwritten(old(data[..]), pos, LittleEndian(value, 4))
  {
    if pos + 4 > data.Length {
      return false;
    }
    SplitInTwo(value, 2, 0x1_0000);
    OverwrittenTwice(data[..], pos, LittleEndian(value % 0x1_0000, 2), LittleEndian(value / 0x1_0000, 2));
    var low := WriteLE16(data, pos, value % 0x1_0000);
    var high := WriteLE16(data, pos + 2, value / 0x1_0000);
    return true;
  }

  method WriteLE64(data: array<Byte>, pos: nat, value: nat) returns (ok: bool)
    requires value < 0x1_0000_0000_0000_0000
    modifies data
    ensures ok <==> pos + 8 <= data.Length
    ensures !ok ==> data[..] == old(data[..])
    ensures ok ==> data[..] == Overwritten(old(data[..]), pos, LittleEndian(value, 8))
  {
    if pos + 8 > data.Length {
      return false;
    }
    SplitInTwo(value, 4, 0x1_0000_0000);
    OverwrittenTwice(data[..], pos, LittleEndian(value % 0x1_0000_0000, 4), LittleEndian(value / 0x1_0000_0000, 4));
    var low := WriteLE32(data, pos, value % 0x1_0000_0000);
    var high := WriteLE32(data, pos + 4, value / 0x1_0000_0000);
    return true;
  }

  /** The disjunction of disjoint bits is a sum. */
  function ReadUInt16LE(data: Text, pos: nat): (r: nat)
    ensures r == if pos + 2 <= |data| then Value(data[pos..pos + 2]) else 0
    ensures r < 0x1_0000
  {
    if pos + 2 > |data| then 0
    else
      assert data[pos..pos + 2] == [data[pos], data[pos + 1]];
      assert Value([data[pos], data[pos + 1]]) == data[pos] + 256 * Value([data[pos + 1]]);
      var low: int, high: int := data[pos], data[pos + 1];
      low + 0x100 * high
  }

  function ReadUInt32LE(data: Text, pos: nat): (r: nat)
    ensures r == if pos + 4 <= |data| then Value(data[pos..pos + 4]) else 0
    ensures r < 0x1_0000_0000
  {
    if pos + 4 > |data| then 0
    else
      assert data[pos..pos + 4] == data[pos..pos + 2] + data[pos + 2..pos + 4];
      ValueOfTwoParts(data[pos..pos + 2], data[pos + 2..pos + 4]);
      WordSizes();
      ReadUInt16LE(data, pos) + 0x1_0000 * ReadUInt16LE(data, pos + 2)
  }

  function ReadUInt64LE(data: Text, pos: nat): (r: nat)
    ensures r == if pos + 8 <= |data| then Value(data[pos..pos + 8]) else 0
    ensures r < 0x1_0000_0000_0000_0000
  {
    if pos + 8 > |data| then 0
    else
      assert data[pos..pos + 8] == data[pos..pos + 4] + data[pos + 4..pos + 8];
      ValueOfTwoParts(data[pos..pos + 4], data[pos + 4..pos + 8]);
      WordSizes();
      ReadUInt32LE(data, pos) + 0x1_0000_0000 * ReadUInt32LE(data, pos + 4)
  }

  // --------------------------------------------------------------- encoding

  function Min(a: int, b: int): int { if a < b then a else b }

  function Zeros(n: nat): (r: Text)
    ensures |r| == n
    ensures forall i :: 0 <= i < n ==> r[i] == 0
  {
    seq(n, _ => 0)
  }

  /** The part of the buffer in use after a text is appended to `used`. */
  function AppendedZ(used: Text, s: Text): (r: Text)
    requires |used| <= SIZE
    ensures used <= r && |r| <= SIZE
  {
    if |used| == SIZE then used
    else used + Cut(s)[..Min(|Cut(s)|, SIZE - |used| - 1)] + [0]
  }

  function AppendedSerial(used: Text, serial: nat): (r: Text)
    requires |used| <= SIZE
    ensures used <= r && |r| <= SIZE
    ensures |r| == Min(|used| + 8, SIZE)
  {
    used + if |used| + 8 <= SIZE then LittleEndian(serial, 8) else Zeros(SIZE - |used|)
  }

  function Encoded(info: DeviceInfo): (r: Text)
    ensures |r| <= SIZE
  {
    AppendedZ(AppendedSerial(AppendedZ(AppendedZ([], info.game), info.provider), info.serial), info.extra)
  }

  /** The buffer holds `used`, then zeros. */
  ghost predicate Holds(buffer: array<Byte>, used: Text)
    reads buffer
  {
    && buffer.Length == SIZE && |used| <= SIZE
    && buffer[..] == used + Zeros(SIZE - |used|)
  }

  method Copy(buffer: array<Byte>, pos: nat, text: Text)
    requires pos + |text| <= buffer.Length
    modifies buffer
    ensures buffer[..] == Overwritten(old(buffer[..]), pos, text)
  {
    forall i | 0 <= i < |text| {
      buffer[pos + i] := text[i];
    }
  }

  lemma Terminated(used: Text, text: Text)
    requires |used| + |text| < SIZE
    ensures var was := used + Zeros(SIZE - |used|);
            var used' := used + text + [0];
            Overwritten(was, |used|, text)[|used| + |text| := 0] == used' + Zeros(SIZE - |used'|)
  {
  }

  method AppendZ(buffer: array<Byte>, pos: nat, s: Text, ghost used: Text) returns (next: nat)
    requires Holds(buffer, used) && pos == |used|
    modifies buffer
    ensures Holds(buffer, AppendedZ(used, s)) && next == |AppendedZ(used, s)|
  {
    var text := Cut(s);
    if pos >= buffer.Length {
      return pos;
    }
    var remaining := buffer.Length - pos;
    var toCopy := |text|;
    if toCopy > remaining - 1 {
      toCopy := remaining - 1;
    }
    Copy(buffer, pos, text[..toCopy]);
    buffer[pos + toCopy] := 0;
    next := pos + toCopy + 1;
    Terminated(used, text[..toCopy]);
  }

  method Encode(info: DeviceInfo) returns (payload: Text)
    requires info.serial < 0x1_0000_0000_0000_0000
    ensures payload == Encoded(info)
  {
    var buffer := new Byte[SIZE](_ => 0);
    ghost var used: Text := [];
    assert Holds(buffer, used);
    var pos := AppendZ(buffer, 0, info.game, used);
    used := AppendedZ(used, info.game);
    pos := AppendZ(buffer, pos, info.provider, used);
    used := AppendedZ(used, info.provider);
    ghost var before := buffer[..];
    var ok := WriteLE64(buffer, pos, info.serial);
    if ok {
      pos := pos + 8;
    } else {
      pos := SIZE;
    }
    WrittenSerial(before, buffer[..], used, info.serial);
    used := AppendedSerial(used, info.serial);
    pos := AppendZ(buffer, pos, info.extra, used);
    used := AppendedZ(used, info.extra);
    payload := buffer[..pos];
  }

  lemma WrittenSerial(before: Text, after: Text, used: Text, serial: nat)
    requires |used| <= SIZE && before == used + Zeros(SIZE - |used|)
    requires |used| + 8 > SIZE ==> after == before
    requires |used| + 8 <= SIZE ==> after == Overwritten(before, |used|, LittleEndian(serial, 8))
    ensures after == AppendedSerial(used, serial) + Zeros(SIZE - |AppendedSerial(used, serial)|)
  {
    if |used| + 8 <= SIZE {
      assert before[..|used|] == used;
      assert before[|used| + 8..] == Zeros(SIZE - |used| - 8);
    }
  }

  // --------------------------------------------------------------- decoding

  /** Absent a terminator nothing is read and the position stays. */
  function ReadNextZ(payload: Text, pos: nat): (r: (Text, nat))
    ensures pos <= |payload| ==> pos <= r.1 <= |payload|
    ensures r.0 != [] ==> 0 <= pos < r.1 <= |payload| && payload[pos..r.1] == r.0 + [0]
  {
    if pos >= |payload| then ([], pos)
    else if payload[pos] == 0 then ([], pos + 1)
    else
      var text := Cut(payload[pos..]);
      if |text| == |payload| - pos then ([], pos)
      else (text, pos + |text| + 1)
  }

  function Decoded(payload: Text): DeviceInfo {
    var (game, p1) := ReadNextZ(payload, 0);
    var (provider, p2) := ReadNextZ(payload, p1);
    var serial := if p2 + 8 <= |payload| then ReadUInt64LE(payload, p2) else 0;
    var (extra, p3) := ReadNextZ(payload, p2 + 8);
    DeviceInfo(game, provider, serial, extra)
  }

  // ------------------------------------------------------------ round trip

  /** Reading at the end of what was written gives back the appended text. */
  lemma ReadBack(before: Text, text: Text, rest: Text)
    requires 0 !in text
    ensures ReadNextZ(before + text + [0] + rest, |before|) == (text, |before| + |text| + 1)
  {
    var payload := before + text + [0] + rest;
    var tail := payload[|before|..];
    assert tail == text + [0] + rest;
    CutAtTerminator(text, rest);
  }

  lemma {:induction false} CutAtTerminator(text: Text, rest: Text)
    requires 0 !in text
    ensures Cut(text + [0] + rest) == text
  {
    if text == [] {
      assert text + [0] + rest == [0] + rest;
    } else {
      assert (text + [0] + rest)[1..] == text[1..] + [0] + rest;
      CutAtTerminator(text[1..], rest);
    }
  }

  /** What of a text still finds room after `used` bytes. */
  function Room(used: nat, s: Text): (r: Text)
    ensures r <= Cut(s)
    ensures r == Cut(s) <==> |Cut(s)| == 0 || used + |Cut(s)| + 1 <= SIZE
  {
    if used >= SIZE then [] else Cut(s)[..Min(|Cut(s)|, SIZE - used - 1)]
  }

  /** A text appended to `used` is read back from there, as far as there was room. */
  lemma AppendedIsRead(used: Text, s: Text, payload: Text)
    requires |used| <= SIZE && AppendedZ(used, s) <= payload && |payload| <= SIZE
    ensures ReadNextZ(payload, |used|) == (Room(|used|, s), |AppendedZ(used, s)|)
  {
    if |used| < SIZE {
      var text, sofar := Room(|used|, s), AppendedZ(used, s);
      assert payload == sofar + payload[|sofar|..];
      ReadBack(used, text, payload[|sofar|..]);
    }
  }

  lemma SerialIsRead(used: Text, serial: nat, payload: Text)
    requires |used| <= SIZE && serial < 0x1_0000_0000_0000_0000
    requires AppendedSerial(used, serial) <= payload && |payload| <= SIZE
    ensures |used| + 8 <= SIZE ==> ReadUInt64LE(payload, |used|) == serial
  {
    if |used| + 8 <= SIZE {
      assert payload[|used|..|used| + 8] == LittleEndian(serial, 8);
      ReadingBackNumbers(serial, 8);
      WordSizes();
    }
  }

  /** Decoding what was encoded gives every field as far as there was room for it. */
  lemma DecodedIsWhatFound(info: DeviceInfo)
    requires info.serial < 0x1_0000_0000_0000_0000
    ensures var used1 := |AppendedZ([], info.game)|;
            var used2 := |AppendedZ(AppendedZ([], info.game), info.provider)|;
            Decoded(Encoded(info)) == DeviceInfo(
              Room(0, info.game), Room(used1, info.provider),
              if used2 + 8 <= SIZE then info.serial else 0, Room(used2 + 8, info.extra))
  {
    var a := AppendedZ([], info.game);
    var b := AppendedZ(a, info.provider);
    var c := AppendedSerial(b, info.serial);
    var d := AppendedZ(c, info.extra);
    PrefixesChain(a, b, c, d);
    AppendedIsRead([], info.game, d);
    AppendedIsRead(a, info.provider, d);
    EndIsRead(b, info.serial, info.extra);
  }

  lemma EndIsRead(b: Text, serial: nat, extra: Text)
    requires |b| <= SIZE && serial < 0x1_0000_0000_0000_0000
    ensures var d := AppendedZ(AppendedSerial(b, serial), extra);
            && (|b| + 8 <= |d| <==> |b| + 8 <= SIZE)
            && (|b| + 8 <= SIZE ==> ReadUInt64LE(d, |b|) == serial)
            && ReadNextZ(d, |b| + 8).0 == Room(|b| + 8, extra)
  {
    var c := AppendedSerial(b, serial);
    SerialIsRead(b, serial, AppendedZ(c, extra));
    ExtraIsRead(b, c, extra);
  }

  lemma ExtraIsRead(b: Text, c: Text, extra: Text)
    requires |b| <= SIZE && |c| == Min(|b| + 8, SIZE)
    ensures var d := AppendedZ(c, extra);
            && (|b| + 8 <= |d| <==> |b| + 8 <= SIZE)
            && ReadNextZ(d, |b| + 8).0 == Room(|b| + 8, extra)
  {
    if |b| + 8 <= SIZE {
      AppendedIsRead(c, extra, AppendedZ(c, extra));
    }
  }

  lemma PrefixesChain(a: Text, b: Text, c: Text, d: Text)
    requires a <= b <= c <= d
    ensures a <= d && b <= d
  {
  }

  /**
   Field by field: exact if and only if it and everything before it fits in the
   buffer, or there is nothing to lose.
   */
  lemma {:induction false} RoundTrip(info: DeviceInfo)
    requires info.serial < 0x1_0000_0000_0000_0000
    ensures var r := Decoded(Encoded(info));
            var g, p, e := |Cut(info.game)|, |Cut(info.provider)|, |Cut(info.extra)|;
            && (r.game == Cut(info.game) <==> g + 1 <= 1024)
            && (r.provider == Cut(info.provider) <==> p == 0 || g + p + 2 <= 1024)
            && (r.serial == info.serial <==> info.serial == 0 || g + p + 10 <= 1024)
            && (r.extra == Cut(info.extra) <==> e == 0 || g + p + 10 + e + 1 <= 1024)
  {
    DecodedIsWhatFound(info);
  }

  /** The payload of a device info that fits, byte for byte. */
  lemma PayloadLayout(info: DeviceInfo)
    requires |Cut(info.game)| + |Cut(info.provider)| + |Cut(info.extra)| + 11 <= 1024
    ensures Encoded(info) == Cut(info.game) + [0] + Cut(info.provider) + [0] + LittleEndian(info.serial, 8) + Cut(info.extra) + [0]
  {
    var a := Cut(info.game) + [0];
    var b := a + Cut(info.provider) + [0];
    assert AppendedZ([], info.game) == a;
    assert AppendedZ(a, info.provider) == b;
  }

  /** Byte `i` of a little-endian number counts the multiples of 256 to the power `i`. */
  lemma {:induction false} LittleEndianByte(v: nat, n: nat, i: nat)
    requires i < n
    ensures LittleEndian(v, n)[i] == v / Values(i) % 256
  {
    if i > 0 {
      LittleEndianByte(v / 256, n - 1, i - 1);
      DivideTwice(v, Values(i - 1));
    }
  }

  lemma DivideTwice(v: nat, d: nat)
    requires d > 0
    ensures v / 256 / d == v / (256 * d)
  {
    var q, r := v / 256, v % 256;
    var s, t := q / d, q % d;
    assert v == 256 * q + r && q == d * s + t;
    assert v == (256 * d) * s + (256 * t + r) by {
      assert 256 * (d * s) == (256 * d) * s;
    }
    UniqueQuotient(v, 256 * d, s, 256 * t + r);
  }

  lemma UniqueQuotient(v: int, d: int, q: int, r: int)
    requires 0 <= r < d && v == d * q + r
    ensures v / d == q
  {
    var p, m := v / d, v % d;
    assert v == d * p + m && 0 <= m < d;
    Distance(d, p, q);
  }

  lemma Distance(d: int, p: int, q: int)
    requires d > 0
    ensures p > q ==> d * p >= d * q + d
    ensures p < q ==> d * q >= d * p + d
  {
    if p > q {
      AtLeast(d, p - q);
      Difference(d, p, q);
    } else if p < q {
      AtLeast(d, q - p);
      Difference(d, q, p);
    }
  }

  lemma Difference(d: int, p: int, q: int)
    ensures d * (p - q) == d * p - d * q
  {
  }

  lemma {:induction false} AtLeast(d: int, k: nat)
    requires d > 0 && k >= 1
    ensures d * k >= d
  {
    if k > 1 {
      AtLeast(d, k - 1);
      Difference(d, k, 1);
    }
  }

  /** Whatever did not fit, no text is garbled: each is a prefix of its input, and the serial is exact or 0. */
  lemma {:induction false} NothingIsGarbled(info: DeviceInfo)
    requires info.serial < 0x1_0000_0000_0000_0000
    ensures var r := Decoded(Encoded(info));
            && r.game <= info.game && r.provider <= info.provider && r.extra <= info.extra
            && r.serial in {0, info.serial}
  {
    DecodedIsWhatFound(info);
  }
}
