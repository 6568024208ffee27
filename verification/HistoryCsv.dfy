/**
 The game history as comma-separated values (source/net_util.cpp), and a reader
 that knows nothing of the writer but the quoting rules of section 2 of RFC
 4180, with a line feed as the line end.
 */
module HistoryCsv {
  import opened Collections
  import opened ModeList
  import opened GameSession
  import opened ModeText

  const PLAYER_COLUMNS: nat := 6

  // ---------------------------------------------------------------- numbers

  function Digit(n: nat): (c: char)
    requires n < 10
    ensures '0' <= c <= '9'
  {
    (n + '0' as int) as char
  }

  predicate IsNumeral(s: string) {
    s != "" && forall i :: 0 <= i < |s| ==> '0' <= s[i] <= '9'
  }

  function Digits(n: nat): (s: string)
    ensures IsNumeral(s)
  {
    if n < 10 then [Digit(n)] else Digits(n / 10) + [Digit(n % 10)]
  }

  function Decimal(n: int): string {
    if n < 0 then "-" + Digits(-n) else Digits(n)
  }

  function NumeralValue(s: string): int {
    if s == "" then 0
    else 10 * NumeralValue(s[..|s| - 1]) + (s[|s| - 1] as int) - ('0' as int)
  }

  function ReadNumber(s: string): Option<int> {
    if IsNumeral(s) then Some(NumeralValue(s))
    else if s != "" && s[0] == '-' && IsNumeral(s[1..]) then Some(-NumeralValue(s[1..]))
    else None
  }

  lemma {:induction false} DigitsValue(n: nat)
    ensures NumeralValue(Digits(n)) == n
  {
    if n >= 10 {
      DigitsValue(n / 10);
      assert Digits(n)[..|Digits(n)| - 1] == Digits(n / 10);
    } else {
      assert [Digit(n)][..0] == "";
    }
  }

  lemma NumberRoundTrip(n: int)
    ensures ReadNumber(Decimal(n)) == Some(n)
  {
    DigitsValue(if n < 0 then -n else n);
    if n < 0 {
      assert Decimal(n)[1..] == Digits(-n);
    }
  }

  // ----------------------------------------------------------------- writer

  /** The time of a snapshot in whole seconds, cut off towards zero. */
  function Seconds(timestamp: int): (r: int)
    ensures timestamp >= 0 ==> r * 1_000_000_000 <= timestamp < (r + 1) * 1_000_000_000
    ensures timestamp <= 0 ==> (r - 1) * 1_000_000_000 < timestamp <= r * 1_000_000_000
  {
    if timestamp >= 0 then timestamp / SECOND else -((-timestamp) / SECOND)
  }

  function ScoreField(d: GameData, player: nat): string {
    if player in d.players && d.players[player].score >= 0 then Decimal(d.players[player].score) else ""
  }

  function ScoreFields(d: GameData): (r: seq<string>)
    ensures |r| == PLAYER_COLUMNS
    ensures forall i :: 0 <= i < |r| ==> r[i] == ScoreField(d, 1 + i)
  {
    seq(PLAYER_COLUMNS, i requires 0 <= i < PLAYER_COLUMNS => ScoreField(d, 1 + i))
  }

  /** All fields of a row but the last. */
  function NumberFields(d: GameData): (r: seq<string>)
    ensures |r| == 9
  {
    [Decimal(Seconds(d.timestamp))] + ScoreFields(d) + [Decimal(d.activePlayer), Decimal(d.ball)]
  }

  /** What a row says. */
  function Fields(d: GameData): (r: seq<string>)
    ensures |r| == 10
  {
    NumberFields(d) + [Str(d.modes.names)]
  }

  function HeaderFields(): seq<string> {
    ["time", "p1", "p2", "p3", "p4", "p5", "p6", "player", "ball", "game_modes"]
  }

  /** Fields, each followed by a comma. */
  function Commas(fields: seq<string>): string {
    if fields == [] then "" else fields[0] + "," + Commas(fields[1..])
  }

  function ModesText(d: GameData): string {
    if d.modes.names == [] then "" else "\"" + Str(d.modes.names) + "\""
  }

  function RowText(d: GameData): string {
    Commas(NumberFields(d)) + ModesText(d) + "\n"
  }

  function Concat(lines: seq<string>): string {
    if lines == [] then "" else lines[0] + Concat(lines[1..])
  }

  function Lines(history: seq<GameData>): (r: seq<string>)
    ensures |r| == |history|
    ensures forall i :: 0 <= i < |r| ==> r[i] == RowText(history[i])
  {
    seq(|history|, i requires 0 <= i < |history| => RowText(history[i]))
  }

  function RowsText(history: seq<GameData>): string {
    Concat(Lines(history))
  }

  function HeaderText(): string {
    Commas(HeaderFields()[..9]) + "game_modes\n"
  }

  lemma {:induction false} CommasGrow(a: seq<string>, b: seq<string>)
    ensures Commas(a + b) == Commas(a) + Commas(b)
  {
    if a == [] {
      assert a + b == b;
    } else {
      CommasGrow(a[1..], b);
      assert (a + b)[1..] == a[1..] + b;
      Regroup(a[0] + ",", Commas(a[1..]), Commas(b));
    }
  }

  lemma Regroup(a: string, b: string, c: string)
    ensures a + (b + c) == (a + b) + c
  {
  }

  lemma AppendField(fields: seq<string>, field: string)
    ensures Commas(fields + [field]) == Commas(fields) + (field + ",")
  {
    CommasGrow(fields, [field]);
    OneComma(field);
  }

  lemma {:induction false} ConcatGrows(lines: seq<string>, line: string)
    ensures Concat(lines + [line]) == Concat(lines) + line
  {
    if lines != [] {
      ConcatGrows(lines[1..], line);
      assert (lines + [line])[1..] == lines[1..] + [line];
      Regroup(lines[0], Concat(lines[1..]), line);
    }
  }

  lemma AppendLine(start: string, lines: seq<string>, i: nat)
    requires i < |lines|
    ensures start + Concat(lines[..i]) + lines[i] == start + Concat(lines[..i + 1])
  {
    ConcatGrows(lines[..i], lines[i]);
    assert lines[..i + 1] == lines[..i] + [lines[i]];
    Regroup(start, Concat(lines[..i]), lines[i]);
  }

  method WriteScores(d: GameData) returns (scores: string)
    ensures scores == Commas(ScoreFields(d))
  {
    scores := "";
    ghost var fields := ScoreFields(d);
    var player := 1;
    while player <= PLAYER_COLUMNS
      invariant 1 <= player <= PLAYER_COLUMNS + 1
      invariant scores == Commas(fields[..player - 1])
    {
      OneMoreField(fields, player - 1);
      if player in d.players && d.players[player].score >= 0 {
        scores := scores + Decimal(d.players[player].score);
      }
      scores := scores + ",";
      player := player + 1;
    }
    assert fields[..PLAYER_COLUMNS] == fields;
  }

  lemma OneMoreField(fields: seq<string>, i: nat)
    requires i < |fields|
    ensures Commas(fields[..i + 1]) == Commas(fields[..i]) + fields[i] + ","
    ensures Commas(fields[..i]) + "" == Commas(fields[..i])
  {
    AppendField(fields[..i], fields[i]);
    assert fields[..i + 1] == fields[..i] + [fields[i]];
    Regroup(Commas(fields[..i]), fields[i], ",");
  }

  method WriteRow(d: GameData) returns (row: string)
    ensures row == RowText(d)
  {
    var scores := WriteScores(d);
    var modes := "";
    if d.modes.names != [] {
      modes := "\"" + Str(d.modes.names) + "\"";
    }
    row := Decimal(Seconds(d.timestamp)) + "," + scores + Decimal(d.activePlayer) + "," +
           Decimal(d.ball) + "," + modes + "\n";
    RowCommas(d);
  }

  lemma RowCommas(d: GameData)
    ensures Commas(NumberFields(d)) ==
              Decimal(Seconds(d.timestamp)) + "," + Commas(ScoreFields(d)) + Decimal(d.activePlayer) + "," + Decimal(d.ball) + ","
  {
    var time, ends := [Decimal(Seconds(d.timestamp))], [Decimal(d.activePlayer), Decimal(d.ball)];
    CommasGrow(time + ScoreFields(d), ends);
    CommasGrow(time, ScoreFields(d));
    OneComma(time[0]);
    CommasGrow([ends[0]], [ends[1]]);
    OneComma(ends[0]);
    OneComma(ends[1]);
    assert ends == [ends[0]] + [ends[1]];
  }

  lemma OneComma(field: string)
    ensures Commas([field]) == field + ","
  {
    assert [field][1..] == [];
  }

  method GameHistoryToCsv(history: seq<GameData>) returns (csv: string)
    ensures csv == HeaderText() + RowsText(history)
  {
    csv := WriteHeader();
    csv := AppendRows(csv, history);
  }

  method AppendRows(start: string, history: seq<GameData>) returns (csv: string)
    ensures csv == start + RowsText(history)
  {
    csv := start;
    ghost var lines := Lines(history);
    var i := 0;
    while i < |history|
      invariant 0 <= i <= |history|
      invariant csv == start + Concat(lines[..i])
    {
      AppendLine(start, lines, i);
      var row := WriteRow(history[i]);
      csv := csv + row;
      i := i + 1;
    }
    assert lines[..i] == lines;
  }

  lemma ColumnName(player: nat)
    requires 1 <= player <= PLAYER_COLUMNS
    ensures HeaderFields()[player] == "p" + Decimal(player)
  {
  }

  method WriteHeader() returns (header: string)
    ensures header == HeaderText()
  {
    header := "time";
    ghost var names := HeaderFields();
    OneComma("time");
    assert names[..1] == ["time"];
    var player := 1;
    while player <= PLAYER_COLUMNS
      invariant 1 <= player <= PLAYER_COLUMNS + 1
      invariant header + "," == Commas(names[..player])
    {
      ColumnName(player);
      OneMoreField(names, player);
      header := header + ",p" + Decimal(player);
      player := player + 1;
    }
    OneMoreField(names, 7);
    OneMoreField(names, 8);
    HeaderEnd(header);
    header := header + ",player,ball,game_modes\n";
  }

  lemma HeaderEnd(header: string)
    ensures header + ",player,ball,game_modes\n" == header + "," + "player" + "," + "ball" + "," + "game_modes\n"
  {
  }

  // ----------------------------------------------------------------- reader

  /** A field without quotation marks: up to a comma or a line end. */
  function ReadPlain(s: string): (r: Option<Found<string>>)
    ensures r.Some? ==> |r.value.rest| <= |s|
  {
    if s == "" || s[0] == ',' || s[0] == '\n' then Some(Found("", s))
    else if s[0] == '"' then None
    else
      var more := ReadPlain(s[1..]);
      if more.Some? then Some(Found([s[0]] + more.value.it, more.value.rest)) else None
  }

  /** After the opening quotation mark: two marks stand for one, one mark ends the field. */
  function ReadQuoted(s: string): (r: Option<Found<string>>)
    ensures r.Some? ==> |r.value.rest| < |s|
    decreases |s|
  {
    if s == "" then None
    else if s[0] != '"' then
      var more := ReadQuoted(s[1..]);
      if more.Some? then Some(Found([s[0]] + more.value.it, more.value.rest)) else None
    else if |s| > 1 && s[1] == '"' then
      var more := ReadQuoted(s[2..]);
      if more.Some? then Some(Found(['"'] + more.value.it, more.value.rest)) else None
    else Some(Found("", s[1..]))
  }

  function ReadField(s: string): (r: Option<Found<string>>)
    ensures r.Some? ==> |r.value.rest| <= |s|
  {
    if s != "" && s[0] == '"' then ReadQuoted(s[1..]) else ReadPlain(s)
  }

  /** Fields separated by commas, up to the line end or the end of the file. */
  function ReadRecord(s: string): (r: Option<Found<seq<string>>>)
    ensures r.Some? ==> r.value.it != []
    ensures r.Some? && s != "" ==> |r.value.rest| < |s|
    decreases |s|
  {
    var field := ReadField(s);
    if field.None? then None
    else
      var rest := field.value.rest;
      if rest == "" then Some(Found([field.value.it], ""))
      else if rest[0] == '\n' then Some(Found([field.value.it], rest[1..]))
      else if rest[0] == ',' then
        var more := ReadRecord(rest[1..]);
        if more.Some? then Some(Found([field.value.it] + more.value.it, more.value.rest)) else None
      else None
  }

  function ReadFile(s: string): Option<seq<seq<string>>>
    decreases |s|
  {
    if s == "" then Some([])
    else
      var record := ReadRecord(s);
      if record.None? then None
      else
        var more := ReadFile(record.value.rest);
        if more.Some? then Some([record.value.it] + more.value) else None
  }

  // ------------------------------------------------------- reading it back

  predicate Plain(s: string) {
    ',' !in s && '\n' !in s && '"' !in s
  }

  lemma {:induction false} ReadPlainField(field: string, rest: string)
    requires Plain(field) && rest != "" && (rest[0] == ',' || rest[0] == '\n')
    ensures ReadPlain(field + rest) == Some(Found(field, rest))
  {
    var s := field + rest;
    if field == "" {
      assert s == rest;
    } else {
      assert s[0] == field[0] && s[1..] == field[1..] + rest;
      ReadPlainField(field[1..], rest);
      assert field == [field[0]] + field[1..];
    }
  }

  lemma {:induction false} ReadQuotedField(field: string, rest: string)
    requires '"' !in field && rest != "" && rest[0] != '"'
    ensures ReadQuoted(field + "\"" + rest) == Some(Found(field, rest))
  {
    var s := field + "\"" + rest;
    if field == "" {
      assert s[1..] == rest;
    } else {
      assert s[0] == field[0] && s[1..] == field[1..] + "\"" + rest;
      ReadQuotedField(field[1..], rest);
      assert field == [field[0]] + field[1..];
    }
  }

  function Prepended(fields: seq<string>, r: Option<Found<seq<string>>>): Option<Found<seq<string>>> {
    if r.None? then None else Some(Found(fields + r.value.it, r.value.rest))
  }

  lemma PrependedTwice(fields: seq<string>, r: Option<Found<seq<string>>>)
    ensures Prepended([], r) == r
    ensures fields != [] ==> Prepended([fields[0]], Prepended(fields[1..], r)) == Prepended(fields, r)
  {
    if r.Some? {
      assert [] + r.value.it == r.value.it;
      assert fields != [] ==> [fields[0]] + (fields[1..] + r.value.it) == fields + r.value.it;
    }
  }

  /** Plain fields before a rest of the line are read as themselves. */
  lemma {:induction false} ReadPlainFields(fields: seq<string>, tail: string)
    requires forall i :: 0 <= i < |fields| ==> Plain(fields[i])
    ensures ReadRecord(Commas(fields) + tail) == Prepended(fields, ReadRecord(tail))
  {
    PrependedTwice(fields, ReadRecord(tail));
    if fields == [] {
      assert Commas(fields) + tail == tail;
    } else {
      ReadPlainFields(fields[1..], tail);
      OneField(fields[0], Commas(fields[1..]) + tail);
      FirstField(fields, tail);
    }
  }

  lemma FirstField(fields: seq<string>, tail: string)
    requires fields != []
    ensures Commas(fields) + tail == fields[0] + ("," + (Commas(fields[1..]) + tail))
  {
    Regroup(fields[0] + ",", Commas(fields[1..]), tail);
    Regroup(fields[0], ",", Commas(fields[1..]) + tail);
  }

  lemma OneField(field: string, more: string)
    requires Plain(field)
    ensures ReadRecord(field + ("," + more)) == Prepended([field], ReadRecord(more))
  {
    var rest := "," + more;
    var s := field + rest;
    ReadPlainField(field, rest);
    assert s[0] == if field == "" then ',' else field[0];
    assert rest[1..] == more;
  }

  lemma NumberFieldsPlain(d: GameData)
    ensures forall i :: 0 <= i < 9 ==> Plain(NumberFields(d)[i])
  {
    var fields := NumberFields(d);
    forall i | 0 <= i < 9 ensures Plain(fields[i]) {
      if i == 0 {
        DecimalPlain(Seconds(d.timestamp));
      } else if i <= 6 {
        assert fields[i] == ScoreField(d, i);
        if fields[i] != "" {
          DecimalPlain(d.players[i].score);
        }
      } else if i == 7 {
        DecimalPlain(d.activePlayer);
      } else {
        DecimalPlain(d.ball);
      }
    }
  }

  lemma DecimalPlain(n: int)
    ensures Plain(Decimal(n))
  {
  }

  /** The last field of a row reads as the joined modes exactly when no name has a quotation mark. */
  lemma LastField(d: GameData, rest: string)
    ensures var r := ReadField(ModesText(d) + "\n" + rest);
            && ('"' !in Str(d.modes.names) ==> r == Some(Found(Str(d.modes.names), "\n" + rest)))
            && ('"' in Str(d.modes.names) ==> r.Some? ==> r.value.it != Str(d.modes.names))
  {
    var str := Str(d.modes.names);
    var s := ModesText(d) + "\n" + rest;
    if d.modes.names == [] {
      assert s == "" + ("\n" + rest);
      ReadPlainField("", "\n" + rest);
    } else {
      var after := str + "\"" + ("\n" + rest);
      assert s[0] == '"' && s[1..] == after;
      if '"' !in str {
        ReadQuotedField(str, "\n" + rest);
      } else {
        QuotesGarble(str, rest, 0);
      }
    }
  }

  function Marks(n: nat): string {
    seq(n, _ => '"')
  }

  lemma LineEndIsKept(s: string)
    requires s != "" && s[0] == '\n'
    ensures var r := ReadQuoted(s); r.Some? ==> r.value.it != "" && r.value.it[0] == '\n'
  {
  }

  /** Text with quotation marks in it, or after quotation marks already lost, never reads as itself. */
  lemma {:induction false} QuotesGarble(t: string, rest: string, lost: nat)
    requires '"' in t || lost > 0
    ensures var r := ReadQuoted(t + "\"" + ("\n" + rest));
            r.Some? ==> r.value.it != Marks(lost) + t
    decreases |t|
  {
    var s := t + "\"" + ("\n" + rest);
    var r := ReadQuoted(s);
    if r.None? || t == "" {
    } else if t[0] != '"' {
      var more := t[1..] + "\"" + ("\n" + rest);
      assert s[0] == t[0] && s[1..] == more;
      assert r.value.it[0] == t[0];
      if lost == 0 {
        QuotesGarble(t[1..], rest, 0);
        assert Marks(0) + t[1..] == t[1..];
        assert r.value.it[1..] == ReadQuoted(more).value.it;
        assert (Marks(0) + t)[1..] == t[1..];
      }
    } else if |t| == 1 {
      assert s[2..] == "\n" + rest;
      LineEndIsKept("\n" + rest);
      assert r.value.it[0] == '"' && r.value.it[1] == '\n';
      var was := Marks(lost) + t;
      assert |was| == lost + 1;
      assert lost > 0 ==> was[1] == '"';
    } else if t[1] == '"' {
      var more := t[2..] + "\"" + ("\n" + rest);
      assert s[2..] == more;
      QuotesGarble(t[2..], rest, lost + 1);
      assert r.value.it[1..] == ReadQuoted(more).value.it;
      assert (Marks(lost) + t)[1..] == Marks(lost + 1) + t[2..];
    }
  }

  lemma ReadRow(d: GameData, rest: string)
    ensures var r := ReadRecord(RowText(d) + rest);
            && ('"' !in Str(d.modes.names) ==> r == Some(Found(Fields(d), rest)))
            && ('"' in Str(d.modes.names) ==> r.Some? ==> r.value.it != Fields(d))
  {
    var tail := ModesText(d) + "\n" + rest;
    NumberFieldsPlain(d);
    ReadPlainFields(NumberFields(d), tail);
    assert RowText(d) + rest == Commas(NumberFields(d)) + tail;
    LastField(d, rest);
    RecordStart(tail);
    var r := ReadRecord(RowText(d) + rest);
    if '"' !in Str(d.modes.names) {
      assert ("\n" + rest)[1..] == rest;
    } else if r.Some? {
      assert r.value.it[9] == ReadRecord(tail).value.it[0];
      assert Fields(d)[9] == Str(d.modes.names);
    }
  }

  lemma RecordStart(s: string)
    ensures ReadRecord(s).Some? ==> ReadField(s).Some? && ReadRecord(s).value.it[0] == ReadField(s).value.it
  {
  }

  function Rows(history: seq<GameData>): (r: seq<seq<string>>)
    ensures |r| == |history|
    ensures forall i :: 0 <= i < |r| ==> r[i] == Fields(history[i])
  {
    seq(|history|, i requires 0 <= i < |history| => Fields(history[i]))
  }

  predicate NoMark(d: GameData) {
    '"' !in Str(d.modes.names)
  }

  lemma ReadFirstRow(d: GameData, rest: string, later: seq<seq<string>>)
    ensures RowText(d) != ""
    ensures ReadFile(RowText(d) + rest) == Some([Fields(d)] + later) <==> NoMark(d) && ReadFile(rest) == Some(later)
  {
    ReadRow(d, rest);
    if NoMark(d) {
      ReadAfter(RowText(d), Fields(d), rest, later);
    } else {
      ReadDiffers(RowText(d) + rest, Fields(d), later);
    }
  }

  lemma {:induction false} ReadRows(history: seq<GameData>)
    ensures ReadFile(RowsText(history)) == Some(Rows(history)) <==>
              forall i :: 0 <= i < |history| ==> NoMark(history[i])
  {
    if history != [] {
      var later := history[1..];
      ReadRows(later);
      ReadFirstRow(history[0], RowsText(later), Rows(later));
      FirstRow(history, later);
      assert forall i :: 1 <= i < |history| ==> history[i] == later[i - 1];
    }
  }

  lemma FirstRow(history: seq<GameData>, later: seq<GameData>)
    requires history != [] && later == history[1..]
    ensures RowsText(history) == RowText(history[0]) + RowsText(later)
    ensures Rows(history) == [Fields(history[0])] + Rows(later)
  {
    assert Lines(history)[1..] == Lines(later);
  }

  /** After a line that is read as `first`, the file is read as expected if and only if its rest is. */
  lemma ReadAfter(line: string, first: seq<string>, rest: string, later: seq<seq<string>>)
    requires line != "" && ReadRecord(line + rest) == Some(Found(first, rest))
    ensures ReadFile(line + rest) == Some([first] + later) <==> ReadFile(rest) == Some(later)
  {
    var more := ReadFile(rest);
    if more.Some? {
      assert ([first] + more.value)[1..] == more.value;
      assert ([first] + later)[1..] == later;
    }
  }

  lemma ReadDiffers(s: string, first: seq<string>, later: seq<seq<string>>)
    requires s != "" && (ReadRecord(s).Some? ==> ReadRecord(s).value.it != first)
    ensures ReadFile(s) != Some([first] + later)
  {
    if ReadFile(s).Some? {
      assert ReadFile(s).value[0] == ReadRecord(s).value.it;
      assert ([first] + later)[0] == first;
    }
  }

  lemma HeaderNamePlain(i: nat)
    requires i < 9
    ensures Plain(HeaderFields()[i])
  {
    match i
    case 0 => assert Plain("time");
    case 1 => assert Plain("p1");
    case 2 => assert Plain("p2");
    case 3 => assert Plain("p3");
    case 4 => assert Plain("p4");
    case 5 => assert Plain("p5");
    case 6 => assert Plain("p6");
    case 7 => assert Plain("player");
    case _ => assert Plain("ball");
  }

  lemma ReadHeader(rest: string)
    ensures ReadRecord(HeaderText() + rest) == Some(Found(HeaderFields(), rest))
  {
    var names := HeaderFields()[..9];
    assert HeaderFields() == names + ["game_modes"];
    assert Plain("game_modes");
    forall i | 0 <= i < 9 ensures Plain(names[i]) {
      HeaderNamePlain(i);
    }
    ReadPlainLine(names, "game_modes", rest);
    assert "game_modes\n" == "game_modes" + "\n";
  }

  lemma ReadPlainLine(fields: seq<string>, last: string, rest: string)
    requires Plain(last) && forall i :: 0 <= i < |fields| ==> Plain(fields[i])
    ensures ReadRecord(Commas(fields) + (last + "\n") + rest) == Some(Found(fields + [last], rest))
  {
    var end := "\n" + rest;
    var tail := last + end;
    ReadPlainFields(fields, tail);
    assert Commas(fields) + (last + "\n") + rest == Commas(fields) + tail;
    ReadPlainField(last, end);
    assert tail[0] == if last == "" then '\n' else last[0];
    assert end[1..] == rest;
  }

  /** Every snapshot's modes are free of quotation marks. */
  ghost predicate QuoteFree(history: seq<GameData>) {
    forall i, j :: 0 <= i < |history| && 0 <= j < |history[i].modes.names| ==>
      '"' !in history[i].modes.names[j]
  }

  lemma QuoteFreeStr(history: seq<GameData>)
    ensures QuoteFree(history) <==> forall i :: 0 <= i < |history| ==> NoMark(history[i])
  {
    forall i | 0 <= i < |history|
      ensures NoMark(history[i]) <==>
                forall j :: 0 <= j < |history[i].modes.names| ==> '"' !in history[i].modes.names[j]
    {
      JoinedHas(history[i].modes.names, ";", '"');
    }
  }

  /** The whole file reads as the header and one ten-field row a snapshot, exactly when no mode has a quotation mark. */
  lemma {:induction false} FileRoundTrip(history: seq<GameData>)
    ensures ReadFile(HeaderText() + RowsText(history)) == Some([HeaderFields()] + Rows(history)) <==> QuoteFree(history)
  {
    ReadHeader(RowsText(history));
    ReadRows(history);
    QuoteFreeStr(history);
    ReadAfter(HeaderText(), HeaderFields(), RowsText(history), Rows(history));
  }

  /** One mode with a quotation mark inside, and this reader makes nothing of the file. */
  lemma QuotationMarkSpoilsTheFile(d: GameData)
    requires d.modes.names == ["a\"b"]
    ensures ReadFile(HeaderText() + RowsText([d])) == None
  {
    SpoiltRow(d);
    OneRow(d);
    ReadHeader(RowText(d));
    SpoiltAfter(HeaderText(), HeaderFields(), RowText(d));
  }

  lemma OneRow(d: GameData)
    ensures RowsText([d]) == RowText(d)
  {
    FirstRow([d], []);
    assert Lines([]) == [];
  }

  lemma SpoiltAfter(line: string, first: seq<string>, rest: string)
    requires line != "" && ReadRecord(line + rest) == Some(Found(first, rest))
    requires rest != "" && ReadRecord(rest) == None
    ensures ReadFile(line + rest) == None
  {
  }

  lemma SpoiltRow(d: GameData)
    requires d.modes.names == ["a\"b"]
    ensures RowText(d) != "" && ReadRecord(RowText(d)) == None
  {
    var tail := ModesText(d) + "\n";
    NumberFieldsPlain(d);
    ReadPlainFields(NumberFields(d), tail);
    assert RowText(d) == Commas(NumberFields(d)) + tail;
    assert tail[1..] == "a\"b\"\n";
    assert "a\"b\"\n"[1..] == "\"b\"\n";
    assert "\"b\"\n"[1..] == "b\"\n";
  }

  lemma {:induction false} JoinedHas(names: seq<string>, separator: string, c: char)
    requires c !in separator
    ensures c in Joined(names, separator) <==> exists j :: 0 <= j < |names| && c in names[j]
  {
    if |names| > 1 {
      var last := |names| - 1;
      JoinedHas(names[..last], separator, c);
    }
  }

  // ----------------------------------------------------- what the rows mean

  /** A row as a reader understands it: an empty score column says nothing. */
  datatype Reading = Reading(
    time: Option<int>, scores: seq<Option<int>>, player: Option<int>, ball: Option<int>, modes: seq<string>)

  /** Where a column is, by its name. */
  function Column(header: seq<string>, name: string): (i: nat)
    ensures i <= |header|
    ensures i < |header| ==> header[i] == name && name !in header[..i]
    ensures i == |header| ==> name !in header
  {
    if header == [] || header[0] == name then 0 else 1 + Column(header[1..], name)
  }

  /** The field of a column; an unknown column is empty. */
  function FieldOf(header: seq<string>, fields: seq<string>, name: string): string {
    var i := Column(header, name);
    if i < |fields| then fields[i] else ""
  }

  /** A row understood by the names of its columns. */
  function Understood(header: seq<string>, fields: seq<string>): Reading {
    Reading(ReadNumber(FieldOf(header, fields, "time")),
            [ReadNumber(FieldOf(header, fields, "p1")), ReadNumber(FieldOf(header, fields, "p2")),
             ReadNumber(FieldOf(header, fields, "p3")), ReadNumber(FieldOf(header, fields, "p4")),
             ReadNumber(FieldOf(header, fields, "p5")), ReadNumber(FieldOf(header, fields, "p6"))],
            ReadNumber(FieldOf(header, fields, "player")), ReadNumber(FieldOf(header, fields, "ball")),
            ReadStr(FieldOf(header, fields, "game_modes")))
  }

  lemma {:induction false} ColumnAt(header: seq<string>, i: nat)
    requires i < |header| && header[i] !in header[..i]
    ensures Column(header, header[i]) == i
  {
    if i > 0 {
      assert header[..i][0] == header[0];
      assert header[1..][..i - 1] == header[..i][1..];
      ColumnAt(header[1..], i - 1);
    }
  }

  /** The columns are where the ten names say. */
  ghost predicate Columns(header: seq<string>) {
    && Column(header, "time") == 0
    && Column(header, "p1") == 1 && Column(header, "p2") == 2 && Column(header, "p3") == 3
    && Column(header, "p4") == 4 && Column(header, "p5") == 5 && Column(header, "p6") == 6
    && Column(header, "player") == 7 && Column(header, "ball") == 8 && Column(header, "game_modes") == 9
  }

  lemma NamesAreColumns(h: seq<string>)
    requires h == HeaderFields()
    requires forall i, j :: 0 <= i < j < 10 ==> h[i] != h[j]
    ensures Columns(h)
  {
    forall i | 0 <= i < 10 ensures Column(h, h[i]) == i {
      ColumnAt(h, i);
    }
    assert Column(h, h[0]) == 0 && Column(h, h[1]) == 1 && Column(h, h[2]) == 2 && Column(h, h[3]) == 3;
    assert Column(h, h[4]) == 4 && Column(h, h[5]) == 5 && Column(h, h[6]) == 6;
    assert Column(h, h[7]) == 7 && Column(h, h[8]) == 8 && Column(h, h[9]) == 9;
  }

  lemma NameApart()
    ensures forall i, j :: 0 <= i < j < 10 ==> HeaderFields()[i] != HeaderFields()[j]
  {
    var h := HeaderFields();
    assert |h[0]| == 4 && |h[7]| == 6 && |h[8]| == 4 && |h[9]| == 10;
    assert h[0][0] == 't' && h[8][0] == 'b';
    assert forall i :: 1 <= i <= 6 ==> |h[i]| == 2;
    assert h[1][1] == '1' && h[2][1] == '2' && h[3][1] == '3' && h[4][1] == '4' && h[5][1] == '5' && h[6][1] == '6';
  }

  lemma UnderstoodByPlace(header: seq<string>, fields: seq<string>)
    requires |fields| == 10 && Columns(header)
    ensures var r := Understood(header, fields);
            && r.time == ReadNumber(fields[0]) && r.player == ReadNumber(fields[7]) && r.ball == ReadNumber(fields[8])
            && |r.scores| == 6 && (forall p :: 1 <= p <= 6 ==> r.scores[p - 1] == ReadNumber(fields[p]))
            && r.modes == ReadStr(fields[9])
  {
  }

  /** A row says what the snapshot was: every number, and the modes exactly when none has a
      semicolon and they are not one empty name. */
  ghost predicate Tells(r: Reading, d: GameData) {
    && r.time == Some(Seconds(d.timestamp))
    && r.player == Some(d.activePlayer) && r.ball == Some(d.ball)
    && |r.scores| == 6 && (forall p :: 1 <= p <= 6 ==> r.scores[p - 1] == KnownScore(d, p))
    && (r.modes == d.modes.names <==>
          d.modes.names != [""] && forall j :: 0 <= j < |d.modes.names| ==> ';' !in d.modes.names[j])
  }

  lemma FieldsTell(header: seq<string>, d: GameData)
    requires Columns(header)
    ensures Tells(Understood(header, Fields(d)), d)
  {
    UnderstoodByPlace(header, Fields(d));
    FieldPlaces(d, Fields(d));
    NumberRoundTrip(Seconds(d.timestamp));
    NumberRoundTrip(d.activePlayer);
    NumberRoundTrip(d.ball);
    StrRoundTrip(d.modes.names);
    forall p | 1 <= p <= 6 ensures ReadNumber(Fields(d)[p]) == KnownScore(d, p) {
      ScoreMeaning(d, p);
    }
  }

  /** Read by the names of its columns, every row tells what its snapshot was. */
  lemma RowMeaning(d: GameData)
    ensures Tells(Understood(HeaderFields(), Fields(d)), d)
  {
    NameApart();
    NamesAreColumns(HeaderFields());
    FieldsTell(HeaderFields(), d);
  }

  /** The score of a player, if there is such a player and the score is not negative. */
  function KnownScore(d: GameData, p: nat): Option<int> {
    if p in d.players && d.players[p].score >= 0 then Some(d.players[p].score) else None
  }

  lemma FieldPlaces(d: GameData, fields: seq<string>)
    requires fields == Fields(d)
    ensures fields[0] == Decimal(Seconds(d.timestamp))
    ensures forall p :: 1 <= p <= 6 ==> fields[p] == ScoreField(d, p)
    ensures fields[7] == Decimal(d.activePlayer) && fields[8] == Decimal(d.ball)
    ensures fields[9] == Str(d.modes.names)
  {
  }

  lemma ScoreMeaning(d: GameData, p: nat)
    ensures ReadNumber(ScoreField(d, p)) == KnownScore(d, p)
  {
    if p in d.players {
      NumberRoundTrip(d.players[p].score);
    }
  }
}
