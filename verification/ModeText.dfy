/**
 The two ways a list of modes is printed (source/modes.cpp): joined by
 semicolons, and as a JSON array.  Neither printer escapes anything; the
 readers below are independent of them, and tell exactly which lists survive.
 */
module ModeText {
  import opened Collections

  /** The names from first to last with `separator` between them. */
  function Joined(names: seq<string>, separator: string): string {
    if names == [] then ""
    else if |names| == 1 then names[0]
    else Joined(names[..|names| - 1], separator) + separator + names[|names| - 1]
  }

  function Str(names: seq<string>): string {
    Joined(names, ";")
  }

  function JsonStr(names: seq<string>): string {
    if names == [] then "[]" else "[\"" + Joined(names, "\",\"") + "\"]"
  }

  lemma {:induction false} JoinedFromTheFront(names: seq<string>, separator: string)
    requires |names| >= 2
    ensures Joined(names, separator) == names[0] + separator + Joined(names[1..], separator)
  {
    var last := |names| - 1;
    var front := names[..last];
    if |names| > 2 {
      JoinedFromTheFront(front, separator);
      assert front[1..] == names[1..][..last - 1];
      Associate(names[0] + separator, Joined(front[1..], separator), separator, names[last]);
    }
  }

  lemma Associate(a: string, b: string, c: string, d: string)
    ensures (a + b) + c + d == a + (b + c + d)
  {
  }

  // ------------------------------------------------------ semicolon-separated

  /** The parts between semicolons; there is always at least one. */
  function Split(s: string): (r: seq<string>)
    ensures r != []
    ensures forall i :: 0 <= i < |r| ==> ';' !in r[i]
  {
    if s == "" then [""]
    else
      var rest := Split(s[1..]);
      if s[0] == ';' then [""] + rest else [[s[0]] + rest[0]] + rest[1..]
  }

  /** A mode list as read from its text: no text, no modes. */
  function ReadStr(s: string): seq<string> {
    if s == "" then [] else Split(s)
  }

  lemma {:induction false} SplitOneName(name: string)
    requires ';' !in name
    ensures Split(name) == [name]
  {
    if name != "" {
      SplitOneName(name[1..]);
      assert name == [name[0]] + name[1..];
    }
  }

  lemma {:induction false} SplitAtSeparator(name: string, rest: string)
    requires ';' !in name
    ensures Split(name + ";" + rest) == [name] + Split(rest)
  {
    var s := name + ";" + rest;
    if name == "" {
      assert s[1..] == rest;
    } else {
      var tail := name[1..] + ";" + rest;
      SplitAtSeparator(name[1..], rest);
      assert s[1..] == tail && s[0] == name[0];
      assert name == [name[0]] + name[1..];
      assert Split(tail)[1..] == Split(rest);
    }
  }

  lemma {:induction false} SplitUndoesJoined(names: seq<string>)
    requires names != [] && forall i :: 0 <= i < |names| ==> ';' !in names[i]
    ensures Split(Str(names)) == names
  {
    if |names| > 1 {
      var rest := names[1..];
      SplitUndoesJoined(rest);
      JoinedFromTheFront(names, ";");
      SplitAtSeparator(names[0], Str(rest));
    } else {
      SplitOneName(names[0]);
    }
  }

  /** The list is recovered exactly when no name has a semicolon and it is not one empty name. */
  lemma {:induction false} StrRoundTrip(names: seq<string>)
    ensures ReadStr(Str(names)) == names <==>
              names != [""] && forall i :: 0 <= i < |names| ==> ';' !in names[i]
  {
    if names != [] && names != [""] && forall i :: 0 <= i < |names| ==> ';' !in names[i] {
      SplitUndoesJoined(names);
      if |names| > 1 {
        JoinedFromTheFront(names, ";");
      }
    }
  }

  /** A name with a semicolon reads as two names, and a single empty name as none. */
  lemma SemicolonSplitsAName()
    ensures ReadStr(Str(["a;b"])) == ["a", "b"]
    ensures ReadStr(Str([""])) == []
  {
    SplitAtSeparator("a", "b");
    SplitOneName("b");
    assert "a;b" == "a" + ";" + "b";
  }

  // --------------------------------------- JSON arrays of strings, RFC 8259

  /** The characters a JSON string holds as themselves (section 7). */
  predicate Unescaped(c: char) {
    ' ' <= c && c != '"' && c != '\\'
  }

  predicate NeedsNoEscape(s: string) {
    forall i :: 0 <= i < |s| ==> Unescaped(s[i])
  }

  predicate Space(c: char) { c in {' ', '\t', '\n', '\r'} }

  function SkipSpace(s: string): (r: string)
    ensures |r| <= |s|
    ensures r != "" ==> !Space(r[0])
    ensures (s != "" && !Space(s[0])) ==> r == s
  {
    if s != "" && Space(s[0]) then SkipSpace(s[1..]) else s
  }

  function HexDigit(c: char): Option<nat> {
    if '0' <= c <= '9' then Some((c as int) - ('0' as int))
    else if 'a' <= c <= 'f' then Some((c as int) - ('a' as int) + 10)
    else if 'A' <= c <= 'F' then Some((c as int) - ('A' as int) + 10)
    else None
  }

  function HexNumber(s: string, digits: nat): (r: Option<nat>)
    ensures r.Some? ==> |s| >= digits
  {
    if digits == 0 then Some(0)
    else if |s| < digits then None
    else
      var high, low := HexNumber(s, digits - 1), HexDigit(s[digits - 1]);
      if high.Some? && low.Some? then Some(16 * high.value + low.value) else None
  }

  /** A character read, and how many characters of text it took. */
  datatype Taken = Taken(symbol: char, length: nat)

  function CodePoint(n: nat, length: nat): Option<Taken> {
    if n < 0xD800 || 0xE000 <= n < 0x11_0000 then Some(Taken(n as char, length)) else None
  }

  /** What follows a backslash: a letter, or one or two groups of four hexadecimal digits. */
  function ReadEscape(s: string): (r: Option<Taken>)
    ensures r.Some? ==> 1 <= r.value.length <= |s|
  {
    if s == "" then None
    else match s[0]
      case '"' => Some(Taken('"', 1))
      case '\\' => Some(Taken('\\', 1))
      case '/' => Some(Taken('/', 1))
      case 'b' => Some(Taken(8 as char, 1))
      case 'f' => Some(Taken(12 as char, 1))
      case 'n' => Some(Taken('\n', 1))
      case 'r' => Some(Taken('\r', 1))
      case 't' => Some(Taken('\t', 1))
      case 'u' =>
        var n := HexNumber(s[1..], 4);
        if n.None? then None
        else if 0xD800 <= n.value < 0xDC00 && |s| >= 7 && s[5] == '\\' && s[6] == 'u' then
          var m := HexNumber(s[7..], 4);
          if m.Some? && 0xDC00 <= m.value < 0xE000 then
            CodePoint(0x1_0000 + 0x400 * (n.value - 0xD800) + (m.value - 0xDC00), 11)
          else None
        else CodePoint(n.value, 5)
      case _ => None
  }

  /** What a reader found, and the text after it. */
  datatype Found<T> = Found(it: T, rest: string)

  /** The rest of a string after its opening quotation mark. */
  function ReadString(s: string): (r: Option<Found<string>>)
    ensures r.Some? ==> |r.value.it| + 1 + |r.value.rest| <= |s|
    decreases |s|
  {
    if s == "" then None
    else if s[0] == '"' then Some(Found("", s[1..]))
    else if Unescaped(s[0]) then
      var more := ReadString(s[1..]);
      if more.Some? then Some(Found([s[0]] + more.value.it, more.value.rest)) else None
    else if s[0] == '\\' then
      var c := ReadEscape(s[1..]);
      if c.None? then None
      else
        var more := ReadString(s[1 + c.value.length..]);
        if more.Some? then Some(Found([c.value.symbol] + more.value.it, more.value.rest)) else None
    else None
  }

  /** Strings separated by commas, up to the closing bracket. */
  function ReadElements(s: string): (r: Option<Found<seq<string>>>)
    ensures r.Some? ==> r.value.it != []
    decreases |s|
  {
    if s == "" || s[0] != '"' then None
    else
      var first := ReadString(s[1..]);
      if first.None? then None
      else
        var next := SkipSpace(first.value.rest);
        if next == "" then None
        else if next[0] == ']' then Some(Found([first.value.it], next[1..]))
        else if next[0] == ',' then
          var more := ReadElements(SkipSpace(next[1..]));
          if more.Some? then Some(Found([first.value.it] + more.value.it, more.value.rest)) else None
        else None
  }

  /** A whole text that is an array of strings. */
  function ReadJson(text: string): Option<seq<string>> {
    var s := SkipSpace(text);
    if s == "" || s[0] != '[' then None
    else
      var inside := SkipSpace(s[1..]);
      if inside != "" && inside[0] == ']' then
        if SkipSpace(inside[1..]) == "" then Some([]) else None
      else
        var elements := ReadElements(inside);
        if elements.Some? && SkipSpace(elements.value.rest) == "" then Some(elements.value.it) else None
  }

  lemma {:induction false} ReadPlainString(s: string, rest: string)
    requires NeedsNoEscape(s)
    ensures ReadString(s + "\"" + rest) == Some(Found(s, rest))
  {
    var text := s + "\"" + rest;
    if s == "" {
      assert text[1..] == rest;
    } else {
      assert text[1..] == s[1..] + "\"" + rest && text[0] == s[0];
      ReadPlainString(s[1..], rest);
      assert s == [s[0]] + s[1..];
    }
  }

  /** The text of the elements: everything after the opening bracket. */
  function ElementsText(names: seq<string>): string
    requires names != []
  {
    "\"" + Joined(names, "\",\"") + "\"]"
  }

  lemma ElementsTextFromTheFront(names: seq<string>)
    requires |names| >= 2
    ensures ElementsText(names) == "\"" + (names[0] + "\"" + ("," + ElementsText(names[1..])))
  {
    JoinedFromTheFront(names, "\",\"");
    var tail := Joined(names[1..], "\",\"");
    assert (names[0] + "\",\"") + tail + "\"]" == names[0] + "\"" + ("," + ("\"" + tail + "\"]"));
  }

  lemma {:induction false} ReadPlainElements(names: seq<string>)
    requires names != [] && forall i :: 0 <= i < |names| ==> NeedsNoEscape(names[i])
    ensures ReadElements(ElementsText(names)) == Some(Found(names, ""))
  {
    var text := ElementsText(names);
    if |names| == 1 {
      assert text[1..] == names[0] + "\"" + "]";
      ReadPlainString(names[0], "]");
      assert "]"[1..] == "";
      assert names == [names[0]];
    } else {
      var rest := names[1..];
      ReadPlainElements(rest);
      ElementsTextFromTheFront(names);
      var next := "," + ElementsText(rest);
      assert text[1..] == names[0] + "\"" + next;
      ReadPlainString(names[0], next);
      assert next[1..] == ElementsText(rest);
      assert names == [names[0]] + rest;
    }
  }

  /** The number of characters in a list printed without any escape. */
  function PrintedLength(names: seq<string>): nat {
    if names == [] then 0 else |names[0]| + 3 + PrintedLength(names[1..])
  }

  lemma {:induction false} ElementsTextLength(names: seq<string>)
    requires names != []
    ensures |ElementsText(names)| == PrintedLength(names)
  {
    if |names| > 1 {
      ElementsTextFromTheFront(names);
      ElementsTextLength(names[1..]);
    }
  }

  /** Reading a string never gains length, and breaks even only without escapes. */
  lemma {:induction false} StringNeverGains(s: string)
    requires ReadString(s).Some?
    ensures var f := ReadString(s).value;
            |f.it| + 1 + |f.rest| == |s| ==> NeedsNoEscape(f.it)
    decreases |s|
  {
    if s[0] != '"' && Unescaped(s[0]) {
      StringNeverGains(s[1..]);
    }
  }

  lemma {:induction false} ElementsNeverGain(s: string)
    requires ReadElements(s).Some?
    ensures var f := ReadElements(s).value;
            && PrintedLength(f.it) + |f.rest| <= |s|
            && (PrintedLength(f.it) + |f.rest| == |s| ==> forall i :: 0 <= i < |f.it| ==> NeedsNoEscape(f.it[i]))
    decreases |s|
  {
    var first := ReadString(s[1..]).value;
    StringNeverGains(s[1..]);
    var next := SkipSpace(first.rest);
    if next[0] == ',' {
      ElementsNeverGain(SkipSpace(next[1..]));
      var more := ReadElements(SkipSpace(next[1..])).value;
      var f := ReadElements(s).value;
      assert f.it[1..] == more.it;
      assert forall i :: 1 <= i < |f.it| ==> f.it[i] == more.it[i - 1];
    }
  }

  /** The printed list reads back as itself exactly when no name needs an escape. */
  lemma {:induction false} JsonRoundTrip(names: seq<string>)
    ensures ReadJson(JsonStr(names)) == Some(names) <==>
              forall i :: 0 <= i < |names| ==> NeedsNoEscape(names[i])
  {
    if names != [] {
      var text, inside := JsonStr(names), ElementsText(names);
      assert text == "[" + inside;
      assert text[1..] == inside;
      if forall i :: 0 <= i < |names| ==> NeedsNoEscape(names[i]) {
        ReadPlainElements(names);
      }
      if ReadJson(text) == Some(names) {
        ElementsNeverGain(inside);
        ElementsTextLength(names);
      }
    }
  }

  /** A name with quotation marks can pass for two names. */
  lemma OneNameCanReadAsTwo()
    ensures ReadJson(JsonStr(["a\",\"b"])) == ReadJson(JsonStr(["a", "b"])) == Some(["a", "b"])
  {
    var names := ["a", "b"];
    assert JsonStr(["a\",\"b"]) == JsonStr(names) by {
      assert Joined(names, "\",\"") == "a" + "\",\"" + "b";
    }
    JsonRoundTrip(names);
  }
}
