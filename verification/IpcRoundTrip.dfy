/** Printing a document and reading it back: when the two agree. */
module IpcRoundTrip {
  import opened Wrappers
  import opened Text
  import opened IpcDocument

  // Escapes.

  /** The controls that escaping leaves alone. */
  predicate C1(c: char) {
    0x80 <= c as int <= 0x9f
  }

  lemma UnescapeBack(c: char, rest: string)
    requires !C1(c)
    ensures var s := Escape(c) + rest;
      s[0] != '"' &&
      if s[0] == '\\' then Unescape(s[1..]) == Ok((c, |Escape(c)| - 1)) && s[|Escape(c)|..] == rest
      else s[0] == c && |Escape(c)| == 1 && s[1..] == rest && c as int >= 0x20 && c as int != 0x7f
  {
    var s := Escape(c) + rest;
    assert s[|Escape(c)|..] == rest;
    if c as int <= 0x1f || c as int == 0x7f { HexBack(c as int); }
  }

  lemma HexBack(n: int)
    requires 0 <= n <= 0x7f
    ensures HexValue(HexDigit(n / 16)) == Some(n / 16) && HexValue(HexDigit(n % 16)) == Some(n % 16)
      && n == n / 16 * 16 + n % 16
  {
  }

  /** Quoted text is read back up to its own closing quote. */
  lemma {:induction false} QuotedBack(value: string, rest: string)
    requires forall i :: 0 <= i < |value| ==> !C1(value[i])
    ensures ReadQuoted(Escaped(value) + "\"" + rest) == Ok((value, rest))
    decreases |value|
  {
    hide Unescape, Escape;
    var s := Escaped(value) + "\"" + rest;
    if value == [] {
      assert s[0] == '"' && s[1..] == rest;
    } else {
      var later := Escaped(value[1..]) + "\"" + rest;
      assert s == Escape(value[0]) + later;
      UnescapeBack(value[0], later);
      QuotedBack(value[1..], rest);
      assert [value[0]] + value[1..] == value;
      if s[0] == '\\' { assert s[1 + (|Escape(value[0])| - 1)..] == later; }
    }
  }

  // What printed text contains.

  lemma EscapeShape(c: char)
    ensures forall i :: 0 <= i < |Escape(c)| ==> (Control(Escape(c)[i]) <==> C1(c))
    ensures forall i :: 0 <= i < |Escape(c)| ==> (Escape(c)[i] == ' ' <==> c == ' ')
    ensures c == ' ' ==> Escape(c) == " "
    ensures Free(Escape(c), "\n")
    ensures C1(c) ==> Escape(c) == [c]
  {
    if c as int <= 0x1f || c as int == 0x7f { HexShape(c as int / 16); HexShape(c as int % 16); }
  }

  lemma HexShape(n: int)
    requires 0 <= n < 16
    ensures 0x30 <= HexDigit(n) as int <= 0x46
  {
  }

  predicate HasC1(s: string) {
    exists i :: 0 <= i < |s| && C1(s[i])
  }

  lemma C1Step(c: char, later: string)
    ensures HasC1([c] + later) <==> C1(c) || HasC1(later)
  {
    var s := [c] + later;
    if HasC1(later) {
      var i :| 0 <= i < |later| && C1(later[i]);
      assert s[i + 1] == later[i];
    }
    if HasC1(s) {
      var i :| 0 <= i < |s| && C1(s[i]);
      assert i > 0 ==> later[i - 1] == s[i];
    }
    assert s[0] == c;
  }

  lemma EscapeControls(c: char)
    ensures HasControl(Escape(c)) <==> C1(c)
  {
    hide Escape;
    EscapeShape(c);
    if C1(c) { assert Control(Escape(c)[0]); }
  }

  /** A C1 control survives escaping; no other control is left, and no line feed. */
  lemma {:induction false} EscapedControls(value: string)
    ensures HasControl(Escaped(value)) <==> HasC1(value)
    ensures Free(Escaped(value), "\n")
  {
    if value != [] {
      hide Escape, HasControl, HasC1;
      var c, later := value[0], value[1..];
      EscapedControls(later);
      EscapeShape(c);
      EscapeControls(c);
      ControlConcat(Escape(c), Escaped(later));
      C1Step(c, later);
      assert value == [c] + later;
    }
  }

  /** Escaping a character brings in no two adjacent spaces. */
  lemma EscapeSpaces(c: char)
    ensures !HasDoubleSpace(Escape(c)) && !HasDoubleSpace([c])
    ensures Escape(c)[0] == ' ' <==> c == ' '
    ensures Escape(c)[|Escape(c)| - 1] == ' ' <==> c == ' '
  {
    hide Escape;
    EscapeShape(c);
  }

  /** Two adjacent spaces survive escaping, and nothing else brings them in. */
  lemma {:induction false} EscapedSpaces(value: string)
    ensures HasDoubleSpace(Escaped(value)) <==> HasDoubleSpace(value)
    ensures value != [] ==> Escaped(value) != [] && (Escaped(value)[0] == ' ' <==> value[0] == ' ')
  {
    if value != [] {
      hide Escape, HasDoubleSpace;
      var c, later := value[0], value[1..];
      EscapedSpaces(later);
      EscapeSpaces(c);
      SpaceConcat(Escape(c), Escaped(later));
      SpaceConcat([c], later);
      assert value == [c] + later;
    }
  }

  lemma ControlConcat(a: string, b: string)
    ensures HasControl(a + b) <==> HasControl(a) || HasControl(b)
  {
    var s := a + b;
    assert forall i :: 0 <= i < |a| ==> s[i] == a[i];
    assert forall i :: 0 <= i < |b| ==> s[|a| + i] == b[i];
    if HasControl(b) {
      var i :| 0 <= i < |b| && Control(b[i]);
      assert Control(s[|a| + i]);
    }
    if HasControl(s) {
      var i :| 0 <= i < |s| && Control(s[i]);
      if i >= |a| { assert Control(b[i - |a|]); } else { assert Control(a[i]); }
    }
  }

  lemma SpaceConcat(a: string, b: string)
    requires a != []
    ensures HasDoubleSpace(a + b)
      <==> HasDoubleSpace(a) || HasDoubleSpace(b) || (b != [] && a[|a| - 1] == ' ' && b[0] == ' ')
  {
    var s := a + b;
    assert forall i :: 0 <= i < |a| ==> s[i] == a[i];
    assert forall i :: 0 <= i < |b| ==> s[|a| + i] == b[i];
    if HasDoubleSpace(a) {
      var i :| 0 <= i < |a| - 1 && a[i] == ' ' && a[i + 1] == ' ';
      assert s[i] == ' ' && s[i + 1] == ' ';
    }
    if HasDoubleSpace(b) {
      var i :| 0 <= i < |b| - 1 && b[i] == ' ' && b[i + 1] == ' ';
      assert s[|a| + i] == ' ' && s[|a| + i + 1] == ' ';
    }
    if b != [] && a[|a| - 1] == ' ' && b[0] == ' ' { assert s[|a| - 1] == ' ' && s[|a| - 1 + 1] == ' '; }
    if HasDoubleSpace(s) {
      var i :| 0 <= i < |s| - 1 && s[i] == ' ' && s[i + 1] == ' ';
      if i + 1 < |a| { assert a[i] == ' ' && a[i + 1] == ' '; }
      else if i >= |a| { assert b[i - |a|] == ' ' && b[i - |a| + 1] == ' '; }
    }
  }

  // One field, one line.

  /** Unquoted fields are words; quoted ones may hold anything. */
  predicate Wordy(f: Field) {
    !f.quoted ==> GoodWord(f.text)
  }

  predicate WordyLine(fields: seq<Field>) {
    forall j :: 0 <= j < |fields| ==> Wordy(fields[j])
  }

  predicate Clean(s: string) {
    !HasControl(s) && !HasDoubleSpace(s)
  }

  lemma CleanConcat(a: string, b: string)
    requires a != [] && (b == [] || b[0] != ' ' || a[|a| - 1] != ' ')
    ensures Clean(a + b) <==> Clean(a) && Clean(b)
  {
    ControlConcat(a, b);
    SpaceConcat(a, b);
  }

  lemma FieldShape(f: Field)
    requires Wordy(f)
    ensures var t := FieldText(f);
      t != [] && t[0] != ' ' && t[|t| - 1] != ' ' && Free(t, "\n") && (Clean(t) <==> GoodField(f))
  {
    if f.quoted {
      EscapedControls(f.text);
      EscapedSpaces(f.text);
      var body := Escaped(f.text);
      CleanConcat("\"", body);
      assert HasControl("\"") == false && HasDoubleSpace("\"") == false;
      CleanConcat("\"" + body, "\"");
    }
  }

  /** A line passes the checks on its separators and characters exactly when all its fields are good. */
  lemma {:induction false} LineShape(fields: seq<Field>)
    requires fields != [] && WordyLine(fields)
    ensures var t := LineText(fields);
      && t != [] && t[0] != ' ' && t[|t| - 1] != ' ' && Free(t, "\n")
      && (Clean(t) <==> forall j :: 0 <= j < |fields| ==> GoodField(fields[j]))
    decreases |fields|
  {
    hide FieldText, Clean, GoodField, Wordy;
    var first := FieldText(fields[0]);
    FieldShape(fields[0]);
    if |fields| == 1 {
      assert first + "" == first;
    } else {
      var later := LineText(fields[1..]);
      LineShape(fields[1..]);
      assert LineText(fields) == first + (" " + later);
      OneSpace();
      CleanConcat(" ", later);
      CleanConcat(first, " " + later);
      assert forall j :: 0 < j < |fields| ==> fields[j] == fields[1..][j - 1];
      assert forall j :: 0 <= j < |fields[1..]| ==> fields[1..][j] == fields[j + 1];
    }
  }

  lemma OneSpace()
    ensures Clean(" ")
  {
  }

  lemma FieldBack(f: Field, rest: string)
    requires GoodField(f) && (rest == [] || rest[0] == ' ')
    ensures ReadField(FieldText(f) + rest) == Ok((f, rest))
  {
    hide Escaped, ReadQuoted, HasDoubleSpace;
    var s := FieldText(f) + rest;
    if f.quoted {
      assert s[1..] == Escaped(f.text) + "\"" + rest;
      QuotedBack(f.text, rest);
    } else {
      assert Free(f.text, " ");
      if rest == [] {
        assert s == f.text;
      } else {
        assert s == f.text + [' '] + rest[1..];
        FindAfter(f.text, ' ', rest[1..], " ");
        assert s[|f.text|..] == rest;
      }
    }
  }

  lemma {:induction false} FieldsBack(fields: seq<Field>)
    requires forall j :: 0 <= j < |fields| ==> GoodField(fields[j])
    ensures ReadFields(LineText(fields)) == Ok(fields)
    decreases |fields|
  {
    hide FieldText, ReadField, GoodField;
    if fields != [] {
      var first, later := FieldText(fields[0]), LineText(fields[1..]);
      var rest := if |fields| == 1 then "" else " " + later;
      FieldBack(fields[0], rest);
      NotEmpty(fields[0]);
      FieldsBack(fields[1..]);
      if |fields| == 1 { assert fields[1..] == []; } else { assert rest[1..] == later; }
      assert [fields[0]] + fields[1..] == fields;
    }
  }

  lemma NotEmpty(f: Field)
    requires GoodField(f)
    ensures FieldText(f) != []
  {
  }

  // What reading yields.

  lemma {:induction false} FieldsAreWordy(s: string)
    requires ReadFields(s).Ok? && !HasControl(s)
    ensures WordyLine(ReadFields(s).value) && (s != [] ==> ReadFields(s).value != [])
    decreases |s|
  {
    if s != [] {
      var (field, rest) := ReadField(s).value;
      var later := if rest == [] then [] else rest[1..];
      FieldSuffix(s);
      FieldsAreWordy(later);
      FieldIsWordy(s);
    }
  }

  lemma {:induction false} QuotedSuffix(s: string)
    requires ReadQuoted(s).Ok?
    ensures var rest := ReadQuoted(s).value.1; rest == s[|s| - |rest|..]
    decreases |s|
  {
    hide Unescape;
    if s[0] == '"' {
    } else if s[0] == '\\' {
      var next := s[1 + Unescape(s[1..]).value.1..];
      QuotedSuffix(next);
    } else {
      QuotedSuffix(s[1..]);
    }
  }

  lemma FieldSuffix(s: string)
    requires s != [] && ReadField(s).Ok? && !HasControl(s)
    ensures var rest := ReadField(s).value.1; !HasControl(rest) && (rest != [] ==> !HasControl(rest[1..]))
  {
    var rest := ReadField(s).value.1;
    if s[0] == '"' { QuotedSuffix(s[1..]); }
    var n := |s| - |rest|;
    assert rest == s[n..];
    ControlConcat(s[..n], rest);
    assert s == s[..n] + rest;
    if rest != [] {
      ControlConcat([rest[0]], rest[1..]);
      assert rest == [rest[0]] + rest[1..];
    }
  }

  lemma FieldIsWordy(s: string)
    requires s != [] && ReadField(s).Ok? && !HasControl(s)
    ensures Wordy(ReadField(s).value.0)
  {
    if s[0] != '"' {
      var at := Find(s, " ");
      var end := if at.Some? then at.value else |s|;
      forall i | 0 <= i < end ensures 0x21 <= s[i] as int <= 0x7e {
        assert !Control(s[i]);
      }
    }
  }

  lemma LineBack(line: Line)
    requires line.fields != [] && WordyLine(line.fields)
    ensures ParseLine(LineText(line.fields)).Ok? <==> GoodLine(line)
    ensures GoodLine(line) ==> ParseLine(LineText(line.fields)) == Ok(line)
  {
    hide ReadFields, GoodField, Wordy, LineText;
    LineShape(line.fields);
    var t := LineText(line.fields);
    if GoodLine(line) {
      NoTab(t);
      FieldsBack(line.fields);
    }
  }

  lemma NoTab(t: string)
    requires !HasControl(t)
    ensures '\t' !in t
  {
    assert Control('\t');
  }

  lemma {:induction false} ParsedLines(raw: seq<string>, number: nat)
    requires ParseLines(raw, number).Ok?
    ensures var lines := ParseLines(raw, number).value;
      && |lines| == |raw|
      && forall i :: 0 <= i < |lines| ==>
         ParseLine(raw[i]) == Ok(lines[i]) && WordyLine(lines[i].fields) && lines[i].fields != []
    decreases |raw|
  {
    hide ReadFields, HasControl, Separated, Wordy;
    if raw != [] {
      ParsedLines(raw[1..], number + 1);
      FieldsAreWordy(raw[0]);
      NotEmptyWhenSeparated(raw[0]);
    }
  }

  lemma NotEmptyWhenSeparated(s: string)
    ensures Separated(s) ==> s != []
  {
  }

  lemma {:induction false} ParseAll(raw: seq<string>, lines: seq<Line>, number: nat)
    requires |raw| == |lines| && forall i :: 0 <= i < |raw| ==> ParseLine(raw[i]) == Ok(lines[i])
    ensures ParseLines(raw, number) == Ok(lines)
    decreases |raw|
  {
    hide ParseLine;
    if raw != [] {
      ParseAll(raw[1..], lines[1..], number + 1);
      assert [lines[0]] + lines[1..] == lines;
    }
  }

  // Lines of a document.

  predicate NoBreaks(lines: seq<string>) {
    forall i :: 0 <= i < |lines| ==> Free(lines[i], "\n")
  }

  lemma {:induction false} SplitEnded(lines: seq<string>)
    requires NoBreaks(lines)
    ensures Split(Ended(lines), '\n') == lines + [""]
    decreases |lines|
  {
    hide Split;
    if lines == [] {
      SplitWhole("", '\n');
      assert lines + [""] == [""];
    } else {
      assert Ended(lines) == lines[0] + ['\n'] + Ended(lines[1..]);
      SplitAfter(lines[0], '\n', Ended(lines[1..]));
      SplitEnded(lines[1..]);
      assert [lines[0]] + (lines[1..] + [""]) == lines + [""];
    }
  }

  lemma {:induction false} EndsWithBreak(lines: seq<string>)
    requires lines != []
    ensures Ended(lines) != [] && Ended(lines)[|Ended(lines)| - 1] == '\n'
  {
    if |lines| > 1 { EndsWithBreak(lines[1..]); } else { assert lines[1..] == []; }
  }

  lemma {:induction false} TextsAt(lines: seq<Line>)
    ensures |LineTexts(lines)| == |lines|
    ensures forall i :: 0 <= i < |lines| ==> LineTexts(lines)[i] == LineText(lines[i].fields)
  {
    hide LineText;
    if lines != [] { TextsAt(lines[1..]); }
  }

  ghost predicate WordyDocument(d: Document) {
    forall i :: 0 <= i < |d.lines| ==> d.lines[i].fields != [] && WordyLine(d.lines[i].fields)
  }

  /** An encoded document splits into its header, its lines and its End. */
  lemma RawOfEncode(d: Document)
    requires WordyDocument(d)
    ensures var text := Encode(d); var raw := RawLines(text);
      && text != [] && text[|text| - 1] == '\n' && |raw| == |d.lines| + 2
      && raw[0] == Header(d.kind) && raw[|raw| - 1] == "End" && raw[1..|raw| - 1] == LineTexts(d.lines)
  {
    hide LineText, Split, Ended, WordyLine;
    var all := [Header(d.kind)] + LineTexts(d.lines) + ["End"];
    TextsAt(d.lines);
    forall i | 0 <= i < |d.lines| ensures Free(LineTexts(d.lines)[i], "\n") { LineShape(d.lines[i].fields); }
    assert NoBreaks(all);
    SplitEnded(all);
    EndsWithBreak(all);
    assert (all + [""])[..|all|] == all;
    assert all[1..|all| - 1] == LineTexts(d.lines);
  }

  lemma ParsedIsWordy(text: string, kind: Kind)
    requires Parse(text, kind).Ok?
    ensures WordyDocument(Parse(text, kind).value) && Parse(text, kind).value.lines != []
  {
    hide ParseLines, RawLines, WordyLine;
    var raw := RawLines(text);
    ParsedLines(raw[1..|raw| - 1], 2);
  }

  /** A document is read back from its own text exactly when it is printable. */
  lemma DocumentRoundTrip(d: Document)
    ensures Parse(Encode(d), d.kind) == Ok(d) <==> Printable(d)
  {
    hide Encode, RawLines, ParseLines, ParseLine, LineText, GoodLine, WordyLine;
    if Parse(Encode(d), d.kind) == Ok(d) {
      ParsedIsWordy(Encode(d), d.kind);
      RawOfEncode(d);
      TextsAt(d.lines);
      ParsedLines(LineTexts(d.lines), 2);
      forall i | 0 <= i < |d.lines| ensures GoodLine(d.lines[i]) { LineBack(d.lines[i]); }
    }
    if Printable(d) {
      forall i | 0 <= i < |d.lines|
        ensures d.lines[i].fields != [] && WordyLine(d.lines[i].fields) { GoodIsWordy(d.lines[i]); }
      RawOfEncode(d);
      TextsAt(d.lines);
      forall i | 0 <= i < |d.lines| ensures ParseLine(LineTexts(d.lines)[i]) == Ok(d.lines[i]) { LineBack(d.lines[i]); }
      ParseAll(LineTexts(d.lines), d.lines, 2);
    }
  }

  lemma GoodIsWordy(line: Line)
    requires GoodLine(line)
    ensures line.fields != [] && WordyLine(line.fields)
  {
  }

  lemma EscapedSpace()
    ensures ReadQuoted(" \\x20\"") == Ok(("  ", ""))
  {
    var a := " \\x20\"";
    assert |a| == 6 && a[0] == ' ' && a[1] == '\\' && a[2] == 'x' && a[3] == '2' && a[4] == '0' && a[5] == '"';
    var b, c := a[1..], a[5..];
    assert b[1..][0] == 'x' && b[1..][1] == '2' && b[1..][2] == '0';
    assert Unescape(b[1..]) == Ok((' ', 3)) && b[4..] == c && c[1..] == "";
    assert ReadQuoted(c) == Ok(("", ""));
    assert ReadQuoted(b) == Ok(([' '] + "", ""));
    assert [' '] + ([' '] + "") == "  ";
  }

  /** Reading is not one to one: an escaped space stands for one that printing leaves bare. */
  lemma EscapedSpaceIsLost()
    ensures ParseLine("\" \\x20\"") == Ok(Line([Field("  ", true)]))
    ensures !GoodField(Field("  ", true))
  {
    hide ReadQuoted;
    var s := "\" \\x20\"";
    assert |s| == 7 && s[0] == '"' && s[1] == ' ' && s[2] == '\\' && s[3] == 'x' && s[4] == '2' && s[5] == '0'
      && s[6] == '"';
    assert s[1..] == " \\x20\"";
    EscapedSpace();
    assert ReadField(s) == Ok((Field("  ", true), ""));
    assert ReadFields(s) == Ok([Field("  ", true)] + []);
    assert [Field("  ", true)] + [] == [Field("  ", true)];
    assert "  "[0] == ' ' && "  "[0 + 1] == ' ';
  }
}
