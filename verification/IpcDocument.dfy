/** IPC documents: lines of quoted and unquoted fields between a header and an End. Text is Unicode characters. */
module IpcDocument {
  import opened Wrappers
  import opened Text

  datatype Field = Field(text: string, quoted: bool)

  datatype Line = Line(fields: seq<Field>)

  datatype Kind = Request | Result

  datatype Document = Document(kind: Kind, lines: seq<Line>)

  datatype IpcError = IpcError(line: nat, message: string)

  type Outcome<T> = Wrappers.Result<T, IpcError>

  // Printing.

  function HexDigit(n: int): char
    requires 0 <= n < 16
  {
    if n < 10 then ('0' as int + n) as char else ('A' as int + n - 10) as char
  }

  function Escape(c: char): (r: string)
    ensures r != []
  {
    if c == '"' then "\\\""
    else if c == '\\' then "\\\\"
    else if c == '\0' then "\\0"
    else if c == '\t' then "\\t"
    else if c == '\n' then "\\n"
    else if c == '\r' then "\\r"
    else if c as int <= 0x1f || c as int == 0x7f then "\\x" + [HexDigit(c as int / 16), HexDigit(c as int % 16)]
    else [c]
  }

  function Escaped(value: string): string {
    if value == [] then "" else Escape(value[0]) + Escaped(value[1..])
  }

  function Quote(value: string): string {
    "\"" + Escaped(value) + "\""
  }

  function FieldText(f: Field): string {
    if f.quoted then Quote(f.text) else f.text
  }

  function LineText(fields: seq<Field>): string {
    if fields == [] then ""
    else FieldText(fields[0]) + (if |fields| == 1 then "" else " " + LineText(fields[1..]))
  }

  function Header(kind: Kind): string {
    if kind == Request then "TITH-IPC 1" else "TITH-IPC-Result 1"
  }

  /** Each line ended by a line feed. */
  function Ended(lines: seq<string>): string {
    if lines == [] then "" else lines[0] + "\n" + Ended(lines[1..])
  }

  function LineTexts(lines: seq<Line>): seq<string> {
    if lines == [] then [] else [LineText(lines[0].fields)] + LineTexts(lines[1..])
  }

  function Encode(d: Document): string {
    Ended([Header(d.kind)] + LineTexts(d.lines) + ["End"])
  }

  // Parsing.

  /** `char::is_control`. */
  predicate Control(c: char) {
    c as int < 0x20 || 0x7f <= c as int <= 0x9f
  }

  predicate HasControl(s: string) {
    exists i :: 0 <= i < |s| && Control(s[i])
  }

  predicate HasDoubleSpace(s: string) {
    exists i :: 0 <= i < |s| - 1 && s[i] == ' ' && s[i + 1] == ' '
  }

  predicate Separated(s: string) {
    s != [] && s[0] != ' ' && s[|s| - 1] != ' ' && !HasDoubleSpace(s)
  }

  function HexValue(c: char): Option<int> {
    if '0' <= c <= '9' then Some(c as int - '0' as int)
    else if 'A' <= c <= 'F' then Some(c as int - 'A' as int + 10)
    else None
  }

  /** The character an escape stands for, and how many characters the escape takes after its backslash. */
  function Unescape(s: string): Wrappers.Result<(char, nat), string> {
    if s == [] then Err("unterminated escape")
    else if s[0] == '"' || s[0] == '\\' then Ok((s[0], 1))
    else if s[0] == '0' then Ok(('\0', 1))
    else if s[0] == 't' then Ok(('\t', 1))
    else if s[0] == 'n' then Ok(('\n', 1))
    else if s[0] == 'r' then Ok(('\r', 1))
    else if s[0] != 'x' then Err("unknown escape")
    else if |s| < 3 then Err("short hexadecimal escape")
    else
      var high, low := HexValue(s[1]), HexValue(s[2]);
      if high.None? || low.None? then Err("noncanonical hexadecimal escape")
      else
        var value := high.value * 16 + low.value;
        if value > 0x7f || value in [0, 9, 10, 13, '"' as int, '\\' as int] then Err("invalid hexadecimal escape")
        else Ok((value as char, 3))
  }

  /** A quoted value from just after its opening quote: its text, and what follows the closing quote. */
  function ReadQuoted(s: string): (r: Wrappers.Result<(string, string), string>)
    ensures r.Ok? ==> |r.value.1| < |s|
    decreases |s|
  {
    if s == [] then Err("unterminated quoted string")
    else if s[0] == '"' then Ok(("", s[1..]))
    else if s[0] == '\\' then
      var one := Unescape(s[1..]);
      if one.Err? then Err(one.error)
      else if one.value.1 > |s| - 1 then Err("unterminated escape")
      else Prefixed(one.value.0, ReadQuoted(s[1 + one.value.1..]))
    else if s[0] as int < 0x20 || s[0] as int == 0x7f then Err("unescaped control character")
    else Prefixed(s[0], ReadQuoted(s[1..]))
  }

  function Prefixed(c: char, r: Wrappers.Result<(string, string), string>): Wrappers.Result<(string, string), string> {
    if r.Err? then r else Ok(([c] + r.value.0, r.value.1))
  }

  predicate Plain(text: string) {
    text != [] && Free(text, "\"\\") && forall i :: 0 <= i < |text| ==> text[i] as int < 0x80
  }

  /** One field and what follows it. */
  function ReadField(s: string): (r: Wrappers.Result<(Field, string), string>)
    requires s != []
    ensures r.Ok? ==> |r.value.1| < |s|
  {
    if s[0] == '"' then
      var quoted := ReadQuoted(s[1..]);
      if quoted.Err? then Err(quoted.error) else Ok((Field(quoted.value.0, true), quoted.value.1))
    else
      var at := Find(s, " ");
      var end := if at.Some? then at.value else |s|;
      if !Plain(s[..end]) then Err("invalid unquoted field") else Ok((Field(s[..end], false), s[end..]))
  }

  function ReadFields(s: string): Wrappers.Result<seq<Field>, string>
    decreases |s|
  {
    if s == [] then Ok([])
    else
      var one := ReadField(s);
      if one.Err? then Err(one.error)
      else
        var (field, rest) := one.value;
        if rest != [] && rest[0] != ' ' then Err("missing field separator")
        else
          var later := ReadFields(if rest == [] then [] else rest[1..]);
          if later.Err? then later else Ok([field] + later.value)
  }

  function ParseLine(s: string): Wrappers.Result<Line, string> {
    if !Separated(s) || '\t' in s then Err("noncanonical separators")
    else if HasControl(s) then Err("prohibited control character")
    else
      var fields := ReadFields(s);
      if fields.Err? then Err(fields.error) else Ok(Line(fields.value))
  }

  function ParseLines(raw: seq<string>, number: nat): Outcome<seq<Line>> {
    if raw == [] then Ok([])
    else
      var first := ParseLine(raw[0]);
      if first.Err? then Err(IpcError(number, first.error))
      else
        var later := ParseLines(raw[1..], number + 1);
        if later.Err? then later else Ok([first.value] + later.value)
  }

  /** `split_terminator` on a text that ends in a line feed. */
  function RawLines(text: string): seq<string> {
    var pieces := Split(text, '\n');
    pieces[..|pieces| - 1]
  }

  function Parse(text: string, kind: Kind): Outcome<Document> {
    if text == [] || text[|text| - 1] != '\n' then Err(IpcError(|Split(text, '\n')|, "missing final LF"))
    else
      var raw := RawLines(text);
      if |raw| < 3 then Err(IpcError(1, "incomplete envelope"))
      else if raw[0] != Header(kind) then Err(IpcError(1, "invalid envelope header"))
      else if raw[|raw| - 1] != "End" then Err(IpcError(|raw|, "missing final End"))
      else
        var lines := ParseLines(raw[1..|raw| - 1], 2);
        if lines.Err? then Err(lines.error) else Ok(Document(kind, lines.value))
  }

  // What can be printed and read back.

  predicate GoodWord(text: string) {
    text != [] && forall i :: 0 <= i < |text| ==> 0x21 <= text[i] as int <= 0x7e && text[i] != '"' && text[i] != '\\'
  }

  /** Quoted text whose printed form the reader's checks of the whole line let through. */
  predicate GoodQuote(text: string) {
    !HasDoubleSpace(text) && forall i :: 0 <= i < |text| ==> !(0x80 <= text[i] as int <= 0x9f)
  }

  predicate GoodField(f: Field) {
    if f.quoted then GoodQuote(f.text) else GoodWord(f.text)
  }

  predicate GoodLine(line: Line) {
    line.fields != [] && forall j :: 0 <= j < |line.fields| ==> GoodField(line.fields[j])
  }

  predicate Printable(d: Document) {
    d.lines != [] && forall i :: 0 <= i < |d.lines| ==> GoodLine(d.lines[i])
  }
}
