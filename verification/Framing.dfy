/** The framer and the parser agree: an accepted submission completes on its last line and on no earlier one. */
module Framing {
  import opened Wrappers
  import opened Integers
  import opened Text
  import opened IpcDocument
  import opened IpcRoundTrip
  import opened Submission

  // Nesting by the framer's rules, on parsed lines.

  predicate Opens(line: Line) {
    Alone(line, "Attachment") || Alone(line, "File") || Exact(line, "Job").Some?
  }

  /** The depth after some lines, or None when an End comes at depth zero. */
  function Depth(lines: seq<Line>, d: nat): Option<nat>
    decreases |lines|
  {
    if lines == [] then Some(d)
    else if Alone(lines[0], "End") then (if d == 0 then None else Depth(lines[1..], d - 1))
    else if Opens(lines[0]) then Depth(lines[1..], d + 1)
    else Depth(lines[1..], d)
  }

  lemma {:induction false} DepthConcat(a: seq<Line>, b: seq<Line>, d: nat)
    ensures Depth(a + b, d) == if Depth(a, d).Some? then Depth(b, Depth(a, d).value) else None
    decreases |a|
  {
    hide Alone, Opens;
    if a == [] {
      assert a + b == b;
    } else {
      assert (a + b)[1..] == a[1..] + b;
      if Alone(a[0], "End") {
        if d > 0 { DepthConcat(a[1..], b, d - 1); }
      } else {
        DepthConcat(a[1..], b, if Opens(a[0]) then d + 1 else d);
      }
    }
  }

  /** Lines that change no depth. */
  ghost predicate Level(lines: seq<Line>) {
    forall d: nat :: Depth(lines, d) == Some(d)
  }

  lemma LevelConcat(a: seq<Line>, b: seq<Line>)
    requires Level(a) && Level(b)
    ensures Level(a + b)
  {
    hide Depth;
    forall d: nat ensures Depth(a + b, d) == Some(d) {
      DepthConcat(a, b, d);
      assert Depth(a, d) == Some(d) && Depth(b, d) == Some(d);
    }
  }

  /** Names that neither open nor close anything. */
  predicate Neutral(name: string) {
    name != "Job" && name != "End" && name != "File" && name != "Attachment"
  }

  lemma NeutralLine(line: Line, name: string)
    requires Neutral(name) && Exact(line, name).Some?
    ensures Level([line])
  {
    forall d: nat ensures Depth([line], d) == Some(d) {
      assert [line][1..] == [];
      assert Depth([], d) == Some(d);
    }
  }

  lemma NoLines()
    ensures Level([])
  {
  }

  // What the grammar consumes.

  /** A cursor moved over a stretch that changes no depth. */
  ghost predicate Passed(lines: seq<Line>, rest: seq<Line>) {
    |rest| <= |lines| && rest == lines[|lines| - |rest|..] && Level(lines[..|lines| - |rest|])
  }

  lemma PassedNothing(lines: seq<Line>)
    ensures Passed(lines, lines)
  {
    NoLines();
    assert lines[..0] == [] && lines[0..] == lines;
  }

  lemma PassedOne(lines: seq<Line>, name: string)
    requires lines != [] && Neutral(name) && Exact(lines[0], name).Some?
    ensures Passed(lines, lines[1..])
  {
    hide Exact, Neutral, Level;
    NeutralLine(lines[0], name);
    assert lines[..1] == [lines[0]];
  }

  lemma PassedOn(a: seq<Line>, b: seq<Line>, c: seq<Line>)
    requires Passed(a, b) && Passed(b, c)
    ensures Passed(a, c)
  {
    hide Level;
    var n, m := |a| - |b|, |b| - |c|;
    LevelConcat(a[..n], b[..m]);
    assert a[..n + m] == a[..n] + b[..m];
    assert c == a[n + m..];
  }

  predicate NeutralItem(item: Item) {
    item.Source? || Neutral(item.name)
  }

  predicate NeutralItems(items: seq<Item>) {
    forall i :: 0 <= i < |items| ==> NeutralItem(items[i])
  }

  lemma OptionalPasses(name: string, shape: Shape, lines: seq<Line>)
    requires Neutral(name) && TakeOptional(name, shape, lines).Ok?
    ensures Passed(lines, TakeOptional(name, shape, lines).value)
  {
    hide Fits, Exact, Neutral, Passed;
    if lines == [] || Exact(lines[0], name).None? { PassedNothing(lines); } else { PassedOne(lines, name); }
  }

  lemma {:induction false} ManyPasses(name: string, shape: Shape, lines: seq<Line>)
    requires Neutral(name) && TakeMany(name, shape, lines).Ok?
    ensures Passed(lines, TakeMany(name, shape, lines).value)
    decreases |lines|
  {
    hide Neutral, Passed, Fits;
    OptionalPasses(name, shape, lines);
    var one := TakeOptional(name, shape, lines).value;
    if one != lines {
      ManyPasses(name, shape, one);
      PassedOn(lines, one, TakeMany(name, shape, one).value);
    }
  }

  lemma SourceNames()
    ensures Neutral("Source-Path") && Neutral("Source-Handle")
  {
    assert |"Source-Path"| == 11 && |"Source-Handle"| == 13 && |"Attachment"| == 10 && |"Job"| == 3;
  }

  lemma ItemPasses(item: Item, lines: seq<Line>)
    requires NeutralItem(item) && TakeItem(item, lines).Ok?
    ensures Passed(lines, TakeItem(item, lines).value)
  {
    hide Neutral, Passed, Fits, TakeOptional;
    match item
    case Required(name, shape) => OptionalPasses(name, shape, lines);
    case Optional(name, shape) => OptionalPasses(name, shape, lines);
    case Many(name, shape) => ManyPasses(name, shape, lines);
    case Source =>
      SourceNames();
      if Exact(lines[0], "Source-Path").Some? {
        OptionalPasses("Source-Path", Quoted, lines);
      } else {
        OptionalPasses("Source-Handle", Number, lines);
      }
  }

  lemma {:induction false} ItemsPass(items: seq<Item>, lines: seq<Line>)
    requires NeutralItems(items) && TakeItems(items, lines).Ok?
    ensures Passed(lines, TakeItems(items, lines).value)
    decreases |items|
  {
    hide Passed, TakeItem, NeutralItem;
    if items == [] {
      PassedNothing(lines);
    } else {
      var next := TakeItem(items[0], lines).value;
      ItemPasses(items[0], lines);
      ItemsPass(items[1..], next);
      PassedOn(lines, next, TakeItems(items[1..], next).value);
    }
  }

  /** A block goes one deeper and comes back. */
  lemma Bracketed(open: Line, inside: seq<Line>, close: Line)
    requires Opens(open) && !Alone(open, "End") && Level(inside) && Alone(close, "End")
    ensures Level([open] + inside + [close])
  {
    forall d: nat ensures Depth([open] + inside + [close], d) == Some(d) {
      var tail := inside + [close];
      assert [open] + inside + [close] == [open] + tail;
      assert ([open] + tail)[1..] == tail;
      DepthConcat(inside, [close], d + 1);
      assert Depth(inside, d + 1) == Some(d + 1);
      assert [close][1..] == [];
    }
  }

  lemma BlockPasses(name: string, items: seq<Item>, lines: seq<Line>)
    requires (name == "File" || name == "Attachment") && NeutralItems(items) && TakeBlock(name, items, lines).Ok?
    ensures Passed(lines, TakeBlock(name, items, lines).value)
  {
    hide Level, TakeItems, NeutralItems;
    var inside := TakeItems(items, lines[1..]).value;
    ItemsPass(items, lines[1..]);
    var n := |lines| - 1 - |inside|;
    var middle := lines[1..][..n];
    NotEnd(lines[0], name);
    Bracketed(lines[0], middle, inside[0]);
    assert lines[..n + 2] == [lines[0]] + middle + [inside[0]];
    assert lines[n + 2..] == inside[1..];
  }

  lemma NotEnd(line: Line, name: string)
    requires (name == "File" || name == "Attachment") && Alone(line, name)
    ensures Opens(line) && !Alone(line, "End")
  {
  }

  lemma {:induction false} BlocksPass(name: string, items: seq<Item>, lines: seq<Line>)
    requires (name == "File" || name == "Attachment") && NeutralItems(items) && TakeBlocks(name, items, lines).Ok?
    ensures Passed(lines, TakeBlocks(name, items, lines).value)
    decreases |lines|
  {
    hide Passed, TakeBlock, Alone, NeutralItems;
    if lines == [] || !Alone(lines[0], name) {
      PassedNothing(lines);
    } else {
      var next := TakeBlock(name, items, lines).value;
      BlockPasses(name, items, lines);
      BlocksPass(name, items, next);
      PassedOn(lines, next, TakeBlocks(name, items, next).value);
    }
  }

  predicate NeutralSection(section: Section) {
    NeutralItems(section.items) && (section.Flat? || section.name == "File" || section.name == "Attachment")
  }

  lemma {:induction false} SectionsPass(sections: seq<Section>, lines: seq<Line>)
    requires (forall i :: 0 <= i < |sections| ==> NeutralSection(sections[i])) && TakeSections(sections, lines).Ok?
    ensures Passed(lines, TakeSections(sections, lines).value)
    decreases |sections|
  {
    hide Passed, TakeItems, TakeBlock, TakeBlocks, NeutralItems;
    if sections == [] {
      PassedNothing(lines);
    } else {
      var section := sections[0];
      var next := TakeSection(section, lines).value;
      match section {
        case Flat(items) => ItemsPass(items, lines);
        case Block(name, items) => BlockPasses(name, items, lines);
        case Blocks(name, items) => BlocksPass(name, items, lines);
      }
      SectionsPass(sections[1..], next);
      PassedOn(lines, next, TakeSections(sections[1..], next).value);
    }
  }

  // No directive of the grammar is one of the words that open or close.

  lemma NeutralByLength(name: string)
    requires |name| != 3 && |name| != 4 && |name| != 10
    ensures Neutral(name)
  {
  }

  lemma NeutralByLetter(name: string)
    requires |name| == 3 || |name| == 4 || |name| == 10
    requires name[0] != 'J' && name[0] != 'E' && name[0] != 'F' && (name[0] != 'A' || |name| != 10)
    ensures Neutral(name)
  {
    assert "Job"[0] == 'J' && "End"[0] == 'E' && "File"[0] == 'F' && "Attachment"[0] == 'A';
  }

  lemma Concatenated(a: seq<Item>, b: seq<Item>)
    requires NeutralItems(a) && NeutralItems(b)
    ensures NeutralItems(a + b)
  {
    hide NeutralItem;
  }

  lemma SourceNeutral()
    ensures NeutralItems(SOURCE)
  {
    hide Neutral;
    NeutralByLength("Ingestion");
    NeutralByLength("Source-Disposition");
  }

  lemma AttachmentNeutral()
    ensures NeutralItems(ATTACHMENT)
  {
    hide Neutral;
    SourceNeutral();
    NeutralByLength("Wire-Filename");
    NeutralByLength("File-Timestamp");
    NeutralByLength("Expected-Size");
    NeutralByLength("Expected-Hash");
    Concatenated(SOURCE, [Optional("Wire-Filename", AttachmentName), Optional("File-Timestamp", AutoNumber),
                          Optional("Expected-Size", Number), Optional("Expected-Hash", Quoted)]);
  }

  lemma FileNeutral()
    ensures NeutralItems(FILE_BLOCK)
  {
    hide Neutral;
    SourceNeutral();
    NeutralByLength("Wire-Filename");
    NeutralByLength("File-Timestamp");
    NeutralByLength("Short-Description");
    NeutralByLength("Long-Description-Line");
    NeutralByLength("Tear-Line");
    NeutralByLetter("Magic-Word");
    NeutralByLength("Replaces");
    NeutralByLength("Expected-Size");
    NeutralByLength("Expected-Hash");
    Concatenated(SOURCE, [
      Required("Wire-Filename", Quoted), Optional("File-Timestamp", AutoNumber),
      Optional("Short-Description", Quoted), Many("Long-Description-Line", Quoted), Optional("Tear-Line", Quoted),
      Optional("Magic-Word", Quoted), Optional("Replaces", Quoted), Optional("Expected-Size", Number),
      Optional("Expected-Hash", Quoted)]);
  }

  lemma DeliveryNeutral()
    ensures NeutralItems(DELIVERY)
  {
    hide Neutral;
    NeutralByLength("Class");
    NeutralByLength("Next-Hop");
    NeutralByLength("Failure-Policy");
  }

  lemma MessageNeutral(netMail: bool)
    ensures NeutralItems(Message(netMail))
  {
    hide Neutral;
    NeutralByLength("Origin");
    NeutralByLength("Local-Identity");
    NeutralByLength("Signed-Origin");
    NeutralByLength("Signed-Origin-Public-Key");
    NeutralByLength("Destination");
    NeutralByLetter("Area");
    NeutralByLength("To-User");
    NeutralByLength("From-User");
    NeutralByLength("Timestamp");
    NeutralByLength("Subject");
    NeutralByLength("Message-Text");
    NeutralByLength("Legacy-Attributes");
    NeutralByLength("Timestamp-Offset");
    NeutralByLength("Tear-Line");
    NeutralByLength("Origin-Line");
    NeutralByLetter("Message-ID");
    NeutralByLength("Reply-To");
    NeutralByLength("Signature");
    NeutralByLetter("Via");
    NeutralByLength("Seen-By");
    NeutralByLength("Additional-Kludge-Line");
    NeutralByLength("Class");
    NeutralByLength("Next-Hop");
    NeutralByLength("Failure-Policy");
  }

  lemma FrontNeutral()
    ensures NeutralItems([Required("Application", Quoted), Required("Idempotency-Key", Quoted)])
    ensures NeutralItems([Required("Origin", Quoted), Optional("Signed-Origin", Quoted), Required("Area", Quoted)])
    ensures NeutralItems([Required("Origin", Quoted), Optional("Signed-Origin", Quoted),
                          Required("Destination", Quoted)] + DELIVERY)
    ensures NeutralItems([Required("Origin", Quoted), Required("Destination", Quoted), Required("Filename", Quoted),
                          Optional("Newer-Than", Number)] + DELIVERY)
    ensures NeutralItems([Required("Inbound", InboundPair)])
  {
    hide Neutral;
    NeutralByLength("Application");
    NeutralByLength("Idempotency-Key");
    NeutralByLength("Origin");
    NeutralByLength("Signed-Origin");
    NeutralByLetter("Area");
    NeutralByLength("Destination");
    NeutralByLength("Filename");
    NeutralByLetter("Newer-Than");
    NeutralByLength("Inbound");
    DeliveryNeutral();
    Concatenated([Required("Origin", Quoted), Optional("Signed-Origin", Quoted), Required("Destination", Quoted)],
                 DELIVERY);
    Concatenated([Required("Origin", Quoted), Required("Destination", Quoted), Required("Filename", Quoted),
                  Optional("Newer-Than", Number)], DELIVERY);
  }

  lemma GrammarNeutral(kind: Submission.Kind)
    ensures forall i :: 0 <= i < |GrammarOf(kind)| ==> NeutralSection(GrammarOf(kind)[i])
  {
    hide NeutralItems, Message;
    FrontNeutral();
    AttachmentNeutral();
    FileNeutral();
    MessageNeutral(true);
    MessageNeutral(false);
  }

  // Jobs and requests.

  /** The lines of an accepted job leave the depth as they found it. */
  lemma JobIsLevel(operation: Operation, lines: seq<Line>, base: nat)
    requires |lines| >= 2 && Alone(lines[|lines| - 1], "End") && ParseJob(operation, lines, base).Ok?
    ensures Level(lines)
  {
    hide Level, TakeSections, GrammarOf, NeutralSection;
    var inside := lines[1..|lines| - 1];
    var kind := KindOf(operation, lines[0]).value;
    GrammarNeutral(kind);
    SectionsPass(GrammarOf(kind), inside);
    assert inside[..|inside|] == inside;
    JobOpens(operation, lines[0]);
    Bracketed(lines[0], inside, lines[|lines| - 1]);
    assert lines == [lines[0]] + inside + [lines[|lines| - 1]];
  }

  lemma JobOpens(operation: Operation, line: Line)
    requires KindOf(operation, line).Some?
    ensures Opens(line) && !Alone(line, "End")
  {
    assert Word(line.fields[0], "Job");
    assert "Job"[0] == 'J' && "End"[0] == 'E';
  }

  lemma {:induction false} JobsAreLevel(operation: Operation, lines: seq<Line>, at: nat)
    requires at <= |lines| && ParseJobs(operation, lines, at).Ok?
    ensures Level(lines[at..])
    decreases |lines| - at
  {
    hide Level, ParseJob, JobEnd;
    if at == |lines| {
      NoLines();
      assert lines[at..] == [];
    } else {
      var end := JobEnd(lines, at).value;
      var job := lines[at..end + 1];
      assert job[|job| - 1] == lines[end];
      JobIsLevel(operation, job, at + 2);
      JobsAreLevel(operation, lines, end + 1);
      LevelConcat(job, lines[end + 1..]);
      assert lines[at..] == job + lines[end + 1..];
    }
  }

  lemma OperationIsLevel(line: Line)
    requires Alone(line, "Submit") || Alone(line, "Submit-Items")
    ensures Level([line])
  {
    NeutralByLength("Submit");
    NeutralByLength("Submit-Items");
    if Alone(line, "Submit") { NeutralLine(line, "Submit"); } else { NeutralLine(line, "Submit-Items"); }
  }

  lemma RequestIsLevel(text: string)
    requires ParseSubmission(text).Ok?
    ensures Parse(text, Request).Ok? && Level(Parse(text, Request).value.lines)
  {
    hide Level, Parse, ParseJobs, Alone;
    var lines := Parse(text, Request).value.lines;
    OperationIsLevel(lines[0]);
    JobsAreLevel(if Alone(lines[0], "Submit") then Submit else SubmitItems, lines, 1);
    LevelConcat([lines[0]], lines[1..]);
    assert lines == [lines[0]] + lines[1..];
  }

  // From raw lines to parsed ones.

  lemma FirstField(s: string)
    requires s != [] && ReadFields(s).Ok?
    ensures ReadField(s).Ok? && ReadFields(s).value != [] && ReadFields(s).value[0] == ReadField(s).value.0
    ensures var rest := ReadField(s).value.1;
      && (rest == [] || rest[0] == ' ')
      && (|ReadFields(s).value| == 1 ==> rest == [] || |rest| == 1)
  {
    hide ReadField;
    var rest := ReadField(s).value.1;
    if rest != [] && |rest| > 1 { SomeFields(rest[1..]); }
  }

  lemma SomeFields(s: string)
    requires s != [] && ReadFields(s).Ok?
    ensures ReadFields(s).value != []
  {
  }

  /** An unquoted first field is the text up to the first space. */
  lemma UnquotedField(s: string)
    requires s != [] && ReadField(s).Ok? && !ReadField(s).value.0.quoted
    ensures s == ReadField(s).value.0.text + ReadField(s).value.1 && s[0] != '"'
  {
  }

  lemma WholeLine(s: string, word: string)
    requires ParseLine(s).Ok? && GoodWord(word)
    ensures Alone(ParseLine(s).value, word) <==> s == word
  {
    hide ReadFields, ReadField, HasControl, HasDoubleSpace;
    FirstField(s);
    if Alone(ParseLine(s).value, word) {
      UnquotedField(s);
    }
    if s == word {
      FieldsBack([Field(word, false)]);
      assert LineText([Field(word, false)]) == word + "";
      assert word + "" == word;
      assert [Field(word, false)][1..] == [];
    }
  }

  /** The lines whose first word is Job. */
  predicate StartsJob(s: string) {
    s == "Job" || "Job " <= s
  }

  lemma FirstWord(s: string)
    requires ParseLine(s).Ok?
    ensures Exact(ParseLine(s).value, "Job").Some? <==> StartsJob(s)
  {
    hide ReadFields, HasControl, HasDoubleSpace, StartsJob, ReadField;
    FirstField(s);
    var (field, rest) := ReadField(s).value;
    if field == Field("Job", false) { JobFieldStarts(s); }
    if StartsJob(s) { StartsJobField(s); }
  }

  lemma JobFieldStarts(s: string)
    requires s != [] && ReadField(s).Ok? && ReadField(s).value.0 == Field("Job", false)
    requires ReadField(s).value.1 == [] || ReadField(s).value.1[0] == ' '
    ensures StartsJob(s)
  {
    var rest := ReadField(s).value.1;
    UnquotedField(s);
    if rest != [] {
      assert s == "Job" + rest && s[..4] == "Job" + [rest[0]];
    }
  }

  lemma StartsJobField(s: string)
    requires StartsJob(s)
    ensures ReadField(s).Ok? && ReadField(s).value.0 == Field("Job", false)
  {
    assert s[0] == 'J' && s[1] == 'o' && s[2] == 'b' && (|s| == 3 || s[3] == ' ');
    assert s == "Job" + s[3..] && Free("Job", " ");
    if |s| > 3 {
      assert s == "Job" + [' '] + s[4..];
      FindAfter("Job", ' ', s[4..], " ");
    }
    assert s[..3] == "Job";
  }

  lemma Words()
    ensures GoodWord("End") && GoodWord("File") && GoodWord("Attachment")
  {
  }

  lemma LineFeed(raw: string, word: string)
    ensures raw + "\n" == word + "\n" <==> raw == word
  {
    assert (raw + "\n")[..|raw + "\n"| - 1] == raw && (word + "\n")[..|word + "\n"| - 1] == word;
  }

  lemma JobPrefix(raw: string)
    requires Free(raw, "\n")
    ensures "Job\n" <= raw + "\n" || "Job " <= raw + "\n" <==> raw == "Job" || "Job " <= raw
  {
    var line := raw + "\n";
    if "Job\n" <= line {
      assert line[3] == '\n' && |raw| == 3;
      assert raw == line[..3];
    }
    if "Job " <= line {
      assert line[3] == ' ';
      assert raw[..4] == line[..4];
    }
    if raw == "Job" { assert line == "Job\n"; }
    if "Job " <= raw { assert line[..4] == raw[..4]; }
  }

  /** On a raw line the framer sees what the parser sees. */
  lemma FramerSees(raw: string)
    requires ParseLine(raw).Ok?
    ensures var line := ParseLine(raw).value;
      (raw + "\n" == "End\n" <==> Alone(line, "End")) && (OpensBlock(Request, raw + "\n") <==> Opens(line))
  {
    hide ParseLine, Alone, Exact;
    Words();
    WholeLine(raw, "End");
    WholeLine(raw, "File");
    WholeLine(raw, "Attachment");
    FirstWord(raw);
    NoFeed(raw);
    JobPrefix(raw);
    LineFeed(raw, "End");
    LineFeed(raw, "File");
    LineFeed(raw, "Attachment");
    assert "End" + "\n" == "End\n" && "File" + "\n" == "File\n" && "Attachment" + "\n" == "Attachment\n";
  }

  lemma NoFeed(raw: string)
    requires ParseLine(raw).Ok?
    ensures Free(raw, "\n")
  {
    assert Control('\n');
  }

  // The framer follows the depth.

  lemma {:induction false} PrefixDepth(lines: seq<Line>, k: nat, d: nat)
    requires k <= |lines| && Depth(lines, d).Some?
    ensures Depth(lines[..k], d).Some?
  {
    DepthConcat(lines[..k], lines[k..], d);
    assert lines == lines[..k] + lines[k..];
  }

  lemma {:induction false} DepthBound(lines: seq<Line>, d: nat)
    ensures Depth(lines, d).Some? ==> Depth(lines, d).value <= d + |lines|
    decreases |lines|
  {
    hide Alone, Opens;
    if lines != [] {
      if Alone(lines[0], "End") {
        if d > 0 { DepthBound(lines[1..], d - 1); }
      } else {
        DepthBound(lines[1..], if Opens(lines[0]) then d + 1 else d);
      }
    }
  }

  ghost predicate Followed(raw: seq<string>, lines: seq<Line>) {
    && |raw| == |lines| + 2 && raw[0] == Header(Request)
    && forall i :: 0 <= i < |lines| ==> ParseLine(raw[i + 1]) == Ok(lines[i])
  }

  lemma LastDepth(lines: seq<Line>, k: nat)
    requires k < |lines| && Depth(lines[..k], 0).Some? && Depth(lines[..k + 1], 0).Some?
    ensures var d := Depth(lines[..k], 0).value;
      && (Alone(lines[k], "End") ==> d > 0)
      && Depth(lines[..k + 1], 0).value
         == if Alone(lines[k], "End") then d - 1 else if Opens(lines[k]) then d + 1 else d
  {
    hide Alone, Opens;
    DepthConcat(lines[..k], [lines[k]], 0);
    assert lines[..k + 1] == lines[..k] + [lines[k]];
    assert [lines[k]][1..] == [];
  }

  /** After the header and `k` lines the framer stands at their depth, and has not completed. */
  lemma {:induction false} FramerFollows(raw: seq<string>, lines: seq<Line>, k: nat)
    requires Followed(raw, lines) && k <= |lines| < MAX_U64 && Depth(lines, 0).Some?
    ensures Depth(lines[..k], 0).Some?
    ensures Fed(NewFramer(Request), raw[..k + 1]) == Framer(Request, k + 1, Depth(lines[..k], 0).value, false)
    ensures Push(Fed(NewFramer(Request), raw[..k]), raw[k] + "\n").1 == Ok(false)
    decreases k
  {
    hide OpensBlock, Opens, Alone, ParseLine;
    PrefixDepth(lines, k, 0);
    var before := raw[..k + 1];
    assert before[..|before| - 1] == raw[..k] && before[|before| - 1] == raw[k];
    if k == 0 {
      assert raw[..0] == [] && lines[..0] == [];
    } else {
      FramerFollows(raw, lines, k - 1);
      assert ParseLine(raw[k - 1 + 1]) == Ok(lines[k - 1]);
      FramerSees(raw[k]);
      LastDepth(lines, k - 1);
      DepthBound(lines[..k - 1], 0);
    }
  }

  lemma ParsedFollows(text: string)
    requires Parse(text, Request).Ok?
    ensures Followed(RawLines(text), Parse(text, Request).value.lines) && RawLines(text)[|RawLines(text)| - 1] == "End"
  {
    hide ParseLines, RawLines, ParseLine;
    var raw := RawLines(text);
    var inner := raw[1..|raw| - 1];
    ParsedLines(inner, 2);
    assert forall i :: 0 <= i < |inner| ==> inner[i] == raw[i + 1];
  }

  /** Fed the lines of an accepted submission, the framer reports completion on the last line and on no earlier one. */
  lemma FramerAgrees(text: string, k: nat)
    requires ParseSubmission(text).Ok? && k < |RawLines(text)| <= MAX_U64
    ensures Push(Fed(NewFramer(Request), RawLines(text)[..k]), RawLines(text)[k] + "\n").1
      == Ok(k == |RawLines(text)| - 1)
  {
    hide Parse, RawLines, ParseSubmission, Depth, Followed;
    RequestIsLevel(text);
    ParsedFollows(text);
    var raw, lines := RawLines(text), Parse(text, Request).value.lines;
    assert Depth(lines, 0) == Some(0);
    FollowedLength(raw, lines);
    if k < |raw| - 1 {
      FramerFollows(raw, lines, k);
    } else {
      FramerFollows(raw, lines, |lines|);
      assert lines[..|lines|] == lines;
      assert raw[k] + "\n" == "End\n";
    }
  }

  lemma FollowedLength(raw: seq<string>, lines: seq<Line>)
    requires Followed(raw, lines)
    ensures |raw| == |lines| + 2
  {
  }

  // The jobs' texts.

  function Canonicals(jobs: seq<Job>): string {
    if jobs == [] then "" else jobs[0].canonical + Canonicals(jobs[1..])
  }

  lemma {:induction false} TextsConcat(a: seq<Line>, b: seq<Line>)
    ensures Ended(LineTexts(a + b)) == Ended(LineTexts(a)) + Ended(LineTexts(b))
    decreases |a|
  {
    hide LineText;
    if a == [] {
      assert a + b == b;
    } else {
      TextsConcat(a[1..], b);
      assert (a + b)[1..] == a[1..] + b;
      assert LineTexts(a + b)[1..] == LineTexts(a[1..] + b) && LineTexts(a)[1..] == LineTexts(a[1..]);
    }
  }

  lemma {:induction false} JobsPartition(operation: Operation, lines: seq<Line>, at: nat)
    requires at <= |lines| && ParseJobs(operation, lines, at).Ok?
    ensures Canonicals(ParseJobs(operation, lines, at).value) == Ended(LineTexts(lines[at..]))
    decreases |lines| - at
  {
    hide JobEnd, KindOf, TakeSections, GrammarOf, Ended, LineTexts;
    if at == |lines| {
      assert lines[at..] == [];
      NoTexts();
    } else {
      var end := JobEnd(lines, at).value;
      JobsPartition(operation, lines, end + 1);
      var jobs := ParseJobs(operation, lines, at).value;
      assert jobs[1..] == ParseJobs(operation, lines, end + 1).value;
      TextsConcat(lines[at..end + 1], lines[end + 1..]);
      assert lines[at..] == lines[at..end + 1] + lines[end + 1..];
    }
  }

  lemma NoTexts()
    ensures Ended(LineTexts([])) == ""
  {
  }

  /** The jobs' canonical texts, in order, are the whole re-encoded document between its operation line and its End. */
  lemma CanonicalsPartition(text: string)
    requires ParseSubmission(text).Ok?
    ensures Parse(text, Request).Ok? && Parse(text, Request).value.lines != []
    ensures var d := Parse(text, Request).value;
      Encode(d) == Header(Request) + "\n" + (LineText(d.lines[0].fields) + "\n")
                   + Canonicals(ParseSubmission(text).value.jobs) + "End\n"
  {
    hide Parse, ParseJobs, LineText, Alone, Ended, LineTexts;
    var d := Parse(text, Request).value;
    ParsedKind(text);
    JobsPartition(if Alone(d.lines[0], "Submit") then Submit else SubmitItems, d.lines, 1);
    EncodeParts(d);
  }

  lemma ParsedKind(text: string)
    requires Parse(text, Request).Ok?
    ensures Parse(text, Request).value.kind == Request
  {
  }

  lemma EncodeParts(d: Document)
    requires d.lines != []
    ensures Encode(d)
      == Header(d.kind) + "\n" + (LineText(d.lines[0].fields) + "\n") + Ended(LineTexts(d.lines[1..])) + "End\n"
  {
    hide LineText, Header;
    var texts := LineTexts(d.lines);
    var all := [Header(d.kind)] + texts + ["End"];
    assert all[1..] == texts + ["End"];
    assert texts[1..] == LineTexts(d.lines[1..]);
    assert (texts + ["End"])[1..] == LineTexts(d.lines[1..]) + ["End"];
    EndedLast(LineTexts(d.lines[1..]));
    var rest := Ended(LineTexts(d.lines[1..]));
    assert Ended(texts + ["End"]) == texts[0] + "\n" + (rest + "End\n");
    assert Encode(d) == Header(d.kind) + "\n" + (texts[0] + "\n" + (rest + "End\n"));
  }

  lemma {:induction false} EndedLast(lines: seq<string>)
    ensures Ended(lines + ["End"]) == Ended(lines) + "End\n"
    decreases |lines|
  {
    if lines == [] {
      assert (lines + ["End"])[1..] == [];
      assert Ended(lines + ["End"]) == "End" + "\n" + "";
    } else {
      EndedLast(lines[1..]);
      assert (lines + ["End"])[1..] == lines[1..] + ["End"];
    }
  }
}
