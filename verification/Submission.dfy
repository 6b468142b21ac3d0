/**
 Submission requests: the grammar of jobs, the search for each job's end, and the streaming framer
 that counts by other rules.
 */
module Submission {
  import opened Wrappers
  import opened Integers
  import opened IpcDocument
  import Decimal

  // Directives.

  /** What may follow a directive's name. */
  datatype Shape = Quoted | TwoQuoted | ViaFields | Number | AutoNumber | Signed | OneOf(words: seq<string>)
                 | AttachmentName | NextHop | Mode | FailurePolicy | InboundPair

  predicate IsNumber(s: string) {
    s == "0" || (s != [] && s[0] != '0' && Decimal.Digits(s) && Decimal.Value(s) <= MAX_U64)
  }

  predicate IsSigned(s: string) {
    var magnitude := if "-" <= s then s[1..] else s;
    || s == "0"
    || (magnitude != [] && magnitude[0] != '0' && Decimal.Digits(magnitude)
        && Decimal.Value(magnitude) <= if "-" <= s then MAX_I64 + 1 else MAX_I64)
  }

  predicate Word(f: Field, word: string) {
    !f.quoted && f.text == word
  }

  predicate Fits(shape: Shape, f: seq<Field>) {
    match shape
    case Quoted => |f| == 1 && f[0].quoted
    case TwoQuoted => |f| == 2 && f[0].quoted && f[1].quoted
    case ViaFields =>
      || (|f| == 3 && f[0].quoted && !f[1].quoted && f[2].quoted && IsNumber(f[1].text))
      || (|f| == 4 && f[0].quoted && f[1].quoted && !f[2].quoted && f[3].quoted && IsNumber(f[2].text))
    case Number => |f| == 1 && !f[0].quoted && IsNumber(f[0].text)
    case AutoNumber => |f| == 1 && !f[0].quoted && (f[0].text == "Auto" || IsNumber(f[0].text))
    case Signed => |f| == 1 && !f[0].quoted && IsSigned(f[0].text)
    case OneOf(words) => |f| == 1 && !f[0].quoted && f[0].text in words
    case AttachmentName => |f| == 1 && (f[0].quoted || f[0].text == "Generate")
    case NextHop =>
      || (|f| == 1 && Word(f[0], "Route"))
      || (|f| == 2 && (Word(f[0], "Active") || Word(f[0], "Passive")) && f[1].quoted)
    case Mode => |f| == 1 && (Word(f[0], "Active") || Word(f[0], "Passive"))
    case FailurePolicy =>
      || (|f| == 1 && Word(f[0], "Route"))
      || (|f| == 3 && (Word(f[0], "Dead-Letter") || Word(f[0], "Discard")) && Word(f[1], "Notify")
          && !f[2].quoted && f[2].text in ["None", "Sender", "Origin-Sysop", "Both"])
    case InboundPair => |f| == 2 && !f[0].quoted && !f[1].quoted
  }

  /** `exact` with one word: the fields after it. */
  function Exact(line: Line, word: string): Option<seq<Field>> {
    if line.fields != [] && Word(line.fields[0], word) then Some(line.fields[1..]) else None
  }

  predicate Alone(line: Line, word: string) {
    Exact(line, word) == Some([])
  }

  // The grammar.

  datatype Item =
    | Required(name: string, shape: Shape)
    | Optional(name: string, shape: Shape)
    | Many(name: string, shape: Shape)
    | Source

  /** Directives in order, or one block of them, or any number of such blocks. */
  datatype Section =
    | Flat(items: seq<Item>)
    | Block(name: string, items: seq<Item>)
    | Blocks(name: string, items: seq<Item>)

  /** A cursor over lines, by what is left of them. */
  type Cursor = Wrappers.Result<seq<Line>, string>

  function TakeOptional(name: string, shape: Shape, lines: seq<Line>): (r: Cursor)
    ensures r.Ok? ==> r.value == lines || (lines != [] && r.value == lines[1..])
  {
    if lines == [] || Exact(lines[0], name).None? then Ok(lines)
    else if Fits(shape, Exact(lines[0], name).value) then Ok(lines[1..])
    else Err("invalid directive")
  }

  function TakeMany(name: string, shape: Shape, lines: seq<Line>): (r: Cursor)
    ensures r.Ok? ==> |r.value| <= |lines|
    decreases |lines|
  {
    var one := TakeOptional(name, shape, lines);
    if one.Err? || one.value == lines then one else TakeMany(name, shape, one.value)
  }

  function TakeItem(item: Item, lines: seq<Line>): (r: Cursor)
    ensures r.Ok? ==> |r.value| <= |lines|
  {
    match item
    case Required(name, shape) =>
      if lines == [] || Exact(lines[0], name).None? then Err("missing or out-of-order directive")
      else TakeOptional(name, shape, lines)
    case Optional(name, shape) => TakeOptional(name, shape, lines)
    case Many(name, shape) => TakeMany(name, shape, lines)
    case Source =>
      if lines == [] then Err("missing Source")
      else if Exact(lines[0], "Source-Path").Some? then TakeOptional("Source-Path", Quoted, lines)
      else if Exact(lines[0], "Source-Handle").Some? then TakeOptional("Source-Handle", Number, lines)
      else Err("missing Source")
  }

  function TakeItems(items: seq<Item>, lines: seq<Line>): (r: Cursor)
    ensures r.Ok? ==> |r.value| <= |lines|
    decreases |items|
  {
    if items == [] then Ok(lines)
    else
      var first := TakeItem(items[0], lines);
      if first.Err? then first else TakeItems(items[1..], first.value)
  }

  /** A block: its name alone on a line, its directives, and its own End. */
  function TakeBlock(name: string, items: seq<Item>, lines: seq<Line>): (r: Cursor)
    ensures r.Ok? ==> |r.value| < |lines|
  {
    if lines == [] || !Alone(lines[0], name) then Err("missing block")
    else
      var inside := TakeItems(items, lines[1..]);
      if inside.Err? then inside
      else if inside.value == [] || !Alone(inside.value[0], "End") then Err("missing nested End")
      else Ok(inside.value[1..])
  }

  function TakeBlocks(name: string, items: seq<Item>, lines: seq<Line>): (r: Cursor)
    ensures r.Ok? ==> |r.value| <= |lines|
    decreases |lines|
  {
    if lines == [] || !Alone(lines[0], name) then Ok(lines)
    else
      var one := TakeBlock(name, items, lines);
      if one.Err? then one else TakeBlocks(name, items, one.value)
  }

  function TakeSection(section: Section, lines: seq<Line>): (r: Cursor)
    ensures r.Ok? ==> |r.value| <= |lines|
  {
    match section
    case Flat(items) => TakeItems(items, lines)
    case Block(name, items) => TakeBlock(name, items, lines)
    case Blocks(name, items) => TakeBlocks(name, items, lines)
  }

  function TakeSections(sections: seq<Section>, lines: seq<Line>): (r: Cursor)
    ensures r.Ok? ==> |r.value| <= |lines|
    decreases |sections|
  {
    if sections == [] then Ok(lines)
    else
      var first := TakeSection(sections[0], lines);
      if first.Err? then first else TakeSections(sections[1..], first.value)
  }

  // The kinds of job.

  datatype Kind = NetMail | EchoMail | File | PeerFile | FileRequest | Forward

  const SOURCE: seq<Item> := [
    Source, Optional("Ingestion", OneOf(["Copy", "Move"])),
    Optional("Source-Disposition", OneOf(["Keep", "Delete", "Truncate"]))]

  const ATTACHMENT: seq<Item> := SOURCE + [
    Optional("Wire-Filename", AttachmentName), Optional("File-Timestamp", AutoNumber),
    Optional("Expected-Size", Number), Optional("Expected-Hash", Quoted)]

  const FILE_BLOCK: seq<Item> := SOURCE + [
    Required("Wire-Filename", Quoted), Optional("File-Timestamp", AutoNumber),
    Optional("Short-Description", Quoted), Many("Long-Description-Line", Quoted), Optional("Tear-Line", Quoted),
    Optional("Magic-Word", Quoted), Optional("Replaces", Quoted), Optional("Expected-Size", Number),
    Optional("Expected-Hash", Quoted)]

  const DELIVERY: seq<Item> := [Optional("Class", Quoted), Optional("Next-Hop", Mode),
                                Optional("Failure-Policy", FailurePolicy)]

  function Message(netMail: bool): seq<Item> {
    [Required("Origin", Quoted), Optional("Local-Identity", Quoted), Optional("Signed-Origin", Quoted),
     Optional("Signed-Origin-Public-Key", Quoted), Required(if netMail then "Destination" else "Area", Quoted),
     Required("To-User", Quoted), Required("From-User", Quoted), Optional("Timestamp", AutoNumber),
     Optional("Subject", Quoted),
     Optional("Message-Text", Quoted), Optional("Legacy-Attributes", Number), Optional("Timestamp-Offset", Signed),
     Optional("Tear-Line", Quoted), Optional("Origin-Line", Quoted), Optional("Message-ID", Quoted),
     Optional("Reply-To", TwoQuoted),
     Optional("Signature", Quoted), Many("Via", ViaFields), Many("Seen-By", Quoted),
     Many("Additional-Kludge-Line", Quoted)]
    + (if !netMail then []
       else [Optional("Class", Quoted), Optional("Next-Hop", NextHop), Optional("Failure-Policy", FailurePolicy)])
  }

  /** Everything between a job's opening line and its End. */
  function GrammarOf(kind: Kind): seq<Section> {
    [Flat([Required("Application", Quoted), Required("Idempotency-Key", Quoted)])] +
    match kind
    case NetMail => [Flat(Message(true)), Blocks("Attachment", ATTACHMENT)]
    case EchoMail => [Flat(Message(false)), Blocks("Attachment", ATTACHMENT)]
    case File => [Flat([Required("Origin", Quoted), Optional("Signed-Origin", Quoted), Required("Area", Quoted)]),
                  Block("File", FILE_BLOCK)]
    case PeerFile =>
      [Flat([Required("Origin", Quoted), Optional("Signed-Origin", Quoted), Required("Destination", Quoted)]
            + DELIVERY), Block("File", FILE_BLOCK)]
    case FileRequest =>
      [Flat([Required("Origin", Quoted), Required("Destination", Quoted), Required("Filename", Quoted),
             Optional("Newer-Than", Number)] + DELIVERY)]
    case Forward => [Flat([Required("Inbound", InboundPair)])]
  }

  // Requests.

  datatype Operation = Submit | SubmitItems

  /** A job with its exact lines and their canonical text. */
  datatype Job = Job(kind: Kind, lines: seq<Line>, canonical: string)

  datatype SubmissionRequest = SubmissionRequest(operation: Operation, jobs: seq<Job>)

  function KindOf(operation: Operation, opening: Line): Option<Kind> {
    var f := opening.fields;
    if operation == Submit then (if |f| == 1 && Word(f[0], "Job") then Some(NetMail) else None)
    else if !(|f| == 2 && Word(f[0], "Job") && !f[1].quoted) then None
    else
      match f[1].text
      case "NetMail" => Some(NetMail)
      case "EchoMail" => Some(EchoMail)
      case "File" => Some(File)
      case "Peer-File" => Some(PeerFile)
      case "FileRequest" => Some(FileRequest)
      case "Forward" => Some(Forward)
      case _ => None
  }

  /** From line `at` on, where the block that is `depth` deep ends. */
  function FindEnd(lines: seq<Line>, at: nat, depth: nat): (r: Option<nat>)
    requires depth >= 1
    ensures r.Some? ==> at <= r.value < |lines| && Alone(lines[r.value], "End")
    decreases |lines| - at
  {
    if at >= |lines| then None
    else if Alone(lines[at], "Attachment") || Alone(lines[at], "File") then FindEnd(lines, at + 1, depth + 1)
    else if Alone(lines[at], "End") then (if depth == 1 then Some(at) else FindEnd(lines, at + 1, depth - 1))
    else FindEnd(lines, at + 1, depth)
  }

  /** `job_end`. */
  function JobEnd(lines: seq<Line>, start: nat): (r: Wrappers.Result<nat, IpcError>)
    ensures r.Ok? ==> start < r.value < |lines| && Alone(lines[r.value], "End")
  {
    if start >= |lines| then Err(IpcError(start + 2, "missing Job"))
    else if Exact(lines[start], "Job").None? then Err(IpcError(start + 2, "expected Job"))
    else
      var end := FindEnd(lines, start + 1, 1);
      if end.None? then Err(IpcError(start + 2, "unterminated Job")) else Ok(end.value)
  }

  /** `parse_job` on the lines of one job, its opening and its End among them. */
  function ParseJob(operation: Operation, lines: seq<Line>, base: nat): Wrappers.Result<Job, IpcError>
    requires |lines| >= 2
  {
    var kind := KindOf(operation, lines[0]);
    if kind.None? then Err(IpcError(base, "invalid Job opening"))
    else
      var left := TakeSections(GrammarOf(kind.value), lines[1..|lines| - 1]);
      if left.Err? then Err(IpcError(base, left.error))
      else if left.value != [] then Err(IpcError(base, "unknown or out-of-order directive"))
      else Ok(Job(kind.value, lines, Ended(LineTexts(lines))))
  }

  function ParseJobs(operation: Operation, lines: seq<Line>, at: nat): Wrappers.Result<seq<Job>, IpcError>
    requires at <= |lines|
    decreases |lines| - at
  {
    if at == |lines| then Ok([])
    else
      var end := JobEnd(lines, at);
      if end.Err? then Err(end.error)
      else
        var job := ParseJob(operation, lines[at..end.value + 1], at + 2);
        if job.Err? then Err(job.error)
        else
          var later := ParseJobs(operation, lines, end.value + 1);
          if later.Err? then later else Ok([job.value] + later.value)
  }

  /** `SubmissionRequest::parse`. */
  function ParseSubmission(text: string): Wrappers.Result<SubmissionRequest, IpcError> {
    var document := Parse(text, Request);
    if document.Err? then Err(document.error)
    else
      var lines := document.value.lines;
      if lines == [] || !(Alone(lines[0], "Submit") || Alone(lines[0], "Submit-Items")) then
        Err(IpcError(2, "not a submission operation"))
      else
        var operation := if Alone(lines[0], "Submit") then Submit else SubmitItems;
        var jobs := ParseJobs(operation, lines, 1);
        if jobs.Err? then Err(jobs.error)
        else if jobs.value == [] then Err(IpcError(3, "submission contains no Job"))
        else Ok(SubmissionRequest(operation, jobs.value))
  }

  // The framer.

  datatype Framer = Framer(kind: IpcDocument.Kind, lines: nat, depth: nat, complete: bool)

  function NewFramer(kind: IpcDocument.Kind): Framer {
    Framer(kind, 0, 0, false)
  }

  predicate OpensBlock(kind: IpcDocument.Kind, line: string) {
    if kind == Request then line == "Attachment\n" || line == "File\n" || "Job\n" <= line || "Job " <= line
    else line == "Event\n" || "Delivery " <= line
  }

  /** `DocumentFramer::push`: the framer after a line, and whether the document is complete. */
  function Push(f: Framer, line: string): (Framer, Wrappers.Result<bool, IpcError>) {
    var g := f.(lines := f.lines + 1);
    if f.complete then (g, Err(IpcError(g.lines, "bytes after outer End")))
    else if g.lines == 1 then
      (g, if line == Header(f.kind) + "\n" then Ok(false) else Err(IpcError(1, "invalid envelope header")))
    else if line == "End\n" then
      if f.depth == 0 then (g.(complete := true), Ok(true)) else (g.(depth := f.depth - 1), Ok(false))
    else if OpensBlock(f.kind, line) then
      if f.depth + 1 > MAX_U64 then (g, Err(IpcError(g.lines, "block nesting overflow")))
      else (g.(depth := f.depth + 1), Ok(false))
    else (g, Ok(false))
  }

  /** The framer after some raw lines, each fed with its line feed. */
  function Fed(f: Framer, raw: seq<string>): Framer
    decreases |raw|
  {
    if raw == [] then f else Push(Fed(f, raw[..|raw| - 1]), raw[|raw| - 1] + "\n").0
  }

  class DocumentFramer {
    const kind: IpcDocument.Kind
    var lines: nat
    var depth: nat
    var complete: bool

    ghost function Now(): Framer
      reads this
    {
      Framer(kind, lines, depth, complete)
    }

    constructor (kind: IpcDocument.Kind)
      ensures Now() == NewFramer(kind)
    {
      this.kind := kind;
      lines, depth, complete := 0, 0, false;
    }

    method PushLine(line: string) returns (r: Wrappers.Result<bool, IpcError>)
      modifies this
      ensures (Now(), r) == Push(old(Now()), line)
    {
      lines := lines + 1;
      if complete { return Err(IpcError(lines, "bytes after outer End")); }
      if lines == 1 {
        if line != Header(kind) + "\n" { return Err(IpcError(1, "invalid envelope header")); }
        return Ok(false);
      }
      if line == "End\n" {
        if depth == 0 {
          complete := true;
          return Ok(true);
        }
        depth := depth - 1;
        return Ok(false);
      }
      if OpensBlock(kind, line) {
        if depth + 1 > MAX_U64 { return Err(IpcError(lines, "block nesting overflow")); }
        depth := depth + 1;
      }
      return Ok(false);
    }
  }
}
