/** The IPC readers as the source runs them: an index into a line, a cursor over lines. */
module IpcLoops {
  import opened Wrappers
  import opened IpcDocument
  import opened Submission

  function Before(done: string, later: Wrappers.Result<(string, string), string>)
    : Wrappers.Result<(string, string), string>
  {
    if later.Err? then later else Ok((done + later.value.0, later.value.1))
  }

  /** `parse_quoted`, from just after the opening quote. */
  method ReadQuotedLoop(s: string) returns (r: Wrappers.Result<(string, string), string>)
    ensures r == ReadQuoted(s)
  {
    hide Unescape;
    var output, at := "", 0;
    assert s[0..] == s;
    assert ReadQuoted(s).Ok? ==> "" + ReadQuoted(s).value.0 == ReadQuoted(s).value.0;
    while at < |s|
      invariant 0 <= at <= |s| && Before(output, ReadQuoted(s[at..])) == ReadQuoted(s)
    {
      var c := s[at];
      ghost var rest := s[at..];
      if c == '"' {
        assert rest[1..] == s[at + 1..] && output + "" == output;
        return Ok((output, s[at + 1..]));
      }
      var used := 1;
      if c == '\\' {
        assert rest[1..] == s[at + 1..];
        var one := Unescape(s[at + 1..]);
        if one.Err? { return Err(one.error); }
        if one.value.1 > |s| - at - 1 { return Err("unterminated escape"); }
        c, used := one.value.0, 1 + one.value.1;
      } else if c as int < 0x20 || c as int == 0x7f {
        return Err("unescaped control character");
      }
      assert rest[used..] == s[at + used..];
      ghost var later := ReadQuoted(s[at + used..]);
      assert later.Ok? ==> output + ([c] + later.value.0) == (output + [c]) + later.value.0;
      output, at := output + [c], at + used;
    }
    return Err("unterminated quoted string");
  }

  function After(done: seq<Field>, later: Wrappers.Result<seq<Field>, string>): Wrappers.Result<seq<Field>, string> {
    if later.Err? then later else Ok(done + later.value)
  }

  /** The field loop of `parse_line`. */
  method ReadFieldsLoop(s: string) returns (r: Wrappers.Result<seq<Field>, string>)
    ensures r == ReadFields(s)
  {
    hide ReadField;
    var fields, left := [], s;
    assert ReadFields(s).Ok? ==> [] + ReadFields(s).value == ReadFields(s).value;
    while left != []
      invariant After(fields, ReadFields(left)) == ReadFields(s)
      decreases |left|
    {
      var one := ReadField(left);
      if one.Err? { return Err(one.error); }
      var (field, rest) := one.value;
      if rest != [] && rest[0] != ' ' { return Err("missing field separator"); }
      rest := if rest == [] then [] else rest[1..];
      ghost var later := ReadFields(rest);
      assert later.Ok? ==> fields + ([field] + later.value) == (fields + [field]) + later.value;
      fields, left := fields + [field], rest;
    }
    assert fields + [] == fields;
    return Ok(fields);
  }

  /** `Cursor`. */
  class LineCursor {
    const lines: seq<Line>
    var at: nat

    ghost predicate Valid()
      reads this
    {
      at <= |lines|
    }

    ghost function Left(): seq<Line>
      requires Valid()
      reads this
    {
      lines[at..]
    }

    constructor (lines: seq<Line>)
      ensures Valid() && Left() == lines
    {
      this.lines, at := lines, 0;
    }

    /** The optional directives: an absent one is passed over, a malformed one is an error. */
    method OptionalLine(name: string, shape: Shape) returns (ok: bool, found: bool)
      requires Valid()
      modifies this
      ensures Valid() && at >= old(at)
      ensures match TakeOptional(name, shape, old(Left()))
              case Ok(rest) => ok && Left() == rest && (found <==> at > old(at))
              case Err(_) => !ok && at == old(at)
    {
      hide Fits;
      if at == |lines| || Exact(lines[at], name).None? { return true, false; }
      if !Fits(shape, Exact(lines[at], name).value) { return false, false; }
      at := at + 1;
      return true, true;
    }

    method ManyLines(name: string, shape: Shape) returns (ok: bool)
      requires Valid()
      modifies this
      ensures Valid() && at >= old(at)
      ensures match TakeMany(name, shape, old(Left()))
              case Ok(rest) => ok && Left() == rest
              case Err(_) => !ok
    {
      hide Fits, TakeOptional;
      var found := true;
      ok := true;
      while ok && found
        invariant Valid() && at >= old(at)
        invariant ok && found ==> TakeMany(name, shape, Left()) == TakeMany(name, shape, old(Left()))
        invariant ok && !found ==> TakeMany(name, shape, old(Left())) == Ok(Left())
        invariant !ok ==> TakeMany(name, shape, old(Left())).Err?
        decreases ok && found, |lines| - at
      {
        ghost var before := Left();
        ok, found := OptionalLine(name, shape);
        assert ok && found ==> |Left()| < |before|;
      }
    }

    method TakeOne(item: Item) returns (ok: bool)
      requires Valid()
      modifies this
      ensures Valid() && at >= old(at)
      ensures match TakeItem(item, old(Left()))
              case Ok(rest) => ok && Left() == rest
              case Err(_) => !ok
    {
      hide Fits, TakeOptional, TakeMany;
      var found;
      match item {
        case Required(name, shape) =>
          if at == |lines| || Exact(lines[at], name).None? { return false; }
          ok, found := OptionalLine(name, shape);
        case Optional(name, shape) => ok, found := OptionalLine(name, shape);
        case Many(name, shape) => ok := ManyLines(name, shape);
        case Source =>
          if at == |lines| { return false; }
          if Exact(lines[at], "Source-Path").Some? {
            ok, found := OptionalLine("Source-Path", Quoted);
          } else if Exact(lines[at], "Source-Handle").Some? {
            ok, found := OptionalLine("Source-Handle", Number);
          } else {
            ok := false;
          }
      }
    }

    method TakeEach(items: seq<Item>) returns (ok: bool)
      requires Valid()
      modifies this
      ensures Valid() && at >= old(at)
      ensures match TakeItems(items, old(Left()))
              case Ok(rest) => ok && Left() == rest
              case Err(_) => !ok
    {
      hide TakeItem;
      assert items[0..] == items;
      for i := 0 to |items|
        invariant Valid() && at >= old(at) && TakeItems(items[i..], Left()) == TakeItems(items, old(Left()))
      {
        assert items[i..][1..] == items[i + 1..];
        ok := TakeOne(items[i]);
        if !ok { return false; }
      }
      return true;
    }

    /** One block: its name, its directives and its End. */
    method TakeWhole(name: string, items: seq<Item>) returns (ok: bool)
      requires Valid()
      modifies this
      ensures Valid() && at >= old(at)
      ensures match TakeBlock(name, items, old(Left()))
              case Ok(rest) => ok && Left() == rest
              case Err(_) => !ok
    {
      hide TakeItems;
      if at == |lines| || !Alone(lines[at], name) { return false; }
      at := at + 1;
      ok := TakeEach(items);
      if !ok || at == |lines| || !Alone(lines[at], "End") { return false; }
      at := at + 1;
      return true;
    }
  }

  /** The loop of `job_end`. */
  method FindEndLoop(lines: seq<Line>, start: nat) returns (r: Option<nat>)
    requires start <= |lines|
    ensures r == FindEnd(lines, start, 1)
  {
    hide Alone;
    var depth := 1;
    for i := start to |lines|
      invariant depth >= 1 && FindEnd(lines, i, depth) == FindEnd(lines, start, 1)
    {
      if Alone(lines[i], "Attachment") || Alone(lines[i], "File") {
        depth := depth + 1;
      } else if Alone(lines[i], "End") {
        depth := depth - 1;
        if depth == 0 { return Some(i); }
      }
    }
    return None;
  }

  function Earlier(done: seq<Job>, later: Wrappers.Result<seq<Job>, IpcError>): Wrappers.Result<seq<Job>, IpcError> {
    if later.Err? then later else Ok(done + later.value)
  }

  lemma OneMoreJob(operation: Operation, lines: seq<Line>, at: nat, jobs: seq<Job>)
    requires at < |lines|
    ensures var end := JobEnd(lines, at); var all := ParseJobs(operation, lines, at);
      if end.Err? then all == Err(end.error)
      else
        var job := ParseJob(operation, lines[at..end.value + 1], at + 2);
        if job.Err? then all == Err(job.error)
        else Earlier(jobs, all) == Earlier(jobs + [job.value], ParseJobs(operation, lines, end.value + 1))
  {
    hide JobEnd, ParseJob, Alone;
    var end := JobEnd(lines, at);
    if end.Ok? {
      var job := ParseJob(operation, lines[at..end.value + 1], at + 2);
      var later := ParseJobs(operation, lines, end.value + 1);
      if job.Ok? && later.Ok? { assert jobs + ([job.value] + later.value) == (jobs + [job.value]) + later.value; }
    }
  }

  lemma NoMoreJobs(operation: Operation, lines: seq<Line>, jobs: seq<Job>)
    ensures Earlier(jobs, ParseJobs(operation, lines, |lines|)) == Ok(jobs)
  {
    assert jobs + [] == jobs;
  }

  /** The loop of `SubmissionRequest::parse`. */
  method ParseJobsLoop(operation: Operation, lines: seq<Line>) returns (r: Wrappers.Result<seq<Job>, IpcError>)
    requires |lines| >= 1
    ensures r == ParseJobs(operation, lines, 1)
  {
    hide JobEnd, ParseJob, Alone, ParseJobs;
    var at, jobs := 1, [];
    ghost var goal := ParseJobs(operation, lines, 1);
    assert goal.Ok? ==> [] + goal.value == goal.value;
    while at < |lines|
      invariant 1 <= at <= |lines| && Earlier(jobs, ParseJobs(operation, lines, at)) == goal
    {
      OneMoreJob(operation, lines, at, jobs);
      var end := JobEnd(lines, at);
      if end.Err? { return Err(end.error); }
      var job := ParseJob(operation, lines[at..end.value + 1], at + 2);
      if job.Err? { return Err(job.error); }
      jobs, at := jobs + [job.value], end.value + 1;
    }
    NoMoreJobs(operation, lines, jobs);
    return Ok(jobs);
  }
}
