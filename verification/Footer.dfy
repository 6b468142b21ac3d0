/** The EchoMail footer, written forwards after the text and found again from the end of the body. */
module Footer {
  import opened Wrappers
  import opened Text
  import Address
  import SeenBy

  const ORIGIN: string := " * Origin: "
  const TEAR: string := "---"

  // Writing.

  function TearLine(tear: Option<string>): string {
    if tear.Some? && tear.value != [] then TEAR + " " + tear.value else TEAR
  }

  function OriginLine(origin: Option<string>): string {
    ORIGIN + OrEmpty(origin)
  }

  function OrEmpty(value: Option<string>): string {
    if value.Some? then value.value else ""
  }

  /** A recipient a two-dimensional list can name: same domain and zone, no point. */
  predicate Named(a: Address.Address, domain: string, zone: int) {
    a.domain == domain && a.zone == zone && a.point == 0
  }

  function Representable(seenBy: seq<Address.Address>, domain: string, zone: int): (r: seq<SeenBy.Node>)
    requires zone != -1 && forall i :: 0 <= i < |seenBy| ==> Address.Valid(seenBy[i])
    ensures forall i :: 0 <= i < |r| ==> r[i].net <= 32767 && r[i].node <= 32767
  {
    if seenBy == [] then []
    else
      var a, later := seenBy[0], Representable(seenBy[1..], domain, zone);
      assert Address.Valid(a);
      if Named(a, domain, zone) then [SeenBy.Node(a.net, a.node)] + later else later
  }

  /** Exactly the namable recipients are listed. */
  lemma {:induction false} RepresentableExactly(seenBy: seq<Address.Address>, domain: string, zone: int, n: SeenBy.Node)
    requires zone != -1 && forall i :: 0 <= i < |seenBy| ==> Address.Valid(seenBy[i])
    ensures n in Representable(seenBy, domain, zone) <==> Address.Address(domain, zone, n.net, n.node, 0) in seenBy
  {
    hide Address.Valid;
    if seenBy != [] {
      RepresentableExactly(seenBy[1..], domain, zone, n);
      assert seenBy == [seenBy[0]] + seenBy[1..];
    }
  }

  function FooterLines(tear: Option<string>, origin: Option<string>, nodes: seq<SeenBy.Node>): seq<string> {
    [TearLine(tear), OriginLine(origin)] + SeenBy.Lines(nodes)
  }

  function Ended(lines: seq<string>): string {
    if lines == [] then "" else lines[0] + "\r" + Ended(lines[1..])
  }

  function Footer(tear: Option<string>, origin: Option<string>, nodes: seq<SeenBy.Node>): Result<string, string> {
    if !Free(TearLine(tear), "\r\n") then Err("a TearLine containing a line break")
    else if |OriginLine(origin)| > 79 then Err("an Origin line beyond 79 bytes")
    else if !Free(OriginLine(origin), "\r\n") then Err("an OriginLine containing a line break")
    else if nodes == [] then Err("an EchoMail with no representable SEEN-BY address")
    else Ok(Ended(FooterLines(tear, origin, nodes)))
  }

  /** `echomail_footer`. */
  method WriteFooter(tear: Option<string>, origin: Option<string>, nodes: seq<SeenBy.Node>)
    returns (r: Result<string, string>)
    ensures r == Footer(tear, origin, nodes)
  {
    hide TearLine, OriginLine, SeenBy.Pack, SeenBy.Entries;
    var tearLine, originLine := TearLine(tear), OriginLine(origin);
    if !Free(tearLine, "\r\n") { return Err("a TearLine containing a line break"); }
    if |originLine| > 79 { return Err("an Origin line beyond 79 bytes"); }
    if !Free(originLine, "\r\n") { return Err("an OriginLine containing a line break"); }
    if nodes == [] { return Err("an EchoMail with no representable SEEN-BY address"); }
    var entries := SeenBy.EntriesLoop(SeenBy.Dedup(SeenBy.Sort(nodes)));
    var lines := SeenBy.PackLoop(entries);
    var output := tearLine + "\r" + (originLine + "\r");
    ghost var all := FooterLines(tear, origin, nodes);
    assert all[1..][1..] == lines && all[1] == all[1..][0];
    assert Ended(all) == output + Ended(lines);
    for i := 0 to |lines|
      invariant output + Ended(lines[i..]) == Ended(all)
    {
      assert lines[i..][1..] == lines[i + 1..];
      assert output + (lines[i] + "\r" + Ended(lines[i + 1..])) == (output + lines[i] + "\r") + Ended(lines[i + 1..]);
      output := output + lines[i] + "\r";
    }
    assert output + "" == output;
    return Ok(output);
  }

  // Reading.

  function Popped(lines: seq<string>): seq<string>
    requires lines != []
  {
    if lines[|lines| - 1] == [] then lines[..|lines| - 1] else lines
  }

  predicate LooksLikeFooter(line: string) {
    SeenBy.PREFIX <= line || ORIGIN <= line || TEAR <= line
  }

  /** Where the footer starts, looking back from line `k`: it ends with the first tear line met. */
  function FooterStart(lines: seq<string>, k: nat): (r: nat)
    requires k <= |lines|
    ensures r <= k
  {
    if k == 0 || !LooksLikeFooter(lines[k - 1]) then k
    else if TEAR <= lines[k - 1] then k - 1
    else FooterStart(lines, k - 1)
  }

  function SplitFooter(body: string): (string, seq<string>) {
    var lines := Popped(Split(body, '\r'));
    var start := FooterStart(lines, |lines|);
    var consumed := |Ended(lines[start..])|;
    (if consumed <= |body| then body[..|body| - consumed] else "", lines[start..])
  }

  /** The loops of `split_footer`. */
  method SplitFooterLoop(body: string) returns (text: string, footer: seq<string>)
    ensures (text, footer) == SplitFooter(body)
  {
    hide Split, LooksLikeFooter, Popped;
    var lines := Popped(Split(body, '\r'));
    var start := |lines|;
    while start > 0
      invariant 0 <= start <= |lines| && FooterStart(lines, start) == FooterStart(lines, |lines|)
    {
      if !LooksLikeFooter(lines[start - 1]) { break; }
      if TEAR <= lines[start - 1] { start := start - 1; break; }
      start := start - 1;
    }
    footer := lines[start..];
    var consumed := 0;
    for i := 0 to |footer|
      invariant consumed + |Ended(footer[i..])| == |Ended(footer)|
    {
      assert footer[i..][1..] == footer[i + 1..];
      consumed := consumed + |footer[i]| + 1;
    }
    text := if consumed <= |body| then body[..|body| - consumed] else "";
  }

  /** The last tear and Origin values among the lines. */
  function ReadFooter(lines: seq<string>, tear: Option<string>, origin: Option<string>)
    : (Option<string>, Option<string>)
  {
    if lines == [] then (tear, origin)
    else
      var line := lines[0];
      if ORIGIN <= line then ReadFooter(lines[1..], tear, Some(line[|ORIGIN|..]))
      else if TEAR <= line then ReadFooter(lines[1..], Some(TearValue(line[3..])), origin)
      else ReadFooter(lines[1..], tear, origin)
  }

  /** One separating space is not part of the value. */
  function TearValue(rest: string): string {
    if " " <= rest then rest[1..] else rest
  }

  // Lines of a terminated text.

  ghost predicate NoReturns(lines: seq<string>) {
    forall i :: 0 <= i < |lines| ==> Free(lines[i], "\r")
  }

  lemma {:induction false} SplitEnded(lines: seq<string>, rest: string)
    requires NoReturns(lines)
    ensures Split(Ended(lines) + rest, '\r') == lines + Split(rest, '\r')
    decreases |lines|
  {
    hide Split;
    if lines == [] {
      assert Ended(lines) + rest == rest;
      assert lines + Split(rest, '\r') == Split(rest, '\r');
    } else {
      var later := Ended(lines[1..]) + rest;
      assert Ended(lines) + rest == lines[0] + ['\r'] + later;
      SplitAfter(lines[0], '\r', later);
      SplitEnded(lines[1..], rest);
      assert [lines[0]] + (lines[1..] + Split(rest, '\r')) == lines + Split(rest, '\r');
    }
  }

  lemma {:induction false} EndedConcat(a: seq<string>, b: seq<string>)
    ensures Ended(a + b) == Ended(a) + Ended(b)
    decreases |a|
  {
    if a == [] {
      assert a + b == b;
    } else {
      EndedConcat(a[1..], b);
      assert (a + b)[1..] == a[1..] + b;
    }
  }

  lemma {:induction false} LinesOf(text: string) returns (lines: seq<string>)
    requires text == [] || text[|text| - 1] == '\r'
    ensures NoReturns(lines) && Ended(lines) == text
    decreases |text|
  {
    if text == [] {
      lines := [];
    } else {
      var at := Find(text, "\r").value;
      var later := LinesOf(text[at + 1..]);
      lines := [text[..at]] + later;
      assert lines[1..] == later;
      assert text == text[..at] + "\r" + text[at + 1..];
    }
  }

  /** A body of terminated lines splits into those lines. */
  lemma PoppedLines(lines: seq<string>)
    requires NoReturns(lines)
    ensures Popped(Split(Ended(lines), '\r')) == lines
  {
    SplitEnded(lines, "");
    SplitWhole("", '\r');
    assert Ended(lines) + "" == Ended(lines);
    assert (lines + [""])[..|lines|] == lines;
  }

  // Finding the footer.

  lemma {:induction false} BackOverSeenBy(lines: seq<string>, k: nat, n: nat)
    requires n <= k <= |lines| && forall i :: n <= i < k ==> SeenBy.PREFIX <= lines[i]
    ensures FooterStart(lines, k) == FooterStart(lines, n)
    decreases k - n
  {
    if n < k {
      assert lines[k - 1][0] == 'S' && TEAR[0] == '-';
      BackOverSeenBy(lines, k - 1, n);
    }
  }

  /** However the text ends, the search stops at the footer's own tear line. */
  lemma StartsAtTear(text: seq<string>, tear: Option<string>, origin: Option<string>, seen: seq<string>)
    requires forall i :: 0 <= i < |seen| ==> SeenBy.PREFIX <= seen[i]
    ensures var lines := text + ([TearLine(tear), OriginLine(origin)] + seen); FooterStart(lines, |lines|) == |text|
  {
    var n := |text|;
    var lines := text + ([TearLine(tear), OriginLine(origin)] + seen);
    assert forall i :: n + 2 <= i < |lines| ==> lines[i] == seen[i - n - 2];
    BackOverSeenBy(lines, |lines|, n + 2);
    assert lines[n + 1] == OriginLine(origin) && ORIGIN <= OriginLine(origin);
    assert OriginLine(origin)[0] == ' ' && TEAR[0] == '-';
    assert lines[n] == TearLine(tear) && TEAR <= TearLine(tear);
  }

  lemma {:induction false} SeenByAddsNothing(seen: seq<string>, tear: Option<string>, origin: Option<string>)
    requires forall i :: 0 <= i < |seen| ==> SeenBy.PREFIX <= seen[i]
    ensures ReadFooter(seen, tear, origin) == (tear, origin)
    decreases |seen|
  {
    if seen != [] {
      assert seen[0][0] == 'S' && TEAR[0] == '-' && ORIGIN[0] == ' ';
      SeenByAddsNothing(seen[1..], tear, origin);
    }
  }

  lemma ValuesBack(tear: Option<string>, origin: Option<string>, seen: seq<string>)
    requires forall i :: 0 <= i < |seen| ==> SeenBy.PREFIX <= seen[i]
    ensures ReadFooter([TearLine(tear), OriginLine(origin)] + seen, None, None)
      == (Some(OrEmpty(tear)), Some(OrEmpty(origin)))
  {
    var lines := [TearLine(tear), OriginLine(origin)] + seen;
    var tearLine, originLine := TearLine(tear), OriginLine(origin);
    assert tearLine[0] == '-' && ORIGIN[0] == ' ';
    assert TearValue(tearLine[3..]) == OrEmpty(tear);
    assert originLine[|ORIGIN|..] == OrEmpty(origin);
    assert lines[1..][0] == originLine && lines[1..][1..] == seen;
    SeenByAddsNothing(seen, Some(OrEmpty(tear)), Some(OrEmpty(origin)));
  }

  lemma FooterLinesPlain(tear: Option<string>, origin: Option<string>, nodes: seq<SeenBy.Node>)
    requires Footer(tear, origin, nodes).Ok?
    requires forall i :: 0 <= i < |nodes| ==> nodes[i].net <= 32767 && nodes[i].node <= 32767
    ensures NoReturns(FooterLines(tear, origin, nodes))
    ensures forall i :: 0 <= i < |SeenBy.Lines(nodes)| ==> SeenBy.PREFIX <= SeenBy.Lines(nodes)[i]
  {
    hide SeenBy.Lines, SeenBy.ReadEntries, SeenBy.AllEntries, SeenBy.StrictlyOrdered;
    SeenBy.SeenByRoundTrip(nodes);
    SeenByPlain(nodes);
  }

  lemma SeenByPlain(nodes: seq<SeenBy.Node>)
    requires forall i :: 0 <= i < |nodes| ==> nodes[i].net < 100000 && nodes[i].node < 100000
    ensures NoReturns(SeenBy.Lines(nodes))
  {
    hide SeenBy.Entries, SeenBy.Pack, SeenBy.Sort, SeenBy.Dedup;
    SeenBy.ListedExactly(nodes);
    var listed := SeenBy.Dedup(SeenBy.Sort(nodes));
    assert forall i :: 0 <= i < |listed| ==> listed[i] in nodes;
    EntriesPlain(listed, None);
    PackPlain(SeenBy.Entries(listed, None), SeenBy.PREFIX);
  }

  lemma {:induction false} EntriesPlain(nodes: seq<SeenBy.Node>, previous: Option<nat>)
    requires forall i :: 0 <= i < |nodes| ==> nodes[i].net < 100000 && nodes[i].node < 100000
    ensures NoReturns(SeenBy.Entries(nodes, previous))
    decreases |nodes|
  {
    hide SeenBy.Entry;
    if nodes != [] {
      SeenBy.EntryShape(nodes[0], previous);
      EntriesPlain(nodes[1..], Some(nodes[0].net));
    }
  }

  lemma {:induction false} PackPlain(entries: seq<string>, line: string)
    requires NoReturns(entries) && Free(line, "\r")
    ensures NoReturns(SeenBy.Pack(entries, line))
    decreases |entries|
  {
    if entries != [] {
      var over := |line| + 1 + |entries[0]| > 79;
      PackPlain(entries[1..], if over then SeenBy.PREFIX + " " + entries[0] else line + " " + entries[0]);
    }
  }

  /** Reading backwards recovers the text, whatever it holds, and both values; an absent value reads as an empty one. */
  lemma FooterRoundTrip(text: string, tear: Option<string>, origin: Option<string>, nodes: seq<SeenBy.Node>)
    requires text == [] || text[|text| - 1] == '\r'
    requires Footer(tear, origin, nodes).Ok?
    requires forall i :: 0 <= i < |nodes| ==> nodes[i].net <= 32767 && nodes[i].node <= 32767
    ensures var read := SplitFooter(text + Footer(tear, origin, nodes).value);
      read.0 == text && ReadFooter(read.1, None, None) == (Some(OrEmpty(tear)), Some(OrEmpty(origin)))
  {
    hide Split, SeenBy.Lines, ReadFooter, FooterStart, TearLine, OriginLine, Ended, Popped;
    var before := LinesOf(text);
    var footer, seen := FooterLines(tear, origin, nodes), SeenBy.Lines(nodes);
    FooterLinesPlain(tear, origin, nodes);
    var lines := before + footer;
    assert Ended(lines) == text + Ended(footer) by { EndedConcat(before, footer); }
    PoppedLines(lines);
    StartsAtTear(before, tear, origin, seen);
    ValuesBack(tear, origin, seen);
    assert lines[|before|..] == footer;
  }
}
