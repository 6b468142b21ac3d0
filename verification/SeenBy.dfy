/** Tiny SEEN-BY lines: sorted, duplicate-free node lists in trimmed form, packed into lines of at most 80 bytes. */
module SeenBy {
  import opened Wrappers
  import opened Text
  import Decimal

  datatype Node = Node(net: nat, node: nat)

  // Sorting and removing neighbours that repeat.

  predicate Before(a: Node, b: Node) {
    a.net < b.net || (a.net == b.net && a.node < b.node)
  }

  function Insert(n: Node, sorted: seq<Node>): seq<Node> {
    if sorted == [] || !Before(sorted[0], n) then [n] + sorted else [sorted[0]] + Insert(n, sorted[1..])
  }

  /** `sort_by_key` on net and node. */
  function Sort(nodes: seq<Node>): seq<Node> {
    if nodes == [] then [] else Insert(nodes[0], Sort(nodes[1..]))
  }

  /** `dedup`. */
  function Dedup(nodes: seq<Node>): seq<Node> {
    if |nodes| < 2 then nodes
    else if nodes[0] == nodes[1] then Dedup(nodes[1..])
    else [nodes[0]] + Dedup(nodes[1..])
  }

  ghost predicate Ordered(nodes: seq<Node>) {
    |nodes| < 2 || (!Before(nodes[1], nodes[0]) && Ordered(nodes[1..]))
  }

  ghost predicate StrictlyOrdered(nodes: seq<Node>) {
    |nodes| < 2 || (Before(nodes[0], nodes[1]) && StrictlyOrdered(nodes[1..]))
  }

  lemma {:induction false} InsertOrders(n: Node, sorted: seq<Node>)
    requires Ordered(sorted)
    ensures Ordered(Insert(n, sorted)) && forall m :: m in Insert(n, sorted) <==> m == n || m in sorted
  {
    if sorted == [] || !Before(sorted[0], n) {
      assert ([n] + sorted)[1..] == sorted;
    } else {
      var later := Insert(n, sorted[1..]);
      InsertOrders(n, sorted[1..]);
      assert ([sorted[0]] + later)[1..] == later;
      assert sorted == [sorted[0]] + sorted[1..];
      if |sorted| > 1 { assert sorted[1] == sorted[1..][0]; }
    }
  }

  lemma {:induction false} SortOrders(nodes: seq<Node>)
    ensures Ordered(Sort(nodes)) && forall m :: m in Sort(nodes) <==> m in nodes
  {
    if nodes != [] {
      SortOrders(nodes[1..]);
      InsertOrders(nodes[0], Sort(nodes[1..]));
      assert nodes == [nodes[0]] + nodes[1..];
    }
  }

  lemma {:induction false} DedupStrict(nodes: seq<Node>)
    requires Ordered(nodes)
    ensures StrictlyOrdered(Dedup(nodes)) && (forall m :: m in Dedup(nodes) <==> m in nodes)
    ensures nodes != [] ==> Dedup(nodes) != [] && Dedup(nodes)[0] == nodes[0]
  {
    if |nodes| >= 2 {
      DedupStrict(nodes[1..]);
      assert nodes == [nodes[0]] + nodes[1..] && nodes[1..][0] == nodes[1];
      if nodes[0] != nodes[1] {
        var later := Dedup(nodes[1..]);
        assert ([nodes[0]] + later)[1..] == later;
      }
    }
  }

  /** The recipients as listed: in order, each once, none lost. */
  lemma ListedExactly(nodes: seq<Node>)
    ensures StrictlyOrdered(Dedup(Sort(nodes))) && forall m :: m in Dedup(Sort(nodes)) <==> m in nodes
  {
    SortOrders(nodes);
    DedupStrict(Sort(nodes));
  }

  // Entries.

  function Entry(n: Node, previous: Option<nat>): string {
    if previous == Some(n.net) then Decimal.Print(n.node) else Decimal.Print(n.net) + "/" + Decimal.Print(n.node)
  }

  function Entries(nodes: seq<Node>, previous: Option<nat>): seq<string> {
    if nodes == [] then [] else [Entry(nodes[0], previous)] + Entries(nodes[1..], Some(nodes[0].net))
  }

  /** The loop that trims repeated nets. */
  method EntriesLoop(nodes: seq<Node>) returns (entries: seq<string>)
    ensures entries == Entries(nodes, None)
  {
    entries := [];
    var previous := None;
    for i := 0 to |nodes|
      invariant entries + Entries(nodes[i..], previous) == Entries(nodes, None)
    {
      hide Entry;
      var entry := Entry(nodes[i], previous);
      ghost var later := Entries(nodes[i + 1..], Some(nodes[i].net));
      assert nodes[i..][1..] == nodes[i + 1..];
      assert entries + ([entry] + later) == (entries + [entry]) + later;
      entries := entries + [entry];
      previous := Some(nodes[i].net);
    }
    assert entries + [] == entries;
  }

  /** What a reader makes of one entry when the net before it was `previous`. */
  function ReadEntry(entry: string, previous: Option<nat>): Option<Node> {
    var slash := Find(entry, "/");
    var net := if slash.Some? then entry[..slash.value] else "";
    var node := if slash.Some? then entry[slash.value + 1..] else entry;
    if !Decimal.Digits(net) || !Decimal.Digits(node) || node == [] then None
    else if slash.Some? then (if net == [] then None else Some(Node(Decimal.Value(net), Decimal.Value(node))))
    else if previous.None? then None
    else Some(Node(previous.value, Decimal.Value(node)))
  }

  function ReadEntries(entries: seq<string>, previous: Option<nat>): Option<seq<Node>> {
    if entries == [] then Some([])
    else
      var first := ReadEntry(entries[0], previous);
      if first.None? then None
      else
        var later := ReadEntries(entries[1..], Some(first.value.net));
        if later.None? then None else Some([first.value] + later.value)
  }

  lemma EntryBack(n: Node, previous: Option<nat>)
    ensures ReadEntry(Entry(n, previous), previous) == Some(n)
  {
    hide Decimal.Print, Decimal.Value;
    Decimal.ValueOfPrint(n.net);
    Decimal.ValueOfPrint(n.node);
    assert Free(Decimal.Print(n.net), "/") && Free(Decimal.Print(n.node), "/");
    if previous == Some(n.net) {
      assert Find(Decimal.Print(n.node), "/").None?;
    } else {
      FindAfter(Decimal.Print(n.net), '/', Decimal.Print(n.node), "/");
    }
  }

  lemma {:induction false} EntriesBack(nodes: seq<Node>, previous: Option<nat>)
    ensures ReadEntries(Entries(nodes, previous), previous) == Some(nodes)
    decreases |nodes|
  {
    hide Entry, ReadEntry;
    if nodes != [] {
      var entries := Entries(nodes, previous);
      EntryBack(nodes[0], previous);
      EntriesBack(nodes[1..], Some(nodes[0].net));
      assert entries[1..] == Entries(nodes[1..], Some(nodes[0].net));
      assert [nodes[0]] + nodes[1..] == nodes;
    }
  }

  // Lines.

  const PREFIX: string := "SEEN-BY:"

  /** Pack entries onto the current line, starting a new one before it would exceed 79 bytes. */
  function Pack(entries: seq<string>, line: string): seq<string> {
    if entries == [] then [line]
    else if |line| + 1 + |entries[0]| > 79 then [line] + Pack(entries[1..], PREFIX + " " + entries[0])
    else Pack(entries[1..], line + " " + entries[0])
  }

  /** The packing loop. */
  method PackLoop(entries: seq<string>) returns (lines: seq<string>)
    ensures lines == Pack(entries, PREFIX)
  {
    lines := [];
    var line := PREFIX;
    for i := 0 to |entries|
      invariant lines + Pack(entries[i..], line) == Pack(entries, PREFIX)
    {
      assert entries[i..][1..] == entries[i + 1..];
      if |line| + 1 + |entries[i]| > 79 {
        ghost var later := Pack(entries[i + 1..], PREFIX + " " + entries[i]);
        assert lines + ([line] + later) == (lines + [line]) + later;
        lines := lines + [line];
        line := PREFIX;
      }
      line := line + " " + entries[i];
    }
    lines := lines + [line];
  }

  predicate Short(entries: seq<string>) {
    forall i :: 0 <= i < |entries| ==> |entries[i]| <= 70
  }

  /** Every line stays within 80 bytes with its carriage return. */
  lemma {:induction false} LinesFit(entries: seq<string>, line: string)
    requires Short(entries) && |line| <= 79
    ensures forall i :: 0 <= i < |Pack(entries, line)| ==> |Pack(entries, line)[i]| <= 79
    decreases |entries|
  {
    if entries != [] {
      var over := |line| + 1 + |entries[0]| > 79;
      LinesFit(entries[1..], if over then PREFIX + " " + entries[0] else line + " " + entries[0]);
    }
  }

  /** The entries of a line that starts with the prefix. */
  function LineEntries(line: string): seq<string>
    requires PREFIX <= line
  {
    Split(line[8..], ' ')[1..]
  }

  function AllEntries(lines: seq<string>): seq<string>
    requires forall i :: 0 <= i < |lines| ==> PREFIX <= lines[i]
  {
    if lines == [] then [] else LineEntries(lines[0]) + AllEntries(lines[1..])
  }

  /** A line as entries put after the prefix. */
  function Tail(entries: seq<string>): string {
    if entries == [] then "" else " " + entries[0] + Tail(entries[1..])
  }

  ghost predicate Plain(entries: seq<string>) {
    forall i :: 0 <= i < |entries| ==> Free(entries[i], " ")
  }

  lemma {:induction false} SplitTail(entries: seq<string>, first: string)
    requires Plain(entries) && Free(first, " ")
    ensures Split(first + Tail(entries), ' ') == [first] + entries
    decreases |entries|
  {
    if entries == [] {
      assert first + Tail(entries) == first;
      SplitWhole(first, ' ');
      assert [first] + entries == [first];
    } else {
      var rest := entries[0] + Tail(entries[1..]);
      assert first + Tail(entries) == first + [' '] + rest;
      SplitAfter(first, ' ', rest);
      SplitTail(entries[1..], entries[0]);
      assert [entries[0]] + entries[1..] == entries;
    }
  }

  lemma LineBack(entries: seq<string>)
    requires Plain(entries)
    ensures PREFIX <= PREFIX + Tail(entries) && LineEntries(PREFIX + Tail(entries)) == entries
  {
    var line := PREFIX + Tail(entries);
    assert line[..8] == PREFIX && line[8..] == "" + Tail(entries);
    SplitTail(entries, "");
    assert ([""] + entries)[1..] == entries;
  }

  lemma {:induction false} TailSnoc(entries: seq<string>, last: string)
    ensures Tail(entries + [last]) == Tail(entries) + " " + last
    decreases |entries|
  {
    if entries == [] {
      assert entries + [last] == [last];
      assert Tail([last]) == " " + last + "";
    } else {
      TailSnoc(entries[1..], last);
      assert (entries + [last])[1..] == entries[1..] + [last];
    }
  }

  /** Reading packed lines gives all entries back, in order. */
  lemma {:induction false} PackBack(entries: seq<string>, on: seq<string>)
    requires Plain(entries) && Plain(on)
    ensures var lines := Pack(entries, PREFIX + Tail(on));
      (forall i :: 0 <= i < |lines| ==> PREFIX <= lines[i]) && AllEntries(lines) == on + entries
    decreases |entries|
  {
    hide Tail, LineEntries;
    var line := PREFIX + Tail(on);
    if entries == [] {
      OneLine(on);
      assert on + entries == on;
    } else if |line| + 1 + |entries[0]| > 79 {
      TailSnoc([], entries[0]);
      NoTail();
      assert [] + [entries[0]] == [entries[0]];
      assert PREFIX + Tail([entries[0]]) == PREFIX + " " + entries[0];
      PackBack(entries[1..], [entries[0]]);
      MoreLines(on, Pack(entries[1..], PREFIX + " " + entries[0]));
      assert on + ([entries[0]] + entries[1..]) == on + entries;
    } else {
      TailSnoc(on, entries[0]);
      assert PREFIX + Tail(on + [entries[0]]) == line + " " + entries[0];
      PackBack(entries[1..], on + [entries[0]]);
      assert (on + [entries[0]]) + entries[1..] == on + entries;
    }
  }

  lemma OneLine(on: seq<string>)
    requires Plain(on)
    ensures PREFIX <= PREFIX + Tail(on) && AllEntries([PREFIX + Tail(on)]) == on
  {
    LineBack(on);
    assert [PREFIX + Tail(on)][1..] == [] && on + [] == on;
  }

  lemma MoreLines(on: seq<string>, later: seq<string>)
    requires Plain(on) && forall i :: 0 <= i < |later| ==> PREFIX <= later[i]
    ensures var lines := [PREFIX + Tail(on)] + later;
      (forall i :: 0 <= i < |lines| ==> PREFIX <= lines[i]) && AllEntries(lines) == on + AllEntries(later)
  {
    hide Tail, LineEntries;
    LineBack(on);
    assert ([PREFIX + Tail(on)] + later)[1..] == later;
  }

  // Together.

  lemma EntryShape(n: Node, previous: Option<nat>)
    requires n.net < 100000 && n.node < 100000
    ensures |Entry(n, previous)| <= 11 && Free(Entry(n, previous), " ") && Free(Entry(n, previous), "\r")
  {
    assert Decimal.Power10(5) == 100000 by { assert Decimal.Power10(3) == 1000; }
    Decimal.Longer(n.net, 100000, 5);
    Decimal.Longer(n.node, 100000, 5);
  }

  lemma {:induction false} EntriesShape(nodes: seq<Node>, previous: Option<nat>)
    requires forall i :: 0 <= i < |nodes| ==> nodes[i].net < 100000 && nodes[i].node < 100000
    ensures Short(Entries(nodes, previous)) && Plain(Entries(nodes, previous))
    decreases |nodes|
  {
    if nodes != [] {
      hide Entry;
      EntryShape(nodes[0], previous);
      EntriesShape(nodes[1..], Some(nodes[0].net));
    }
  }

  /** The SEEN-BY lines written for some recipients. */
  function Lines(nodes: seq<Node>): seq<string> {
    Pack(Entries(Dedup(Sort(nodes)), None), PREFIX)
  }

  /** Every line fits, and reading them with the net carried along gives the recipients: all of them, once, in order. */
  lemma SeenByRoundTrip(nodes: seq<Node>)
    requires forall i :: 0 <= i < |nodes| ==> nodes[i].net < 100000 && nodes[i].node < 100000
    ensures var lines := Lines(nodes); var listed := Dedup(Sort(nodes));
      && (forall i :: 0 <= i < |lines| ==> PREFIX <= lines[i] && |lines[i]| <= 79)
      && ReadEntries(AllEntries(lines), None) == Some(listed)
      && StrictlyOrdered(listed) && forall m :: m in listed <==> m in nodes
  {
    hide Pack, AllEntries, Entries, ReadEntries, StrictlyOrdered, Sort, Dedup, Tail;
    var listed := Dedup(Sort(nodes));
    ListedExactly(nodes);
    assert forall i :: 0 <= i < |listed| ==> listed[i] in nodes;
    var entries := Entries(listed, None);
    EntriesShape(listed, None);
    EntriesBack(listed, None);
    LinesFit(entries, PREFIX);
    NoTail();
    PackBack(entries, []);
    assert [] + entries == entries;
  }

  lemma NoTail()
    ensures PREFIX + Tail([]) == PREFIX && |PREFIX| == 8
  {
  }
}
