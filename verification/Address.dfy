/** Five-dimensional addresses and their canonical text. Text is a sequence of UTF-8 code units. */
module Address {
  import opened Wrappers
  import opened Integers
  import opened Text
  import Decimal

  datatype Address = Address(domain: string, zone: int, net: int, node: int, point: int)

  datatype AddressError =
    | EmptyDomain | InvalidDomain | MissingZone | InvalidNumber | OutOfRange | NonCanonical | InvalidOrder

  // Domains.

  /** Whitespace outside ASCII, as its UTF-8 code units. */
  function WideSpaces(): seq<string> {
    [[0xc2 as char, 0x85 as char], [0xc2 as char, 0xa0 as char], [0xe1 as char, 0x9a as char, 0x80 as char]]
    + seq(11, i requires 0 <= i < 11 => [0xe2 as char, 0x80 as char, (0x80 + i) as char])
    + [[0xe2 as char, 0x80 as char, 0xa8 as char], [0xe2 as char, 0x80 as char, 0xa9 as char],
       [0xe2 as char, 0x80 as char, 0xaf as char], [0xe2 as char, 0x81 as char, 0x9f as char],
       [0xe3 as char, 0x80 as char, 0x80 as char]]
  }

  predicate StartsWithSpace(s: string) {
    s != [] && (s[0] == ' ' || 9 <= s[0] as int <= 13 || exists i :: 0 <= i < |WideSpaces()| && WideSpaces()[i] <= s)
  }

  predicate EndsWithSpace(s: string) {
    s != [] && (s[|s| - 1] == ' ' || 9 <= s[|s| - 1] as int <= 13
      || exists i ::
           0 <= i < |WideSpaces()| && |WideSpaces()[i]| <= |s| && s[|s| - |WideSpaces()[i]|..] == WideSpaces()[i])
  }

  /** A control character, in either of its encodings, or a reserved one. */
  predicate Prohibited(s: string, i: nat)
    requires i < |s|
  {
    || s[i] as int < 0x20 || s[i] as int == 0x7f || s[i] in "#*,<>"
    || (s[i] as int == 0xc2 && i + 1 < |s| && 0x80 <= s[i + 1] as int <= 0x9f)
  }

  function ValidateDomain(domain: string): Option<AddressError> {
    if domain == [] then Some(EmptyDomain)
    else if StartsWithSpace(domain) || EndsWithSpace(domain) then Some(InvalidDomain)
    else if exists i :: 0 <= i < |domain| && Prohibited(domain, i) then Some(InvalidDomain)
    else None
  }

  // Construction.

  function New(domain: string, zone: int, net: int, node: int, point: int): Result<Address, AddressError> {
    var bad := ValidateDomain(domain);
    if bad.Some? then Err(bad.value)
    else if domain == "p2p" && zone != -1 then Err(InvalidDomain)
    else if zone != -1 && !(1 <= zone <= 32767) then Err(OutOfRange)
    else if zone == -1 && (net != -1 || node != -1 || point != 0) then Err(OutOfRange)
    else if zone != -1 && (!(1 <= net <= 32767) || !(0 <= node <= 32767)) then Err(OutOfRange)
    else Ok(Address(domain, zone, net, node, point))
  }

  /** The addresses that can be constructed. */
  predicate Valid(a: Address) {
    0 <= a.point < 0x1_0000 && New(a.domain, a.zone, a.net, a.node, a.point).Ok?
  }

  // Printing.

  function Int(n: int): string
    requires n >= -1
  {
    if n == -1 then "-1" else Decimal.Print(n)
  }

  function Display(a: Address): string
    requires Valid(a)
  {
    var net := if a.net != a.zone then ":" + Int(a.net) else "";
    var node := if a.node != DefaultNode(a.zone) then "/" + Int(a.node) else "";
    var point := if a.point != 0 then "." + Int(a.point) else "";
    a.domain + "#" + (Int(a.zone) + (net + (node + point)))
  }

  function DefaultNode(zone: int): int {
    if zone == -1 then -1 else 0
  }

  // Reading.

  function ParseNumber(text: string, allowNegativeOne: bool): Result<int, AddressError> {
    if allowNegativeOne && text == "-1" then Ok(-1)
    else if text == [] || text[0] == '0' || !Decimal.Digits(text) then Err(InvalidNumber)
    else if Decimal.Value(text) > MAX_I32 then Err(OutOfRange)
    else Ok(Decimal.Value(text))
  }

  function TakeComponent(input: string): (r: (string, string))
    ensures |r.1| <= |input| && r.0 + r.1 == input && (r.1 == [] || r.1[0] in ":/.") && Free(r.0, ":/.")
  {
    var at := Find(input, ":/.");
    var end := if at.Some? then at.value else |input|;
    (input[..end], input[end..])
  }

  function Order(prefix: char): int {
    if prefix == ':' then 1 else if prefix == '/' then 2 else 3
  }

  /** The components read so far. */
  datatype Reading = Reading(net: int, node: int, point: int, last: int)

  /** One component: its prefix, then its number. */
  function ReadOne(prefix: char, value: string, zone: int, so: Reading): Result<Reading, AddressError> {
    if Order(prefix) <= so.last then Err(InvalidOrder)
    else if prefix == ':' then
      var net := ParseNumber(value, true);
      if net.Err? then Err(net.error)
      else if net.value == zone then Err(NonCanonical)
      else Ok(so.(net := net.value, last := 1))
    else if prefix == '/' then
      var node := ParseNumber(value, true);
      if node.Err? then Err(node.error) else Ok(so.(node := node.value, last := 2))
    else
      var point := ParseNumber(value, false);
      if point.Err? then Err(point.error)
      else if point.value >= 0x1_0000 then Err(OutOfRange)
      else Ok(so.(point := point.value, last := 3))
  }

  function ReadComponents(rest: string, zone: int, so: Reading): Result<Reading, AddressError>
    decreases |rest|
  {
    if rest == [] then Ok(so)
    else
      var (value, later) := TakeComponent(rest[1..]);
      var one := ReadOne(rest[0], value, zone, so);
      if one.Err? then one else ReadComponents(later, zone, one.value)
  }

  function Start(zone: int): Reading {
    if zone == -1 then Reading(-1, -1, 0, 0) else Reading(zone, 0, 0, 0)
  }

  function Parse(text: string): Result<Address, AddressError> {
    var hash := Find(text, "#");
    if hash.None? then Err(MissingZone)
    else
      var domain := text[..hash.value];
      var bad := ValidateDomain(domain);
      if bad.Some? then Err(bad.value)
      else
        var (zoneText, rest) := TakeComponent(text[hash.value + 1..]);
        var zone := ParseNumber(zoneText, true);
        if zone.Err? then Err(zone.error)
        else if zone.value != -1 && !(1 <= zone.value <= 32767) then Err(OutOfRange)
        else
          var read := ReadComponents(rest, zone.value, Start(zone.value));
          if read.Err? then Err(read.error)
          else New(domain, zone.value, read.value.net, read.value.node, read.value.point)
  }

  /** The loop of `from_str`. */
  method ReadComponentsLoop(text: string, zone: int) returns (r: Result<Reading, AddressError>)
    ensures r == ReadComponents(text, zone, Start(zone))
  {
    var rest, so := text, Start(zone);
    while rest != []
      invariant ReadComponents(rest, zone, so) == ReadComponents(text, zone, Start(zone))
      decreases |rest|
    {
      var (value, later) := TakeComponent(rest[1..]);
      var one := ReadOne(rest[0], value, zone, so);
      if one.Err? { return one; }
      rest, so := later, one.value;
    }
    return Ok(so);
  }

  // Numbers.

  /** Numbers that are both printed and read. */
  predicate Spellable(n: int, allowNegativeOne: bool) {
    1 <= n <= MAX_I32 || (allowNegativeOne && n == -1)
  }

  lemma ParseNumberExactly(text: string, n: int, allowNegativeOne: bool)
    ensures ParseNumber(text, allowNegativeOne) == Ok(n) <==> Spellable(n, allowNegativeOne) && text == Int(n)
  {
    if ParseNumber(text, allowNegativeOne) == Ok(n) && n != -1 {
      Decimal.PrintOfValue(text);
      Decimal.Positive(text);
    }
    if Spellable(n, allowNegativeOne) && n != -1 && text == Int(n) {
      Decimal.ValueOfPrint(n);
    }
  }

  lemma IntHasNoPrefix(n: int)
    requires n >= -1
    ensures Free(Int(n), ":/.") && Int(n) != []
  {
  }

  lemma TakeBack(value: string, later: string)
    requires Free(value, ":/.") && (later == [] || later[0] in ":/.")
    ensures TakeComponent(value + later) == (value, later)
  {
    if later == [] {
      assert value + later == value;
    } else {
      assert value + later == value + [later[0]] + later[1..];
      FindAfter(value, later[0], later[1..], ":/.");
      assert (value + later)[|value|..] == later;
    }
  }

  // Components.

  /** A component as written: its order and number. */
  datatype Part = Part(order: int, n: int)

  predicate GoodPart(part: Part, zone: int) {
    && 1 <= part.order <= 3 && Spellable(part.n, part.order != 3)
    && (part.order == 1 ==> part.n != zone) && (part.order == 3 ==> part.n < 0x1_0000)
  }

  predicate GoodParts(parts: seq<Part>, zone: int, last: int) {
    parts == [] || (parts[0].order > last && GoodPart(parts[0], zone) && GoodParts(parts[1..], zone, parts[0].order))
  }

  function PrintPart(part: Part): string
    requires part.n >= -1
  {
    [":/."[if part.order == 1 then 0 else if part.order == 2 then 1 else 2]] + Int(part.n)
  }

  function PrintParts(parts: seq<Part>, zone: int, last: int): (s: string)
    requires GoodParts(parts, zone, last)
    ensures s == [] || s[0] in ":/."
  {
    if parts == [] then "" else PrintPart(parts[0]) + PrintParts(parts[1..], zone, parts[0].order)
  }

  function ApplyPart(part: Part, so: Reading): Reading {
    if part.order == 1 then so.(net := part.n, last := 1)
    else if part.order == 2 then so.(node := part.n, last := 2)
    else so.(point := part.n, last := 3)
  }

  function ApplyParts(parts: seq<Part>, so: Reading): Reading {
    if parts == [] then so else ApplyParts(parts[1..], ApplyPart(parts[0], so))
  }

  lemma OneBack(part: Part, zone: int, so: Reading)
    requires GoodPart(part, zone) && part.order > so.last
    ensures ReadOne(PrintPart(part)[0], Int(part.n), zone, so) == Ok(ApplyPart(part, so))
  {
    ParseNumberExactly(Int(part.n), part.n, part.order != 3);
  }

  /** Written components are read. */
  lemma {:induction false} ComponentsBack(parts: seq<Part>, zone: int, so: Reading)
    requires GoodParts(parts, zone, so.last)
    ensures ReadComponents(PrintParts(parts, zone, so.last), zone, so) == Ok(ApplyParts(parts, so))
    decreases |parts|
  {
    hide Int, TakeComponent, ReadOne, Free;
    if parts != [] {
      var later := PrintParts(parts[1..], zone, parts[0].order);
      var rest := PrintParts(parts, zone, so.last);
      assert rest[1..] == Int(parts[0].n) + later;
      IntHasNoPrefix(parts[0].n);
      TakeBack(Int(parts[0].n), later);
      OneBack(parts[0], zone, so);
      ComponentsBack(parts[1..], zone, ApplyPart(parts[0], so));
    }
  }

  lemma OneFrom(prefix: char, value: string, zone: int, so: Reading) returns (part: Part)
    requires prefix in ":/." && so.last >= 0 && ReadOne(prefix, value, zone, so).Ok?
    ensures so.last < part.order <= 3 && part.n >= -1 && GoodPart(part, zone) && [prefix] + value == PrintPart(part)
    ensures ReadOne(prefix, value, zone, so).value == ApplyPart(part, so)
  {
    hide ParseNumber, Int;
    var n := ParseNumber(value, prefix != '.').value;
    ParseNumberExactly(value, n, prefix != '.');
    part := Part(Order(prefix), n);
  }

  /** Read components were written. */
  lemma {:induction false} ComponentsFrom(rest: string, zone: int, so: Reading) returns (parts: seq<Part>)
    requires (rest == [] || rest[0] in ":/.") && so.last >= 0 && ReadComponents(rest, zone, so).Ok?
    ensures GoodParts(parts, zone, so.last) && rest == PrintParts(parts, zone, so.last)
    ensures ReadComponents(rest, zone, so).value == ApplyParts(parts, so)
    decreases |rest|
  {
    hide Int, TakeComponent, ReadOne, GoodPart, PrintPart, Free;
    if rest == [] {
      parts := [];
    } else {
      var (value, later) := TakeComponent(rest[1..]);
      var part := OneFrom(rest[0], value, zone, so);
      var rest' := ComponentsFrom(later, zone, ApplyPart(part, so));
      parts := [part] + rest';
      assert parts[1..] == rest';
      assert rest == [rest[0]] + (value + later);
    }
  }

  // Whole addresses.

  /** A list of parts starts with a component of one kind or not. */
  function Maybe(order: int, n: int, default: int): seq<Part> {
    if n != default then [Part(order, n)] else []
  }

  /** The components `Display` writes. */
  function PartsOf(a: Address): seq<Part> {
    Maybe(1, a.net, a.zone) + (Maybe(2, a.node, DefaultNode(a.zone)) + Maybe(3, a.point, 0))
  }

  function Spelling(domain: string, zone: int, parts: seq<Part>): string
    requires Spellable(zone, true) && GoodParts(parts, zone, 0)
  {
    domain + ['#'] + (Int(zone) + PrintParts(parts, zone, 0))
  }

  function FromParts(domain: string, zone: int, parts: seq<Part>): Result<Address, AddressError> {
    var read := ApplyParts(parts, Start(zone));
    New(domain, zone, read.net, read.node, read.point)
  }

  /** Reading accepts exactly the spelt-out components of an address, in order. */
  lemma ParseSpelling(domain: string, zone: int, parts: seq<Part>)
    requires ValidateDomain(domain).None? && Spellable(zone, true) && zone <= 32767 && GoodParts(parts, zone, 0)
    ensures Parse(Spelling(domain, zone, parts)) == FromParts(domain, zone, parts)
  {
    hide Int, TakeComponent, ReadComponents, ApplyParts, PrintParts, GoodParts, ParseNumber, New;
    var later := PrintParts(parts, zone, 0);
    assert Free(domain, "#") by {
      forall i | 0 <= i < |domain| ensures domain[i] !in "#" { assert !Prohibited(domain, i); }
    }
    FindAfter(domain, '#', Int(zone) + later, "#");
    IntHasNoPrefix(zone);
    TakeBack(Int(zone), later);
    ParseNumberExactly(Int(zone), zone, true);
    ComponentsBack(parts, zone, Start(zone));
  }

  lemma SpellingOf(text: string) returns (zone: int, parts: seq<Part>)
    requires Parse(text).Ok?
    ensures Spellable(zone, true) && zone <= 32767 && GoodParts(parts, zone, 0)
    ensures text == Spelling(Parse(text).value.domain, zone, parts)
    ensures Parse(text) == FromParts(Parse(text).value.domain, zone, parts)
  {
    hide Int, TakeComponent, ReadComponents, ApplyParts, PrintParts, GoodParts, ParseNumber, ValidateDomain, Free;
    var hash := Find(text, "#").value;
    var domain := text[..hash];
    var (zoneText, rest) := TakeComponent(text[hash + 1..]);
    zone := ParseNumber(zoneText, true).value;
    ParseNumberExactly(zoneText, zone, true);
    parts := ComponentsFrom(rest, zone, Start(zone));
    assert text == domain + ['#'] + (zoneText + rest);
  }

  lemma MaybeFirst(order: int, n: int, default: int, rest: seq<Part>, zone: int, so: Reading)
    requires n != default ==> GoodPart(Part(order, n), zone)
    requires GoodParts(rest, zone, order)
    ensures GoodParts(Maybe(order, n, default) + rest, zone, order - 1)
    ensures PrintParts(Maybe(order, n, default) + rest, zone, order - 1)
      == (if n != default then PrintPart(Part(order, n)) else "") + PrintParts(rest, zone, order)
    ensures ApplyParts(Maybe(order, n, default) + rest, so)
      == ApplyParts(rest, if n != default then ApplyPart(Part(order, n), so) else so)
  {
    hide GoodPart, Int, PrintPart, ApplyPart;
    var parts := Maybe(order, n, default) + rest;
    if n != default {
      assert parts[1..] == rest;
    } else {
      assert parts == rest;
    }
  }

  lemma MaybeLast(n: int, zone: int, so: Reading)
    requires n != 0 ==> GoodPart(Part(3, n), zone)
    ensures GoodParts(Maybe(3, n, 0), zone, 2)
    ensures PrintParts(Maybe(3, n, 0), zone, 2) == if n != 0 then PrintPart(Part(3, n)) else ""
    ensures ApplyParts(Maybe(3, n, 0), so) == if n != 0 then ApplyPart(Part(3, n), so) else so
  {
    hide Int, PrintPart, ApplyPart;
    var parts := Maybe(3, n, 0);
    if n != 0 {
      assert parts[1..] == [];
      assert PrintPart(parts[0]) + "" == PrintPart(parts[0]);
    }
  }

  /** What is printed is the spelling of the components that differ from their defaults. */
  lemma PartsAreGood(a: Address)
    requires Valid(a)
    ensures GoodParts(PartsOf(a), a.zone, 0) && Spellable(a.zone, true)
    ensures Display(a) == Spelling(a.domain, a.zone, PartsOf(a)) && FromParts(a.domain, a.zone, PartsOf(a)) == Ok(a)
  {
    hide Int, ValidateDomain, PrintParts, GoodParts, ApplyParts, Maybe;
    var start := Start(a.zone);
    var read1 := if a.net != a.zone then ApplyPart(Part(1, a.net), start) else start;
    var read2 := if a.node != DefaultNode(a.zone) then ApplyPart(Part(2, a.node), read1) else read1;
    MaybeLast(a.point, a.zone, read2);
    MaybeFirst(2, a.node, DefaultNode(a.zone), Maybe(3, a.point, 0), a.zone, read1);
    MaybeFirst(1, a.net, a.zone, Maybe(2, a.node, DefaultNode(a.zone)) + Maybe(3, a.point, 0), a.zone, start);
  }

  /** The one text that is read but not printed: an anonymous address with its node spelt out. */
  function SpeltOut(domain: string): string {
    domain + "#-1/-1"
  }

  /** Good parts start with the component of the next order or have none of it. */
  lemma Peel(parts: seq<Part>, zone: int, order: int, so: Reading) returns (first: seq<Part>, rest: seq<Part>)
    requires 1 <= order <= 3 && GoodParts(parts, zone, order - 1)
    ensures parts == first + rest && GoodParts(rest, zone, order)
    ensures first == [] || (|first| == 1 && first[0].order == order && GoodPart(first[0], zone))
    ensures ApplyParts(parts, so) == ApplyParts(rest, if first == [] then so else ApplyPart(first[0], so))
  {
    hide GoodPart, ApplyPart;
    if parts != [] && parts[0].order == order {
      first, rest := parts[..1], parts[1..];
    } else {
      first, rest := [], parts;
    }
  }

  /** The components an address was read from are those it prints, with the one exception. */
  lemma PartsDetermined(domain: string, zone: int, parts: seq<Part>)
    requires GoodParts(parts, zone, 0) && FromParts(domain, zone, parts).Ok?
    ensures var a := FromParts(domain, zone, parts).value;
      Valid(a) && (parts == PartsOf(a) || (zone == -1 && parts == [Part(2, -1)]))
  {
    hide ValidateDomain;
    var start := Start(zone);
    var nets, rest1 := Peel(parts, zone, 1, start);
    var read1 := if nets == [] then start else ApplyPart(nets[0], start);
    var nodes, rest2 := Peel(rest1, zone, 2, read1);
    var read2 := if nodes == [] then read1 else ApplyPart(nodes[0], read1);
    var points, rest3 := Peel(rest2, zone, 3, read2);
    assert rest3 == [] && points + [] == points;
    assert parts == nets + (nodes + points);
    if zone == -1 {
      assert nets == [] && points == [];
      assert parts == nodes;
      assert nodes != [] ==> nodes == [Part(2, -1)];
    }
  }

  /** A text is read as an address exactly when it is that address printed, or its one other spelling. */
  lemma AddressRoundTrip(text: string, a: Address)
    ensures Parse(text) == Ok(a) <==>
      Valid(a) && (text == Display(a) || (a.zone == -1 && text == SpeltOut(a.domain)))
  {
    hide Parse, Spelling, FromParts, GoodParts, Display, ValidateDomain;
    if Parse(text) == Ok(a) {
      var zone, parts := SpellingOf(text);
      PartsDetermined(a.domain, zone, parts);
      FromPartsKeeps(a.domain, zone, parts);
      PartsAreGood(a);
      if parts == [Part(2, -1)] && zone == -1 { SpeltOutIs(a.domain); }
    }
    if Valid(a) && text == Display(a) {
      PartsAreGood(a);
      ParseSpelling(a.domain, a.zone, PartsOf(a));
    }
    if Valid(a) && a.zone == -1 && text == SpeltOut(a.domain) {
      SpeltOutIs(a.domain);
      ParseSpelling(a.domain, -1, [Part(2, -1)]);
      SpeltOutReads(a);
    }
  }

  lemma FromPartsKeeps(domain: string, zone: int, parts: seq<Part>)
    requires FromParts(domain, zone, parts).Ok?
    ensures FromParts(domain, zone, parts).value.domain == domain && FromParts(domain, zone, parts).value.zone == zone
  {
  }

  lemma SpeltOutIs(domain: string)
    ensures GoodParts([Part(2, -1)], -1, 0) && Spelling(domain, -1, [Part(2, -1)]) == SpeltOut(domain)
  {
    assert [Part(2, -1)][1..] == [];
    assert PrintParts([Part(2, -1)], -1, 0) == "/-1";
  }

  lemma SpeltOutReads(a: Address)
    requires Valid(a) && a.zone == -1
    ensures FromParts(a.domain, -1, [Part(2, -1)]) == Ok(a)
  {
    assert [Part(2, -1)][1..] == [];
  }
}
