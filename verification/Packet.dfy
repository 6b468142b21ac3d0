/** Type-2+ packets and the packed messages inside them: the writer, the reader, and when they agree. */
module Packet {
  import opened Wrappers
  import opened LegacyText
  import opened Text
  import DateTime

  type U16 = n: int | 0 <= n < 0x1_0000

  datatype Endpoint = Endpoint(zone: U16, net: U16, node: U16, point: U16)

  datatype PackedMessage = PackedMessage(
    origin: Endpoint, destination: Endpoint, attributes: U16, dateTime: string, toUser: string, fromUser: string,
    subject: string, controls: seq<Control>, text: string, area: Option<string>)

  datatype Packet = Packet(origin: Endpoint, destination: Endpoint, messages: seq<PackedMessage>)

  /** Header values that come from link configuration. */
  datatype Options = Options(created: int, productCode: U16, revisionMajor: int, revisionMinor: int,
                             password: string, productData: int)

  datatype PacketError = ShortHeader | NotTypeTwo | NotTypePlus | MissingAuxiliaryNet | MalformedRecord
                       | MissingTerminator | ShortMessage | MissingFieldTerminator

  datatype ExportError = TooLong(field: string, maximum: nat, actual: nat) | Unrepresentable(what: string)
                       | TimestampOutOfRange | MalformedDateTime | EndpointMismatch

  // What the types of the source promise: text is UTF-8, bytes are bytes.

  ghost predicate TypedMessage(m: PackedMessage) {
    && Utf8(m.dateTime) && Utf8(m.toUser) && Utf8(m.fromUser) && Utf8(m.subject) && Utf8(m.text)
    && (m.area.Some? ==> Utf8(m.area.value))
    && (forall i :: 0 <= i < |m.controls| ==> Utf8(m.controls[i].raw))
  }

  ghost predicate Typed(p: Packet) {
    forall i :: 0 <= i < |p.messages| ==> TypedMessage(p.messages[i])
  }

  // Words.

  function Low(v: U16): char { (v % 256) as char }
  function High(v: U16): char { (v / 256) as char }

  function Put(v: U16): string { [Low(v), High(v)] }

  /** Bytes above 255 do not occur; the remainder only keeps the function total. */
  function U16At(s: string, offset: nat): U16
    requires offset + 1 < |s|
  {
    s[offset] as int % 256 + 256 * (s[offset + 1] as int % 256)
  }

  lemma WordBack(v: U16, s: string, offset: nat)
    requires offset + 1 < |s| && s[offset] == Low(v) && s[offset + 1] == High(v)
    ensures U16At(s, offset) == v
  {
  }

  // Writing.

  predicate ValidArea(name: string) {
    && 1 <= |name| <= 60 && name[0] != '+' && name[0] != '-'
    && forall i :: 0 <= i < |name| ==> '!' <= name[i] <= '`' || '{' <= name[i] <= '~'
  }

  function AreaLine(area: Option<string>): string {
    if area.Some? then "AREA:" + area.value + "\r" else ""
  }

  function Body(m: PackedMessage): Result<string, ExportError> {
    if m.area.Some? && !ValidArea(m.area.value) then Err(Unrepresentable("AREA name"))
    else if !AllCarriable(m.controls) then Err(Unrepresentable("control paragraph payload"))
    else Ok(AreaLine(m.area) + Paragraphs(m.controls) + m.text)
  }

  function Bounded(field: string, value: string, maximum: nat): Result<string, ExportError> {
    if !Free(value, "\0") then Err(Unrepresentable(field))
    else if |value| + 1 > maximum then Err(TooLong(field, maximum, |value| + 1))
    else Ok(value + "\0")
  }

  /** The fourteen bytes in front of the DateTime. */
  function RecordHead(m: PackedMessage): string {
    [Low(2), High(2), Low(m.origin.node), High(m.origin.node), Low(m.destination.node), High(m.destination.node),
     Low(m.origin.net), High(m.origin.net), Low(m.destination.net), High(m.destination.net),
     Low(m.attributes), High(m.attributes), 0 as char, 0 as char]
  }

  function EncodeRecord(m: PackedMessage): Result<string, ExportError> {
    if |m.dateTime| >= 20 then Err(TooLong("DateTime", 20, |m.dateTime| + 1))
    else if DateTime.ParseDateTime(m.dateTime).Err? then Err(MalformedDateTime)
    else
      var toUser, fromUser := Bounded("ToUserName", m.toUser, 36), Bounded("FromUserName", m.fromUser, 36);
      var subject, body := Bounded("Subject", m.subject, 72), Body(m);
      if toUser.Err? then toUser
      else if fromUser.Err? then fromUser
      else if subject.Err? then subject
      else if body.Err? then body
      else if !Free(body.value, "\0") then Err(Unrepresentable("U+0000 in MessageText"))
      else Ok(RecordHead(m)
              + (m.dateTime + "\0" + (toUser.value + (fromUser.value + (subject.value + (body.value + "\0"))))))
  }

  function EncodeRecords(p: Packet, from: nat): Result<string, ExportError>
    requires from <= |p.messages|
    decreases |p.messages| - from
  {
    if from == |p.messages| then Ok(Put(0))
    else
      var m := p.messages[from];
      if m.origin.zone != p.origin.zone || m.origin.point != p.origin.point
         || m.destination.zone != p.destination.zone || m.destination.point != p.destination.point
      then Err(EndpointMismatch)
      else
        var record := EncodeRecord(m);
        if record.Err? then record
        else
          var later := EncodeRecords(p, from + 1);
          if later.Err? then later else Ok(record.value + later.value)
  }

  function OriginNetField(p: Packet): U16 {
    if p.origin.point == 0 then p.origin.net else 0xffff
  }

  function AuxiliaryNet(p: Packet): U16 {
    if p.origin.point == 0 then 0 else p.origin.net
  }

  function Octet(n: int): char { (n % 256) as char }

  /** The header: year, month, day, clock, type, nets, product, password, zones, capability and points. */
  function Header(p: Packet, o: Options, year: U16, date: DateTime.CivilTime): string
    requires 1 <= date.date.month <= 12 && 0 <= date.date.day < 32
    requires 0 <= date.hour < 24 && 0 <= date.minute < 60 && 0 <= date.second < 60 && |o.password| <= 8
  {
    Put(p.origin.node) + Put(p.destination.node)
    + (Put(year) + Put(date.date.month - 1) + Put(date.date.day) + Put(date.hour) + Put(date.minute) + Put(date.second))
    + (Put(0) + Put(2) + Put(OriginNetField(p)) + Put(p.destination.net))
    + ([Low(o.productCode), Octet(o.revisionMajor)] + Padded(o.password))
    + (Put(p.origin.zone) + Put(p.destination.zone) + Put(AuxiliaryNet(p)) + Put(0x0100))
    + ([High(o.productCode), Octet(o.revisionMinor)] + Put(0x0001))
    + (Put(p.origin.zone) + Put(p.destination.zone) + Put(p.origin.point) + Put(p.destination.point))
    + ProductData(o)
  }

  function ProductData(o: Options): string {
    [Octet(o.productData), Octet(o.productData / 0x100), Octet(o.productData / 0x1_0000),
     Octet(o.productData / 0x100_0000)]
  }

  function Padded(password: string): (r: string)
    requires |password| <= 8
    ensures |r| == 8
  {
    password + seq(8 - |password|, _ => 0 as char)
  }

  function EncodeHeader(p: Packet, o: Options): Result<string, ExportError> {
    if |o.password| > 8 then Err(TooLong("packet password", 8, |o.password|))
    else if !Free(o.password, "\0") then Err(Unrepresentable("packet password"))
    else
      var created := DateTime.CivilFromLocal(o.created);
      DateTime.CivilFits(o.created);
      if !(0 <= created.date.year < 0x1_0000) then Err(TimestampOutOfRange)
      else Ok(Header(p, o, created.date.year, created))
  }

  function Encode(p: Packet, o: Options): Result<string, ExportError> {
    var header := EncodeHeader(p, o);
    if header.Err? then header
    else
      var records := EncodeRecords(p, 0);
      if records.Err? then records else Ok(header.value + records.value)
  }

  // Reading.

  function ParseHeader(input: string): Result<(Endpoint, Endpoint), PacketError> {
    if |input| < 58 then Err(ShortHeader)
    else if U16At(input, 18) != 2 then Err(NotTypeTwo)
    else
      var capability, validation := U16At(input, 44), U16At(input, 40);
      if validation != capability % 256 * 256 + capability / 256 || capability % 2 == 0 then Err(NotTypePlus)
      else
        var point, field, auxiliary := U16At(input, 50), U16At(input, 20), U16At(input, 38);
        if point != 0 && field == 0xffff && auxiliary == 0 then Err(MissingAuxiliaryNet)
        else
          var net := if point != 0 && field == 0xffff then auxiliary else field;
          Ok((Endpoint(U16At(input, 46), net, U16At(input, 0), point),
              Endpoint(U16At(input, 48), U16At(input, 22), U16At(input, 2), U16At(input, 52))))
  }

  /** A NUL-terminated field of at most `maximum` bytes, or of any length. */
  function Field(input: string, maximum: Option<nat>): (r: Result<(string, string), PacketError>)
    ensures r.Ok? ==> |r.value.1| < |input|
  {
    var limit := if maximum.Some? && maximum.value < |input| then maximum.value else |input|;
    var end := Find(input[..limit], "\0");
    if end.None? || !Utf8(input[..end.value]) then Err(MissingFieldTerminator)
    else Ok((input[..end.value], input[end.value + 1..]))
  }

  function SplitArea(body: string): (Option<string>, string) {
    if !("AREA:" <= body) then (None, body)
    else
      var rest := body[5..];
      var at := Find(rest, "\r\n");
      var name := if at.Some? then rest[..at.value] else rest;
      if ValidArea(name) then (Some(name), if at.Some? then rest[at.value + 1..] else "") else (None, body)
  }

  function ParseRecord(input: string, origin: Endpoint, destination: Endpoint)
    : (r: Result<(PackedMessage, string), PacketError>)
    ensures r.Ok? ==> |r.value.1| < |input|
  {
    if |input| < 34 then Err(ShortMessage)
    else
      var from := origin.(net := U16At(input, 6), node := U16At(input, 2));
      var to := destination.(net := U16At(input, 8), node := U16At(input, 4));
      ParseFields(input[14..], from, to, U16At(input, 10))
  }

  function ParseFields(input: string, from: Endpoint, to: Endpoint, attributes: U16)
    : (r: Result<(PackedMessage, string), PacketError>)
    ensures r.Ok? ==> |r.value.1| < |input|
  {
    var dateTime := Field(input, Some(20));
    if dateTime.Err? then Err(dateTime.error)
    else
      var toUser := Field(dateTime.value.1, Some(36));
      if toUser.Err? then Err(toUser.error)
      else
        var fromUser := Field(toUser.value.1, Some(36));
        if fromUser.Err? then Err(fromUser.error)
        else
          var subject := Field(fromUser.value.1, Some(72));
          if subject.Err? then Err(subject.error)
          else
            var body := Field(subject.value.1, None);
            if body.Err? then Err(body.error)
            else
              Ok((ReadMessage(from, to, attributes, dateTime.value.0, toUser.value.0, fromUser.value.0,
                              subject.value.0, body.value.0),
                  body.value.1))
  }

  /** A message whose body is still to be taken apart. */
  function ReadMessage(from: Endpoint, to: Endpoint, attributes: U16, dateTime: string, toUser: string,
                       fromUser: string, subject: string, body: string): PackedMessage {
    var (area, remainder) := SplitArea(body);
    var (controls, text) := SplitControls(remainder);
    PackedMessage(from, to, attributes, dateTime, toUser, fromUser, subject, controls, text, area)
  }

  function ParseRecords(input: string, origin: Endpoint, destination: Endpoint): Result<seq<PackedMessage>, PacketError>
    decreases |input|
  {
    if |input| < 2 then Err(MissingTerminator)
    else if U16At(input, 0) == 0 then Ok([])
    else if U16At(input, 0) != 2 then Err(MalformedRecord)
    else
      var first := ParseRecord(input, origin, destination);
      if first.Err? then Err(first.error)
      else
        var later := ParseRecords(first.value.1, origin, destination);
        if later.Err? then later else Ok([first.value.0] + later.value)
  }

  function Parse(input: string): Result<Packet, PacketError> {
    var header := ParseHeader(input);
    if header.Err? then Err(header.error)
    else
      var records := ParseRecords(input[58..], header.value.0, header.value.1);
      if records.Err? then Err(records.error)
      else Ok(Packet(header.value.0, header.value.1, records.value))
  }

  // Header round trip.

  lemma HeaderWords(p: Packet, o: Options, year: U16, date: DateTime.CivilTime, rest: string)
    requires 1 <= date.date.month <= 12 && 0 <= date.date.day < 32
    requires 0 <= date.hour < 24 && 0 <= date.minute < 60 && 0 <= date.second < 60 && |o.password| <= 8
    ensures var h := Header(p, o, year, date); var s := h + rest;
      && |h| == 58 && U16At(s, 0) == p.origin.node && U16At(s, 2) == p.destination.node && U16At(s, 18) == 2
      && U16At(s, 20) == OriginNetField(p) && U16At(s, 22) == p.destination.net
      && U16At(s, 38) == AuxiliaryNet(p) && U16At(s, 40) == 0x0100 && U16At(s, 44) == 0x0001
      && U16At(s, 46) == p.origin.zone && U16At(s, 48) == p.destination.zone
      && U16At(s, 50) == p.origin.point && U16At(s, 52) == p.destination.point
  {
    var h := Header(p, o, year, date);
    assert |h| == 58;
    assert h[0..2] == Put(p.origin.node) && h[2..4] == Put(p.destination.node);
    assert h[18..20] == Put(2) && h[20..22] == Put(OriginNetField(p)) && h[22..24] == Put(p.destination.net);
    assert h[38..40] == Put(AuxiliaryNet(p)) && h[40..42] == Put(0x0100) && h[44..46] == Put(0x0001);
    assert h[46..48] == Put(p.origin.zone) && h[48..50] == Put(p.destination.zone);
    assert h[50..52] == Put(p.origin.point) && h[52..54] == Put(p.destination.point);
    WordsFrom(h, rest);
  }

  lemma WordsFrom(h: string, rest: string)
    requires |h| == 58
    ensures forall i: nat, v: U16 :: i + 2 <= 58 && h[i..i + 2] == Put(v) ==> U16At(h + rest, i) == v
  {
    forall i: nat, v: U16 | i + 2 <= 58 && h[i..i + 2] == Put(v) ensures U16At(h + rest, i) == v {
      assert h[i] == h[i..i + 2][0] && h[i + 1] == h[i..i + 2][1];
      WordBack(v, h + rest, i);
    }
  }

  /** Reading a written header gives the endpoints back, unless a point's net is zero. */
  lemma HeaderBack(p: Packet, o: Options, rest: string)
    requires EncodeHeader(p, o).Ok?
    ensures var h := EncodeHeader(p, o).value;
      && |h| == 58 && (h + rest)[58..] == rest
      && ParseHeader(h + rest)
         == if p.origin.point != 0 && p.origin.net == 0 then Err(MissingAuxiliaryNet) else Ok((p.origin, p.destination))
  {
    hide Header, U16At, Free, DateTime.CivilFromLocal;
    var created := DateTime.CivilFromLocal(o.created);
    DateTime.CivilFits(o.created);
    HeaderWords(p, o, created.date.year, created, rest);
  }

  // Record round trip.

  lemma FieldBack(value: string, rest: string, maximum: Option<nat>)
    requires Utf8(value) && Free(value, "\0") && (maximum.Some? ==> |value| < maximum.value)
    ensures Field(value + "\0" + rest, maximum) == Ok((value, rest))
  {
    var input := value + "\0" + rest;
    var limit := if maximum.Some? && maximum.value < |input| then maximum.value else |input|;
    var tail := rest[..limit - |value| - 1];
    assert input[..limit] == value + ['\0'] + tail;
    FindAfter(value, '\0', tail, "\0");
    hide Free, Find, Utf8;
    assert input[..|value|] == value && input[|value| + 1..] == rest;
  }

  /** What a message turns into when its body is written and taken apart again. */
  function Reparsed(m: PackedMessage): PackedMessage
    requires Body(m).Ok?
  {
    ReadMessage(m.origin, m.destination, m.attributes, m.dateTime, m.toUser, m.fromUser, m.subject, Body(m).value)
  }

  lemma DateTimeIsPlain(s: string)
    requires DateTime.ParseDateTime(s).Ok?
    ensures |s| == 19 && Free(s, "\0")
  {
    DateTime.ScannedIsVisible(s);
  }

  lemma FieldsBack(m: PackedMessage, from: Endpoint, to: Endpoint, toUser: string, fromUser: string,
                   subject: string, body: string, rest: string)
    requires TypedMessage(m) && |m.dateTime| < 20 && Free(m.dateTime, "\0") && Free(body, "\0") && Utf8(body)
    requires Bounded("ToUserName", m.toUser, 36) == Ok(toUser)
      && Bounded("FromUserName", m.fromUser, 36) == Ok(fromUser)
    requires Bounded("Subject", m.subject, 72) == Ok(subject)
    ensures ParseFields(m.dateTime + "\0" + (toUser + (fromUser + (subject + (body + "\0" + rest)))),
                        from, to, m.attributes)
      == Ok((ReadMessage(from, to, m.attributes, m.dateTime, m.toUser, m.fromUser, m.subject, body), rest))
  {
    hide Field, ReadMessage, Utf8;
    FieldBack(m.dateTime, toUser + (fromUser + (subject + (body + "\0" + rest))), Some(20));
    FieldBack(m.toUser, fromUser + (subject + (body + "\0" + rest)), Some(36));
    FieldBack(m.fromUser, subject + (body + "\0" + rest), Some(36));
    FieldBack(m.subject, body + "\0" + rest, Some(72));
    FieldBack(body, rest, None);
  }

  lemma BodyUtf8(m: PackedMessage)
    requires TypedMessage(m) && Body(m).Ok?
    ensures Utf8(Body(m).value)
  {
    hide Utf8, Paragraphs, ValidArea, AllCarriable;
    AsciiIsUtf8("AREA:");
    AsciiIsUtf8("\r");
    if m.area.Some? {
      Utf8Concat("AREA:", m.area.value);
      Utf8Concat("AREA:" + m.area.value, "\r");
    }
    ParagraphsUtf8(m.controls);
    Utf8Concat(AreaLine(m.area), Paragraphs(m.controls));
    Utf8Concat(AreaLine(m.area) + Paragraphs(m.controls), m.text);
  }

  lemma RecordWords(m: PackedMessage, tail: string)
    ensures var s := RecordHead(m) + tail;
      && |RecordHead(m)| == 14 && U16At(s, 0) == 2 && U16At(s, 2) == m.origin.node && U16At(s, 4) == m.destination.node
      && U16At(s, 6) == m.origin.net && U16At(s, 8) == m.destination.net && U16At(s, 10) == m.attributes
      && s[14..] == tail
  {
    var s := RecordHead(m) + tail;
    WordBack(2, s, 0);
    WordBack(m.origin.node, s, 2);
    WordBack(m.destination.node, s, 4);
    WordBack(m.origin.net, s, 6);
    WordBack(m.destination.net, s, 8);
    WordBack(m.attributes, s, 10);
  }

  /** Everything but the inside of the body comes back from a record, and the next record is untouched. */
  lemma RecordBack(m: PackedMessage, rest: string)
    requires TypedMessage(m) && EncodeRecord(m).Ok?
    ensures Body(m).Ok?
    ensures var s := EncodeRecord(m).value + rest;
      |s| >= 2 && U16At(s, 0) == 2 && ParseRecord(s, m.origin, m.destination) == Ok((Reparsed(m), rest))
  {
    hide ParseFields, ReadMessage, Utf8, U16At, RecordHead, TypedMessage, Body, DateTime.ParseDateTime;
    var toUser, fromUser := Bounded("ToUserName", m.toUser, 36).value, Bounded("FromUserName", m.fromUser, 36).value;
    var subject, body := Bounded("Subject", m.subject, 72).value, Body(m).value;
    var tail := m.dateTime + "\0" + (toUser + (fromUser + (subject + (body + "\0" + rest))));
    assert EncodeRecord(m).value + rest == RecordHead(m) + tail;
    RecordWords(m, tail);
    DateTimeIsPlain(m.dateTime);
    BodyUtf8(m);
    FieldsBack(m, m.origin, m.destination, toUser, fromUser, subject, body, rest);
    assert |RecordHead(m) + tail| >= 34;
  }

  // The inside of the body.

  lemma AreaBack(area: string, rest: string)
    requires ValidArea(area)
    ensures SplitArea(AreaLine(Some(area)) + rest) == (Some(area), rest)
  {
    var body := AreaLine(Some(area)) + rest;
    assert body[..5] == "AREA:" && body[5..] == area + ['\r'] + rest;
    FindAfter(area, '\r', rest, "\r\n");
  }

  lemma NoAreaBeforeControls(controls: seq<Control>, text: string)
    requires controls != []
    ensures SplitArea(Paragraphs(controls) + text) == (None, Paragraphs(controls) + text)
  {
    var body := Paragraphs(controls) + text;
    assert body[0] == 1 as char && "AREA:"[0] == 'A';
  }

  /** Messages whose body says where its parts end. */
  predicate SelfDelimiting(m: PackedMessage) {
    && Reread(m.controls) == m.controls
    && !(m.text != [] && m.text[0] == 1 as char)
    && (m.area.None? && m.controls == [] ==> SplitArea(m.text).0.None?)
  }

  lemma BodySplits(m: PackedMessage)
    requires Body(m).Ok?
    ensures var whole := m.area.None? && m.controls == [] && SplitArea(m.text).0.Some?;
      if whole then SplitArea(Body(m).value).0.Some?
      else SplitArea(Body(m).value) == (m.area, Paragraphs(m.controls) + m.text)
  {
    hide ValidArea;
    var rest := Paragraphs(m.controls) + m.text;
    assert Body(m).value == AreaLine(m.area) + rest;
    if m.area.Some? {
      AreaBack(m.area.value, rest);
    } else {
      assert AreaLine(m.area) + rest == rest;
      if m.controls != [] { NoAreaBeforeControls(m.controls, m.text); } else { assert rest == m.text; }
    }
  }

  /** A written body is taken apart into the message it came from exactly when it is self-delimiting. */
  lemma BodyExactly(m: PackedMessage)
    requires Body(m).Ok?
    ensures Reparsed(m) == m <==> SelfDelimiting(m)
  {
    hide SplitArea, SplitControls, Paragraphs, Reread;
    BodySplits(m);
    SplitExactly(m.controls, m.text);
  }

  // Whole packets.

  ghost function Reparse(messages: seq<PackedMessage>): (r: seq<PackedMessage>)
    requires forall i :: 0 <= i < |messages| ==> Body(messages[i]).Ok?
    ensures |r| == |messages| && forall i :: 0 <= i < |r| ==> r[i] == Reparsed(messages[i])
  {
    seq(|messages|, i requires 0 <= i < |messages| => Reparsed(messages[i]))
  }

  lemma ReparseExactly(messages: seq<PackedMessage>)
    requires forall i :: 0 <= i < |messages| ==> Body(messages[i]).Ok?
    ensures Reparse(messages) == messages <==> forall i :: 0 <= i < |messages| ==> SelfDelimiting(messages[i])
  {
    hide Reparsed, SelfDelimiting, Body;
    forall i | 0 <= i < |messages| ensures Reparsed(messages[i]) == messages[i] <==> SelfDelimiting(messages[i]) {
      BodyExactly(messages[i]);
    }
  }

  lemma RecordOk(p: Packet, from: nat)
    requires from < |p.messages| && EncodeRecords(p, from).Ok?
    ensures EncodeRecord(p.messages[from]).Ok? && Body(p.messages[from]).Ok? && EncodeRecords(p, from + 1).Ok?
    ensures EncodeRecords(p, from).value == EncodeRecord(p.messages[from]).value + EncodeRecords(p, from + 1).value
    ensures var m := p.messages[from];
      && m.origin == p.origin.(net := m.origin.net, node := m.origin.node)
      && m.destination == p.destination.(net := m.destination.net, node := m.destination.node)
  {
    hide Bounded, Body, RecordHead, DateTime.ParseDateTime;
  }

  lemma ParseRecordEndpoints(input: string, a: Endpoint, b: Endpoint, m: PackedMessage)
    requires m.origin == a.(net := m.origin.net, node := m.origin.node)
    requires m.destination == b.(net := m.destination.net, node := m.destination.node)
    ensures ParseRecord(input, a, b) == ParseRecord(input, m.origin, m.destination)
  {
  }

  lemma {:induction false} BodiesOk(p: Packet, from: nat)
    requires from <= |p.messages| && EncodeRecords(p, from).Ok?
    ensures forall i :: from <= i < |p.messages| ==> Body(p.messages[i]).Ok?
    decreases |p.messages| - from
  {
    hide Body, EncodeRecord;
    if from < |p.messages| {
      RecordOk(p, from);
      BodiesOk(p, from + 1);
    }
  }

  lemma {:induction false} RecordsBack(p: Packet, from: nat)
    requires from <= |p.messages| && Typed(p) && EncodeRecords(p, from).Ok?
    ensures forall i :: 0 <= i < |p.messages[from..]| ==> Body(p.messages[from..][i]).Ok?
    ensures ParseRecords(EncodeRecords(p, from).value, p.origin, p.destination) == Ok(Reparse(p.messages[from..]))
    decreases |p.messages| - from
  {
    hide Body, EncodeRecord, Reparsed, TypedMessage, ParseRecord, U16At;
    BodiesOk(p, from);
    if from < |p.messages| {
      var m, later := p.messages[from], EncodeRecords(p, from + 1).value;
      RecordOk(p, from);
      RecordBack(m, later);
      ParseRecordEndpoints(EncodeRecord(m).value + later, p.origin, p.destination, m);
      RecordsBack(p, from + 1);
      assert Reparse(p.messages[from..]) == [Reparsed(m)] + Reparse(p.messages[from + 1..]);
    } else {
      WordBack(0, Put(0), 0);
    }
  }

  /**
   Reading back what was written gives the packet exactly when every message is self-delimiting and
   a point's net is not zero.
   */
  lemma PacketRoundTrip(p: Packet, o: Options)
    requires Typed(p) && Encode(p, o).Ok?
    ensures Parse(Encode(p, o).value) == Ok(p) <==>
      && !(p.origin.point != 0 && p.origin.net == 0)
      && forall i :: 0 <= i < |p.messages| ==> SelfDelimiting(p.messages[i])
  {
    hide EncodeHeader, EncodeRecords, ParseHeader, ParseRecords, TypedMessage, SelfDelimiting, Body, Reparsed;
    HeaderBack(p, o, EncodeRecords(p, 0).value);
    RecordsBack(p, 0);
    assert p.messages[0..] == p.messages;
    ReparseExactly(p.messages);
  }
}
