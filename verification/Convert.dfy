/**
 Conversion of a native Message into a legacy packed message, and the inverse that
 an exporter runs on its own output before it lets the message carry a signature.

 Texts are UTF-8 code units and byte strings are strings of bytes. Signature checking is a
 parameter, and so are the formatted tails of Via lines and the SPTH list.
 */
module Convert {
  import opened Wrappers
  import opened Integers
  import opened LegacyText
  import opened Text
  import opened Wire
  import Address
  import Base64
  import Body
  import DateTime
  import Footer
  import Packet
  import Timezone

  // Native messages.

  datatype Identity = Identity(address: Address.Address, key: Bytes)

  datatype Area = Area(name: string, description: Option<string>)

  /** `metadata` holds the children a File carries after its Contents. */
  datatype Attachment = Attachment(filename: Option<string>, timestamp: Option<nat>, contents: Bytes,
                                   metadata: seq<Tlv>)

  datatype MessageData = MessageData(
    destination: Option<Identity>, timestamp: nat, toUser: string, fromUser: string, subject: string, text: string,
    area: Option<Area>, attachments: seq<Attachment>, legacyAttributes: Option<nat>, timestampOffset: Option<int>,
    tearLine: Option<string>, originLine: Option<string>, messageId: Option<string>,
    replyTo: Option<(Address.Address, string)>, originalCharacterSet: Option<string>, kludges: seq<string>)

  /** The key of an anonymous Origin follows it; SignedOrigin and its key are kept as encoded. */
  datatype Signing = Signing(origin: Address.Address, originKey: Option<Bytes>, signedOrigin: Bytes,
                             signature: Option<Bytes>)

  datatype ReadMessage = ReadMessage(data: MessageData, signing: Signing, vias: seq<string>, path: string,
                                     seenBy: seq<Address.Address>)

  /** Trusted local facts; `areaTags` lists native names with their legacy tags, in order of name. */
  datatype Context = Context(packetOrigin: Address.Address, packetDestination: Address.Address, domain: string,
                             areaTags: seq<(string, string)>)

  datatype ConvertError =
    | Legacy(what: string) | AnonymousAddress | Unrepresentable(what: string) | Missing(what: string)

  // Type assignments.

  const ORIGIN: nat := 1
  const TIMESTAMP: nat := 5
  const DESTINATION: nat := 6
  const ADDRESS: nat := 7
  const PUBLIC_KEY: nat := 8
  const FILE: nat := 65
  const FILENAME: nat := 96
  const CONTENTS: nat := 97
  const LEGACY_ATTRIBUTES: nat := 101
  const TIMESTAMP_OFFSET: nat := 102
  const TO_USER_NAME: nat := 103
  const FROM_USER_NAME: nat := 104
  const SUBJECT: nat := 105
  const MESSAGE_TEXT: nat := 106
  const AREA: nat := 107
  const AREA_NAME: nat := 108
  const AREA_DESCRIPTION: nat := 109
  const TEAR_LINE: nat := 110
  const ORIGIN_LINE: nat := 111
  const MESSAGE_ID: nat := 114
  const REPLY_TO: nat := 115
  const ORIGINAL_CHARACTER_SET: nat := 116

  /** What the source's types guarantee. */
  ghost predicate Typed(read: ReadMessage) {
    && Address.Valid(read.signing.origin) && (read.signing.originKey.Some? <==> read.signing.origin.zone == -1)
    && (read.data.destination.Some? ==> Address.Valid(read.data.destination.value.address))
    && (read.data.replyTo.Some? ==> Address.Valid(read.data.replyTo.value.0))
    && (read.data.legacyAttributes.Some? ==> read.data.legacyAttributes.value <= MAX_U64)
    && (forall i :: 0 <= i < |read.seenBy| ==> Address.Valid(read.seenBy[i]))
  }

  ghost predicate TypedContext(context: Context) {
    Address.Valid(context.packetOrigin) && Address.Valid(context.packetDestination)
  }

  // The signed region.

  function Optional(typeCode: nat, value: Option<Bytes>): seq<Tlv> {
    if value.Some? then [Tlv(typeCode, value.value)] else []
  }

  function OptionalNumber(typeCode: nat, value: Option<nat>): seq<Tlv> {
    if value.Some? then [Tlv(typeCode, EncodeNumber(value.value))] else []
  }

  function OriginChildren(origin: Address.Address, key: Option<Bytes>): seq<Tlv>
    requires Address.Valid(origin)
  {
    [Tlv(ORIGIN, Address.Display(origin))] + Optional(PUBLIC_KEY, key)
  }

  function DestinationChildren(destination: Option<Identity>): seq<Tlv>
    requires destination.Some? ==> Address.Valid(destination.value.address)
  {
    if destination.None? then []
    else
      [Tlv(DESTINATION, Address.Display(destination.value.address))]
      + (if destination.value.address.zone == -1 then [Tlv(PUBLIC_KEY, destination.value.key)] else [])
  }

  function AreaChild(area: Area): Tlv {
    Tlv(AREA, EncodeAll([Tlv(AREA_NAME, area.name)] + Optional(AREA_DESCRIPTION, area.description)))
  }

  function FileChild(filename: Option<string>, timestamp: Option<nat>, contents: Bytes, metadata: seq<Tlv>): Tlv {
    Tlv(FILE, EncodeAll(Optional(FILENAME, filename) + OptionalNumber(TIMESTAMP, timestamp) + [Tlv(CONTENTS, contents)]
                        + metadata))
  }

  function FileChildren(attachments: seq<Attachment>): seq<Tlv> {
    if attachments == [] then []
    else
      var a := attachments[0];
      [FileChild(a.filename, a.timestamp, a.contents, a.metadata)] + FileChildren(attachments[1..])
  }

  function ReplyChild(address: Address.Address, identifier: string): Tlv
    requires Address.Valid(address)
  {
    Tlv(REPLY_TO, EncodeTlv(Tlv(ADDRESS, Address.Display(address))) + identifier)
  }

  function Required(timestamp: nat, toUser: string, fromUser: string, subject: string, text: string): seq<Tlv> {
    [Tlv(TIMESTAMP, EncodeNumber(timestamp)), Tlv(TO_USER_NAME, toUser), Tlv(FROM_USER_NAME, fromUser),
     Tlv(SUBJECT, subject), Tlv(MESSAGE_TEXT, text)]
  }

  /** The signed children after Origin and SignedOrigin, in order, kind by kind. */
  function Sections(data: MessageData): seq<seq<Tlv>>
    requires data.destination.Some? ==> Address.Valid(data.destination.value.address)
    requires data.replyTo.Some? ==> Address.Valid(data.replyTo.value.0)
  {
    [DestinationChildren(data.destination),
     Required(data.timestamp, data.toUser, data.fromUser, data.subject, data.text),
     if data.area.Some? then [AreaChild(data.area.value)] else [],
     FileChildren(data.attachments),
     OptionalNumber(LEGACY_ATTRIBUTES, data.legacyAttributes),
     if data.timestampOffset.Some? then [Tlv(TIMESTAMP_OFFSET, EncodeSigned(data.timestampOffset.value))] else [],
     Optional(TEAR_LINE, data.tearLine),
     Optional(ORIGIN_LINE, data.originLine),
     Optional(MESSAGE_ID, data.messageId),
     if data.replyTo.Some? then [ReplyChild(data.replyTo.value.0, data.replyTo.value.1)] else [],
     Optional(ORIGINAL_CHARACTER_SET, data.originalCharacterSet)]
  }

  function SignedChildren(data: MessageData): seq<Tlv>
    requires data.destination.Some? ==> Address.Valid(data.destination.value.address)
    requires data.replyTo.Some? ==> Address.Valid(data.replyTo.value.0)
  {
    Joined(Sections(data))
  }

  /** The bytes a Signature covers. */
  function SignedRegion(read: ReadMessage): Bytes
    requires Address.Valid(read.signing.origin)
    requires read.data.destination.Some? ==> Address.Valid(read.data.destination.value.address)
    requires read.data.replyTo.Some? ==> Address.Valid(read.data.replyTo.value.0)
  {
    EncodeAll(OriginChildren(read.signing.origin, read.signing.originKey)) + read.signing.signedOrigin
    + EncodeAll(SignedChildren(read.data))
  }

  // Attribute bits. The signed mask is bits 0, 1, 12, 13 and 14; bit 4 marks attached files.

  function SignedBits(n: nat): nat {
    n % 4 + n / 4096 % 8 * 4096
  }

  predicate FileAttached(n: nat) {
    n / 16 % 2 == 1
  }

  // Building.

  /** Payloads in order, or the error met while making one. */
  type Steps = seq<Result<string, ConvertError>>

  function AddressText(a: Address.Address): Result<string, ConvertError>
    requires Address.Valid(a)
  {
    if a.zone == -1 then Err(AnonymousAddress)
    else Ok(Address.Int(a.zone) + ":" + Address.Int(a.net) + "/" + Address.Int(a.node))
  }

  function InternationalStep(destination: Address.Address, origin: Address.Address): Result<string, ConvertError>
    requires Address.Valid(destination) && Address.Valid(origin)
  {
    var to, from := AddressText(destination), AddressText(origin);
    if to.Err? then to else if from.Err? then from else Ok("INTL" + " " + (to.value + " " + from.value))
  }

  function AddressSteps(destination: Option<Identity>, origin: Address.Address): Steps
    requires Address.Valid(origin) && (destination.Some? ==> Address.Valid(destination.value.address))
  {
    if destination.None? then []
    else
      var to := destination.value.address;
      [Ok("MSGTO" + ": " + Address.Display(to)), InternationalStep(to, origin)]
      + (if to.point != 0 then [Ok("TOPT" + " " + Address.Int(to.point))] else [])
      + (if origin.point != 0 then [Ok("FMPT" + " " + Address.Int(origin.point))] else [])
  }

  predicate ValidFileSpec(name: string) {
    name != [] && Free(name, "\0 ,/\\") && name != "." && name != ".."
  }

  function AttachmentSteps(attachments: seq<Attachment>): Steps {
    if attachments == [] then []
    else
      var name := attachments[0].filename;
      [if name.None? then Err(Unrepresentable("an attached File without Filename"))
       else if !ValidFileSpec(name.value) then Err(Unrepresentable("attached Filename"))
       else Ok("ASSOC" + ": " + name.value)] + AttachmentSteps(attachments[1..])
  }

  function PathStep(path: string): Result<string, ConvertError> {
    if |"SPTH" + ": " + path| + 2 > 80 then Err(Unrepresentable("an SPTH line beyond 80 bytes"))
    else Ok("SPTH" + ": " + path)
  }

  function ZoneStep(offset: int): Result<string, ConvertError> {
    var zone := Timezone.Format(offset);
    if zone.None? then Err(Unrepresentable("a TimestampOffset")) else Ok("TZUTC" + ": " + zone.value)
  }

  function Plainly(payloads: seq<string>): Steps {
    if payloads == [] then [] else [Ok(payloads[0])] + Plainly(payloads[1..])
  }

  function Labelled(title: string, value: Option<string>): Steps {
    if value.Some? then [Ok(title + ": " + value.value)] else []
  }

  function Offset(data: MessageData): int {
    if data.timestampOffset.Some? then data.timestampOffset.value else 0
  }

  function ReplyIdentifier(data: MessageData): Option<string> {
    if data.replyTo.Some? then Some(data.replyTo.value.1) else None
  }

  /** The control block in groups: character set, signing, identity, addressing, zone, attachments, path and kludges. */
  function StepGroups(read: ReadMessage, signing: seq<string>): seq<Steps>
    requires Address.Valid(read.signing.origin)
    requires read.data.destination.Some? ==> Address.Valid(read.data.destination.value.address)
  {
    [[Ok("CHRS" + ": " + "UTF-8 4")],
     Plainly(signing),
     Labelled("MSGID", read.data.messageId),
     Labelled("REPLY", ReplyIdentifier(read.data)),
     AddressSteps(read.data.destination, read.signing.origin),
     [ZoneStep(Offset(read.data))],
     AttachmentSteps(read.data.attachments),
     if read.data.area.Some? then [PathStep(read.path)] else [],
     Plainly(read.data.kludges)]
  }

  function Joined<T>(groups: seq<seq<T>>): seq<T> {
    if groups == [] then [] else groups[0] + Joined(groups[1..])
  }

  /** Each payload becomes a control; the first error, or the first payload no paragraph can carry, ends it. */
  function RunSteps(steps: Steps): Result<seq<Control>, ConvertError> {
    if steps == [] then Ok([])
    else if steps[0].Err? then Err(steps[0].error)
    else if !Carriable(steps[0].value) then Err(Legacy("control paragraph payload"))
    else
      var later := RunSteps(steps[1..]);
      if later.Err? then later else Ok([ReadControl(steps[0].value)] + later.value)
  }

  /** Via paragraphs after NetMail text. */
  function ViaParagraphs(vias: seq<string>): Option<string> {
    if vias == [] then Some("")
    else if !Carriable("Via " + vias[0]) then None
    else
      var later := ViaParagraphs(vias[1..]);
      if later.None? then None else Some(Paragraph("Via " + vias[0]) + later.value)
  }

  function WarningText(warning: Option<string>): Option<string> {
    if warning.None? then Some("")
    else
      var body := Body.EncodeBody(warning.value);
      if body.None? then None else Some(body.value + "\r")
  }

  function BodyText(read: ReadMessage, context: Context, warning: Option<string>): Result<string, ConvertError>
    requires context.packetOrigin.zone != -1 && forall i :: 0 <= i < |read.seenBy| ==> Address.Valid(read.seenBy[i])
  {
    var before, text := WarningText(warning), Body.EncodeBody(read.data.text);
    if before.None? || text.None? then Err(Legacy("U+0000 in MessageText"))
    else if read.data.area.Some? then
      var footer := Footer.Footer(read.data.tearLine, read.data.originLine,
                                  Footer.Representable(read.seenBy, context.domain, context.packetOrigin.zone));
      if footer.Err? then Err(Unrepresentable(footer.error)) else Ok(before.value + text.value + footer.value)
    else
      var vias := ViaParagraphs(read.vias);
      if vias.None? then Err(Legacy("control paragraph payload")) else Ok(before.value + text.value + vias.value)
  }

  function AreaTag(tags: seq<(string, string)>, name: string): Option<string> {
    if tags == [] then None else if tags[0].0 == name then Some(tags[0].1) else AreaTag(tags[1..], name)
  }

  function NativeArea(tags: seq<(string, string)>, tag: string): Option<string> {
    if tags == [] then None else if tags[0].1 == tag then Some(tags[0].0) else NativeArea(tags[1..], tag)
  }

  /** File names joined by spaces. */
  function FileList(attachments: seq<Attachment>): string {
    if attachments == [] then ""
    else
      Footer.OrEmpty(attachments[0].filename)
      + (if |attachments| == 1 then "" else " " + FileList(attachments[1..]))
  }

  function EndpointOf(a: Address.Address): Packet.Endpoint
    requires Address.Valid(a) && a.zone != -1
  {
    Packet.Endpoint(a.zone, a.net, a.node, a.point)
  }

  /** Local seconds, when they fit. */
  function LocalTime(data: MessageData): Option<int> {
    if data.timestamp > MAX_I64 || !(-MAX_I64 - 1 <= data.timestamp + Offset(data) <= MAX_I64) then None
    else Some(data.timestamp + Offset(data))
  }

  function Attributes(data: MessageData): Packet.U16 {
    SignedBits(if data.legacyAttributes.Some? then data.legacyAttributes.value else 0)
    + (if data.attachments != [] then 16 else 0)
  }

  function Build(read: ReadMessage, context: Context, warning: Option<string>, signing: seq<string>)
    : Result<Packet.PackedMessage, ConvertError>
    requires Address.Valid(read.signing.origin) && Address.Valid(context.packetOrigin)
      && Address.Valid(context.packetDestination)
    requires read.data.destination.Some? ==> Address.Valid(read.data.destination.value.address)
    requires forall i :: 0 <= i < |read.seenBy| ==> Address.Valid(read.seenBy[i])
  {
    var data, local := read.data, LocalTime(read.data);
    if local.None? then Err(Unrepresentable("Timestamp"))
    else
      var controls := RunSteps(Joined(StepGroups(read, signing)));
      if controls.Err? then Err(controls.error)
      else if context.packetOrigin.zone == -1 || context.packetDestination.zone == -1 then Err(AnonymousAddress)
      else
        var text, dateTime := BodyText(read, context, warning), DateTime.FormatDateTime(local.value);
        if text.Err? then Err(text.error)
        else if data.attachments != [] && data.subject != [] then
          Err(Unrepresentable("a Subject alongside attached files"))
        else if dateTime.Err? then Err(Legacy("timestamp"))
        else
          var tag := if data.area.Some? then AreaTag(context.areaTags, data.area.value.name) else None;
          if data.area.Some? && tag.None? then Err(Missing("legacy tag for this AreaName"))
          else
            Ok(Packet.PackedMessage(
              EndpointOf(context.packetOrigin), EndpointOf(context.packetDestination), Attributes(data), dateTime.value,
              data.toUser, data.fromUser, if data.attachments != [] then FileList(data.attachments) else data.subject,
              controls.value, text.value, tag))
  }

  // The TITHSIGN and TITHSIG groups.

  function Chunks(encoded: string): seq<string> {
    if |encoded| <= 43 then [encoded] else [encoded[..43]] + Chunks(encoded[43..])
  }

  function SignedOriginPayloads(chunks: seq<string>): seq<string> {
    if chunks == [] then []
    else
      ["TITHSIGN" + ": " + ("1 " + (if |chunks| == 1 then ". " else "+ ") + chunks[0])]
      + SignedOriginPayloads(chunks[1..])
  }

  /** The signing controls for an encoded SignedOrigin, if any, and an encoded Signature. */
  function SigningPayloads(signedOrigin: string, signature: string): seq<string>
    requires |signature| == 86
  {
    (if signedOrigin == [] then [] else SignedOriginPayloads(Chunks(signedOrigin)))
    + ["TITHSIG" + ": " + ("1 " + signature[..43]), "TITHSIG" + ": " + ("1 " + signature[43..])]
  }

  // Reconstruction.

  function Lower(c: char): char {
    if 'A' <= c <= 'Z' then (c as int + 32) as char else c
  }

  /** Comparison without ASCII case. */
  predicate SameName(a: string, b: string) {
    |a| == |b| && forall i :: 0 <= i < |a| ==> Lower(a[i]) == Lower(b[i])
  }

  function Named(controls: seq<Control>, name: string): Option<Control> {
    if controls == [] then None
    else if SameName(controls[0].name, name) then Some(controls[0])
    else Named(controls[1..], name)
  }

  function FirstWord(value: string): string {
    Split(value, ' ')[0]
  }

  /** The chunk in a TITHSIGN value. */
  function ChunkOf(value: string): Result<string, ConvertError> {
    if !("1 " <= value) then Err(Unrepresentable("a TITHSIGN version"))
    else if "+ " <= value[2..] || ". " <= value[2..] then Ok(value[4..])
    else Err(Unrepresentable("a TITHSIGN marker"))
  }

  function Gather(controls: seq<Control>): Result<string, ConvertError> {
    if controls == [] then Ok("")
    else if !SameName(controls[0].name, "TITHSIGN") then Gather(controls[1..])
    else
      var chunk := ChunkOf(controls[0].value);
      if chunk.Err? then chunk
      else
        var later := Gather(controls[1..]);
        if later.Err? then later else Ok(chunk.value + later.value)
  }

  function ParsedAddress(text: string, what: string): (r: Result<Address.Address, ConvertError>)
    ensures r.Ok? ==> Address.Parse(text) == Ok(r.value) && Address.Valid(r.value)
  {
    var a := Address.Parse(text);
    if a.Err? then Err(Unrepresentable(what))
    else
      Address.AddressRoundTrip(text, a.value);
      Ok(a.value)
  }

  function ReadDestination(controls: seq<Control>): Result<seq<Tlv>, ConvertError> {
    var named := Named(controls, "MSGTO");
    if named.None? then Ok([])
    else
      var address := ParsedAddress(named.value.value, "a MSGTO which is not a TTS address");
      if address.Err? then Err(address.error) else Ok([Tlv(DESTINATION, Address.Display(address.value))])
  }

  function ReadOffset(controls: seq<Control>): Option<int> {
    var named := Named(controls, "TZUTC");
    if named.None? then None else Timezone.Parse(named.value.value)
  }

  function NonEmpty(words: seq<string>): seq<string> {
    if words == [] then [] else (if words[0] == [] then [] else [words[0]]) + NonEmpty(words[1..])
  }

  /** File children from the FileList and the staged contents. */
  function ReadFiles(listed: seq<string>, attachments: seq<Attachment>): Result<seq<Tlv>, ConvertError> {
    if |listed| != |attachments| then Err(Unrepresentable("a FileList which does not match the File children"))
    else if listed == [] then Ok([])
    else if attachments[0].filename != Some(listed[0]) then Err(Unrepresentable("a reordered FileList"))
    else
      var later := ReadFiles(listed[1..], attachments[1..]);
      if later.Err? then later
      else Ok([FileChild(Some(listed[0]), attachments[0].timestamp, attachments[0].contents, [])] + later.value)
  }

  /** The Via paragraph a body ends in, if any. */
  function LastVia(body: string): Option<nat> {
    var at := LastMark(body, |body|);
    if at.None? then None
    else
      var after := body[at.value + 1..];
      var paragraph := if after != [] && after[|after| - 1] == '\r' then after[..|after| - 1] else after;
      if "Via " <= paragraph && Free(paragraph, "\r") then at else None
  }

  /** The last byte 0x01 before `end`. */
  function LastMark(s: string, end: nat): (r: Option<nat>)
    requires end <= |s|
    ensures r.Some? ==> r.value < end && s[r.value] == 1 as char
    ensures forall i :: (if r.Some? then r.value + 1 else 0) <= i < end ==> s[i] != 1 as char
  {
    if end == 0 then None else if s[end - 1] == 1 as char then Some(end - 1) else LastMark(s, end - 1)
  }

  function StripVias(body: string): string
    decreases |body|
  {
    var via := LastVia(body);
    if via.None? then body else StripVias(body[..via.value])
  }

  /** `message_body_fields`. */
  function BodyFields(message: Packet.PackedMessage): (string, Option<string>, Option<string>) {
    if message.area.Some? then
      var (text, footer) := Footer.SplitFooter(message.text);
      var (tear, origin) := Footer.ReadFooter(footer, None, None);
      (Body.DecodeBody(text), tear, origin)
    else (Body.DecodeBody(StripVias(message.text)), None, None)
  }

  function ReadArea(area: Option<string>, context: Context): Result<seq<Tlv>, ConvertError> {
    if area.None? then Ok([])
    else
      var name := NativeArea(context.areaTags, area.value);
      if name.None? then Err(Missing("a native AreaName for this legacy tag"))
      else Ok([AreaChild(Area(name.value, None))])
  }

  function ReadReply(controls: seq<Control>, replyTo: Option<(Address.Address, string)>): Result<seq<Tlv>, ConvertError>
    requires replyTo.Some? ==> Address.Valid(replyTo.value.0)
  {
    var named := Named(controls, "REPLY");
    if named.None? then Ok([])
    else if replyTo.None? then Err(Missing("a ReplyTo address"))
    else Ok([ReplyChild(replyTo.value.0, named.value.value)])
  }

  /** `finish_reconstruction` up to encoding: the children after Origin and SignedOrigin, kind by kind. */
  function Rebuilt(message: Packet.PackedMessage, context: Context, read: ReadMessage)
    : Result<seq<seq<Tlv>>, ConvertError>
    requires read.data.replyTo.Some? ==> Address.Valid(read.data.replyTo.value.0)
  {
    var destination, local := ReadDestination(message.controls), DateTime.ParseDateTime(message.dateTime);
    var offset := ReadOffset(message.controls);
    if destination.Err? then Err(destination.error)
    else if local.Err? then Err(Legacy("DateTime"))
    else if offset.None? then Err(Missing("a TZUTC to resolve the Timestamp"))
    else if local.value - offset.value < 0 then Err(Unrepresentable("a Timestamp before the epoch"))
    else
      var attach := FileAttached(message.attributes);
      var (text, tear, origin) := BodyFields(message);
      var area := ReadArea(message.area, context);
      var files := if attach then ReadFiles(NonEmpty(Split(message.subject, ' ')), read.data.attachments) else Ok([]);
      var reply := ReadReply(message.controls, read.data.replyTo);
      if area.Err? then Err(area.error)
      else if files.Err? then Err(files.error)
      else if reply.Err? then Err(reply.error)
      else
        var bits, id := SignedBits(message.attributes), Named(message.controls, "MSGID");
        Ok([destination.value,
            Required(local.value - offset.value, message.toUser, message.fromUser,
                     if attach then "" else message.subject, text),
            area.value,
            files.value,
            OptionalNumber(LEGACY_ATTRIBUTES, if bits != 0 then Some(bits) else None),
            if offset.value != 0 then [Tlv(TIMESTAMP_OFFSET, EncodeSigned(offset.value))] else [],
            Optional(TEAR_LINE, tear),
            Optional(ORIGIN_LINE, origin),
            Optional(MESSAGE_ID, if id.Some? then Some(id.value.value) else None),
            reply.value])
  }

  function Rebuild(message: Packet.PackedMessage, context: Context, read: ReadMessage): Result<seq<Tlv>, ConvertError>
    requires read.data.replyTo.Some? ==> Address.Valid(read.data.replyTo.value.0)
  {
    var sections := Rebuilt(message, context, read);
    if sections.Err? then Err(sections.error) else Ok(Joined(sections.value))
  }

  /** `reconstruct`: the bytes a canonical import would sign. */
  function Reconstruct(message: Packet.PackedMessage, context: Context, read: ReadMessage): Result<Bytes, ConvertError>
    requires read.data.replyTo.Some? ==> Address.Valid(read.data.replyTo.value.0)
  {
    var id := Named(message.controls, "MSGID");
    if id.None? then Err(Missing("a MSGID to resolve Origin from"))
    else
      var origin := ParsedAddress(FirstWord(id.value.value), "a MSGID origin which is not a TTS address");
      var encoded := Gather(message.controls);
      if origin.Err? then Err(origin.error)
      else if encoded.Err? then encoded
      else
        var signedOrigin := if encoded.value == [] then Some([]) else Base64.Decode(encoded.value);
        var children := Rebuild(message, context, read);
        if signedOrigin.None? then Err(Unrepresentable("a TITHSIGN encoding"))
        else if children.Err? then Err(children.error)
        else
          Ok(EncodeAll(OriginChildren(origin.value, read.signing.originKey)) + signedOrigin.value
             + EncodeAll(children.value))
  }
}
