/** What it takes for the inverse to arrive at the signed bytes: it must resolve what no field of its own tells it. */
module Tracing {
  import opened Wrappers
  import opened Integers
  import opened LegacyText
  import opened Text
  import opened Wire
  import opened Convert
  import opened Controls
  import opened Canonical
  import opened Children
  import opened Inverse
  import Address
  import Base64
  import DateTime
  import Packet

  /** What the types of the source promise: a Signature is 64 bytes, and bytes are bytes. */
  ghost predicate SigningBytes(read: ReadMessage) {
    && AllBytes(read.signing.signedOrigin)
    && read.signing.signature.Some? && |read.signing.signature.value| == 64 && AllBytes(read.signing.signature.value)
  }

  lemma SigningEncodes(read: ReadMessage)
    requires SigningBytes(read)
    ensures |Base64.Encode(read.signing.signature.value)| == 86
    ensures Base64.Encode(read.signing.signedOrigin) == [] <==> read.signing.signedOrigin == []
    ensures Base64.Decode(Base64.Encode(read.signing.signedOrigin)) == Some(read.signing.signedOrigin)
  {
    hide Base64.Encode, Base64.Decode;
    Base64.EncodeLength(read.signing.signature.value);
    Base64.EncodeLength(read.signing.signedOrigin);
    Base64.DecodeEncode(read.signing.signedOrigin);
  }

  /** A message converted with its signing controls; no kludge line hides more of a SignedOrigin. */
  ghost predicate Exported(read: ReadMessage, context: Context, message: Packet.PackedMessage) {
    && SigningBytes(read) && Unhidden(read.data.kludges)
    && Converts(read, context, Base64.Encode(read.signing.signedOrigin), Base64.Encode(read.signing.signature.value),
                message)
  }

  /** The kludge lines gather to nothing, or to an error. */
  ghost predicate Unhidden(kludges: seq<string>) {
    Gather(Reading(kludges)).Ok? ==> Gather(Reading(kludges)).value == []
  }

  // Absent controls.

  lemma {:induction false} UnnamedIsSilent(controls: seq<Control>, name: string)
    requires Named(controls, name).None?
    ensures Silent(controls, name)
  {
    hide SameName;
    if controls != [] { UnnamedIsSilent(controls[1..], name); }
  }

  lemma KludgesQuiet(read: ReadMessage, signedOrigin: string, signature: string, ran: seq<seq<Control>>, name: string)
    requires |signature| == 86 && Typed(read) && Ran(read, signedOrigin, signature, ran)
    requires Named(Joined(ran), name).None?
    ensures Quiet(read.data.kludges, name)
  {
    hide SameName, Typed, RunSteps, StepGroups, SigningPayloads, ReadControl, Named;
    UnnamedIsSilent(Joined(ran), name);
    GroupIs(read, SigningPayloads(signedOrigin, signature), 8);
    RunPlainly(read.data.kludges);
    var front := ran[..8];
    assert ran == front + [ran[8]];
    JoinedSnoc(front, ran[8]);
    forall i | 0 <= i < |ran[8]| ensures !SameName(ran[8][i].name, name) {
      assert ran[8][i] == Joined(ran)[|Joined(front)| + i];
    }
  }

  // Equal bytes, equal origins.

  lemma TlvTells(a: Tlv, b: Tlv, x: Bytes, y: Bytes)
    requires EncodeTlv(a) + x == EncodeTlv(b) + y && |EncodeTlv(a) + x| <= MAX_U64
    requires 1 <= a.typeCode <= 121 && 1 <= b.typeCode <= 121
    ensures a == b
  {
    assert |a.value| <= |EncodeTlv(a)| && |b.value| <= |EncodeTlv(b)|;
    OneRoundTrip(a, 121, x);
    OneRoundTrip(b, 121, y);
  }

  lemma OriginTells(a: Address.Address, b: Address.Address, key: Option<Bytes>, x: Bytes, y: Bytes)
    requires Address.Valid(a) && Address.Valid(b)
    requires EncodeAll(OriginChildren(a, key)) + x == EncodeAll(OriginChildren(b, key)) + y
    requires |EncodeAll(OriginChildren(a, key)) + x| <= MAX_U64
    ensures a == b
  {
    hide Address.Valid, Address.Display, Address.Parse, EncodeTlv, EncodeAll;
    var more := Optional(PUBLIC_KEY, key);
    var s, t := Tlv(ORIGIN, Address.Display(a)), Tlv(ORIGIN, Address.Display(b));
    EncodeAllStep(s, more);
    EncodeAllStep(t, more);
    assert (EncodeTlv(s) + EncodeAll(more)) + x == EncodeTlv(s) + (EncodeAll(more) + x);
    assert (EncodeTlv(t) + EncodeAll(more)) + y == EncodeTlv(t) + (EncodeAll(more) + y);
    TlvTells(s, t, EncodeAll(more) + x, EncodeAll(more) + y);
    Address.AddressRoundTrip(Address.Display(a), a);
    Address.AddressRoundTrip(Address.Display(b), b);
  }

  /** The two halves of the signed bytes are told apart. */
  lemma RegionTells(a: Address.Address, b: Address.Address, key: Option<Bytes>, signedOrigin: Bytes,
                    back: Bytes, children: Bytes)
    requires Address.Valid(a) && Address.Valid(b)
    requires EncodeAll(OriginChildren(a, key)) + signedOrigin + back
          == EncodeAll(OriginChildren(b, key)) + signedOrigin + children
    requires |EncodeAll(OriginChildren(b, key)) + signedOrigin + children| <= MAX_U64
    ensures a == b && back == children
  {
    hide Address.Valid, OriginChildren, EncodeAll;
    var x, y := signedOrigin + back, signedOrigin + children;
    var s, t := EncodeAll(OriginChildren(a, key)), EncodeAll(OriginChildren(b, key));
    assert (s + signedOrigin) + back == s + x && (t + signedOrigin) + children == t + y;
    OriginTells(a, b, key, x, y);
    assert (s + x)[|s| + |signedOrigin|..] == back && (t + y)[|t| + |signedOrigin|..] == children;
  }

  // The rebuilt sections.

  lemma {:induction false} ReadFilesOnly(listed: seq<string>, attachments: seq<Attachment>)
    requires ReadFiles(listed, attachments).Ok?
    ensures Only(ReadFiles(listed, attachments).value, FILE)
    decreases |listed|
  {
    if listed != [] { ReadFilesOnly(listed[1..], attachments[1..]); }
  }

  lemma RebuiltTypes(message: Packet.PackedMessage, context: Context, read: ReadMessage)
    requires read.data.replyTo.Some? ==> Address.Valid(read.data.replyTo.value.0)
    requires Rebuilt(message, context, read).Ok?
    ensures |Rebuilt(message, context, read).value| == 10 && Sectioned(Rebuilt(message, context, read).value)
  {
    hide Address.Valid, Address.Display, Address.Parse, EncodeAll, EncodeTlv, EncodeNumber, EncodeSigned, BodyFields,
         DateTime.ParseDateTime, ReadOffset, Named, SignedBits, FileAttached, NonEmpty, Split, ReadFiles, NativeArea;
    if FileAttached(message.attributes) {
      ReadFilesOnly(NonEmpty(Split(message.subject, ' ')), read.data.attachments);
    }
  }

  lemma AreaNameTells(name: string, area: Area)
    requires AreaChild(Area(name, None)) == AreaChild(area) && |AreaChild(area).value| <= MAX_U64
    ensures name == area.name
  {
    hide EncodeAll;
    var a, b := [Tlv(AREA_NAME, name)], [Tlv(AREA_NAME, area.name)] + Optional(AREA_DESCRIPTION, area.description);
    assert a + Optional(AREA_DESCRIPTION, None) == a;
    BytesTell(a, b);
    assert b[0] == a[0];
  }

  /** Where the rebuilt children are those of the message, each look-up found what the message holds. */
  lemma SectionsTrace(message: Packet.PackedMessage, context: Context, read: ReadMessage)
    requires Typed(read) && Rebuilt(message, context, read).Ok?
    requires Joined(Rebuilt(message, context, read).value) == SignedChildren(read.data)
    requires |EncodeAll(SignedChildren(read.data))| <= MAX_U64
    requires read.data.area.Some? <==> message.area.Some?
    ensures var id := Named(message.controls, "MSGID");
      read.data.messageId == if id.Some? then Some(id.value.value) else None
    ensures read.data.destination.None? ==> Named(message.controls, "MSGTO").None?
    ensures read.data.replyTo.None? ==> Named(message.controls, "REPLY").None?
    ensures read.data.area.Some? ==> NativeArea(context.areaTags, message.area.value) == Some(read.data.area.value.name)
  {
    hide Address.Valid, Address.Display, Address.Parse, EncodeAll, EncodeTlv, EncodeNumber, EncodeSigned, BodyFields,
         DateTime.ParseDateTime, ReadOffset, Named, SignedBits, FileAttached, NonEmpty, Split, ReadFiles, NativeArea,
         AreaChild, FileChildren, Joined, Pick, Sectioned;
    var a, b := Rebuilt(message, context, read).value, Sections(read.data);
    RebuiltTypes(message, context, read);
    SectionTypes(read.data);
    SameSection(a, b, 8, MESSAGE_ID);
    SameSection(a, b, 2, AREA);
    if read.data.area.Some? {
      var area := read.data.area.value;
      AreaFits(read.data);
      AreaNameTells(NativeArea(context.areaTags, message.area.value).value, area);
    }
    if read.data.destination.None? {
      SectionOf(a, 0, DESTINATION);
      SectionOf(b, 0, DESTINATION);
      PickOnly(a[0], DESTINATION);
      PickNothing(DESTINATION);
    }
  }

  lemma {:induction false} JoinedHas(sections: seq<seq<Tlv>>, j: nat, t: Tlv)
    requires j < |sections| && t in sections[j]
    ensures t in Joined(sections)
  {
    if j > 0 { JoinedHas(sections[1..], j - 1, t); }
  }

  lemma AreaFits(data: MessageData)
    requires Fine(data) && data.area.Some? && |EncodeAll(SignedChildren(data))| <= MAX_U64
    ensures |AreaChild(data.area.value).value| <= MAX_U64
  {
    hide Address.Valid, EncodeAll, AreaChild, DestinationChildren, FileChildren, Required, Joined;
    var area := AreaChild(data.area.value);
    assert Sections(data)[2] == [area];
    JoinedHas(Sections(data), 2, area);
    ValuesFit(Joined(Sections(data)));
  }

  /** Whenever the inverse gives back the signed bytes, it resolved what it had to. */
  lemma ReconstructedIsTraceable(read: ReadMessage, context: Context, message: Packet.PackedMessage)
    requires Exported(read, context, message) && |SignedRegion(read)| <= MAX_U64
    requires Reconstruct(message, context, read) == Ok(SignedRegion(read))
    ensures Traceable(read, context)
  {
    hide Base64.Encode, Base64.Decode, Build, Rebuilt, Joined, Sections, Named, Gather, Reading, EncodeAll,
         OriginChildren, Address.Valid, Address.Parse, Address.Display, FirstWord, Ran, Quiet, NativeArea, AreaTag,
         Sectioned, Assigned;
    var signedOrigin, signature := Base64.Encode(read.signing.signedOrigin),
      Base64.Encode(read.signing.signature.value);
    SigningEncodes(read);
    BuildParts(read, context, signedOrigin, signature, message);
    var ran := BuildGroups(read, context, signedOrigin, signature, message);
    GatherBack(read, signedOrigin, signature, ran);
    assert signedOrigin + [] == signedOrigin;
    var id := Named(message.controls, "MSGID").value;
    var origin := ParsedAddress(FirstWord(id.value), "a MSGID origin which is not a TTS address").value;
    var sections := Rebuilt(message, context, read).value;
    RegionTells(origin, read.signing.origin, read.signing.originKey, read.signing.signedOrigin,
                EncodeAll(Joined(sections)), EncodeAll(SignedChildren(read.data)));
    RebuiltTypes(message, context, read);
    SectionTypes(read.data);
    SectionsAssigned(sections);
    SectionsAssigned(Sections(read.data));
    BytesTell(Joined(sections), SignedChildren(read.data));
    SectionsTrace(message, context, read);
    if read.data.destination.None? { KludgesQuiet(read, signedOrigin, signature, ran, "MSGTO"); }
    if read.data.replyTo.None? { KludgesQuiet(read, signedOrigin, signature, ran, "REPLY"); }
  }
}
