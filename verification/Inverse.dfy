/** What the inverse conversion makes of a converted message, for every message the converter accepts. */
module Inverse {
  import opened Wrappers
  import opened LegacyText
  import opened Text
  import opened Wire
  import opened Convert
  import opened Controls
  import opened Canonical
  import Address
  import Body
  import DateTime
  import Footer
  import Packet
  import Timezone

  /**
   The inverse can resolve what it does not read from a field of its own: the MessageID starts
   with the Origin, no kludge line passes for a control that the message lacks or adds to its
   SignedOrigin, and the area tag leads back to its name.
   */
  ghost predicate Traceable(read: ReadMessage, context: Context) {
    && read.data.messageId.Some?
    && Address.Parse(FirstWord(read.data.messageId.value)) == Ok(read.signing.origin)
    && Gather(Reading(read.data.kludges)) == Ok("")
    && (read.data.destination.None? ==> Quiet(read.data.kludges, "MSGTO"))
    && (read.data.replyTo.None? ==> Quiet(read.data.kludges, "REPLY"))
    && (read.data.area.Some? ==>
          var tag := AreaTag(context.areaTags, read.data.area.value.name);
          tag.Some? ==> NativeArea(context.areaTags, tag.value) == Some(read.data.area.value.name))
  }

  function Bared(attachments: seq<Attachment>): (r: seq<Attachment>)
    ensures |r| == |attachments|
  {
    if attachments == [] then [] else [attachments[0].(metadata := [])] + Bared(attachments[1..])
  }

  /** The text that comes back. */
  function RetoldText(data: MessageData): string
    requires Body.EncodeBody(data.text).Some?
  {
    var body := Body.EncodeBody(data.text).value;
    Body.DecodeBody(if data.area.Some? then body else StripVias(body))
  }

  /** The message the inverse sees: everything the legacy form cannot tell apart is normalised. */
  function Retold(data: MessageData): MessageData
    requires Body.EncodeBody(data.text).Some?
  {
    var bits := SignedBits(if data.legacyAttributes.Some? then data.legacyAttributes.value else 0);
    data.(text := RetoldText(data),
          area := if data.area.Some? then Some(Area(data.area.value.name, None)) else None,
          attachments := Bared(data.attachments),
          legacyAttributes := if bits != 0 then Some(bits) else None,
          timestampOffset := if Offset(data) != 0 then Some(Offset(data)) else None,
          tearLine := if data.area.Some? then Some(Footer.OrEmpty(data.tearLine)) else None,
          originLine := if data.area.Some? then Some(Footer.OrEmpty(data.originLine)) else None,
          replyTo := if data.replyTo.None? then None
                     else Some((data.replyTo.value.0, SkipLeading(data.replyTo.value.1, ' '))),
          originalCharacterSet := None)
  }

  /** What the legacy form preserves. */
  ghost predicate Preserved(data: MessageData) {
    && Body.EncodeBody(data.text).Some? && Body.Conforming(data.text)
    && (data.area.None? ==> LastVia(Body.EncodeBody(data.text).value).None?)
    && (data.area.Some? ==> data.area.value.description.None?)
    && Bare(data.attachments)
    && (data.legacyAttributes.Some? ==>
        data.legacyAttributes.value != 0 && SignedBits(data.legacyAttributes.value) == data.legacyAttributes.value)
    && data.timestampOffset != Some(0)
    && (data.tearLine.Some? <==> data.area.Some?) && (data.originLine.Some? <==> data.area.Some?)
    && (data.replyTo.Some? ==> !(" " <= data.replyTo.value.1))
    && data.originalCharacterSet.None?
  }

  // A converted message, taken apart.

  ghost predicate Converts(read: ReadMessage, context: Context, signedOrigin: string, signature: string,
                           message: Packet.PackedMessage)
  {
    && Typed(read) && TypedContext(context) && |signature| == 86
    && Build(read, context, None, SigningPayloads(signedOrigin, signature)) == Ok(message)
  }

  /** The parts of a successful conversion. */
  lemma BuildParts(read: ReadMessage, context: Context, signedOrigin: string, signature: string,
                   message: Packet.PackedMessage)
    requires Converts(read, context, signedOrigin, signature, message)
    ensures RunSteps(Joined(StepGroups(read, SigningPayloads(signedOrigin, signature)))) == Ok(message.controls)
    ensures context.packetOrigin.zone != -1 && BodyText(read, context, None) == Ok(message.text)
    ensures DateTime.FormatDateTime(read.data.timestamp + Offset(read.data)) == Ok(message.dateTime)
    ensures message.attributes == Attributes(read.data) && message.toUser == read.data.toUser
      && message.fromUser == read.data.fromUser
    ensures message.subject
      == if read.data.attachments != [] then FileList(read.data.attachments) else read.data.subject
    ensures read.data.attachments != [] ==> read.data.subject == []
    ensures message.area == if read.data.area.Some? then AreaTag(context.areaTags, read.data.area.value.name) else None
    ensures read.data.area.Some? ==> message.area.Some?
  {
    hide RunSteps, Joined, StepGroups, SigningPayloads, BodyText, DateTime.FormatDateTime, FileList, AreaTag,
         Address.Valid, Attributes;
  }

  lemma BuildGroups(read: ReadMessage, context: Context, signedOrigin: string, signature: string,
                    message: Packet.PackedMessage)
    returns (ran: seq<seq<Control>>)
    requires Converts(read, context, signedOrigin, signature, message)
    ensures |ran| == 9 && Ran(read, signedOrigin, signature, ran) && message.controls == Joined(ran)
  {
    hide Build, RunSteps, Joined, SigningPayloads, StepGroups;
    BuildParts(read, context, signedOrigin, signature, message);
    GroupIs(read, SigningPayloads(signedOrigin, signature), 0);
    ran := RunJoined(StepGroups(read, SigningPayloads(signedOrigin, signature)));
  }

  // What each look-up finds.

  lemma ParsedHasNoLeadingSpace(value: string)
    requires Address.Parse(FirstWord(value)).Ok?
    ensures SkipLeading(value, ' ') == value
  {
    if value != [] && value[0] == ' ' { LeadingSpaceFails(value); }
  }

  lemma LeadingSpaceFails(value: string)
    requires value != [] && value[0] == ' '
    ensures Address.Parse(FirstWord(value)).Err?
  {
    assert value == "" + [' '] + value[1..];
    SplitAfter("", ' ', value[1..]);
    assert Find("", "#").None?;
  }

  lemma DisplayHasNoLeadingSpace(a: Address.Address)
    requires Address.Valid(a)
    ensures SkipLeading(Address.Display(a), ' ') == Address.Display(a)
  {
    hide Address.Int;
    assert !Address.StartsWithSpace(a.domain);
    assert Address.Display(a)[0] == a.domain[0];
  }

  lemma FoundId(read: ReadMessage, context: Context, signedOrigin: string, signature: string, ran: seq<seq<Control>>)
    requires Typed(read) && |signature| == 86 && Ran(read, signedOrigin, signature, ran) && Traceable(read, context)
    ensures Named(Joined(ran), "MSGID").Some? && Named(Joined(ran), "MSGID").value.value == read.data.messageId.value
  {
    hide RunSteps, Named, Joined, StepGroups, SameName, Address.Valid, Address.Parse, SkipLeading, FirstWord,
         SigningPayloads;
    GroupIs(read, SigningPayloads(signedOrigin, signature), 2);
    TitlesAreFree();
    NamesDiffer();
    LabelledBack("MSGID", read.data.messageId, "MSGID");
    ParsedHasNoLeadingSpace(read.data.messageId.value);
    Answer(read, signedOrigin, signature, ran, 2, "MSGID");
  }

  lemma FoundReply(read: ReadMessage, context: Context, signedOrigin: string, signature: string, ran: seq<seq<Control>>)
    requires Typed(read) && |signature| == 86 && Ran(read, signedOrigin, signature, ran) && Traceable(read, context)
    ensures ReadReply(Joined(ran), read.data.replyTo) ==
      Ok(if read.data.replyTo.None? then []
         else [ReplyChild(read.data.replyTo.value.0, SkipLeading(read.data.replyTo.value.1, ' '))])
  {
    hide RunSteps, Named, Joined, StepGroups, SameName, Address.Valid, Address.Parse, SkipLeading, SigningPayloads,
         ReplyChild, Quiet;
    GroupIs(read, SigningPayloads(signedOrigin, signature), 3);
    TitlesAreFree();
    NamesDiffer();
    NothingToRun();
    LabelledBack("REPLY", ReplyIdentifier(read.data), "REPLY");
    if read.data.replyTo.Some? {
      Answer(read, signedOrigin, signature, ran, 3, "REPLY");
    } else {
      NoAnswer(read, signedOrigin, signature, ran, 3, "REPLY");
    }
  }

  lemma FoundDestination(read: ReadMessage, context: Context, signedOrigin: string, signature: string,
                         ran: seq<seq<Control>>)
    requires Typed(read) && |signature| == 86 && Ran(read, signedOrigin, signature, ran) && Traceable(read, context)
    ensures ReadDestination(Joined(ran)) == Ok(DestinationChildren(read.data.destination))
  {
    hide RunSteps, Named, Joined, StepGroups, SameName, Address.Valid, Address.Parse, SkipLeading, SigningPayloads,
         Quiet, Address.Display;
    GroupIs(read, SigningPayloads(signedOrigin, signature), 4);
    NamesDiffer();
    NothingToRun();
    if read.data.destination.Some? {
      var to := read.data.destination.value;
      AddressGroup(to, read.signing.origin, "MSGTO");
      Answer(read, signedOrigin, signature, ran, 4, "MSGTO");
      DisplayHasNoLeadingSpace(to.address);
      Address.AddressRoundTrip(Address.Display(to.address), to.address);
      assert [Tlv(DESTINATION, Address.Display(to.address))] + [] == [Tlv(DESTINATION, Address.Display(to.address))];
    } else {
      NoAnswer(read, signedOrigin, signature, ran, 4, "MSGTO");
    }
  }

  lemma FoundOffset(read: ReadMessage, signedOrigin: string, signature: string, ran: seq<seq<Control>>)
    requires Typed(read) && |signature| == 86 && Ran(read, signedOrigin, signature, ran)
    ensures ReadOffset(Joined(ran)) == Some(Offset(read.data))
  {
    hide RunSteps, Named, Joined, StepGroups, SameName, Address.Valid, SigningPayloads, Timezone.Parse, Timezone.Format;
    GroupIs(read, SigningPayloads(signedOrigin, signature), 5);
    NamesDiffer();
    ZoneGroup(Offset(read.data), "TZUTC");
    Answer(read, signedOrigin, signature, ran, 5, "TZUTC");
    Timezone.TimezoneRoundTrip(Timezone.Format(Offset(read.data)).value, Offset(read.data));
  }

  lemma FoundNames(read: ReadMessage, signedOrigin: string, signature: string, ran: seq<seq<Control>>)
    requires Typed(read) && |signature| == 86 && Ran(read, signedOrigin, signature, ran)
    ensures WellNamed(read.data.attachments)
  {
    hide RunSteps, StepGroups, SigningPayloads, Address.Valid, ValidFileSpec;
    GroupIs(read, SigningPayloads(signedOrigin, signature), 6);
    AttachmentGroup(read.data.attachments, "MSGID");
  }

  // The fields.

  lemma FieldsBack(read: ReadMessage, context: Context, message: Packet.PackedMessage)
    requires Typed(read) && context.packetOrigin.zone != -1 && BodyText(read, context, None) == Ok(message.text)
    requires message.area.Some? <==> read.data.area.Some?
    ensures Body.EncodeBody(read.data.text).Some?
    ensures var retold := Retold(read.data); BodyFields(message) == (retold.text, retold.tearLine, retold.originLine)
  {
    hide BodyText, Body.EncodeBody, Body.DecodeBody, StripVias, Footer.SplitFooter, Footer.ReadFooter, SignedBits,
         SkipLeading;
    if read.data.area.Some? { EchoMailText(read, context); } else { NetMailText(read, context); }
  }

  lemma {:induction false} BaredFiles(attachments: seq<Attachment>)
    requires WellNamed(attachments)
    ensures ReadFiles(NamesOf(attachments), attachments) == Ok(FileChildren(Bared(attachments)))
    decreases |attachments|
  {
    hide FileChild, ValidFileSpec;
    if attachments != [] {
      NamesLength(attachments);
      assert NamesOf(attachments)[1..] == NamesOf(attachments[1..]);
      assert Bared(attachments)[1..] == Bared(attachments[1..]);
      BaredFiles(attachments[1..]);
    }
  }

  lemma FilesFound(read: ReadMessage, message: Packet.PackedMessage)
    requires WellNamed(read.data.attachments) && message.attributes == Attributes(read.data)
    requires message.subject
      == if read.data.attachments != [] then FileList(read.data.attachments) else read.data.subject
    ensures FileAttached(message.attributes) <==> read.data.attachments != []
    ensures (if !FileAttached(message.attributes) then Ok([])
             else ReadFiles(NonEmpty(Split(message.subject, ' ')), read.data.attachments))
      == Ok(FileChildren(Bared(read.data.attachments)))
    ensures SignedBits(message.attributes)
      == SignedBits(if read.data.legacyAttributes.Some? then read.data.legacyAttributes.value else 0)
  {
    hide Split, NonEmpty, ReadFiles, FileAttached, SignedBits, FileList;
    BitsBack(if read.data.legacyAttributes.Some? then read.data.legacyAttributes.value else 0,
             read.data.attachments != []);
    if read.data.attachments != [] {
      FileListBack(read.data.attachments);
      BaredFiles(read.data.attachments);
    }
  }

  ghost function FirstTen(data: MessageData): seq<seq<Tlv>>
    requires data.destination.Some? ==> Address.Valid(data.destination.value.address)
    requires data.replyTo.Some? ==> Address.Valid(data.replyTo.value.0)
  {
    Sections(data)[..10]
  }

  /** A message without OriginalCharacterSet has ten kinds of children. */
  lemma TenSections(data: MessageData)
    requires data.destination.Some? ==> Address.Valid(data.destination.value.address)
    requires data.replyTo.Some? ==> Address.Valid(data.replyTo.value.0)
    requires data.originalCharacterSet.None?
    ensures SignedChildren(data) == Joined(FirstTen(data))
  {
    hide Joined, Address.Valid, EncodeAll, FileChildren, ReplyChild, DestinationChildren, Required, AreaChild;
    assert Sections(data) == FirstTen(data) + [[]];
    JoinedSnoc(FirstTen(data), []);
    assert Joined(FirstTen(data)) + [] == Joined(FirstTen(data));
  }

  /** Every part the inverse reads is that of the message as the legacy form tells it. */
  lemma PartsRetell(read: ReadMessage, context: Context, signedOrigin: string, signature: string,
                    message: Packet.PackedMessage)
    requires Converts(read, context, signedOrigin, signature, message) && Traceable(read, context)
    ensures Body.EncodeBody(read.data.text).Some?
    ensures var data := Retold(read.data);
      && BodyFields(message) == (data.text, data.tearLine, data.originLine)
      && ReadDestination(message.controls) == Ok(DestinationChildren(data.destination))
      && ReadOffset(message.controls) == Some(Offset(read.data))
      && ReadReply(message.controls, read.data.replyTo)
         == Ok(if data.replyTo.None? then [] else [ReplyChild(data.replyTo.value.0, data.replyTo.value.1)])
      && Named(message.controls, "MSGID").Some?
      && Some(Named(message.controls, "MSGID").value.value) == data.messageId
    ensures DateTime.ParseDateTime(message.dateTime) == Ok(read.data.timestamp + Offset(read.data))
    ensures WellNamed(read.data.attachments)
  {
    hide Build, Joined, Ran, BodyText, Body.EncodeBody, RetoldText, BodyFields, ReadReply, ReadDestination, ReadOffset,
         Named, SignedBits, DateTime.ParseDateTime, DateTime.FormatDateTime, Address.Valid, Address.Parse, FirstWord,
         SkipLeading, Quiet, AreaTag, NativeArea, Attributes, Bared, ReplyChild, DestinationChildren, ValidFileSpec,
         FileList;
    BuildParts(read, context, signedOrigin, signature, message);
    var ran := BuildGroups(read, context, signedOrigin, signature, message);
    FoundId(read, context, signedOrigin, signature, ran);
    FoundReply(read, context, signedOrigin, signature, ran);
    FoundDestination(read, context, signedOrigin, signature, ran);
    FoundOffset(read, signedOrigin, signature, ran);
    FoundNames(read, signedOrigin, signature, ran);
    FieldsBack(read, context, message);
    DateTime.DateTimeRoundTrip(message.dateTime, read.data.timestamp + Offset(read.data));
  }

  /** The children that come back are exactly those of the message as the legacy form tells it. */
  lemma RebuildRetells(read: ReadMessage, context: Context, signedOrigin: string, signature: string,
                       message: Packet.PackedMessage)
    requires Converts(read, context, signedOrigin, signature, message) && Traceable(read, context)
    ensures Body.EncodeBody(read.data.text).Some?
    ensures Rebuild(message, context, read) == Ok(SignedChildren(Retold(read.data)))
  {
    hide Build, Joined, BodyText, Body.EncodeBody, RetoldText, BodyFields, ReadReply, ReadDestination, ReadOffset,
         Named, Split, NonEmpty, ReadFiles, FileAttached, SignedBits, FileList, DateTime.ParseDateTime, WellNamed,
         DateTime.FormatDateTime, Address.Valid, Address.Parse, FirstWord, SkipLeading, Quiet, AreaTag, NativeArea,
         EncodeAll, Attributes, Bared, FileChildren, ReplyChild, DestinationChildren, Required, RunSteps, StepGroups,
         SigningPayloads, Gather, Reading, AreaChild;
    BuildParts(read, context, signedOrigin, signature, message);
    PartsRetell(read, context, signedOrigin, signature, message);
    FilesFound(read, message);
    var data := Retold(read.data);
    assert Rebuilt(message, context, read).value == FirstTen(data);
    TenSections(data);
  }
}
