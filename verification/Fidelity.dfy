/** Which messages convert canonically: exactly those the legacy form preserves. */
module Fidelity {
  import opened Wrappers
  import opened Integers
  import opened LegacyText
  import opened Wire
  import opened Convert
  import opened Canonical
  import opened Children
  import opened Inverse
  import opened Tracing
  import Address
  import Base64
  import Body
  import Packet

  // What is preserved.

  lemma {:induction false} SkipShorter(s: string, c: char)
    ensures SkipLeading(s, c) == s <==> !([c] <= s)
  {
    if s != [] && s[0] == c {
      assert [c] <= s;
      assert |SkipLeading(s, c)| <= |s[1..]|;
    }
  }

  lemma {:induction false} BaredExactly(attachments: seq<Attachment>)
    ensures Bared(attachments) == attachments <==> Bare(attachments)
  {
    if attachments != [] {
      BaredExactly(attachments[1..]);
      assert attachments == [attachments[0]] + attachments[1..];
      assert Bared(attachments)[0] == attachments[0].(metadata := [])
        && Bared(attachments)[1..] == Bared(attachments[1..]);
      if Bare(attachments) {
        assert attachments[0].metadata == [];
        assert forall i :: 0 <= i < |attachments[1..]| ==> attachments[1..][i] == attachments[i + 1];
      }
      if Bared(attachments) == attachments {
        assert attachments[0].metadata == [];
        assert forall i :: 0 < i < |attachments| ==> attachments[i] == attachments[1..][i - 1];
      }
    }
  }

  lemma {:induction false} UnfoldShrinks(body: string)
    ensures |Body.Unfold(body)| <= |body|
  {
    if body != [] { UnfoldShrinks(body[1..]); }
  }

  lemma {:induction false} StripShrinks(body: string)
    ensures |StripVias(body)| <= |body|
    ensures LastVia(body).Some? ==> |StripVias(body)| + 5 <= |body|
    decreases |body|
  {
    hide LastMark;
    if LastVia(body).Some? { StripShrinks(body[..LastVia(body).value]); }
  }

  /** A text comes back exactly when it conforms and, in NetMail, does not itself end in a Via paragraph. */
  lemma TextExactly(data: MessageData)
    requires Body.EncodeBody(data.text).Some?
    ensures RetoldText(data) == data.text <==>
      Body.Conforming(data.text) && (data.area.None? ==> LastVia(Body.EncodeBody(data.text).value).None?)
  {
    hide LastVia, Body.Fold, Body.Unfold;
    var body := Body.EncodeBody(data.text).value;
    Body.BodyRoundTrip(data.text);
    if data.area.None? && LastVia(body).Some? {
      var left := StripVias(body);
      StripShrinks(body);
      UnfoldShrinks(left);
      Body.DecodedConforms(left);
      if Body.Conforming(data.text) { Body.FoldPlain(data.text); }
    }
  }

  lemma RetoldExactly(data: MessageData)
    requires Body.EncodeBody(data.text).Some?
    ensures Retold(data) == data <==> Preserved(data)
  {
    hide RetoldText, Body.EncodeBody, LastVia, Body.Conforming, Bared, Bare, SkipLeading, SignedBits;
    TextExactly(data);
    BaredExactly(data.attachments);
    if data.replyTo.Some? { SkipShorter(data.replyTo.value.1, ' '); }
    NoBits();
  }

  lemma NoBits()
    ensures SignedBits(0) == 0
  {
  }

  // Different messages have different children.

  lemma {:induction false} FilesTell(attachments: seq<Attachment>)
    requires FileChildren(Bared(attachments)) == FileChildren(attachments)
    ensures Bared(attachments) == attachments
  {
    hide FileChild;
    if attachments != [] {
      var bared := Bared(attachments);
      assert bared[1..] == Bared(attachments[1..]);
      assert FileChildren(bared)[0]
        == FileChild(attachments[0].filename, attachments[0].timestamp, attachments[0].contents, []);
      assert FileChildren(bared)[1..] == FileChildren(bared[1..])
        && FileChildren(attachments)[1..] == FileChildren(attachments[1..]);
      OneFile(attachments[0]);
      FilesTell(attachments[1..]);
      assert attachments == [attachments[0]] + attachments[1..];
    }
  }

  /** The children of a message and of its retelling agree only when the message is its own retelling. */
  lemma ChildrenTell(data: MessageData)
    requires Fine(data) && Body.EncodeBody(data.text).Some?
    requires data.legacyAttributes.Some? ==> data.legacyAttributes.value <= MAX_U64
    requires SignedChildren(Retold(data)) == SignedChildren(data)
    ensures Retold(data) == data
  {
    hide Address.Valid, Joined, EncodeAll, RetoldText, SignedBits, SkipLeading, Bared, FileChildren, AreaChild,
         ReplyChild, EncodeNumber, EncodeSigned, DestinationChildren, Required, Body.EncodeBody;
    var retold := Retold(data);
    var a, b := Sections(retold), Sections(data);
    SectionTypes(retold);
    SectionTypes(data);
    SameText(retold, data);
    SameSection(a, b, 2, AREA);
    SameSection(a, b, 3, FILE);
    SameSection(a, b, 4, LEGACY_ATTRIBUTES);
    SameSection(a, b, 5, TIMESTAMP_OFFSET);
    SameSection(a, b, 6, TEAR_LINE);
    SameSection(a, b, 7, ORIGIN_LINE);
    SameSection(a, b, 9, REPLY_TO);
    SameSection(a, b, 10, ORIGINAL_CHARACTER_SET);
    FilesTell(data.attachments);
    if data.area.Some? { AreaTells(data.area.value); }
    if data.replyTo.Some? { ReplyTells(data.replyTo.value.0, retold.replyTo.value.1, data.replyTo.value.1); }
    if retold.legacyAttributes.Some? && data.legacyAttributes.Some? {
      BitsFit(data.legacyAttributes.value);
      NumbersTell(retold.legacyAttributes.value, data.legacyAttributes.value);
    }
    NoBits();
  }

  // The theorem.

  lemma ChildrenExactly(data: MessageData)
    requires Fine(data) && Body.EncodeBody(data.text).Some? && |EncodeAll(SignedChildren(data))| <= MAX_U64
    requires data.legacyAttributes.Some? ==> data.legacyAttributes.value <= MAX_U64
    ensures EncodeAll(SignedChildren(Retold(data))) == EncodeAll(SignedChildren(data)) <==> Preserved(data)
  {
    hide Joined, EncodeAll, Assigned, Preserved, Body.EncodeBody, Address.Valid, Sections, Sectioned;
    RetoldExactly(data);
    if EncodeAll(SignedChildren(Retold(data))) == EncodeAll(SignedChildren(data)) {
      SectionTypes(data);
      SectionTypes(Retold(data));
      SectionsAssigned(Sections(data));
      SectionsAssigned(Sections(Retold(data)));
      BytesTell(SignedChildren(Retold(data)), SignedChildren(data));
      ChildrenTell(data);
    }
  }

  lemma ReconstructRetells(read: ReadMessage, context: Context, message: Packet.PackedMessage)
    requires Exported(read, context, message) && Traceable(read, context)
    ensures Body.EncodeBody(read.data.text).Some?
    ensures Reconstruct(message, context, read)
      == Ok(EncodeAll(OriginChildren(read.signing.origin, read.signing.originKey)) + read.signing.signedOrigin
            + EncodeAll(SignedChildren(Retold(read.data))))
  {
    hide Base64.Encode, Base64.Decode, Build, Rebuild, SignedChildren, Retold, Named, Gather, Reading, EncodeAll,
         OriginChildren, Address.Valid, Address.Parse, FirstWord, Joined, Ran, Quiet, Body.EncodeBody;
    var signedOrigin, signature := Base64.Encode(read.signing.signedOrigin),
      Base64.Encode(read.signing.signature.value);
    SigningEncodes(read);
    RebuildRetells(read, context, signedOrigin, signature, message);
    var ran := BuildGroups(read, context, signedOrigin, signature, message);
    FoundId(read, context, signedOrigin, signature, ran);
    GatherBack(read, signedOrigin, signature, ran);
    assert signedOrigin + [] == signedOrigin;
  }

  /**
   Where everything can be resolved, the signed bytes come back exactly when the legacy form
   preserves the message.
   */
  lemma TraceableExactly(read: ReadMessage, context: Context, message: Packet.PackedMessage)
    requires Exported(read, context, message) && Traceable(read, context) && |SignedRegion(read)| <= MAX_U64
    ensures Reconstruct(message, context, read) == Ok(SignedRegion(read)) <==> Preserved(read.data)
  {
    hide Base64.Encode, Reconstruct, SignedChildren, RetoldText, EncodeAll, OriginChildren, Address.Valid, Preserved,
         Build, Traceable, Body.EncodeBody;
    ReconstructRetells(read, context, message);
    ChildrenExactly(read.data);
    var front := EncodeAll(OriginChildren(read.signing.origin, read.signing.originKey)) + read.signing.signedOrigin;
    var a, b := EncodeAll(SignedChildren(Retold(read.data))), EncodeAll(SignedChildren(read.data));
    assert (front + a)[|front|..] == a && (front + b)[|front|..] == b;
  }

  /**
   The inverse conversion gives back the signed bytes exactly when the legacy form preserves
   the message and the inverse can resolve what no field of its own tells it.
   */
  lemma ReconstructExactly(read: ReadMessage, context: Context, message: Packet.PackedMessage)
    requires Exported(read, context, message) && |SignedRegion(read)| <= MAX_U64
    ensures Reconstruct(message, context, read) == Ok(SignedRegion(read))
       <==> Preserved(read.data) && Traceable(read, context)
  {
    assert Typed(read);
    hide Reconstruct, SignedRegion, Exported, Address.Valid, Preserved, Traceable;
    if Traceable(read, context) {
      TraceableExactly(read, context, message);
    } else if Reconstruct(message, context, read) == Ok(SignedRegion(read)) {
      ReconstructedIsTraceable(read, context, message);
    }
  }

  // The exporter.

  datatype Fidelity = Canonical | Compatibility

  datatype Converted = Converted(message: Packet.PackedMessage, fidelity: Fidelity)

  predicate IsSigningControl(control: Control) {
    SameName(control.name, "TITHSIG") || SameName(control.name, "TITHSIGN")
  }

  function WithoutSigning(controls: seq<Control>): seq<Control> {
    if controls == [] then []
    else (if IsSigningControl(controls[0]) then [] else [controls[0]]) + WithoutSigning(controls[1..])
  }

  /** `self_check`; `verify` is the check of the retained signature with the signer's key. */
  predicate SelfCheck(candidate: Packet.PackedMessage, context: Context, read: ReadMessage, region: Bytes,
                      verify: Bytes -> bool)
    requires read.data.replyTo.Some? ==> Address.Valid(read.data.replyTo.value.0)
  {
    Reconstruct(candidate, context, read) == Ok(region) && verify(region)
  }

  /** `to_legacy`: a message carries its signature only when the candidate inverts to the bytes that were signed. */
  function ToLegacy(read: ReadMessage, context: Context, authenticated: bool, warning: Option<string>,
                    verify: Bytes -> bool): Result<Converted, ConvertError>
    requires Address.Valid(read.signing.origin) && Address.Valid(context.packetOrigin)
      && Address.Valid(context.packetDestination)
    requires read.data.destination.Some? ==> Address.Valid(read.data.destination.value.address)
    requires read.data.replyTo.Some? ==> Address.Valid(read.data.replyTo.value.0)
    requires forall i :: 0 <= i < |read.seenBy| ==> Address.Valid(read.seenBy[i])
  {
    var message := Build(read, context, warning, []);
    if message.Err? then Err(message.error)
    else if !(authenticated && warning.None? && read.signing.signature.Some?) then
      Ok(Converted(message.value, Compatibility))
    else
      var signature := Base64.Encode(read.signing.signature.value);
      if |signature| != 86 then Err(Legacy("TITHSIG Signature encoding"))
      else
        var candidate := Build(read, context, None,
                               SigningPayloads(Base64.Encode(read.signing.signedOrigin), signature));
        if candidate.Err? then Err(candidate.error)
        else if SelfCheck(candidate.value, context, read, SignedRegion(read), verify) then
          Ok(Converted(candidate.value, Canonical))
        else
          var plain := message.value.(controls := WithoutSigning(message.value.controls));
          Ok(Converted(plain, Compatibility))
  }

  /**
   A verified item that both builds accept converts canonically exactly when it is preserved,
   can be resolved, and verifies over the signed bytes.
   */
  lemma CanonicalExactly(read: ReadMessage, context: Context, verify: Bytes -> bool)
    requires Typed(read) && TypedContext(context) && SigningBytes(read) && Unhidden(read.data.kludges)
    requires |SignedRegion(read)| <= MAX_U64
    requires ToLegacy(read, context, true, None, verify).Ok?
    ensures ToLegacy(read, context, true, None, verify).value.fidelity == Canonical
       <==> Preserved(read.data) && Traceable(read, context) && verify(SignedRegion(read))
  {
    hide Base64.Encode, Build, Reconstruct, SignedRegion, Address.Valid, Preserved, Traceable, Unhidden,
         SigningPayloads, WithoutSigning;
    SigningEncodes(read);
    var signature := Base64.Encode(read.signing.signature.value);
    var candidate := Build(read, context, None, SigningPayloads(Base64.Encode(read.signing.signedOrigin), signature));
    ReconstructExactly(read, context, candidate.value);
  }

  /** A delivery warning, a missing signature or failed authentication always means compatibility output. */
  lemma OnlyVerifiedIsCanonical(read: ReadMessage, context: Context, authenticated: bool, warning: Option<string>,
                                verify: Bytes -> bool)
    requires Typed(read) && TypedContext(context)
    requires ToLegacy(read, context, authenticated, warning, verify).Ok?
    requires ToLegacy(read, context, authenticated, warning, verify).value.fidelity == Canonical
    ensures authenticated && warning.None? && read.signing.signature.Some? && verify(SignedRegion(read))
    ensures Reconstruct(ToLegacy(read, context, authenticated, warning, verify).value.message, context, read)
      == Ok(SignedRegion(read))
  {
    hide Base64.Encode, Build, Reconstruct, SignedRegion, Address.Valid, SigningPayloads, WithoutSigning;
  }

  // On the wire.

  lemma {:induction false} ControlsReread(steps: Steps)
    requires RunSteps(steps).Ok?
    ensures Reread(RunSteps(steps).value) == RunSteps(steps).value
  {
    if steps != [] {
      ControlsReread(steps[1..]);
      var controls := RunSteps(steps).value;
      assert controls[1..] == RunSteps(steps[1..]).value;
    }
  }

  lemma FirstGroup(read: ReadMessage, signedOrigin: string, signature: string, ran: seq<seq<Control>>)
    requires Typed(read) && |signature| == 86 && Ran(read, signedOrigin, signature, ran)
    ensures Joined(ran) != []
  {
    hide RunSteps, StepGroups, SigningPayloads, Address.Valid, ReadControl;
    GroupIs(read, SigningPayloads(signedOrigin, signature), 0);
    RunOne("CHRS" + ": " + "UTF-8 4");
  }

  /** A converted message is self-delimiting exactly when its text does not start with byte 0x01. */
  lemma ConvertedDelimits(read: ReadMessage, context: Context, signedOrigin: string, signature: string,
                          message: Packet.PackedMessage)
    requires Converts(read, context, signedOrigin, signature, message)
    ensures Packet.SelfDelimiting(message) <==> !(message.text != [] && message.text[0] == 1 as char)
  {
    hide Build, Joined, Ran, RunSteps, Reread, StepGroups, SigningPayloads, Packet.SplitArea;
    BuildParts(read, context, signedOrigin, signature, message);
    ControlsReread(Joined(StepGroups(read, SigningPayloads(signedOrigin, signature))));
    var ran := BuildGroups(read, context, signedOrigin, signature, message);
    FirstGroup(read, signedOrigin, signature, ran);
  }

  /**
   The inverse survives the wire: run on the message as parsed from the encoded packet, it
   gives back the signed bytes just as it does on the message that went in. The other inputs
   of the inverse stay the exporter's own: the Origin's key, the attached files and the
   address of the ReplyTo.
   */
  lemma WireKeepsReconstruction(read: ReadMessage, context: Context, p: Packet.Packet, o: Packet.Options, k: nat)
    requires k < |p.messages| && Exported(read, context, p.messages[k]) && |SignedRegion(read)| <= MAX_U64
    requires Preserved(read.data) && Traceable(read, context)
    requires Packet.Typed(p) && Packet.Encode(p, o).Ok? && !(p.origin.point != 0 && p.origin.net == 0)
    requires forall i :: 0 <= i < |p.messages| && i != k ==> Packet.SelfDelimiting(p.messages[i])
    requires !(p.messages[k].text != [] && p.messages[k].text[0] == 1 as char)
    ensures var received := Packet.Parse(Packet.Encode(p, o).value);
      && received.Ok? && k < |received.value.messages|
      && Reconstruct(received.value.messages[k], context, read) == Ok(SignedRegion(read))
  {
    hide Base64.Encode, Packet.Encode, Packet.Parse, Packet.SelfDelimiting, Packet.TypedMessage, Reconstruct,
         SignedRegion, Build, Traceable, Preserved, Address.Valid;
    ReconstructExactly(read, context, p.messages[k]);
    ConvertedDelimits(read, context, Base64.Encode(read.signing.signedOrigin),
                      Base64.Encode(read.signing.signature.value), p.messages[k]);
    Packet.PacketRoundTrip(p, o);
  }
}
