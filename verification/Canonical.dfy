/** When the inverse conversion gives back the signed bytes. */
module Canonical {
  import opened Wrappers
  import opened LegacyText
  import opened Text
  import opened Convert
  import opened Controls
  import Address
  import Body
  import Footer
  import Timezone

  // The control groups of a converted message.

  /** The names the inverse looks for. */
  predicate Wanted(name: string) {
    name == "MSGID" || name == "REPLY" || name == "MSGTO" || name == "TZUTC" || name == "TITHSIGN"
  }

  lemma RunOne(payload: string)
    requires RunSteps([Ok(payload)]).Ok?
    ensures RunSteps([Ok(payload)]).value == [ReadControl(payload)]
  {
    hide ReadControl, Carriable;
    var steps: Steps := [Ok(payload)];
    assert steps[1..] == [];
  }

  lemma OneTitled(title: string, x: string, name: string)
    requires RunSteps([Ok(title + ": " + x)]).Ok? && Free(title, " :")
    ensures RunSteps([Ok(title + ": " + x)]).value == [Control(title, SkipLeading(x, ' '), title + ": " + x)]
    ensures !SameName(title, name) ==> Silent(RunSteps([Ok(title + ": " + x)]).value, name)
  {
    RunOne(title + ": " + x);
    ColonControl(title, x);
  }

  lemma {:induction false} RunPlainly(payloads: seq<string>)
    requires RunSteps(Plainly(payloads)).Ok?
    ensures var ran := RunSteps(Plainly(payloads)).value;
      |ran| == |payloads| && forall i :: 0 <= i < |ran| ==> ran[i] == ReadControl(payloads[i])
  {
    hide ReadControl, Carriable;
    if payloads != [] {
      assert Plainly(payloads)[1..] == Plainly(payloads[1..]);
      RunPlainly(payloads[1..]);
    }
  }

  // Signing controls.

  lemma TitlesAreFree()
    ensures Free("CHRS", " :") && Free("MSGID", " :") && Free("REPLY", " :") && Free("MSGTO", " :")
      && Free("TZUTC", " :")
    ensures Free("ASSOC", " :") && Free("SPTH", " :") && Free("TITHSIGN", " :") && Free("TITHSIG", " :")
    ensures Free("INTL", " :") && Free("TOPT", " :") && Free("FMPT", " :")
  {
  }

  function Glued(chunks: seq<string>): string {
    if chunks == [] then "" else chunks[0] + Glued(chunks[1..])
  }

  lemma {:induction false} GluedChunks(encoded: string)
    ensures Glued(Chunks(encoded)) == encoded
    decreases |encoded|
  {
    if |encoded| > 43 {
      GluedChunks(encoded[43..]);
      assert Chunks(encoded)[1..] == Chunks(encoded[43..]);
      assert encoded == encoded[..43] + encoded[43..];
    } else {
      assert Chunks(encoded)[1..] == [] && encoded + "" == encoded;
    }
  }

  lemma ChunkPayload(marker: string, chunk: string)
    requires marker == ". " || marker == "+ "
    ensures var control := ReadControl("TITHSIGN" + ": " + ("1 " + marker + chunk));
      control.name == "TITHSIGN" && ChunkOf(control.value) == Ok(chunk)
  {
    TitlesAreFree();
    var x := "1 " + marker + chunk;
    ColonControl("TITHSIGN", x);
    SkipNone(x, ' ');
    assert x[..2] == "1 " && x[2..] == marker + chunk && x[2..][..2] == marker && x[4..] == chunk;
  }

  ghost function Reading(payloads: seq<string>): seq<Control> {
    if payloads == [] then [] else [ReadControl(payloads[0])] + Reading(payloads[1..])
  }

  lemma {:induction false} ReadingAt(payloads: seq<string>)
    ensures |Reading(payloads)| == |payloads|
    ensures forall i :: 0 <= i < |payloads| ==> Reading(payloads)[i] == ReadControl(payloads[i])
  {
    hide ReadControl;
    if payloads != [] { ReadingAt(payloads[1..]); }
  }

  lemma {:induction false} ReadingConcat(a: seq<string>, b: seq<string>)
    ensures Reading(a + b) == Reading(a) + Reading(b)
  {
    hide ReadControl;
    if a == [] {
      assert a + b == b;
    } else {
      assert (a + b)[1..] == a[1..] + b;
      ReadingConcat(a[1..], b);
    }
  }

  lemma {:induction false} ChunksBack(chunks: seq<string>)
    ensures Gather(Reading(SignedOriginPayloads(chunks))) == Ok(Glued(chunks))
    ensures forall i :: 0 <= i < |Reading(SignedOriginPayloads(chunks))| ==>
      Reading(SignedOriginPayloads(chunks))[i].name == "TITHSIGN"
  {
    hide ReadControl, ChunkOf;
    if chunks != [] {
      var marker := if |chunks| == 1 then ". " else "+ ";
      ChunkPayload(marker, chunks[0]);
      ChunksBack(chunks[1..]);
      var payloads := SignedOriginPayloads(chunks);
      assert payloads[1..] == SignedOriginPayloads(chunks[1..]);
      var controls := Reading(payloads);
      assert controls[1..] == Reading(payloads[1..]);
    }
  }

  /** The signing group yields the encoded SignedOrigin, and no other wanted control. */
  lemma SigningBack(signedOrigin: string, signature: string, name: string)
    requires |signature| == 86 && (Wanted(name) && name != "TITHSIGN")
    ensures var controls := Reading(SigningPayloads(signedOrigin, signature));
      Gather(controls) == Ok(signedOrigin) && Silent(controls, name)
  {
    hide ReadControl, ChunkOf, Gather, Chunks, SignedOriginPayloads;
    var first := if signedOrigin == [] then [] else SignedOriginPayloads(Chunks(signedOrigin));
    var last := ["TITHSIG" + ": " + ("1 " + signature[..43]), "TITHSIG" + ": " + ("1 " + signature[43..])];
    ReadingConcat(first, last);
    var a, b := Reading(first), Reading(last);
    TitlesAreFree();
    ColonControl("TITHSIG", "1 " + signature[..43]);
    ColonControl("TITHSIG", "1 " + signature[43..]);
    ReadingAt(last);
    GatherSilent(b);
    if signedOrigin == [] {
      GatherEmpty();
    } else {
      ChunksBack(Chunks(signedOrigin));
      GluedChunks(signedOrigin);
    }
    GatherConcat(a, b);
    assert signedOrigin + "" == signedOrigin;
  }

  lemma {:induction false} PlainlyReads(payloads: seq<string>)
    requires RunSteps(Plainly(payloads)).Ok?
    ensures RunSteps(Plainly(payloads)).value == Reading(payloads)
  {
    hide ReadControl, Carriable;
    if payloads != [] {
      assert Plainly(payloads)[1..] == Plainly(payloads[1..]);
      PlainlyReads(payloads[1..]);
    }
  }

  // The other groups.

  lemma LabelledBack(title: string, value: Option<string>, name: string)
    requires RunSteps(Labelled(title, value)).Ok? && Free(title, " :")
    ensures var ran := RunSteps(Labelled(title, value)).value;
      && (!SameName(title, name) ==> Silent(ran, name))
      && (value.None? ==> Silent(ran, name))
      && (value.Some? ==> ran == [Control(title, SkipLeading(value.value, ' '), title + ": " + value.value)])
  {
    hide RunSteps;
    NothingToRun();
    if value.Some? { OneTitled(title, value.value, name); }
  }

  lemma OneSpaced(title: string, x: string, name: string)
    requires RunSteps([Ok(title + " " + x)]).Ok? && Free(title, " :") && |title| == 4 && Wanted(name)
    ensures Silent(RunSteps([Ok(title + " " + x)]).value, name)
  {
    RunOne(title + " " + x);
    SpaceControl(title, x);
    ShortNames(title, name);
  }

  lemma SilentConcat(a: seq<Control>, b: seq<Control>, name: string)
    requires Silent(a, name) && Silent(b, name)
    ensures Silent(a + b, name)
  {
    hide SameName;
  }

  lemma PointBack(title: string, point: int, name: string)
    requires point >= 0 && Free(title, " :") && |title| == 4 && Wanted(name)
    requires RunSteps(if point != 0 then [Ok(title + " " + Address.Int(point))] else []).Ok?
    ensures Silent(RunSteps(if point != 0 then [Ok(title + " " + Address.Int(point))] else []).value, name)
  {
    hide RunSteps;
    NothingToRun();
    if point != 0 { OneSpaced(title, Address.Int(point), name); }
  }

  /** Addressing: MSGTO first, and no other wanted control after it. */
  lemma AddressGroup(to: Identity, origin: Address.Address, name: string)
    requires Address.Valid(to.address) && Address.Valid(origin) && Wanted(name)
    requires RunSteps(AddressSteps(Some(to), origin)).Ok?
    ensures to.address.zone != -1 && origin.zone != -1
    ensures var ran := RunSteps(AddressSteps(Some(to), origin)).value;
      && ran != []
      && ran[0] == Control("MSGTO", SkipLeading(Address.Display(to.address), ' '),
                           "MSGTO" + ": " + Address.Display(to.address))
      && (name != "MSGTO" ==> Silent(ran, name))
  {
    hide RunSteps, Address.Display, Address.Int, Address.New, SameName, SkipLeading;
    var a: Steps := [Ok("MSGTO" + ": " + Address.Display(to.address))];
    var b: Steps := [InternationalStep(to.address, origin)];
    var c: Steps := if to.address.point != 0 then [Ok("TOPT" + " " + Address.Int(to.address.point))] else [];
    var d: Steps := if origin.point != 0 then [Ok("FMPT" + " " + Address.Int(origin.point))] else [];
    assert AddressSteps(Some(to), origin) == a + (b + (c + d));
    RunConcat(a, b + (c + d));
    RunConcat(b, c + d);
    RunConcat(c, d);
    TitlesAreFree();
    NamesDiffer();
    OneTitled("MSGTO", Address.Display(to.address), name);
    RunFails(InternationalStep(to.address, origin));
    OneSpaced("INTL", AddressText(to.address).value + " " + AddressText(origin).value, name);
    PointBack("TOPT", to.address.point, name);
    PointBack("FMPT", origin.point, name);
    SilentConcat(RunSteps(c).value, RunSteps(d).value, name);
    SilentConcat(RunSteps(b).value, RunSteps(c).value + RunSteps(d).value, name);
    if name != "MSGTO" {
      SilentConcat(RunSteps(a).value, RunSteps(b).value + (RunSteps(c).value + RunSteps(d).value), name);
    }
  }

  lemma RunFails(step: Result<string, ConvertError>)
    requires RunSteps([step]).Ok?
    ensures step.Ok?
  {
    var steps: Steps := [step];
    assert steps[0] == step;
  }

  lemma {:induction false} AttachmentGroup(attachments: seq<Attachment>, name: string)
    requires RunSteps(AttachmentSteps(attachments)).Ok? && Wanted(name)
    ensures Silent(RunSteps(AttachmentSteps(attachments)).value, name)
    ensures forall i :: 0 <= i < |attachments| ==>
      attachments[i].filename.Some? && ValidFileSpec(attachments[i].filename.value)
  {
    hide RunSteps, SameName, ValidFileSpec;
    NothingToRun();
    if attachments != [] {
      var steps := AttachmentSteps(attachments);
      assert steps == [steps[0]] + AttachmentSteps(attachments[1..]);
      RunConcat([steps[0]], AttachmentSteps(attachments[1..]));
      RunFails(steps[0]);
      TitlesAreFree();
      NamesDiffer();
      OneTitled("ASSOC", attachments[0].filename.value, name);
      AttachmentGroup(attachments[1..], name);
      SilentConcat(RunSteps([steps[0]]).value, RunSteps(AttachmentSteps(attachments[1..])).value, name);
    }
  }

  lemma PathGroup(echo: bool, path: string, name: string)
    requires RunSteps(if echo then [PathStep(path)] else []).Ok? && Wanted(name)
    ensures Silent(RunSteps(if echo then [PathStep(path)] else []).value, name)
  {
    hide RunSteps, SameName;
    NothingToRun();
    if echo {
      RunFails(PathStep(path));
      TitlesAreFree();
      ShortNames("SPTH", name);
      OneTitled("SPTH", path, name);
    }
  }

  lemma ZoneGroup(offset: int, name: string)
    requires RunSteps([ZoneStep(offset)]).Ok? && Wanted(name)
    ensures Timezone.Format(offset).Some?
    ensures var ran := RunSteps([ZoneStep(offset)]).value;
      && ran == [Control("TZUTC", Timezone.Format(offset).value, "TZUTC" + ": " + Timezone.Format(offset).value)]
      && (name != "TZUTC" ==> Silent(ran, name))
  {
    hide RunSteps, SameName, Timezone.Format, Timezone.Parse;
    RunFails(ZoneStep(offset));
    var text := Timezone.Format(offset).value;
    TitlesAreFree();
    NamesDiffer();
    OneTitled("TZUTC", text, name);
    ZoneText(offset);
    SkipNone(text, ' ');
  }

  lemma ZoneText(offset: int)
    requires Timezone.Format(offset).Some?
    ensures Timezone.Format(offset).value != [] && Timezone.Format(offset).value[0] != ' '
  {
  }

  // Looking controls up.

  /** The group that holds the controls of a name. */
  predicate Owns(j: int, name: string) {
    || (j == 1 && name == "TITHSIGN") || (j == 2 && name == "MSGID") || (j == 3 && name == "REPLY")
    || (j == 4 && name == "MSGTO") || (j == 5 && name == "TZUTC")
  }

  ghost predicate Ran(read: ReadMessage, signedOrigin: string, signature: string, ran: seq<seq<Control>>)
    requires |signature| == 86 && Typed(read)
  {
    var groups := StepGroups(read, SigningPayloads(signedOrigin, signature));
    |ran| == 9 && forall j :: 0 <= j < 9 ==> RunSteps(groups[j]) == Ok(ran[j])
  }

  /** Kludge lines that do not use a name. */
  ghost predicate Quiet(kludges: seq<string>, name: string) {
    forall i :: 0 <= i < |kludges| ==> !SameName(ReadControl(kludges[i]).name, name)
  }

  lemma GroupIs(read: ReadMessage, signing: seq<string>, j: nat)
    requires Typed(read) && j < 9
    ensures |StepGroups(read, signing)| == 9
    ensures StepGroups(read, signing)[j] ==
      match j
      case 0 => [Ok("CHRS" + ": " + "UTF-8 4")]
      case 1 => Plainly(signing)
      case 2 => Labelled("MSGID", read.data.messageId)
      case 3 => Labelled("REPLY", ReplyIdentifier(read.data))
      case 4 => AddressSteps(read.data.destination, read.signing.origin)
      case 5 => [ZoneStep(Offset(read.data))]
      case 6 => AttachmentSteps(read.data.attachments)
      case 7 => if read.data.area.Some? then [PathStep(read.path)] else []
      case _ => Plainly(read.data.kludges)
  {
  }

  lemma GroupSilent(read: ReadMessage, signedOrigin: string, signature: string, ran: seq<seq<Control>>, j: nat,
                    name: string)
    requires |signature| == 86 && Typed(read) && Ran(read, signedOrigin, signature, ran)
    requires j < 9 && Wanted(name) && !Owns(j, name) && (j == 8 ==> Quiet(read.data.kludges, name))
    ensures Silent(ran[j], name)
  {
    hide RunSteps, StepGroups, SigningPayloads, SameName, Address.Valid, ReadControl;
    var signing := SigningPayloads(signedOrigin, signature);
    GroupIs(read, signing, j);
    TitlesAreFree();
    NamesDiffer();
    NothingToRun();
    if j == 0 {
      ShortNames("CHRS", name);
      OneTitled("CHRS", "UTF-8 4", name);
    } else if j == 1 {
      PlainlyReads(signing);
      SigningBack(signedOrigin, signature, name);
    } else if j == 2 {
      LabelledBack("MSGID", read.data.messageId, name);
    } else if j == 3 {
      LabelledBack("REPLY", ReplyIdentifier(read.data), name);
    } else if j == 4 {
      if read.data.destination.Some? { AddressGroup(read.data.destination.value, read.signing.origin, name); }
    } else if j == 5 {
      ZoneGroup(Offset(read.data), name);
    } else if j == 6 {
      AttachmentGroup(read.data.attachments, name);
    } else if j == 7 {
      PathGroup(read.data.area.Some?, read.path, name);
    } else {
      RunPlainly(read.data.kludges);
    }
  }

  /** The k-th group answers for its name. */
  lemma Answer(read: ReadMessage, signedOrigin: string, signature: string, ran: seq<seq<Control>>, k: nat, name: string)
    requires |signature| == 86 && Typed(read) && Ran(read, signedOrigin, signature, ran) && Wanted(name)
    requires 2 <= k <= 5 && |ran| == 9 && Owns(k, name) && ran[k] != [] && SameName(ran[k][0].name, name)
    ensures Named(Joined(ran), name) == Some(ran[k][0])
  {
    hide Ran, SameName, Typed;
    forall j | 0 <= j < k ensures Silent(ran[j], name) { GroupSilent(read, signedOrigin, signature, ran, j, name); }
    NamedJoined(ran, name, k);
  }

  /** Nothing answers for a name whose group is empty and that no kludge uses. */
  lemma NoAnswer(read: ReadMessage, signedOrigin: string, signature: string, ran: seq<seq<Control>>, k: nat,
                 name: string)
    requires |signature| == 86 && Typed(read) && Ran(read, signedOrigin, signature, ran) && Wanted(name)
    requires 2 <= k <= 5 && |ran| == 9 && Owns(k, name) && ran[k] == [] && Quiet(read.data.kludges, name)
    ensures Named(Joined(ran), name) == None
  {
    hide Ran, SameName, Typed, Quiet;
    forall j | 0 <= j < 9 ensures Silent(ran[j], name) {
      if j != k { GroupSilent(read, signedOrigin, signature, ran, j, name); }
    }
    NamedJoined(ran, name, 9);
  }

  /** What is gathered is the encoded SignedOrigin, followed by whatever the kludges add to it. */
  lemma GatherBack(read: ReadMessage, signedOrigin: string, signature: string, ran: seq<seq<Control>>)
    requires |signature| == 86 && Typed(read) && Ran(read, signedOrigin, signature, ran)
    ensures var more := Gather(Reading(read.data.kludges));
      Gather(Joined(ran)) == if more.Err? then more else Ok(signedOrigin + more.value)
  {
    hide SameName, Typed, Quiet, RunSteps, StepGroups, SigningPayloads, Gather, Silent;
    var front := ran[..8];
    forall j | 0 <= j < 8 && j != 1 ensures Silent(front[j], "TITHSIGN") {
      GroupSilent(read, signedOrigin, signature, ran, j, "TITHSIGN");
    }
    GroupIs(read, SigningPayloads(signedOrigin, signature), 1);
    PlainlyReads(SigningPayloads(signedOrigin, signature));
    SigningBack(signedOrigin, signature, "MSGID");
    GatherJoined(front, 1);
    GroupIs(read, SigningPayloads(signedOrigin, signature), 8);
    PlainlyReads(read.data.kludges);
    assert ran == front + [ran[8]];
    JoinedSnoc(front, ran[8]);
    GatherConcat(Joined(front), ran[8]);
  }

  // The body.

  lemma {:induction false} ViaSnoc(vias: seq<string>, last: string)
    requires ViaParagraphs(vias + [last]).Some?
    ensures ViaParagraphs(vias).Some? && Carriable("Via " + last)
    ensures ViaParagraphs(vias + [last]).value == ViaParagraphs(vias).value + Paragraph("Via " + last)
    decreases |vias|
  {
    hide Carriable, Paragraph;
    var all := vias + [last];
    if vias == [] {
      assert all[1..] == [] && all[0] == last;
      assert Paragraph("Via " + last) + "" == "" + Paragraph("Via " + last);
    } else {
      assert all[1..] == vias[1..] + [last] && all[0] == vias[0];
      ViaSnoc(vias[1..], last);
      var first := Paragraph("Via " + vias[0]);
      assert first + (ViaParagraphs(vias[1..]).value + Paragraph("Via " + last))
        == (first + ViaParagraphs(vias[1..]).value) + Paragraph("Via " + last);
    }
  }

  lemma OneViaBack(body: string, via: string)
    requires Carriable("Via " + via)
    ensures LastVia(body + Paragraph("Via " + via)) == Some(|body|)
    ensures (body + Paragraph("Via " + via))[..|body|] == body
  {
    hide LastMark;
    var payload := "Via " + via;
    var s := body + Paragraph(payload);
    var n := |body|;
    assert s[n] == 1 as char;
    assert forall i :: n < i < |s| - 1 ==> s[i] == payload[i - n - 1];
    assert s[|s| - 1] == '\r';
    MarkAt(s, n);
    var after := s[n + 1..];
    assert after == payload + "\r" && after[..|after| - 1] == payload;
    assert payload[..4] == "Via ";
  }

  lemma MarkAt(s: string, n: nat)
    requires n < |s| && s[n] == 1 as char && forall i :: n < i < |s| ==> s[i] != 1 as char
    ensures LastMark(s, |s|) == Some(n)
  {
    hide LastMark;
  }

  /** Via paragraphs are taken off a body one by one, from the last. */
  lemma {:induction false} ViasBack(body: string, vias: seq<string>)
    requires ViaParagraphs(vias).Some?
    ensures StripVias(body + ViaParagraphs(vias).value) == StripVias(body)
    decreases |vias|
  {
    hide Carriable, Paragraph, LastVia;
    if vias == [] {
      assert body + "" == body;
    } else {
      var front, last := vias[..|vias| - 1], vias[|vias| - 1];
      assert vias == front + [last];
      ViaSnoc(front, last);
      var rest := body + ViaParagraphs(front).value;
      assert body + ViaParagraphs(vias).value == rest + Paragraph("Via " + last);
      OneViaBack(rest, last);
      ViasBack(body, front);
    }
  }

  lemma NetMailText(read: ReadMessage, context: Context)
    requires Typed(read) && context.packetOrigin.zone != -1 && BodyText(read, context, None).Ok? && read.data.area.None?
    ensures Body.EncodeBody(read.data.text).Some?
    ensures StripVias(BodyText(read, context, None).value) == StripVias(Body.EncodeBody(read.data.text).value)
  {
    hide StripVias, Body.EncodeBody, ViaParagraphs, Address.Valid;
    var text := Body.EncodeBody(read.data.text).value;
    assert "" + text == text;
    ViasBack(text, read.vias);
  }

  lemma EchoMailText(read: ReadMessage, context: Context)
    requires Typed(read) && context.packetOrigin.zone != -1 && BodyText(read, context, None).Ok? && read.data.area.Some?
    ensures Body.EncodeBody(read.data.text).Some?
    ensures var split := Footer.SplitFooter(BodyText(read, context, None).value);
      && split.0 == Body.EncodeBody(read.data.text).value
      && Footer.ReadFooter(split.1, None, None)
         == (Some(Footer.OrEmpty(read.data.tearLine)), Some(Footer.OrEmpty(read.data.originLine)))
  {
    hide Body.EncodeBody, Address.Valid, Footer.Footer, Footer.SplitFooter, Footer.ReadFooter, Footer.Representable;
    var text := Body.EncodeBody(read.data.text).value;
    assert "" + text == text;
    Body.BodyEnds(read.data.text);
    Footer.FooterRoundTrip(text, read.data.tearLine, read.data.originLine,
                           Footer.Representable(read.seenBy, context.domain, context.packetOrigin.zone));
  }

  // Attachments and attributes.

  function NamesOf(attachments: seq<Attachment>): seq<string> {
    if attachments == [] then [] else [Footer.OrEmpty(attachments[0].filename)] + NamesOf(attachments[1..])
  }

  ghost predicate WellNamed(attachments: seq<Attachment>) {
    forall i :: 0 <= i < |attachments| ==> attachments[i].filename.Some? && ValidFileSpec(attachments[i].filename.value)
  }

  lemma {:induction false} FileListBack(attachments: seq<Attachment>)
    requires attachments != [] && WellNamed(attachments)
    ensures Split(FileList(attachments), ' ') == NamesOf(attachments) == NonEmpty(NamesOf(attachments))
    decreases |attachments|
  {
    hide Split;
    var name := attachments[0].filename.value;
    assert Free(name, " ") && name != [];
    if |attachments| == 1 {
      assert name + "" == name;
      assert attachments[1..] == [];
      SplitWhole(name, ' ');
    } else {
      var later := FileList(attachments[1..]);
      assert FileList(attachments) == name + [' '] + later;
      SplitAfter(name, ' ', later);
      FileListBack(attachments[1..]);
    }
    assert NamesOf(attachments)[1..] == NamesOf(attachments[1..]);
  }

  ghost predicate Bare(attachments: seq<Attachment>) {
    forall i :: 0 <= i < |attachments| ==> attachments[i].metadata == []
  }

  lemma {:induction false} NamesLength(attachments: seq<Attachment>)
    ensures |NamesOf(attachments)| == |attachments|
  {
    if attachments != [] { NamesLength(attachments[1..]); }
  }

  lemma BitsBack(n: nat, attach: bool)
    ensures var word := SignedBits(n) + (if attach then 16 else 0);
      SignedBits(word) == SignedBits(n) && (FileAttached(word) <==> attach)
  {
    var low, high := n % 4, n / 4096 % 8;
    var word := low + high * 4096 + (if attach then 16 else 0);
    assert word / 4096 == high && word % 4 == low;
    assert word / 16 == high * 256 + (if attach then 1 else 0);
  }
}
