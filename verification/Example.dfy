/** A message that meets every premise of the canonical conversion, so that none of its theorems is empty. */
module Example {
  import opened Wrappers
  import opened Integers
  import opened LegacyText
  import opened Text
  import opened Wire
  import opened Convert
  import opened Canonical
  import opened Children
  import opened Inverse
  import opened Tracing
  import opened Fidelity
  import Address
  import Base64
  import Body
  import DateTime
  import Packet
  import Timezone

  const AUTHOR: Address.Address := Address.Address("x", 1, 1, 0, 0)
  const READER: Address.Address := Address.Address("x", 1, 2, 5, 0)

  function Note(): MessageData {
    MessageData(Some(Identity(READER, "")), 0, "You", "Me", "", "Hi\n", None, [], None, None, None, None,
                Some("x#1"), None, None, [])
  }

  function Letter(): ReadMessage {
    ReadMessage(Note(), Signing(AUTHOR, None, [], Some(seq(64, _ => '\0'))), [], "", [])
  }

  const LINK: Context := Context(AUTHOR, READER, "x", [])

  // Addresses.

  lemma DomainIsValid()
    ensures Address.ValidateDomain("x").None?
  {
    assert |"x"| == 1 && "x"[0] == 'x';
    assert forall i :: 0 <= i < |Address.WideSpaces()| ==> |Address.WideSpaces()[i]| >= 2;
  }

  lemma DigitText(n: nat)
    requires n < 10
    ensures Address.Int(n) == [('0' as int + n) as char]
  {
  }

  lemma AuthorText()
    ensures Address.Valid(AUTHOR) && Address.Display(AUTHOR) == "x#1"
  {
    DomainIsValid();
    DigitText(1);
    assert Address.Display(AUTHOR) == "x" + "#" + ("1" + ("" + ("" + "")));
  }

  lemma ReaderText()
    ensures Address.Valid(READER) && Address.Display(READER) == "x#1:2/5"
  {
    DomainIsValid();
    DigitText(1);
    DigitText(2);
    DigitText(5);
    assert Address.Display(READER) == "x" + "#" + ("1" + ((":" + "2") + (("/" + "5") + "")));
  }

  lemma WholeWord()
    ensures FirstWord("x#1") == "x#1" && Address.Parse("x#1") == Ok(AUTHOR)
  {
    AuthorText();
    assert Free("x#1", " ");
    SplitWhole("x#1", ' ');
    Address.AddressRoundTrip("x#1", AUTHOR);
  }

  // Controls.

  lemma VisibleIsCarriable(s: string)
    requires DateTime.Visible(s)
    ensures Carriable(s)
  {
  }

  ghost predicate Smooth(steps: Steps) {
    forall i :: 0 <= i < |steps| ==> steps[i].Ok? && DateTime.Visible(steps[i].value)
  }

  lemma {:induction false} SmoothRuns(steps: Steps)
    requires Smooth(steps)
    ensures RunSteps(steps).Ok?
  {
    hide DateTime.Visible, Carriable, ReadControl;
    if steps != [] {
      VisibleIsCarriable(steps[0].value);
      SmoothRuns(steps[1..]);
    }
  }

  lemma {:induction false} SmoothJoined(groups: seq<Steps>)
    requires forall j :: 0 <= j < |groups| ==> Smooth(groups[j])
    ensures Smooth(Joined(groups))
  {
    hide DateTime.Visible;
    if groups != [] { SmoothJoined(groups[1..]); }
  }

  function Signature(): string {
    Base64.Encode(seq(64, _ => '\0'))
  }

  lemma VisibleLetters(s: string)
    requires Base64.Lettered(s)
    ensures DateTime.Visible(s)
  {
    forall i | 0 <= i < |s| ensures ' ' <= s[i] <= '~' { assert Base64.Value(s[i]).Some?; }
  }

  lemma SignatureText()
    ensures |Signature()| == 86 && DateTime.Visible(Signature())
  {
    Base64.EncodeLength(seq(64, _ => '\0'));
    Base64.EncodeLetters(seq(64, _ => '\0'));
    VisibleLetters(Signature());
  }

  lemma VisiblePair(a: string, b: string)
    requires DateTime.Visible(a) && DateTime.Visible(b)
    ensures DateTime.Visible(a + b)
  {
  }

  lemma HalfVisible(half: string)
    requires DateTime.Visible(half)
    ensures DateTime.Visible("TITHSIG" + ": " + ("1 " + half))
  {
    assert DateTime.Visible("TITHSIG: ") && DateTime.Visible("1 ");
    VisiblePair("1 ", half);
    VisiblePair("TITHSIG: ", "1 " + half);
    assert "TITHSIG" + ": " == "TITHSIG: ";
  }

  lemma SigningSmooth()
    requires |Signature()| == 86
    ensures Smooth(Plainly(SigningPayloads([], Signature())))
  {
    hide DateTime.Visible;
    SignatureText();
    var a, b := Signature()[..43], Signature()[43..];
    Halves(Signature());
    HalfVisible(a);
    HalfVisible(b);
    var payloads := ["TITHSIG" + ": " + ("1 " + a), "TITHSIG" + ": " + ("1 " + b)];
    assert SigningPayloads([], Signature()) == payloads;
    assert payloads[1..] == [payloads[1]] && payloads[1..][1..] == [];
    assert Plainly(payloads[1..]) == [Ok(payloads[1])] + [];
    assert Plainly(payloads) == [Ok(payloads[0])] + ([Ok(payloads[1])] + []);
  }

  lemma Halves(s: string)
    requires |s| == 86 && DateTime.Visible(s)
    ensures DateTime.Visible(s[..43]) && DateTime.Visible(s[43..])
  {
  }

  lemma AddressSmooth()
    ensures Address.Valid(AUTHOR) && Address.Valid(READER) && Smooth(AddressSteps(Note().destination, AUTHOR))
  {
    hide Address.Int, Address.Display, Address.New, DateTime.Visible;
    AuthorText();
    ReaderText();
    DigitText(0);
    DigitText(1);
    DigitText(2);
    DigitText(5);
    assert AddressText(READER) == Ok("1" + ":" + "2" + "/" + "5")
      && AddressText(AUTHOR) == Ok("1" + ":" + "1" + "/" + "0");
    assert "MSGTO" + ": " + "x#1:2/5" == "MSGTO: x#1:2/5";
    assert "INTL" + " " + (("1" + ":" + "2" + "/" + "5") + " " + ("1" + ":" + "1" + "/" + "0")) == "INTL 1:2/5 1:1/0";
    VisibleAddressing();
  }

  lemma VisibleAddressing()
    ensures DateTime.Visible("MSGTO: x#1:2/5") && DateTime.Visible("INTL 1:2/5 1:1/0")
  {
  }

  lemma ZoneSmooth()
    ensures Smooth([ZoneStep(0)])
  {
    assert Timezone.Format(0) == Some("" + DateTime.TwoDigits(0) + DateTime.TwoDigits(0));
    assert DateTime.TwoDigits(0) == "00";
    assert "TZUTC" + ": " + ("" + "00" + "00") == "TZUTC: 0000";
  }

  lemma RestSmooth()
    ensures Smooth([Ok("CHRS" + ": " + "UTF-8 4")]) && Smooth(Labelled("MSGID", Some("x#1")))
    ensures Smooth(Labelled("REPLY", None)) && Smooth(Plainly([])) && Smooth(AttachmentSteps([]))
  {
    assert "CHRS" + ": " + "UTF-8 4" == "CHRS: UTF-8 4" && "MSGID" + ": " + "x#1" == "MSGID: x#1";
  }

  lemma ControlsRun()
    requires |Signature()| == 86 && Typed(Letter())
    ensures RunSteps(Joined(StepGroups(Letter(), SigningPayloads([], Signature())))).Ok?
  {
    hide Smooth, RunSteps, Joined, StepGroups, SigningPayloads, AddressSteps, ZoneStep;
    var groups := StepGroups(Letter(), SigningPayloads([], Signature()));
    SigningSmooth();
    AddressSmooth();
    ZoneSmooth();
    RestSmooth();
    GroupIs(Letter(), SigningPayloads([], Signature()), 0);
    forall j | 0 <= j < |groups| ensures Smooth(groups[j]) {
      GroupIs(Letter(), SigningPayloads([], Signature()), j);
      if j == 7 { NoSteps(); }
    }
    SmoothJoined(groups);
    SmoothRuns(Joined(groups));
  }

  lemma NoSteps()
    ensures Smooth([])
  {
  }

  // The body.

  lemma NoteBody()
    ensures Body.EncodeBody("Hi\n") == Some("Hi\r") && Body.Conforming("Hi\n") && LastVia("Hi\r").None?
  {
    var s := "Hi\n";
    assert s[0] == 'H' && s[1] == 'i' && s[2] == '\n' && |s| == 3;
    assert s[1..] == "i\n" && s[1..][1..] == "\n" && "\n"[1..] == "";
    assert Body.Fold("\n") == ['\r'] + [] && Body.Fold("i\n") == ['i'] + Body.Fold("\n")
      && Body.Fold(s) == ['H'] + Body.Fold("i\n");
    assert ['H'] + (['i'] + (['\r'] + [])) == "Hi\r";
    NoMark("Hi\r");
  }

  lemma NoMark(s: string)
    requires forall i :: 0 <= i < |s| ==> s[i] != 1 as char
    ensures LastMark(s, |s|).None?
  {
    hide LastMark;
  }

  // The example.

  lemma LetterTyped()
    ensures Typed(Letter()) && TypedContext(LINK) && SigningBytes(Letter())
  {
    AuthorText();
    ReaderText();
  }

  lemma LetterTraces()
    ensures Traceable(Letter(), LINK)
  {
    hide Address.Parse, FirstWord;
    WholeWord();
  }

  lemma LetterBuilds() returns (message: Packet.PackedMessage)
    ensures |Signature()| == 86 && Converts(Letter(), LINK, [], Signature(), message)
  {
    hide RunSteps, Joined, StepGroups, SigningPayloads, DateTime.FormatDateTime, Body.EncodeBody, Address.Valid,
         Signature;
    SignatureText();
    LetterTyped();
    ControlsRun();
    NoteBody();
    DateTime.FormatAccepts(0);
    var built := Build(Letter(), LINK, None, SigningPayloads([], Signature()));
    assert BodyText(Letter(), LINK, None).Ok?;
    message := built.value;
  }

  lemma NotePreserved()
    ensures Body.EncodeBody(Note().text).Some? && Preserved(Note())
  {
    NoteBody();
  }

  /** Few and short. */
  ghost predicate Small(ts: seq<Tlv>, count: nat) {
    |ts| <= count && forall i :: 0 <= i < |ts| ==> ts[i].typeCode < 128 && |ts[i].value| < 128
  }

  lemma {:induction false} SmallSize(ts: seq<Tlv>, count: nat)
    requires Small(ts, count)
    ensures |EncodeAll(ts)| <= 129 * count
  {
    if ts != [] {
      assert Small(ts[1..], count - 1);
      SmallSize(ts[1..], count - 1);
      EncodedLength(ts[0].typeCode);
      EncodedLength(|ts[0].value|);
    }
  }

  lemma {:induction false} SmallJoined(sections: seq<seq<Tlv>>)
    requires forall j :: 0 <= j < |sections| ==> Small(sections[j], 5)
    ensures Small(Joined(sections), 5 * |sections|)
  {
    if sections != [] { SmallJoined(sections[1..]); }
  }

  lemma NoteSmall()
    requires Fine(Note())
    ensures Small(SignedChildren(Note()), 55)
  {
    hide EncodeAll, Joined, Address.Valid;
    ReaderText();
    assert |EncodeNumber(0)| == 1;
    var sections := Sections(Note());
    forall j | 0 <= j < |sections| ensures Small(sections[j], 5) {
      if j == 0 {
        assert sections[0] == [Tlv(DESTINATION, "x#1:2/5")];
      } else if j == 1 {
        assert sections[1] == Required(0, "You", "Me", "", "Hi\n");
      } else if j == 8 {
        assert sections[8] == [Tlv(MESSAGE_ID, "x#1")];
      } else {
        assert sections[j] == [];
      }
    }
    SmallJoined(sections);
  }

  lemma LetterFits()
    requires Typed(Letter())
    ensures |SignedRegion(Letter())| <= MAX_U64
  {
    hide EncodeAll, Sections, Joined, Address.Valid;
    AuthorText();
    var origin := OriginChildren(AUTHOR, None);
    assert origin == [Tlv(ORIGIN, "x#1")] && Small(origin, 1);
    SmallSize(origin, 1);
    NoteSmall();
    SmallSize(SignedChildren(Note()), 55);
  }

  /** The premises of the canonical theorems hold together. */
  lemma SomeLetterIsCanonical() returns (read: ReadMessage, context: Context, message: Packet.PackedMessage)
    ensures Exported(read, context, message) && Preserved(read.data) && Traceable(read, context)
    ensures |SignedRegion(read)| <= MAX_U64 && Reconstruct(message, context, read) == Ok(SignedRegion(read))
  {
    hide Build, Reconstruct, SignedRegion, Preserved, Traceable, Address.Valid, Base64.Encode;
    read, context := Letter(), LINK;
    LetterTyped();
    LetterTraces();
    message := LetterBuilds();
    SigningEncodes(read);
    NotePreserved();
    LetterFits();
    ReconstructExactly(read, context, message);
  }
}
