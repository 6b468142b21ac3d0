/** A message's signed children: which of them belong to which kind, and what equal bytes say about them. */
module Children {
  import opened Wrappers
  import opened Integers
  import opened Wire
  import opened Convert
  import Address

  function Pick(ts: seq<Tlv>, typeCode: nat): seq<Tlv> {
    if ts == [] then [] else (if ts[0].typeCode == typeCode then [ts[0]] else []) + Pick(ts[1..], typeCode)
  }

  lemma {:induction false} PickConcat(a: seq<Tlv>, b: seq<Tlv>, typeCode: nat)
    ensures Pick(a + b, typeCode) == Pick(a, typeCode) + Pick(b, typeCode)
  {
    if a == [] {
      assert a + b == b;
    } else {
      var first := if a[0].typeCode == typeCode then [a[0]] else [];
      assert (a + b)[1..] == a[1..] + b;
      PickConcat(a[1..], b, typeCode);
      assert first + (Pick(a[1..], typeCode) + Pick(b, typeCode))
        == (first + Pick(a[1..], typeCode)) + Pick(b, typeCode);
    }
  }

  ghost predicate Only(ts: seq<Tlv>, typeCode: nat) {
    forall i :: 0 <= i < |ts| ==> ts[i].typeCode == typeCode
  }

  ghost predicate Lacks(ts: seq<Tlv>, typeCode: nat) {
    forall i :: 0 <= i < |ts| ==> ts[i].typeCode != typeCode
  }

  lemma {:induction false} PickOnly(ts: seq<Tlv>, typeCode: nat)
    ensures Only(ts, typeCode) ==> Pick(ts, typeCode) == ts
    ensures Lacks(ts, typeCode) ==> Pick(ts, typeCode) == []
  {
    if ts != [] {
      PickOnly(ts[1..], typeCode);
      assert ts == [ts[0]] + ts[1..];
      if Lacks(ts, typeCode) { assert Lacks(ts[1..], typeCode); }
    }
  }

  lemma {:induction false} PickSection(sections: seq<seq<Tlv>>, k: nat, typeCode: nat)
    requires forall j :: 0 <= j < |sections| && j != k ==> Lacks(sections[j], typeCode)
    ensures Pick(Joined(sections), typeCode) == if k < |sections| then Pick(sections[k], typeCode) else []
    decreases |sections|
  {
    hide Pick, Lacks;
    if sections == [] {
      PickNothing(typeCode);
    } else {
      var k' := if k == 0 then |sections| else k - 1;
      forall j | 0 <= j < |sections[1..]| && j != k' ensures Lacks(sections[1..][j], typeCode) {
        assert sections[1..][j] == sections[j + 1];
      }
      PickSection(sections[1..], k', typeCode);
      PickConcat(sections[0], Joined(sections[1..]), typeCode);
      if k != 0 { PickOnly(sections[0], typeCode); }
      assert Pick(sections[0], typeCode) + [] == Pick(sections[0], typeCode);
      assert [] + Pick(Joined(sections[1..]), typeCode) == Pick(Joined(sections[1..]), typeCode);
    }
  }

  lemma PickNothing(typeCode: nat)
    ensures Pick([], typeCode) == []
  {
  }

  lemma {:induction false} FilesOnly(attachments: seq<Attachment>)
    ensures Only(FileChildren(attachments), FILE)
    decreases |attachments|
  {
    if attachments != [] { FilesOnly(attachments[1..]); }
  }

  /** Each kind of child has its own types. */
  predicate TypeOf(k: int, typeCode: nat) {
    match k
    case 0 => typeCode == DESTINATION || typeCode == PUBLIC_KEY
    case 1 => typeCode in [TIMESTAMP, TO_USER_NAME, FROM_USER_NAME, SUBJECT, MESSAGE_TEXT]
    case 2 => typeCode == AREA
    case 3 => typeCode == FILE
    case 4 => typeCode == LEGACY_ATTRIBUTES
    case 5 => typeCode == TIMESTAMP_OFFSET
    case 6 => typeCode == TEAR_LINE
    case 7 => typeCode == ORIGIN_LINE
    case 8 => typeCode == MESSAGE_ID
    case 9 => typeCode == REPLY_TO
    case _ => typeCode == ORIGINAL_CHARACTER_SET
  }

  ghost predicate Fine(data: MessageData) {
    && (data.destination.Some? ==> Address.Valid(data.destination.value.address))
    && (data.replyTo.Some? ==> Address.Valid(data.replyTo.value.0))
  }

  /** Sections in order, each with its own types only. */
  ghost predicate Sectioned(sections: seq<seq<Tlv>>) {
    |sections| <= 11 &&
    forall j, i :: 0 <= j < |sections| && 0 <= i < |sections[j]| ==> TypeOf(j, sections[j][i].typeCode)
  }

  lemma SectionTypes(data: MessageData)
    requires Fine(data)
    ensures |Sections(data)| == 11 && Sectioned(Sections(data))
  {
    hide Address.Valid, Address.Display, EncodeAll, EncodeTlv;
    FilesOnly(data.attachments);
  }

  lemma TypesApart(j: nat, k: nat, typeCode: nat)
    requires j < 11 && k < 11 && j != k && TypeOf(k, typeCode)
    ensures !TypeOf(j, typeCode)
  {
  }

  /** The joined children determine each section. */
  lemma SectionOf(sections: seq<seq<Tlv>>, k: nat, typeCode: nat)
    requires Sectioned(sections) && k < 11 && TypeOf(k, typeCode)
    ensures Pick(Joined(sections), typeCode) == if k < |sections| then Pick(sections[k], typeCode) else []
  {
    hide TypeOf, Pick, Joined;
    forall j | 0 <= j < |sections| && j != k ensures Lacks(sections[j], typeCode) {
      TypesApart(j, k, typeCode);
    }
    PickSection(sections, k, typeCode);
  }

  /** Sections of one type each agree when the joined children do. */
  lemma SameSection(a: seq<seq<Tlv>>, b: seq<seq<Tlv>>, k: nat, typeCode: nat)
    requires Sectioned(a) && Sectioned(b) && 2 <= k < 11 && TypeOf(k, typeCode) && Joined(a) == Joined(b)
    ensures (if k < |a| then a[k] else []) == if k < |b| then b[k] else []
  {
    hide Pick, Joined;
    SectionOf(a, k, typeCode);
    SectionOf(b, k, typeCode);
    if k < |a| { PickOnly(a[k], typeCode); }
    if k < |b| { PickOnly(b[k], typeCode); }
  }

  lemma TextOnly(timestamp: nat, toUser: string, fromUser: string, subject: string, text: string)
    ensures Pick(Required(timestamp, toUser, fromUser, subject, text), MESSAGE_TEXT) == [Tlv(MESSAGE_TEXT, text)]
  {
    var front := [Tlv(TIMESTAMP, EncodeNumber(timestamp)), Tlv(TO_USER_NAME, toUser), Tlv(FROM_USER_NAME, fromUser),
                  Tlv(SUBJECT, subject)];
    var last := [Tlv(MESSAGE_TEXT, text)];
    assert Required(timestamp, toUser, fromUser, subject, text) == front + last;
    PickConcat(front, last, MESSAGE_TEXT);
    PickOnly(front, MESSAGE_TEXT);
    PickOnly(last, MESSAGE_TEXT);
  }

  lemma SameText(a: MessageData, b: MessageData)
    requires Fine(a) && Fine(b) && SignedChildren(a) == SignedChildren(b)
    ensures a.text == b.text
  {
    hide Address.Valid, Joined, DestinationChildren, FileChildren, EncodeAll, Required, Pick;
    SectionTypes(a);
    SectionTypes(b);
    SectionOf(Sections(a), 1, MESSAGE_TEXT);
    SectionOf(Sections(b), 1, MESSAGE_TEXT);
    TextOnly(a.timestamp, a.toUser, a.fromUser, a.subject, a.text);
    TextOnly(b.timestamp, b.toUser, b.fromUser, b.subject, b.text);
  }

  // From bytes to children.

  ghost predicate Assigned(ts: seq<Tlv>) {
    forall i :: 0 <= i < |ts| ==> 1 <= ts[i].typeCode <= 121
  }

  lemma {:induction false} JoinedTypes(sections: seq<seq<Tlv>>)
    requires forall j :: 0 <= j < |sections| ==> Assigned(sections[j])
    ensures Assigned(Joined(sections))
  {
    if sections != [] { JoinedTypes(sections[1..]); }
  }

  lemma SectionsAssigned(sections: seq<seq<Tlv>>)
    requires Sectioned(sections)
    ensures Assigned(Joined(sections))
  {
    forall j | 0 <= j < |sections| ensures Assigned(sections[j]) {
      assert forall i :: 0 <= i < |sections[j]| ==> TypeOf(j, sections[j][i].typeCode);
    }
    JoinedTypes(sections);
  }

  /** No value is longer than the bytes it is part of. */
  lemma {:induction false} ValuesFit(ts: seq<Tlv>)
    ensures forall i :: 0 <= i < |ts| ==> |ts[i].value| <= |EncodeAll(ts)|
  {
    hide EncodeNumber;
    if ts != [] {
      ValuesFit(ts[1..]);
      assert forall i :: 0 < i < |ts| ==> ts[i] == ts[1..][i - 1];
    }
  }

  /** Equal bytes that a 64-bit length can count mean equal children. */
  lemma BytesTell(a: seq<Tlv>, b: seq<Tlv>)
    requires Assigned(a) && Assigned(b) && EncodeAll(a) == EncodeAll(b) && |EncodeAll(a)| <= MAX_U64
    ensures a == b
  {
    hide EncodeAll, ParseAll;
    ValuesFit(a);
    ValuesFit(b);
    SequenceRoundTrip(a, 121);
    SequenceRoundTrip(b, 121);
  }

  lemma EncodesToNothing(ts: seq<Tlv>)
    ensures EncodeAll(ts) == [] <==> ts == []
  {
  }

  lemma NoMore(front: seq<Tlv>, more: seq<Tlv>)
    requires EncodeAll(front + more) == EncodeAll(front)
    ensures more == []
  {
    hide EncodeAll;
    EncodeAllAppend(front, more);
    assert |EncodeAll(front + more)| == |EncodeAll(front)| + |EncodeAll(more)|;
    EncodesToNothing(more);
  }

  lemma OneFile(a: Attachment)
    requires FileChild(a.filename, a.timestamp, a.contents, [])
      == FileChild(a.filename, a.timestamp, a.contents, a.metadata)
    ensures a.metadata == []
  {
    hide EncodeAll;
    var front := Optional(FILENAME, a.filename) + OptionalNumber(TIMESTAMP, a.timestamp) + [Tlv(CONTENTS, a.contents)];
    assert front + [] == front;
    NoMore(front, a.metadata);
  }

  lemma AreaTells(area: Area)
    requires AreaChild(Area(area.name, None)) == AreaChild(area)
    ensures area.description.None?
  {
    hide EncodeAll;
    assert [Tlv(AREA_NAME, area.name)] + [] == [Tlv(AREA_NAME, area.name)];
    NoMore([Tlv(AREA_NAME, area.name)], Optional(AREA_DESCRIPTION, area.description));
  }

  lemma NumbersTell(a: nat, b: nat)
    requires a <= MAX_U64 && b <= MAX_U64 && EncodeNumber(a) == EncodeNumber(b)
    ensures a == b
  {
    hide EncodeNumber, ParseNumber;
    NumberRoundTrip(a, []);
    NumberRoundTrip(b, []);
  }

  lemma ReplyTells(address: Address.Address, a: string, b: string)
    requires Address.Valid(address) && ReplyChild(address, a) == ReplyChild(address, b)
    ensures a == b
  {
    hide Address.Valid, Address.Display, EncodeTlv;
    var front := EncodeTlv(Tlv(ADDRESS, Address.Display(address)));
    assert (front + a)[|front|..] == a && (front + b)[|front|..] == b;
  }

  lemma BitsFit(n: nat)
    ensures SignedBits(n) < 0x1_0000
  {
  }
}
