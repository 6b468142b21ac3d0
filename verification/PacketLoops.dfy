/** The packet reader and writer as the source runs them: cursors that advance, buffers that are filled in place. */
module PacketLoops {
  import opened Wrappers
  import opened LegacyText
  import opened Text
  import opened Packet
  import DateTime

  function Prepend(messages: seq<PackedMessage>, later: Result<seq<PackedMessage>, PacketError>)
    : Result<seq<PackedMessage>, PacketError>
  {
    if later.Err? then later else Ok(messages + later.value)
  }

  /** `Packet::parse`. */
  method ParsePacket(input: string) returns (r: Result<Packet, PacketError>)
    ensures r == Parse(input)
  {
    var header := ParseHeader(input);
    if header.Err? { return Err(header.error); }
    var (origin, destination) := header.value;
    var rest, messages := input[58..], [];
    ghost var goal := ParseRecords(rest, origin, destination);
    assert goal.Ok? ==> [] + goal.value == goal.value;
    while true
      invariant Prepend(messages, ParseRecords(rest, origin, destination)) == goal
      decreases |rest|
    {
      hide ParseHeader, ParseRecord;
      if |rest| < 2 { return Err(MissingTerminator); }
      var word := U16At(rest, 0);
      if word == 0 { assert messages + [] == messages; break; }
      if word != 2 { return Err(MalformedRecord); }
      var first := ParseRecord(rest, origin, destination);
      if first.Err? { return Err(first.error); }
      ghost var later := ParseRecords(first.value.1, origin, destination);
      assert later.Ok? ==> messages + ([first.value.0] + later.value) == (messages + [first.value.0]) + later.value;
      messages := messages + [first.value.0];
      rest := first.value.1;
    }
    return Ok(Packet(origin, destination, messages));
  }

  function Append(written: string, later: Result<string, ExportError>): Result<string, ExportError> {
    if later.Err? then later else Ok(written + later.value)
  }

  /** The loop of `Packet::encode` over its messages, and the terminator. */
  method WriteRecords(p: Packet, header: string) returns (r: Result<string, ExportError>)
    ensures r == Append(header, EncodeRecords(p, 0))
  {
    hide EncodeRecord;
    var output := header;
    for i := 0 to |p.messages|
      invariant Append(output, EncodeRecords(p, i)) == Append(header, EncodeRecords(p, 0))
    {
      var m := p.messages[i];
      if m.origin.zone != p.origin.zone || m.origin.point != p.origin.point
        || m.destination.zone != p.destination.zone || m.destination.point != p.destination.point
      {
        return Err(EndpointMismatch);
      }
      var record := EncodeRecord(m);
      if record.Err? { return record; }
      ghost var later := EncodeRecords(p, i + 1);
      assert later.Ok? ==> output + (record.value + later.value) == (output + record.value) + later.value;
      output := output + record.value;
    }
    return Ok(output + Put(0));
  }

  /** `PackedMessage::body`. */
  method WriteBody(m: PackedMessage) returns (r: Result<string, ExportError>)
    ensures r == Body(m)
  {
    hide ValidArea, Carriable, Paragraph, AreaLine;
    if m.area.Some? && !ValidArea(m.area.value) { return Err(Unrepresentable("AREA name")); }
    var output := AreaLine(m.area);
    ghost var start := output;
    for i := 0 to |m.controls|
      invariant AllCarriable(m.controls[..i])
      invariant output + Paragraphs(m.controls[i..]) == start + Paragraphs(m.controls)
    {
      var raw := m.controls[i].raw;
      if !Carriable(raw) { return Err(Unrepresentable("control paragraph payload")); }
      assert m.controls[i..][1..] == m.controls[i + 1..];
      assert output + (Paragraph(raw) + Paragraphs(m.controls[i + 1..]))
        == (output + Paragraph(raw)) + Paragraphs(m.controls[i + 1..]);
      output := output + Paragraph(raw);
    }
    assert m.controls[..|m.controls|] == m.controls;
    assert output + [] == output;
    return Ok(output + m.text);
  }

  /** A buffer that holds the first bytes of `h` and zeros after them. */
  ghost predicate Filled(bytes: string, h: string, upTo: nat) {
    upTo <= |h| == |bytes| && bytes[..upTo] == h[..upTo] && forall i :: upTo <= i < |bytes| ==> bytes[i] == '\0'
  }

  /** `copy_from_slice` at the end of what is filled. */
  method CopyAt(bytes: array<char>, ghost h: string, offset: nat, piece: string)
    requires Filled(bytes[..], h, offset) && offset + |piece| <= |h| && h[offset..offset + |piece|] == piece
    modifies bytes
    ensures Filled(bytes[..], h, offset + |piece|)
  {
    for i := 0 to |piece|
      invariant Filled(bytes[..], h, offset + i)
    {
      assert h[offset + i] == h[offset..offset + |piece|][i];
      bytes[offset + i] := piece[i];
      assert bytes[..][..offset + i + 1] == h[..offset + i + 1];
    }
  }

  /** `put`. */
  method PutAt(bytes: array<char>, ghost h: string, offset: nat, value: U16)
    requires Filled(bytes[..], h, offset) && offset + 2 <= |h| && h[offset..offset + 2] == Put(value)
    modifies bytes
    ensures Filled(bytes[..], h, offset + 2)
  {
    CopyAt(bytes, h, offset, Put(value));
  }

  lemma SkipZeros(bytes: string, h: string, offset: nat, n: nat)
    requires Filled(bytes, h, offset) && offset + n <= |h| && h[offset..offset + n] == seq(n, _ => '\0')
    ensures Filled(bytes, h, offset + n)
  {
    forall i | 0 <= i < offset + n ensures bytes[i] == h[i] {
      if i < offset {
        assert bytes[i] == bytes[..offset][i] && h[i] == h[..offset][i];
      } else {
        assert h[i] == h[offset..offset + n][i - offset];
      }
    }
  }

  ghost predicate FrontIs(h: string, p: Packet, o: Options, year: U16, time: DateTime.CivilTime)
    requires |h| == 58 && 1 <= time.date.month <= 12 && 0 <= time.date.day < 32
    requires 0 <= time.hour < 24 && 0 <= time.minute < 60 && 0 <= time.second < 60
  {
    && h[0..2] == Put(p.origin.node) && h[2..4] == Put(p.destination.node) && h[4..6] == Put(year)
    && h[6..8] == Put(time.date.month - 1) && h[8..10] == Put(time.date.day) && h[10..12] == Put(time.hour)
    && h[12..14] == Put(time.minute) && h[14..16] == Put(time.second) && h[16..18] == Put(0) && h[18..20] == Put(2)
    && h[20..22] == Put(OriginNetField(p)) && h[22..24] == Put(p.destination.net)
    && h[24..26] == [Low(o.productCode), Octet(o.revisionMajor)]
  }

  ghost predicate BackIs(h: string, p: Packet, o: Options)
    requires |h| == 58 && |o.password| <= 8
  {
    && h[26..26 + |o.password|] == o.password && h[26 + |o.password|..34] == seq(8 - |o.password|, _ => '\0')
    && h[34..36] == Put(p.origin.zone) && h[36..38] == Put(p.destination.zone)
    && h[38..40] == Put(AuxiliaryNet(p)) && h[40..42] == Put(0x0100)
    && h[42..44] == [High(o.productCode), Octet(o.revisionMinor)] && h[44..46] == Put(0x0001)
    && h[46..48] == Put(p.origin.zone) && h[48..50] == Put(p.destination.zone)
    && h[50..52] == Put(p.origin.point) && h[52..54] == Put(p.destination.point)
    && h[54..58] == ProductData(o)
  }

  lemma FrontPieces(p: Packet, o: Options, year: U16, time: DateTime.CivilTime)
    requires 1 <= time.date.month <= 12 && 0 <= time.date.day < 32
    requires 0 <= time.hour < 24 && 0 <= time.minute < 60 && 0 <= time.second < 60 && |o.password| <= 8
    ensures |Header(p, o, year, time)| == 58 && FrontIs(Header(p, o, year, time), p, o, year, time)
  {
    var h := Header(p, o, year, time);
    assert |h| == 58;
    assert h[0..2] == Put(p.origin.node) && h[2..4] == Put(p.destination.node);
    assert h[4..6] == Put(year);
    assert h[6..8] == Put(time.date.month - 1) && h[8..10] == Put(time.date.day);
    assert h[10..12] == Put(time.hour);
    assert h[12..14] == Put(time.minute) && h[14..16] == Put(time.second);
    assert h[16..18] == Put(0) && h[18..20] == Put(2);
    assert h[20..22] == Put(OriginNetField(p)) && h[22..24] == Put(p.destination.net);
    assert h[24..26] == [Low(o.productCode), Octet(o.revisionMajor)];
  }

  lemma BackPieces(p: Packet, o: Options, year: U16, time: DateTime.CivilTime)
    requires 1 <= time.date.month <= 12 && 0 <= time.date.day < 32
    requires 0 <= time.hour < 24 && 0 <= time.minute < 60 && 0 <= time.second < 60 && |o.password| <= 8
    ensures |Header(p, o, year, time)| == 58 && BackIs(Header(p, o, year, time), p, o)
  {
    var h := Header(p, o, year, time);
    assert |h| == 58;
    assert h[26..34] == Padded(o.password);
    assert h[26..26 + |o.password|] == h[26..34][..|o.password|];
    assert h[26 + |o.password|..34] == h[26..34][|o.password|..];
    assert h[34..36] == Put(p.origin.zone) && h[36..38] == Put(p.destination.zone);
    assert h[38..40] == Put(AuxiliaryNet(p)) && h[40..42] == Put(0x0100);
    assert h[42..44] == [High(o.productCode), Octet(o.revisionMinor)] && h[44..46] == Put(0x0001);
    assert h[46..48] == Put(p.origin.zone) && h[48..50] == Put(p.destination.zone);
    assert h[50..52] == Put(p.origin.point) && h[52..54] == Put(p.destination.point);
    assert h[54..58] == ProductData(o);
  }

  method WriteFront(bytes: array<char>, ghost h: string, p: Packet, o: Options, year: U16, time: DateTime.CivilTime)
    requires 1 <= time.date.month <= 12 && 0 <= time.date.day < 32
    requires 0 <= time.hour < 24 && 0 <= time.minute < 60 && 0 <= time.second < 60
    requires |h| == 58 && FrontIs(h, p, o, year, time) && Filled(bytes[..], h, 0)
    modifies bytes
    ensures Filled(bytes[..], h, 26)
  {
    hide Filled, Put, Low, Octet;
    PutAt(bytes, h, 0, p.origin.node);
    PutAt(bytes, h, 2, p.destination.node);
    PutAt(bytes, h, 4, year);
    PutAt(bytes, h, 6, time.date.month - 1);
    PutAt(bytes, h, 8, time.date.day);
    PutAt(bytes, h, 10, time.hour);
    PutAt(bytes, h, 12, time.minute);
    PutAt(bytes, h, 14, time.second);
    PutAt(bytes, h, 16, 0);
    PutAt(bytes, h, 18, 2);
    PutAt(bytes, h, 20, if p.origin.point == 0 then p.origin.net else 0xffff);
    PutAt(bytes, h, 22, p.destination.net);
    CopyAt(bytes, h, 24, [Low(o.productCode), Octet(o.revisionMajor)]);
  }

  method WriteBack(bytes: array<char>, ghost h: string, p: Packet, o: Options)
    requires |o.password| <= 8 && |h| == 58 && BackIs(h, p, o) && Filled(bytes[..], h, 26)
    modifies bytes
    ensures Filled(bytes[..], h, 58)
  {
    hide Filled, Put, Low, High, Octet;
    CopyAt(bytes, h, 26, o.password);
    SkipZeros(bytes[..], h, 26 + |o.password|, 8 - |o.password|);
    PutAt(bytes, h, 34, p.origin.zone);
    PutAt(bytes, h, 36, p.destination.zone);
    PutAt(bytes, h, 38, if p.origin.point == 0 then 0 else p.origin.net);
    PutAt(bytes, h, 40, 0x0100);
    CopyAt(bytes, h, 42, [High(o.productCode), Octet(o.revisionMinor)]);
    PutAt(bytes, h, 44, 0x0001);
    PutAt(bytes, h, 46, p.origin.zone);
    PutAt(bytes, h, 48, p.destination.zone);
    PutAt(bytes, h, 50, p.origin.point);
    PutAt(bytes, h, 52, p.destination.point);
    CopyAt(bytes, h, 54, ProductData(o));
  }

  /** `Packet::header`. */
  method WriteHeader(p: Packet, o: Options) returns (r: Result<string, ExportError>)
    ensures r == EncodeHeader(p, o)
  {
    hide Header, FrontIs, BackIs, DateTime.CivilFromLocal, Free;
    if |o.password| > 8 { return Err(TooLong("packet password", 8, |o.password|)); }
    if !Free(o.password, "\0") { return Err(Unrepresentable("packet password")); }
    var created := DateTime.CivilFromLocal(o.created);
    DateTime.CivilFits(o.created);
    if !(0 <= created.date.year < 0x1_0000) { return Err(TimestampOutOfRange); }
    var bytes := new char[58](_ => '\0');
    ghost var h := Header(p, o, created.date.year, created);
    FrontPieces(p, o, created.date.year, created);
    BackPieces(p, o, created.date.year, created);
    WriteFront(bytes, h, p, o, created.date.year, created);
    WriteBack(bytes, h, p, o);
    assert bytes[..] == h by { assert h[..58] == h && bytes[..][..58] == bytes[..]; }
    return Ok(bytes[..]);
  }

  /** `Packet::encode`. */
  method EncodePacket(p: Packet, o: Options) returns (r: Result<string, ExportError>)
    ensures r == Encode(p, o)
  {
    hide EncodeHeader, EncodeRecords;
    r := WriteHeader(p, o);
    if r.Ok? { r := WriteRecords(p, r.value); }
  }
}
