/** The loops of the converter and its inverse, against the functions that specify them. */
module ConvertLoops {
  import opened Wrappers
  import opened LegacyText
  import opened Wire
  import opened Convert

  function Ahead(done: seq<Control>, later: Result<seq<Control>, ConvertError>): Result<seq<Control>, ConvertError> {
    if later.Err? then later else Ok(done + later.value)
  }

  /** `build` pushing one parsed control after another. */
  method PushControls(steps: Steps) returns (r: Result<seq<Control>, ConvertError>)
    ensures r == RunSteps(steps)
  {
    hide Carriable, ReadControl;
    var controls: seq<Control> := [];
    assert RunSteps(steps).Ok? ==> [] + RunSteps(steps).value == RunSteps(steps).value;
    assert steps[0..] == steps;
    for i := 0 to |steps|
      invariant Ahead(controls, RunSteps(steps[i..])) == RunSteps(steps)
    {
      if steps[i].Err? { return Err(steps[i].error); }
      var payload := steps[i].value;
      if !Carriable(payload) { return Err(Legacy("control paragraph payload")); }
      ghost var later := RunSteps(steps[i + 1..]);
      assert steps[i..][1..] == steps[i + 1..];
      assert later.Ok? ==>
        controls + ([ReadControl(payload)] + later.value) == (controls + [ReadControl(payload)]) + later.value;
      controls := controls + [ReadControl(payload)];
    }
    assert controls + [] == controls;
    return Ok(controls);
  }

  function Prefixed(done: string, later: Result<string, ConvertError>): Result<string, ConvertError> {
    if later.Err? then later else Ok(done + later.value)
  }

  /** `reconstruct` collecting TITHSIGN chunks. */
  method GatherLoop(controls: seq<Control>) returns (r: Result<string, ConvertError>)
    ensures r == Gather(controls)
  {
    hide SameName, ChunkOf;
    var encoded := "";
    assert Gather(controls).Ok? ==> "" + Gather(controls).value == Gather(controls).value;
    assert controls[0..] == controls;
    for i := 0 to |controls|
      invariant Prefixed(encoded, Gather(controls[i..])) == Gather(controls)
    {
      assert controls[i..][1..] == controls[i + 1..];
      if SameName(controls[i].name, "TITHSIGN") {
        var chunk := ChunkOf(controls[i].value);
        if chunk.Err? { return chunk; }
        ghost var later := Gather(controls[i + 1..]);
        assert later.Ok? ==> encoded + (chunk.value + later.value) == (encoded + chunk.value) + later.value;
        encoded := encoded + chunk.value;
      }
    }
    assert encoded + "" == encoded;
    return Ok(encoded);
  }

  /** `finish_reconstruction` writing the children, with SignedOrigin spliced in before one of them. */
  method WriteChildren(children: seq<Tlv>, splice: nat, signedOrigin: Bytes) returns (encoded: Bytes)
    requires splice < |children|
    ensures encoded == EncodeAll(children[..splice]) + signedOrigin + EncodeAll(children[splice..])
  {
    hide EncodeTlv;
    encoded := [];
    for i := 0 to |children|
      invariant i <= splice ==> encoded == EncodeAll(children[..i])
      invariant i > splice ==> encoded == EncodeAll(children[..splice]) + signedOrigin + EncodeAll(children[splice..i])
    {
      if i == splice {
        encoded := encoded + signedOrigin;
        assert children[splice..i] == [];
        assert encoded + [] == encoded;
      }
      ghost var from := if i < splice then 0 else splice;
      assert children[from..i + 1] == children[from..i] + [children[i]];
      EncodeAllAppend(children[from..i], [children[i]]);
      OneChild(children[i]);
      ghost var front := EncodeAll(children[..splice]) + signedOrigin;
      assert (front + EncodeAll(children[splice..if i < splice then splice else i])) + EncodeTlv(children[i])
        == front + (EncodeAll(children[splice..if i < splice then splice else i]) + EncodeTlv(children[i]));
      encoded := encoded + EncodeTlv(children[i]);
    }
    assert children[splice..|children|] == children[splice..];
  }

  lemma OneChild(t: Tlv)
    ensures EncodeAll([t]) == EncodeTlv(t)
  {
    EncodeAllStep(t, []);
    assert [t] + [] == [t] && EncodeTlv(t) + EncodeAll([]) == EncodeTlv(t);
  }

  /** `message_body_fields` taking Via paragraphs off a NetMail body. */
  method StripViasLoop(text: string) returns (body: string)
    ensures body == StripVias(text)
  {
    hide LastVia;
    body := text;
    while LastVia(body).Some?
      invariant StripVias(body) == StripVias(text)
      decreases |body|
    {
      ViaInside(body);
      body := body[..LastVia(body).value];
    }
  }

  lemma ViaInside(body: string)
    requires LastVia(body).Some?
    ensures LastVia(body).value < |body|
  {
  }
}
