/**
 Text of legacy messages, as the sequence of its UTF-8 code units, and the control
 paragraphs in front of it.
 */
module LegacyText {
  import opened Wrappers
  import opened Text

  // UTF-8, as `from_utf8` accepts it (section 4 of RFC 3629).

  predicate Tail(c: char) {
    0x80 <= c as int <= 0xbf
  }

  /** Length of the well-formed character a text starts with, or zero. */
  function CharLength(s: string): (n: nat)
    ensures n <= |s|
  {
    if s == [] then 0
    else
      var a := s[0] as int;
      if a < 0x80 then 1
      else if |s| < 2 || !Tail(s[1]) then 0
      else
        var b := s[1] as int;
        if 0xc2 <= a <= 0xdf then 2
        else if |s| < 3 || !Tail(s[2]) then 0
        else if (a == 0xe0 && 0xa0 <= b) || 0xe1 <= a <= 0xec || (a == 0xed && b <= 0x9f) || 0xee <= a <= 0xef then 3
        else if |s| < 4 || !Tail(s[3]) then 0
        else if (a == 0xf0 && 0x90 <= b) || 0xf1 <= a <= 0xf3 || (a == 0xf4 && b <= 0x8f) then 4
        else 0
  }

  predicate Utf8(s: string)
    decreases |s|
  {
    s == [] || (CharLength(s) > 0 && Utf8(s[CharLength(s)..]))
  }

  lemma {:induction false} Utf8Concat(a: string, b: string)
    requires Utf8(a) && Utf8(b)
    ensures Utf8(a + b)
    decreases |a|
  {
    if a == [] {
      assert a + b == b;
    } else {
      var n := CharLength(a);
      assert CharLength(a + b) == n;
      DropFirst(a, b, n);
      Utf8Concat(a[n..], b);
    }
  }

  lemma DropFirst(a: string, b: string, n: nat)
    requires n <= |a|
    ensures (a + b)[n..] == a[n..] + b
  {
  }

  lemma {:induction false} AsciiIsUtf8(s: string)
    requires forall i :: 0 <= i < |s| ==> s[i] as int < 0x80
    ensures Utf8(s)
    decreases |s|
  {
    if s != [] { AsciiIsUtf8(s[1..]); }
  }

  // Control paragraphs.

  /** One control paragraph: byte 0x01, payload, byte 0x0D. */
  datatype Control = Control(name: string, value: string, raw: string)

  function SkipLeading(s: string, c: char): (r: string)
    ensures |r| <= |s|
    decreases |s|
  {
    if s != [] && s[0] == c then SkipLeading(s[1..], c) else s
  }

  /** Name and value as a payload spells them. */
  function ReadControl(payload: string): Control {
    var at := Find(payload, " :");
    if at.None? then Control(payload, "", payload)
    else Control(payload[..at.value], SkipLeading(SkipLeading(payload[at.value..], ':'), ' '), payload)
  }

  /** The payload of the control a text starts with, and what follows it. */
  function FirstControl(text: string): (r: (string, string))
    requires text != [] && text[0] == 1 as char
    ensures |r.1| < |text|
  {
    var after := text[1..];
    var at := Find(after, "\r");
    if at.None? then (after, "") else (after[..at.value], after[at.value + 1..])
  }

  function SplitControls(text: string): (seq<Control>, string)
    decreases |text|
  {
    if text == [] || text[0] != 1 as char then ([], text)
    else
      var (payload, rest) := FirstControl(text);
      var (controls, body) := SplitControls(rest);
      ([ReadControl(payload)] + controls, body)
  }

  /** The loop of `split_controls`. */
  method SplitControlsLoop(text: string) returns (controls: seq<Control>, body: string)
    ensures (controls, body) == SplitControls(text)
  {
    controls, body := [], text;
    assert controls + SplitControls(body).0 == SplitControls(body).0;
    while body != [] && body[0] == 1 as char
      invariant (controls + SplitControls(body).0, SplitControls(body).1) == SplitControls(text)
      decreases |body|
    {
      var (payload, remainder) := FirstControl(body);
      ghost var later := SplitControls(remainder).0;
      assert controls + ([ReadControl(payload)] + later) == (controls + [ReadControl(payload)]) + later;
      controls := controls + [ReadControl(payload)];
      body := remainder;
    }
    assert controls + [] == controls;
  }

  /** Payloads that one paragraph can carry. */
  predicate Carriable(payload: string) {
    Free(payload, "\0\r\n") && Free(payload, [1 as char])
  }

  function Paragraph(payload: string): string {
    [1 as char] + payload + "\r"
  }

  function Paragraphs(controls: seq<Control>): string {
    if controls == [] then "" else Paragraph(controls[0].raw) + Paragraphs(controls[1..])
  }

  predicate AllCarriable(controls: seq<Control>) {
    forall i :: 0 <= i < |controls| ==> Carriable(controls[i].raw)
  }

  /** The controls as their payloads spell them. */
  function Reread(controls: seq<Control>): seq<Control> {
    if controls == [] then [] else [ReadControl(controls[0].raw)] + Reread(controls[1..])
  }

  lemma FirstParagraph(payload: string, rest: string)
    requires Carriable(payload)
    ensures var text := Paragraph(payload) + rest; text[0] == 1 as char && FirstControl(text) == (payload, rest)
  {
    var text := Paragraph(payload) + rest;
    assert text[1..] == payload + ['\r'] + rest;
    FindAfter(payload, '\r', rest, "\r");
  }

  lemma SplitStep(payload: string, rest: string)
    requires Carriable(payload)
    ensures SplitControls(Paragraph(payload) + rest)
      == ([ReadControl(payload)] + SplitControls(rest).0, SplitControls(rest).1)
  {
    FirstParagraph(payload, rest);
  }

  /** Splitting what was written gives back every payload, re-read, and then whatever the text itself splits into. */
  lemma {:induction false} SplitParagraphs(controls: seq<Control>, text: string)
    requires AllCarriable(controls)
    ensures var (tailControls, tail) := SplitControls(text);
      SplitControls(Paragraphs(controls) + text) == (Reread(controls) + tailControls, tail)
    decreases |controls|
  {
    var (tailControls, tail) := SplitControls(text);
    if controls == [] {
      assert Paragraphs(controls) + text == text;
      assert Reread(controls) + tailControls == tailControls;
    } else {
      SplitParagraphs(controls[1..], text);
      PutInFront(controls, text, Reread(controls[1..]) + tailControls, tail);
      assert [ReadControl(controls[0].raw)] + (Reread(controls[1..]) + tailControls) == Reread(controls) + tailControls;
    }
  }

  lemma PutInFront(controls: seq<Control>, text: string, later: seq<Control>, tail: string)
    requires controls != [] && AllCarriable(controls)
    requires SplitControls(Paragraphs(controls[1..]) + text) == (later, tail)
    ensures SplitControls(Paragraphs(controls) + text) == ([ReadControl(controls[0].raw)] + later, tail)
  {
    var rest := Paragraphs(controls[1..]) + text;
    assert Paragraphs(controls) + text == Paragraph(controls[0].raw) + rest;
    SplitStep(controls[0].raw, rest);
  }

  lemma {:induction false} RereadLength(controls: seq<Control>)
    ensures |Reread(controls)| == |controls|
  {
    if controls != [] { RereadLength(controls[1..]); }
  }

  /** Controls and text come back exactly when names and values match their payloads and the text starts no control. */
  lemma SplitExactly(controls: seq<Control>, text: string)
    requires AllCarriable(controls)
    ensures SplitControls(Paragraphs(controls) + text) == (controls, text) <==>
      Reread(controls) == controls && !(text != [] && text[0] == 1 as char)
  {
    SplitParagraphs(controls, text);
    var tail := SplitControls(text).0;
    RereadLength(controls);
    assert Reread(controls) + [] == Reread(controls);
    if Reread(controls) + tail == controls {
      assert |tail| == 0;
    }
  }

  lemma {:induction false} ParagraphsUtf8(controls: seq<Control>)
    requires forall i :: 0 <= i < |controls| ==> Utf8(controls[i].raw)
    ensures Utf8(Paragraphs(controls))
    decreases |controls|
  {
    if controls != [] {
      var raw := controls[0].raw;
      AsciiIsUtf8([1 as char]);
      AsciiIsUtf8("\r");
      Utf8Concat([1 as char], raw);
      Utf8Concat([1 as char] + raw, "\r");
      ParagraphsUtf8(controls[1..]);
      Utf8Concat(Paragraph(raw), Paragraphs(controls[1..]));
    }
  }
}
