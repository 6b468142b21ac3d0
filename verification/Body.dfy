/** The body of a legacy message: native text folded into paragraphs that end in byte 0x0D, and back. */
module Body {
  import opened Wrappers
  import opened Text

  /** Each line feed, carriage return or pair of the two becomes one 0x0D. */
  function Fold(text: string): string {
    if text == [] then []
    else if text[0] == '\r' then
      ['\r'] + Fold(if |text| > 1 && text[1] == '\n' then text[2..] else text[1..])
    else [if text[0] == '\n' then '\r' else text[0]] + Fold(text[1..])
  }

  function Terminated(body: string, end: char): string {
    if body != [] && body[|body| - 1] != end then body + [end] else body
  }

  /** `encode_body`; a NUL is not representable. */
  function EncodeBody(text: string): Option<string> {
    if !Free(text, "\0") then None else Some(Terminated(Fold(text), '\r'))
  }

  /** The loop of `encode_body`. */
  method EncodeBodyLoop(text: string) returns (r: Option<string>)
    ensures r == EncodeBody(text)
  {
    if !Free(text, "\0") { return None; }
    var output, at := [], 0;
    while at < |text|
      invariant 0 <= at <= |text|
      invariant output + Fold(text[at..]) == Fold(text)
    {
      var c := text[at];
      ghost var rest := text[at..];
      if c == '\r' && at + 1 < |text| && text[at + 1] == '\n' {
        assert rest[2..] == text[at + 2..];
        at := at + 2;
      } else {
        assert rest[1..] == text[at + 1..];
        at := at + 1;
      }
      ghost var done := output;
      output := output + [if c == '\n' then '\r' else c];
      assert done + ([if c == '\n' then '\r' else c] + Fold(text[at..])) == output + Fold(text[at..]);
    }
    assert output + [] == output;
    if output != [] && output[|output| - 1] != '\r' { output := output + ['\r']; }
    return Some(output);
  }

  /** Line feeds are dropped, then each carriage return becomes a line feed. */
  function Unfold(body: string): string {
    if body == [] then []
    else (if body[0] == '\n' then [] else if body[0] == '\r' then ['\n'] else [body[0]]) + Unfold(body[1..])
  }

  function DecodeBody(body: string): string {
    if body == [] then [] else EndWith(Unfold(body), '\n')
  }

  /** As `Terminated`, but an empty text is terminated too. */
  function EndWith(text: string, end: char): string {
    if text == [] || text[|text| - 1] != end then text + [end] else text
  }

  /** The native texts that have a legacy form of their own: no carriage return, every paragraph ended. */
  predicate Conforming(text: string) {
    Free(text, "\r") && (text == [] || text[|text| - 1] == '\n')
  }

  lemma {:induction false} UnfoldFree(body: string)
    ensures Free(Unfold(body), "\r")
  {
    if body != [] { UnfoldFree(body[1..]); }
  }

  /** Whatever is decoded is a conforming text. */
  lemma DecodedConforms(body: string)
    ensures Conforming(DecodeBody(body))
  {
    UnfoldFree(body);
  }

  lemma {:induction false} FoldPlain(text: string)
    requires Free(text, "\r")
    ensures Unfold(Fold(text)) == text && |Fold(text)| == |text|
    ensures text != [] ==> (Fold(text)[|text| - 1] == '\r' <==> text[|text| - 1] == '\n')
  {
    if text != [] {
      FoldPlain(text[1..]);
      assert Fold(text)[1..] == Fold(text[1..]);
      assert text == [text[0]] + text[1..];
    }
  }

  /** A text survives the legacy body exactly when it conforms. */
  lemma BodyRoundTrip(text: string)
    requires EncodeBody(text).Some?
    ensures DecodeBody(EncodeBody(text).value) == text <==> Conforming(text)
  {
    DecodedConforms(EncodeBody(text).value);
    if Conforming(text) { FoldPlain(text); }
  }

  lemma {:induction false} FoldMarks(text: string)
    ensures Free(Fold(text), "\n")
    ensures Free(text, "\0") ==> Free(Fold(text), "\0")
    ensures Free(text, [1 as char]) ==> Free(Fold(text), [1 as char])
    decreases |text|
  {
    if text != [] {
      var rest := if text[0] == '\r' && |text| > 1 && text[1] == '\n' then text[2..] else text[1..];
      FoldMarks(rest);
    }
  }

  /** A folded body is empty or ends in 0x0D, and holds no line feed. */
  lemma BodyEnds(text: string)
    requires EncodeBody(text).Some?
    ensures var body := EncodeBody(text).value;
      && (body == [] || body[|body| - 1] == '\r') && Free(body, "\0") && Free(body, "\n")
      && (Free(text, [1 as char]) ==> Free(body, [1 as char]))
  {
    FoldMarks(text);
  }
}
