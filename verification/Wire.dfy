/**
 TTS-0002 numbers and TLV sequences.

 Byte strings are Dafny strings whose characters are byte values, so that the
 text literals of the legacy formats can be used directly.
 */
module Wire {
  import opened Wrappers
  import opened Integers

  type Bytes = string

  const INT_MAX: nat := 0x7fff_ffff

  predicate AllBytes(s: Bytes) {
    forall i :: 0 <= i < |s| ==> s[i] as int < 256
  }

  function Byte(n: nat): (c: char)
    requires n < 256
    ensures c as int == n
  {
    n as char
  }

  /** Base-128 digits, most significant first, every one marked as continued. */
  function Continued(n: nat): Bytes {
    (if n < 128 then [] else Continued(n / 128)) + [Byte(n % 128 + 128)]
  }

  /** The shortest form: only the last digit is unmarked. */
  function EncodeNumber(n: nat): (s: Bytes)
    ensures s != []
  {
    (if n < 128 then [] else Continued(n / 128)) + [Byte(n % 128)]
  }

  function NumberLength(n: nat): (k: nat)
    ensures k >= 1
  {
    if n < 128 then 1 else NumberLength(n / 128) + 1
  }

  datatype NumberError = PastEnd | NotShortest | TooLarge

  /** Digits from here on, added to what was read before. Gives the value and the bytes used. */
  function ParseDigits(s: Bytes, acc: nat): (r: Result<(nat, nat), NumberError>)
    ensures r.Ok? ==> 1 <= r.value.1 <= |s|
  {
    if s == [] then Err(PastEnd)
    else if acc > MAX_U64 / 128 then Err(TooLarge)
    else
      var ch := s[0] as int;
      if ch < 128 then Ok((acc * 128 + ch, 1))
      else
        match ParseDigits(s[1..], acc * 128 + ch % 128)
        case Err(e) => Err(e)
        case Ok(r) => Ok((r.0, r.1 + 1))
  }

  function ParseNumber(s: Bytes): (r: Result<(nat, nat), NumberError>)
    ensures r.Ok? ==> 1 <= r.value.1 <= |s|
  {
    if s != [] && s[0] as int == 128 then Err(NotShortest) else ParseDigits(s, 0)
  }

  lemma {:induction false} ContinuedStartsHigh(n: nat)
    requires n >= 1
    ensures Continued(n) != [] && Continued(n)[0] as int > 128
    decreases n
  {
    if n >= 128 { ContinuedStartsHigh(n / 128); }
  }

  lemma {:induction false} ParseContinued(n: nat, t: Bytes)
    requires 1 <= n <= MAX_U64 / 128
    ensures ParseDigits(Continued(n) + t, 0) ==
      match ParseDigits(t, n) case Err(e) => Err(e) case Ok(r) => Ok((r.0, r.1 + |Continued(n)|))
    decreases n
  {
    var c := Byte(n % 128 + 128);
    if n < 128 {
      assert Continued(n) + t == [c] + t;
      assert ([c] + t)[1..] == t;
    } else {
      assert Continued(n) + t == Continued(n / 128) + ([c] + t);
      ParseContinued(n / 128, [c] + t);
      assert ([c] + t)[1..] == t;
      assert n / 128 * 128 + n % 128 == n;
    }
  }

  /** Reading back what was written, whatever follows it. */
  lemma NumberRoundTrip(n: nat, rest: Bytes)
    requires n <= MAX_U64
    ensures ParseNumber(EncodeNumber(n) + rest) == Ok((n, |EncodeNumber(n)|))
  {
    hide Continued;
    var c := Byte(n % 128);
    if n < 128 {
      assert EncodeNumber(n) + rest == [c] + rest;
    } else {
      assert EncodeNumber(n) + rest == Continued(n / 128) + ([c] + rest);
      ContinuedStartsHigh(n / 128);
      ParseContinued(n / 128, [c] + rest);
      assert n / 128 * 128 + n % 128 == n;
    }
  }

  lemma LastDigit(acc: nat, ch: nat)
    requires acc >= 1 && ch < 128
    ensures EncodeNumber(acc * 128 + ch) == Continued(acc) + [Byte(ch)]
  {
    hide Continued;
    var n := acc * 128 + ch;
    assert n / 128 == acc && n % 128 == ch;
  }

  lemma NextDigit(acc: nat, ch: nat)
    requires acc >= 1 && 128 <= ch < 256
    ensures Continued(acc * 128 + ch % 128) == Continued(acc) + [Byte(ch)]
  {
    var next := acc * 128 + ch % 128;
    assert next / 128 == acc && next % 128 + 128 == ch;
  }

  lemma {:induction false} DigitsAreCanonical(s: Bytes, acc: nat)
    requires AllBytes(s) && acc >= 1 && ParseDigits(s, acc).Ok?
    ensures var (n, k) := ParseDigits(s, acc).value;
      n <= MAX_U64 && Continued(acc) + s[..k] == EncodeNumber(n)
    decreases |s|
  {
    hide Continued, EncodeNumber;
    var ch := s[0] as int;
    if ch < 128 {
      LastDigit(acc, ch);
      assert s[..1] == [s[0]];
    } else {
      var next := acc * 128 + ch % 128;
      NextDigit(acc, ch);
      DigitsAreCanonical(s[1..], next);
      var k := ParseDigits(s[1..], next).value.1;
      assert [s[0]] + s[1..][..k] == s[..k + 1];
      assert Continued(acc) + [s[0]] + s[1..][..k] == Continued(acc) + ([s[0]] + s[1..][..k]);
    }
  }

  /** The decoder accepts nothing but the shortest form. */
  lemma NumberIsCanonical(s: Bytes)
    requires AllBytes(s) && ParseNumber(s).Ok?
    ensures var (n, k) := ParseNumber(s).value; n <= MAX_U64 && s[..k] == EncodeNumber(n)
  {
    var ch := s[0] as int;
    if ch < 128 {
      assert s[..1] == [s[0]];
    } else {
      var first := ch - 128;
      assert Continued(first) == [s[0]];
      DigitsAreCanonical(s[1..], first);
      var k := ParseDigits(s[1..], first).value.1;
      assert [s[0]] + s[1..][..k] == s[..k + 1];
    }
  }

  lemma {:induction false} ContinuedLength(n: nat)
    ensures |Continued(n)| == NumberLength(n)
    decreases n
  {
    if n >= 128 { ContinuedLength(n / 128); }
  }

  lemma EncodedLength(n: nat)
    ensures |EncodeNumber(n)| == NumberLength(n)
  {
    if n >= 128 { ContinuedLength(n / 128); }
  }

  // TTS-0007 signed numbers.

  function ZigZag(v: int): nat {
    if v >= 0 then 2 * v else 2 * (-v - 1) + 1
  }

  function EncodeSigned(v: int): Bytes { EncodeNumber(ZigZag(v)) }

  // TLV sequences.

  datatype Tlv = Tlv(typeCode: nat, value: Bytes)

  function EncodeTlv(t: Tlv): Bytes {
    EncodeNumber(t.typeCode) + EncodeNumber(|t.value|) + t.value
  }

  function EncodeAll(ts: seq<Tlv>): Bytes {
    if ts == [] then [] else EncodeTlv(ts[0]) + EncodeAll(ts[1..])
  }

  datatype TlvError = Number(error: NumberError) | InvalidType | TypeTooLarge | ExceedsContainer

  /** One TLV at the front, and the bytes it used; types run from 1 to `maxType`. */
  function ParseOne(s: Bytes, maxType: nat): (r: Result<(Tlv, nat), TlvError>)
    ensures r.Ok? ==> 1 <= r.value.1 <= |s|
  {
    match ParseNumber(s)
    case Err(e) => Err(Number(e))
    case Ok((typeCode, used)) =>
      if typeCode == 0 then Err(InvalidType)
      else if typeCode > maxType then Err(TypeTooLarge)
      else
        match ParseNumber(s[used..])
        case Err(e) => Err(Number(e))
        case Ok((length, more)) =>
          var at := used + more;
          if length > |s| - at then Err(ExceedsContainer)
          else Ok((Tlv(typeCode, s[at..at + length]), at + length))
  }

  function ParseAll(s: Bytes, maxType: nat): Result<seq<Tlv>, TlvError> {
    if s == [] then Ok([])
    else
      match ParseOne(s, maxType)
      case Err(e) => Err(e)
      case Ok((t, used)) =>
        match ParseAll(s[used..], maxType)
        case Err(e) => Err(e)
        case Ok(rest) => Ok([t] + rest)
  }

  predicate Encodable(t: Tlv, maxType: nat) {
    1 <= t.typeCode <= maxType && |t.value| <= MAX_U64
  }

  lemma OneRoundTrip(t: Tlv, maxType: nat, rest: Bytes)
    requires Encodable(t, maxType) && maxType <= MAX_U64
    ensures ParseOne(EncodeTlv(t) + rest, maxType) == Ok((t, |EncodeTlv(t)|))
  {
    hide ParseNumber, EncodeNumber;
    var a, b := EncodeNumber(t.typeCode), EncodeNumber(|t.value|);
    var s := EncodeTlv(t) + rest;
    assert s == a + (b + (t.value + rest));
    NumberRoundTrip(t.typeCode, b + (t.value + rest));
    assert s[|a|..] == b + (t.value + rest);
    NumberRoundTrip(|t.value|, t.value + rest);
    assert s[|a| + |b|..|a| + |b| + |t.value|] == t.value;
  }

  lemma {:induction false} SequenceRoundTrip(ts: seq<Tlv>, maxType: nat)
    requires (forall i :: 0 <= i < |ts| ==> Encodable(ts[i], maxType)) && maxType <= MAX_U64
    ensures ParseAll(EncodeAll(ts), maxType) == Ok(ts)
    decreases |ts|
  {
    hide ParseOne, EncodeTlv;
    if ts != [] {
      OneRoundTrip(ts[0], maxType, EncodeAll(ts[1..]));
      SequenceRoundTrip(ts[1..], maxType);
      var s := EncodeAll(ts);
      assert s[|EncodeTlv(ts[0])|..] == EncodeAll(ts[1..]);
      assert [ts[0]] + ts[1..] == ts;
    }
  }

  lemma OneIsCanonical(s: Bytes, maxType: nat)
    requires AllBytes(s) && ParseOne(s, maxType).Ok?
    ensures var (t, used) := ParseOne(s, maxType).value;
      Encodable(t, maxType) && s[..used] == EncodeTlv(t)
  {
    hide ParseNumber, EncodeNumber;
    var (typeCode, a) := ParseNumber(s).value;
    var (length, b) := ParseNumber(s[a..]).value;
    NumberIsCanonical(s);
    NumberIsCanonical(s[a..]);
    var at := a + b;
    assert s[..at + length] == s[..a] + s[a..][..b] + s[at..at + length];
  }

  lemma ParseAllStep(s: Bytes, maxType: nat)
    requires s != [] && ParseAll(s, maxType).Ok?
    ensures ParseOne(s, maxType).Ok?
    ensures var (t, used) := ParseOne(s, maxType).value;
      && ParseAll(s[used..], maxType).Ok?
      && ParseAll(s, maxType).value == [t] + ParseAll(s[used..], maxType).value
  {
  }

  /** Both ways: a byte string is a TLV sequence exactly when it is some sequence's encoding. */
  lemma {:induction false} SequenceIsCanonical(s: Bytes, maxType: nat)
    requires AllBytes(s) && ParseAll(s, maxType).Ok?
    ensures EncodeAll(ParseAll(s, maxType).value) == s
    decreases |s|
  {
    hide ParseOne, EncodeTlv;
    if s != [] {
      ParseAllStep(s, maxType);
      OneIsCanonical(s, maxType);
      var (t, used) := ParseOne(s, maxType).value;
      SequenceIsCanonical(s[used..], maxType);
      EncodeAllStep(t, ParseAll(s[used..], maxType).value);
      assert s == s[..used] + s[used..];
    }
  }

  lemma EncodeAllStep(t: Tlv, rest: seq<Tlv>)
    ensures EncodeAll([t] + rest) == EncodeTlv(t) + EncodeAll(rest)
  {
    assert ([t] + rest)[1..] == rest;
  }

  lemma {:induction false} EncodeAllAppend(a: seq<Tlv>, b: seq<Tlv>)
    ensures EncodeAll(a + b) == EncodeAll(a) + EncodeAll(b)
    decreases |a|
  {
    if a == [] {
      assert a + b == b;
    } else {
      assert (a + b)[1..] == a[1..] + b;
      EncodeAllAppend(a[1..], b);
    }
  }
}
