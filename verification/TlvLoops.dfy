/** The proof-of-concept's number and TLV loops, proved against the codec's functions. */
module TlvLoops {
  import opened Wrappers
  import opened Integers
  import opened Wire

  method LengthLen(num: nat) returns (ret: nat)
    ensures ret == NumberLength(num)
  {
    ret := 1;
    var left := num;
    while left > 127
      invariant ret + NumberLength(left) == NumberLength(num) + 1
    {
      ret := ret + 1;
      left := left / 128;
    }
  }

  function Shifted(num: nat, groups: nat): nat {
    if groups == 0 then num else Shifted(num / 128, groups - 1)
  }

  lemma {:induction false} ContinuedDigit(n: nat, pos: nat)
    requires pos < NumberLength(n)
    ensures |Continued(n)| == NumberLength(n)
    ensures Continued(n)[pos] as int == Shifted(n, NumberLength(n) - pos - 1) % 128 + 128
    decreases n
  {
    ContinuedLength(n);
    if n >= 128 && pos < NumberLength(n) - 1 {
      ContinuedDigit(n / 128, pos);
      ContinuedLength(n / 128);
      assert Continued(n)[pos] == Continued(n / 128)[pos];
    }
  }

  lemma EncodedDigit(n: nat, pos: nat)
    requires pos < NumberLength(n)
    ensures |EncodeNumber(n)| == NumberLength(n)
    ensures EncodeNumber(n)[pos] as int ==
      Shifted(n, NumberLength(n) - pos - 1) % 128 + (if pos + 1 < NumberLength(n) then 128 else 0)
  {
    EncodedLength(n);
    if n >= 128 {
      ContinuedLength(n / 128);
      if pos < NumberLength(n) - 1 {
        ContinuedDigit(n / 128, pos);
        assert EncodeNumber(n)[pos] == Continued(n / 128)[pos];
      }
    }
  }

  ghost function Pow128(k: nat): nat { if k == 0 then 1 else 128 * Pow128(k - 1) }

  lemma {:induction false} LengthBound(n: nat, k: nat)
    requires k >= 1 && n < Pow128(k)
    ensures NumberLength(n) <= k
    decreases k
  {
    if n >= 128 { LengthBound(n / 128, k - 1); }
  }

  /** A 64-bit number fills the ten-byte buffer at most. */
  lemma AtMostTen(n: nat)
    requires n <= MAX_U64
    ensures NumberLength(n) <= 10
  {
    assert Pow128(5) == 0x8_0000_0000;
    assert Pow128(10) == 0x8_0000_0000 * 0x8_0000_0000 by {
      assert Pow128(7) == 128 * (128 * Pow128(5));
      assert Pow128(9) == 128 * (128 * Pow128(7));
    }
    LengthBound(n, 10);
  }

  /** `encodeNumber`: fills the front of a ten-byte buffer and says how much. */
  method EncodeNumberLoop(num: nat, buf: array<char>) returns (used: nat)
    requires num <= MAX_U64 && buf.Length == 10
    modifies buf
    ensures used <= 10 && buf[..used] == EncodeNumber(num)
  {
    AtMostTen(num);
    used := LengthLen(num);
    for pos := 0 to used
      invariant forall i :: 0 <= i < pos ==> i < |EncodeNumber(num)| && buf[i] == EncodeNumber(num)[i]
    {
      EncodedDigit(num, pos);
      var digit := Shifted(num, used - pos - 1) % 128;
      buf[pos] := Byte(if pos + 1 < used then digit + 128 else digit);
    }
    EncodedLength(num);
  }

  /** A reading that began `skipped` bytes earlier. */
  function Moved(r: Result<(nat, nat), NumberError>, skipped: nat): Result<(nat, nat), NumberError> {
    match r case Err(e) => Err(e) case Ok(x) => Ok((x.0, x.1 + skipped))
  }

  function Joined(children: seq<Tlv>, rest: Result<seq<Tlv>, TlvError>): Result<seq<Tlv>, TlvError> {
    match rest case Err(e) => Err(e) case Ok(more) => Ok(children + more)
  }

  /** `parseNumber`: reads a number at `offset`, moving past it. */
  method ParseNumberLoop(buf: Bytes, offset: nat) returns (r: Result<(nat, nat), NumberError>)
    requires offset <= |buf|
    ensures match ParseNumber(buf[offset..])
            case Err(e) => r == Err(e)
            case Ok((value, used)) => r == Ok((value, offset + used))
  {
    var ret: nat, at: nat, first := 0, offset, true;
    while true
      invariant offset <= at <= |buf| && (first <==> at == offset) && (first ==> ret == 0)
      invariant first || buf[offset] as int != 128
      invariant !first ==> ParseNumber(buf[offset..]) == Moved(ParseDigits(buf[at..], ret), at - offset)
      decreases |buf| - at
    {
      if at >= |buf| { return Err(PastEnd); }
      var ch := buf[at] as int;
      assert buf[at..][0] == buf[at] && buf[at..][1..] == buf[at + 1..];
      if first && ch == 128 { return Err(NotShortest); }
      first := false;
      if ret > MAX_U64 / 128 { return Err(TooLarge); }
      ret := ret * 128 + ch % 128;
      at := at + 1;
      if ch < 128 { return Ok((ret, at)); }
    }
  }

  /** One child at `offset`, and where the next one starts. */
  method ParseChild(value: Bytes, offset: nat) returns (r: Result<(Tlv, nat), TlvError>)
    requires offset <= |value|
    ensures match ParseOne(value[offset..], INT_MAX)
            case Err(e) => r == Err(e)
            case Ok((child, used)) => r == Ok((child, offset + used))
  {
    var typeRead := ParseNumberLoop(value, offset);
    if typeRead.Err? { return Err(Number(typeRead.error)); }
    var (typeCode, at) := typeRead.value;
    if typeCode == 0 { return Err(InvalidType); }
    if typeCode > INT_MAX { return Err(TypeTooLarge); }
    assert value[offset..][at - offset..] == value[at..];
    var lengthRead := ParseNumberLoop(value, at);
    if lengthRead.Err? { return Err(Number(lengthRead.error)); }
    var (length, start) := lengthRead.value;
    if length > |value| - start { return Err(ExceedsContainer); }
    assert value[offset..][start - offset..start + length - offset] == value[start..start + length];
    return Ok((Tlv(typeCode, value[start..start + length]), start + length));
  }

  lemma JoinStep(value: Bytes, offset: nat, children: seq<Tlv>, child: Tlv, next: nat)
    requires offset < next <= |value| && ParseOne(value[offset..], INT_MAX) == Ok((child, next - offset))
    ensures Joined(children, ParseAll(value[offset..], INT_MAX))
            == Joined(children + [child], ParseAll(value[next..], INT_MAX))
  {
    var later := ParseAll(value[next..], INT_MAX);
    assert value[offset..][next - offset..] == value[next..];
    if later.Ok? { assert children + ([child] + later.value) == children + [child] + later.value; }
  }

  /** `tith_parseTLV`: the children of a value, in order. */
  method ParseTlvLoop(value: Bytes) returns (r: Result<seq<Tlv>, TlvError>)
    ensures r == ParseAll(value, INT_MAX)
  {
    var offset: nat, children: seq<Tlv> := 0, [];
    assert value[0..] == value;
    if ParseAll(value, INT_MAX).Ok? { assert [] + ParseAll(value, INT_MAX).value == ParseAll(value, INT_MAX).value; }
    while offset < |value|
      invariant offset <= |value|
      invariant ParseAll(value, INT_MAX) == Joined(children, ParseAll(value[offset..], INT_MAX))
    {
      var one := ParseChild(value, offset);
      if one.Err? { return Err(one.error); }
      var (child, next) := one.value;
      JoinStep(value, offset, children, child, next);
      children := children + [child];
      offset := next;
    }
    assert children + [] == children;
    return Ok(children);
  }
}
