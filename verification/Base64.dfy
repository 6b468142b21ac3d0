/** Unpadded standard base64 (section 4 of RFC 4648). */
module Base64 {
  import opened Wrappers
  import opened Wire

  function Letter(n: int): char
    requires 0 <= n < 64
  {
    if n < 26 then ('A' as int + n) as char
    else if n < 52 then ('a' as int + n - 26) as char
    else if n < 62 then ('0' as int + n - 52) as char
    else if n == 62 then '+'
    else '/'
  }

  function Value(c: char): Option<int> {
    if 'A' <= c <= 'Z' then Some(c as int - 'A' as int)
    else if 'a' <= c <= 'z' then Some(c as int - 'a' as int + 26)
    else if '0' <= c <= '9' then Some(c as int - '0' as int + 52)
    else if c == '+' then Some(62)
    else if c == '/' then Some(63)
    else None
  }

  /** Bytes are characters below 256. */
  function Octet(c: char): int {
    c as int % 256
  }

  /** Three bytes as four groups of six bits. */
  function Sextets(x: int, y: int, z: int): (r: (int, int, int, int))
    requires 0 <= x < 256 && 0 <= y < 256 && 0 <= z < 256
    ensures 0 <= r.0 < 64 && 0 <= r.1 < 64 && 0 <= r.2 < 64 && 0 <= r.3 < 64
  {
    (x / 4, x % 4 * 16 + y / 16, y % 16 * 4 + z / 64, z % 64)
  }

  function Octets(v: int, w: int, u: int, t: int): (r: (int, int, int))
    requires 0 <= v < 64 && 0 <= w < 64 && 0 <= u < 64 && 0 <= t < 64
    ensures 0 <= r.0 < 256 && 0 <= r.1 < 256 && 0 <= r.2 < 256
  {
    (v * 4 + w / 16, w % 16 * 16 + u / 4, u % 4 * 64 + t)
  }

  /** Missing bytes count as zero and their letters are left off. */
  function Encode(b: Bytes): string {
    if b == [] then []
    else
      var (v, w, u, t) := Sextets(Octet(b[0]), if |b| > 1 then Octet(b[1]) else 0, if |b| > 2 then Octet(b[2]) else 0);
      if |b| == 1 then [Letter(v), Letter(w)]
      else if |b| == 2 then [Letter(v), Letter(w), Letter(u)]
      else [Letter(v), Letter(w), Letter(u), Letter(t)] + Encode(b[3..])
  }

  /** A lone letter, a letter outside the alphabet or left-over bits are refused. */
  function Decode(s: string): Option<Bytes>
    decreases |s|
  {
    if s == [] then Some([])
    else if |s| == 1 || !Lettered(s[..if |s| < 4 then |s| else 4]) then None
    else
      var (x, y, z) := Octets(Sextet(s, 0), Sextet(s, 1), Sextet(s, 2), Sextet(s, 3));
      if |s| == 2 then (if y != 0 then None else Some([Byte(x)]))
      else if |s| == 3 then (if z != 0 then None else Some([Byte(x), Byte(y)]))
      else
        var later := Decode(s[4..]);
        if later.None? then None else Some([Byte(x), Byte(y), Byte(z)] + later.value)
  }

  /** The value of a letter, or zero past the end. */
  function Sextet(s: string, i: nat): (n: int)
    ensures 0 <= n < 64
  {
    if i < |s| && Value(s[i]).Some? then Value(s[i]).value else 0
  }

  predicate Lettered(s: string) {
    forall i :: 0 <= i < |s| ==> Value(s[i]).Some?
  }

  lemma ValueOfLetter(n: int)
    requires 0 <= n < 64
    ensures Value(Letter(n)) == Some(n)
  {
  }

  /** Six and eight bits carry the same three bytes, and missing bytes leave zeros. */
  lemma Regroup(x: int, y: int, z: int)
    requires 0 <= x < 256 && 0 <= y < 256 && 0 <= z < 256
    ensures var (v, w, u, t) := Sextets(x, y, z);
      && Octets(v, w, u, t) == (x, y, z)
      && (z == 0 ==> t == 0) && (y == 0 && z == 0 ==> u == 0)
  {
    Joined(16, x % 4, y / 16);
    Joined(4, y % 16, z / 64);
    assert x == x / 4 * 4 + x % 4 && y == y / 16 * 16 + y % 16 && z == z / 64 * 64 + z % 64;
  }

  lemma Joined(base: int, high: int, low: int)
    requires (base == 4 || base == 16) && 0 <= low < base
    ensures (high * base + low) / base == high && (high * base + low) % base == low
  {
  }

  lemma DecodeFour(v: int, w: int, u: int, t: int, rest: string)
    requires 0 <= v < 64 && 0 <= w < 64 && 0 <= u < 64 && 0 <= t < 64 && Decode(rest).Some?
    ensures var (x, y, z) := Octets(v, w, u, t);
      Decode([Letter(v), Letter(w), Letter(u), Letter(t)] + rest)
        == Some([Byte(x), Byte(y), Byte(z)] + Decode(rest).value)
  {
    hide Letter, Value, Octets;
    var s := [Letter(v), Letter(w), Letter(u), Letter(t)] + rest;
    assert s[4..] == rest && s[..4] == [Letter(v), Letter(w), Letter(u), Letter(t)];
    ValueOfLetter(v);
    ValueOfLetter(w);
    ValueOfLetter(u);
    ValueOfLetter(t);
  }

  lemma DecodeFew(v: int, w: int, u: int)
    requires 0 <= v < 64 && 0 <= w < 64 && 0 <= u < 64
    ensures Octets(v, w, 0, 0).1 == 0 ==> Decode([Letter(v), Letter(w)]) == Some([Byte(Octets(v, w, 0, 0).0)])
    ensures Octets(v, w, u, 0).2 == 0 ==>
      Decode([Letter(v), Letter(w), Letter(u)]) == Some([Byte(Octets(v, w, u, 0).0), Byte(Octets(v, w, u, 0).1)])
  {
    hide Letter, Value, Octets;
    ValueOfLetter(v);
    ValueOfLetter(w);
    ValueOfLetter(u);
    var two, three := [Letter(v), Letter(w)], [Letter(v), Letter(w), Letter(u)];
    assert two[..2] == two && three[..3] == three;
  }

  /** Decoding undoes encoding. */
  lemma {:induction false} DecodeEncode(b: Bytes)
    requires AllBytes(b)
    ensures Decode(Encode(b)) == Some(b)
    decreases |b|
  {
    hide Letter, Value, Decode, Octets, Sextets;
    if b == [] {
      DecodeNothing();
    } else {
      var x := b[0] as int;
      var y := if |b| > 1 then b[1] as int else 0;
      var z := if |b| > 2 then b[2] as int else 0;
      Regroup(x, y, z);
      var (v, w, u, t) := Sextets(x, y, z);
      if |b| > 2 {
        DecodeEncode(b[3..]);
        DecodeFour(v, w, u, t, Encode(b[3..]));
        assert b == [b[0], b[1], b[2]] + b[3..];
      } else {
        DecodeFew(v, w, u);
        if |b| == 2 { assert b == [b[0], b[1]]; } else { assert b == [b[0]]; }
      }
    }
  }

  lemma DecodeNothing()
    ensures Decode([]) == Some([])
  {
  }

  lemma {:induction false} EncodeLength(b: Bytes)
    ensures |Encode(b)| == (4 * |b| + 2) / 3
    decreases |b|
  {
    hide Letter, Sextets;
    if |b| > 2 { EncodeLength(b[3..]); }
  }

  lemma {:induction false} EncodeLetters(b: Bytes)
    ensures Lettered(Encode(b))
    decreases |b|
  {
    hide Letter, Value, Sextets;
    if b != [] {
      var (v, w, u, t) := Sextets(Octet(b[0]), if |b| > 1 then Octet(b[1]) else 0, if |b| > 2 then Octet(b[2]) else 0);
      ValueOfLetter(v);
      ValueOfLetter(w);
      ValueOfLetter(u);
      ValueOfLetter(t);
      if |b| > 2 { EncodeLetters(b[3..]); }
    }
  }
}
