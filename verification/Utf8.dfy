/** UTF-8 (RFC 3629): what `str::as_bytes` writes and what `std::str::from_utf8` accepts. */
module Utf8 {
  import opened Wrappers

  type byte = b: int | 0 <= b < 256

  function EncodeChar(c: char): (r: seq<byte>)
    ensures 1 <= |r| <= 4
  {
    var n := c as int;
    if n < 0x80 then [n]
    else if n < 0x800 then [0xC0 + n / 64, 0x80 + n % 64]
    else if n < 0x1_0000 then [0xE0 + n / 4096, 0x80 + n / 64 % 64, 0x80 + n % 64]
    else [0xF0 + n / 262144, 0x80 + n / 4096 % 64, 0x80 + n / 64 % 64, 0x80 + n % 64]
  }

  function Encode(s: string): seq<byte> {
    if s == [] then [] else EncodeChar(s[0]) + Encode(s[1..])
  }

  predicate Continues(bs: seq<byte>, i: nat) {
    i < |bs| && 0x80 <= bs[i] < 0xC0
  }

  /** The six payload bits of a continuation byte. */
  function Payload(bs: seq<byte>, i: nat): (n: int)
    requires Continues(bs, i)
    ensures 0 <= n < 64
  {
    (bs[i] as int) - 0x80
  }

  /** The first character of a well-formed sequence and how many bytes it takes: no overlong
      forms, no surrogates, nothing above U+10FFFF (RFC 3629, section 4). */
  function DecodeFirst(bs: seq<byte>): (r: Option<(char, nat)>)
    requires bs != []
    ensures r.Some? ==> 1 <= r.value.1 <= |bs|
  {
    var b: int := bs[0];
    if b < 0x80 then Some((b as char, 1))
    else if 0xC2 <= b < 0xE0 then
      if Continues(bs, 1) then Checked((b - 0xC0) * 64 + Payload(bs, 1), 0x80, 2) else None
    else if 0xE0 <= b < 0xF0 then
      if Continues(bs, 1) && Continues(bs, 2) then
        Checked((b - 0xE0) * 4096 + Payload(bs, 1) * 64 + Payload(bs, 2), 0x800, 3)
      else None
    else if 0xF0 <= b < 0xF5 then
      if Continues(bs, 1) && Continues(bs, 2) && Continues(bs, 3) then
        Checked((b - 0xF0) * 262144 + Payload(bs, 1) * 4096 + Payload(bs, 2) * 64 + Payload(bs, 3), 0x1_0000, 4)
      else None
    else None
  }

  function Checked(n: int, least: int, length: nat): (r: Option<(char, nat)>)
    requires least >= 0
    ensures r.Some? ==> r.value.1 == length
  {
    if n < least || 0xD800 <= n < 0xE000 || n > 0x10_FFFF then None else Some((n as char, length))
  }

  function Decode(bs: seq<byte>): Option<string> {
    if bs == [] then Some([])
    else
      match DecodeFirst(bs)
      case None => None
      case Some((c, n)) =>
        match Decode(bs[n..])
        case None => None
        case Some(rest) => Some([c] + rest)
  }

  /** Splitting a number into six-bit groups loses nothing. */
  lemma Groups(n: nat)
    ensures n == n / 64 * 64 + n % 64
    ensures n == n / 4096 * 4096 + n / 64 % 64 * 64 + n % 64
    ensures n == n / 262144 * 262144 + n / 4096 % 64 * 4096 + n / 64 % 64 * 64 + n % 64
  {
    assert n / 64 / 64 == n / 4096 && n / 4096 / 64 == n / 262144;
  }

  lemma DecodeFirstOfEncoded(c: char, rest: seq<byte>)
    ensures DecodeFirst(EncodeChar(c) + rest) == Some((c, |EncodeChar(c)|))
  {
    var n := c as int;
    var bs := EncodeChar(c) + rest;
    assert forall i | 0 <= i < |EncodeChar(c)| :: bs[i] == EncodeChar(c)[i];
    Groups(n);
    assert n >= 0x80 ==> Payload(bs, |EncodeChar(c)| - 1) == n % 64;
    assert n >= 0x800 ==> Payload(bs, |EncodeChar(c)| - 2) == n / 64 % 64;
    assert n >= 0x1_0000 ==> Payload(bs, 1) == n / 4096 % 64;
  }

  lemma {:induction false} DecodeEncoded(s: string)
    ensures Decode(Encode(s)) == Some(s)
  {
    if s != [] {
      DecodeFirstOfEncoded(s[0], Encode(s[1..]));
      assert Encode(s)[|EncodeChar(s[0])|..] == Encode(s[1..]);
      DecodeEncoded(s[1..]);
      assert s == [s[0]] + s[1..];
    }
  }

  /** What is accepted as a character is its own encoding. */
  lemma FirstIsEncoded(bs: seq<byte>)
    requires bs != [] && DecodeFirst(bs).Some?
    ensures EncodeChar(DecodeFirst(bs).value.0) == bs[..DecodeFirst(bs).value.1]
  {
    var b: int := bs[0];
    var (c, length) := DecodeFirst(bs).value;
    if length == 2 {
      TwoGroups(b - 0xC0, Payload(bs, 1));
    } else if length == 3 {
      ThreeGroups(b - 0xE0, Payload(bs, 1), Payload(bs, 2));
    } else if length == 4 {
      FourGroups(b - 0xF0, Payload(bs, 1), Payload(bs, 2), Payload(bs, 3));
    }
  }

  lemma TwoGroups(a: int, b: int)
    requires 0 <= a && 0 <= b < 64
    ensures (a * 64 + b) / 64 == a && (a * 64 + b) % 64 == b
  {
  }

  lemma ThreeGroups(a: int, b: int, c: int)
    requires 0 <= a && 0 <= b < 64 && 0 <= c < 64
    ensures var n := a * 4096 + b * 64 + c; n / 4096 == a && n / 64 % 64 == b && n % 64 == c
  {
    TwoGroups(a * 64 + b, c);
    TwoGroups(a, b);
  }

  lemma FourGroups(a: int, b: int, c: int, d: int)
    requires 0 <= a && 0 <= b < 64 && 0 <= c < 64 && 0 <= d < 64
    ensures var n := a * 262144 + b * 4096 + c * 64 + d;
            n / 262144 == a && n / 4096 % 64 == b && n / 64 % 64 == c && n % 64 == d
  {
    ThreeGroups(a * 64 + b, c, d);
    TwoGroups(a, b);
  }

  /** The decoder accepts exactly the encodings, each as the string it encodes. */
  lemma {:induction false} DecodesExactly(bs: seq<byte>, s: string)
    ensures Decode(bs) == Some(s) <==> bs == Encode(s)
    decreases |bs|
  {
    DecodeEncoded(s);
    if bs != [] && Decode(bs) == Some(s) {
      var (c, n) := DecodeFirst(bs).value;
      FirstIsEncoded(bs);
      assert s[0] == c && Decode(bs[n..]) == Some(s[1..]);
      DecodesExactly(bs[n..], s[1..]);
      assert bs == bs[..n] + bs[n..];
    }
  }

  lemma {:induction false} EncodeConcat(s: string, t: string)
    ensures Encode(s + t) == Encode(s) + Encode(t)
  {
    if s == [] {
      assert s + t == t;
    } else {
      assert (s + t)[0] == s[0] && (s + t)[1..] == s[1..] + t;
      EncodeConcat(s[1..], t);
    }
  }

  /** The newline byte occurs only as the encoding of a newline. */
  lemma {:induction false} NewlineOnlyFromNewline(s: string)
    requires '\n' !in s
    ensures forall i | 0 <= i < |Encode(s)| :: Encode(s)[i] != 10
  {
    if s != [] {
      assert s[0] in s && forall c | c in s[1..] :: c in s;
      NewlineOnlyFromNewline(s[1..]);
      assert forall i | 0 <= i < |EncodeChar(s[0])| :: EncodeChar(s[0])[i] != 10;
    }
  }

  lemma {:induction false} EncodeLength(s: string)
    ensures |s| <= |Encode(s)| <= 4 * |s|
  {
    if s != [] {
      EncodeLength(s[1..]);
    }
  }
}
