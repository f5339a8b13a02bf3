/** Base 64 encoding with padding, as in section 4 of RFC 4648
    (`base64.b64encode`), and the decoding that inverts it. */
module Base64 {
  import opened Common

  newtype byte = x: int | 0 <= x < 256

  /** The character of a 6-bit value: `A`-`Z`, `a`-`z`, `0`-`9`, `+`, `/`
      (Table 1 of RFC 4648). */
  function EncodeChar(i: int): (c: char)
    requires 0 <= i < 64
    ensures c != '='
  {
    if i < 26 then ('A' as int + i) as char
    else if i < 52 then ('a' as int + (i - 26)) as char
    else if i < 62 then ('0' as int + (i - 52)) as char
    else if i == 62 then '+'
    else '/'
  }

  /** The 6-bit value of an alphabet character; anything else is rejected. */
  function DecodeChar(c: char): (r: Option<int>)
    ensures r.Some? ==> 0 <= r.value < 64
  {
    if 'A' <= c <= 'Z' then Some(c as int - 'A' as int)
    else if 'a' <= c <= 'z' then Some(c as int - 'a' as int + 26)
    else if '0' <= c <= '9' then Some(c as int - '0' as int + 52)
    else if c == '+' then Some(62)
    else if c == '/' then Some(63)
    else None
  }

  /** Decoding a character gives back the value it encodes. */
  lemma DecodeEncodeChar(i: int)
    requires 0 <= i < 64
    ensures DecodeChar(EncodeChar(i)) == Some(i)
  {
  }

  /** Three bytes as four characters: the 24 bits of the group, six at a time,
      most significant first. */
  function EncodeGroup(b0: byte, b1: byte, b2: byte): (s: string)
    ensures |s| == 4 && '=' !in s
  {
    var x0, x1, x2 := b0 as int, b1 as int, b2 as int;
    [EncodeChar(x0 / 4), EncodeChar((x0 % 4) * 16 + x1 / 16), EncodeChar((x1 % 16) * 4 + x2 / 64), EncodeChar(x2 % 64)]
  }

  /** The standard encoding with `=` padding: each full group of three bytes
      gives four characters; a final group of two or one byte gives four
      characters ending in one or two `=`. */
  function Encode(b: seq<byte>): (s: string)
    ensures |s| == 4 * ((|b| + 2) / 3)
    decreases |b|
  {
    if |b| == 0 then []
    else if |b| == 1 then
      var x0 := b[0] as int;
      [EncodeChar(x0 / 4), EncodeChar((x0 % 4) * 16), '=', '=']
    else if |b| == 2 then
      var x0, x1 := b[0] as int, b[1] as int;
      [EncodeChar(x0 / 4), EncodeChar((x0 % 4) * 16 + x1 / 16), EncodeChar((x1 % 16) * 4), '=']
    else EncodeGroup(b[0], b[1], b[2]) + Encode(b[3..])
  }

  /** The bytes of four 6-bit values. */
  function Bytes(s0: int, s1: int, s2: int, s3: int): seq<byte>
    requires 0 <= s0 < 64 && 0 <= s1 < 64 && 0 <= s2 < 64 && 0 <= s3 < 64
  {
    [(s0 * 4 + s1 / 16) as byte, ((s1 % 16) * 16 + s2 / 4) as byte, ((s2 % 4) * 64 + s3) as byte]
  }

  /** Decoding: groups of four alphabet characters, the last of which may
      end in `==` (one byte) or `=` (two bytes). */
  function Decode(s: string): Option<seq<byte>>
    decreases |s|
  {
    if s == [] then Some([])
    else if |s| < 4 then None
    else
      var c0, c1, c2, c3 := DecodeChar(s[0]), DecodeChar(s[1]), DecodeChar(s[2]), DecodeChar(s[3]);
      if |s| == 4 && s[2] == '=' && s[3] == '=' then
        if c0.None? || c1.None? then None else Some([(c0.value * 4 + c1.value / 16) as byte])
      else if |s| == 4 && s[3] == '=' then
        if c0.None? || c1.None? || c2.None? then None
        else Some([(c0.value * 4 + c1.value / 16) as byte, ((c1.value % 16) * 16 + c2.value / 4) as byte])
      else if c0.None? || c1.None? || c2.None? || c3.None? then None
      else
        var rest := Decode(s[4..]);
        if rest.None? then None else Some(Bytes(c0.value, c1.value, c2.value, c3.value) + rest.value)
  }

  /** The bits of a group come back in the same order. */
  lemma GroupBits(x0: int, x1: int, x2: int)
    requires 0 <= x0 < 256 && 0 <= x1 < 256 && 0 <= x2 < 256
    ensures var s0, s1, s2, s3 := x0 / 4, (x0 % 4) * 16 + x1 / 16, (x1 % 16) * 4 + x2 / 64, x2 % 64;
      && 0 <= s1 < 64 && 0 <= s2 < 64
      && s0 * 4 + s1 / 16 == x0
      && (s1 % 16) * 16 + s2 / 4 == x1
      && (s2 % 4) * 64 + s3 == x2
  {
    var s1, s2 := (x0 % 4) * 16 + x1 / 16, (x1 % 16) * 4 + x2 / 64;
    assert s1 / 16 == x0 % 4 && s1 % 16 == x1 / 16;
    assert s2 / 4 == x1 % 16 && s2 % 4 == x2 / 64;
  }

  /** The bits of a final single byte, as its two characters carry them. */
  lemma OneBits(x0: int)
    requires 0 <= x0 < 256
    ensures var e0, e1 := x0 / 4, (x0 % 4) * 16;
      0 <= e0 < 64 && 0 <= e1 < 64 && e0 * 4 + e1 / 16 == x0
  {
    var e1 := (x0 % 4) * 16;
    assert e1 / 16 == x0 % 4;
  }

  /** A group ending in `==` decodes to one byte. */
  lemma DecodePaddedOne(c0: char, c1: char, e0: int, e1: int)
    requires DecodeChar(c0) == Some(e0) && DecodeChar(c1) == Some(e1)
    ensures Decode([c0, c1, '=', '=']) == Some([(e0 * 4 + e1 / 16) as byte])
  {
    var s := [c0, c1, '=', '='];
    assert |s| == 4 && s[0] == c0 && s[1] == c1 && s[2] == '=' && s[3] == '=';
  }

  /** A group ending in a single `=` decodes to two bytes. */
  lemma DecodePaddedTwo(c0: char, c1: char, c2: char, e0: int, e1: int, e2: int)
    requires c2 != '='
    requires DecodeChar(c0) == Some(e0) && DecodeChar(c1) == Some(e1) && DecodeChar(c2) == Some(e2)
    ensures Decode([c0, c1, c2, '=']) == Some([(e0 * 4 + e1 / 16) as byte, ((e1 % 16) * 16 + e2 / 4) as byte])
  {
    var s := [c0, c1, c2, '='];
    assert |s| == 4 && s[0] == c0 && s[1] == c1 && s[2] == c2 && s[3] == '=';
  }

  /** A final single byte comes back from its `==`-padded group. */
  lemma DecodeOne(b: seq<byte>)
    requires |b| == 1
    ensures Decode(Encode(b)) == Some(b)
  {
    var x0 := b[0] as int;
    var e0, e1 := x0 / 4, (x0 % 4) * 16;
    OneBits(x0);
    var c0, c1 := EncodeChar(e0), EncodeChar(e1);
    assert Encode(b) == [c0, c1, '=', '='];
    DecodeEncodeChar(e0);
    DecodeEncodeChar(e1);
    DecodePaddedOne(c0, c1, e0, e1);
    assert [x0 as byte] == b;
  }

  /** The bits of a final pair of bytes, as its three characters carry them. */
  lemma TwoBits(x0: int, x1: int, e0: int, e1: int, e2: int)
    requires 0 <= x0 < 256 && 0 <= x1 < 256
    requires e0 == x0 / 4 && e1 == (x0 % 4) * 16 + x1 / 16 && e2 == (x1 % 16) * 4
    ensures 0 <= e0 < 64 && 0 <= e1 < 64 && 0 <= e2 < 64
    ensures e0 * 4 + e1 / 16 == x0 && (e1 % 16) * 16 + e2 / 4 == x1
  {
    GroupBits(x0, x1, 0);
  }

  /** The three characters of a final pair of bytes decode back to it. */
  lemma DecodeTwoChars(x0: int, x1: int)
    requires 0 <= x0 < 256 && 0 <= x1 < 256
    ensures Decode([EncodeChar(x0 / 4), EncodeChar((x0 % 4) * 16 + x1 / 16), EncodeChar((x1 % 16) * 4), '='])
      == Some([x0 as byte, x1 as byte])
  {
    var e0, e1, e2 := x0 / 4, (x0 % 4) * 16 + x1 / 16, (x1 % 16) * 4;
    TwoBits(x0, x1, e0, e1, e2);
    DecodeEncodeChar(e0);
    DecodeEncodeChar(e1);
    DecodeEncodeChar(e2);
    DecodePaddedTwo(EncodeChar(e0), EncodeChar(e1), EncodeChar(e2), e0, e1, e2);
  }

  /** A final pair of bytes comes back from its `=`-padded group. */
  lemma DecodeTwo(b: seq<byte>)
    requires |b| == 2
    ensures Decode(Encode(b)) == Some(b)
  {
    var x0, x1 := b[0] as int, b[1] as int;
    assert Encode(b) == [EncodeChar(x0 / 4), EncodeChar((x0 % 4) * 16 + x1 / 16), EncodeChar((x1 % 16) * 4), '='];
    DecodeTwoChars(x0, x1);
    assert [x0 as byte, x1 as byte] == b;
  }

  /** Four alphabet characters decode to the bytes of their values, ahead of
      whatever the rest of the string decodes to. */
  lemma DecodeFull(c0: char, c1: char, c2: char, c3: char, e0: int, e1: int, e2: int, e3: int, rest: string)
    requires c3 != '='
    requires DecodeChar(c0) == Some(e0) && DecodeChar(c1) == Some(e1)
    requires DecodeChar(c2) == Some(e2) && DecodeChar(c3) == Some(e3)
    ensures Decode([c0, c1, c2, c3] + rest) ==
      (var r := Decode(rest); if r.None? then None else Some(Bytes(e0, e1, e2, e3) + r.value))
  {
    var s := [c0, c1, c2, c3] + rest;
    assert s[0] == c0 && s[1] == c1 && s[2] == c2 && s[3] == c3 && s[4..] == rest;
  }

  /** A full group decodes to its three bytes, ahead of whatever the rest of
      the string decodes to. */
  lemma DecodeGroup(b0: byte, b1: byte, b2: byte, rest: string)
    ensures Decode(EncodeGroup(b0, b1, b2) + rest) ==
      (var r := Decode(rest); if r.None? then None else Some([b0, b1, b2] + r.value))
  {
    var x0, x1, x2 := b0 as int, b1 as int, b2 as int;
    var e0, e1, e2, e3 := x0 / 4, (x0 % 4) * 16 + x1 / 16, (x1 % 16) * 4 + x2 / 64, x2 % 64;
    GroupBits(x0, x1, x2);
    DecodeEncodeChar(e0);
    DecodeEncodeChar(e1);
    DecodeEncodeChar(e2);
    DecodeEncodeChar(e3);
    DecodeFull(EncodeChar(e0), EncodeChar(e1), EncodeChar(e2), EncodeChar(e3), e0, e1, e2, e3, rest);
    assert Bytes(e0, e1, e2, e3) == [b0, b1, b2];
  }

  /** Three or more bytes are their first three followed by the rest. */
  lemma HeadThree(b: seq<byte>)
    requires |b| >= 3
    ensures [b[0], b[1], b[2]] + b[3..] == b
  {
    assert [b[0], b[1], b[2]] == b[..3];
  }

  /** Once the bytes after the first group come back, so do all of them. */
  lemma DecodeStep(b: seq<byte>)
    requires |b| >= 3 && Decode(Encode(b[3..])) == Some(b[3..])
    ensures Decode(Encode(b)) == Some(b)
  {
    var g, r := EncodeGroup(b[0], b[1], b[2]), Encode(b[3..]);
    assert Encode(b) == g + r;
    assert Decode(g + r) == Some([b[0], b[1], b[2]] + b[3..]) by {
      DecodeGroup(b[0], b[1], b[2], r);
    }
    HeadThree(b);
  }

  /** Decoding the encoding of any bytes gives them back. */
  lemma {:induction false} DecodeEncode(b: seq<byte>)
    ensures Decode(Encode(b)) == Some(b)
    decreases |b|
  {
    if |b| == 1 {
      DecodeOne(b);
    } else if |b| == 2 {
      DecodeTwo(b);
    } else if |b| >= 3 {
      DecodeEncode(b[3..]);
      DecodeStep(b);
    }
  }

  /** Distinct byte strings have distinct encodings. */
  lemma EncodeInjective(a: seq<byte>, b: seq<byte>)
    requires Encode(a) == Encode(b)
    ensures a == b
  {
    DecodeEncode(a);
    DecodeEncode(b);
  }
}
