/** The URL-safe base64 encoding of section 5 of RFC 4648, as Go's
    `encoding/base64` provides it: `URLEncoding` (padded with '=') and
    `RawURLEncoding` (unpadded, as JWS uses it), and the padded decoder
    `URLEncoding.DecodeString`. */
module Base64 {
  import opened Wrappers

  type byte = x: int | 0 <= x < 256

  /** Go's `base64.CorruptInputError`. */
  datatype DecodeError = CorruptInput

  /** The character for a 6-bit value: A-Z, a-z, 0-9, '-', '_'. */
  function Char(v: nat): (c: char)
    requires v < 64
    ensures c != '=' && c != '.'
  {
    if v < 26 then ('A' as int + v) as char
    else if v < 52 then ('a' as int + (v - 26)) as char
    else if v < 62 then ('0' as int + (v - 52)) as char
    else if v == 62 then '-'
    else '_'
  }

  /** The 6-bit value of an alphabet character; None for anything else,
      the padding character '=' included. */
  function Value(c: char): (r: Option<nat>)
    ensures r.Some? ==> r.value < 64
    ensures c == '=' ==> r.None?
  {
    if 'A' <= c <= 'Z' then Some(c as int - 'A' as int)
    else if 'a' <= c <= 'z' then Some(c as int - 'a' as int + 26)
    else if '0' <= c <= '9' then Some(c as int - '0' as int + 52)
    else if c == '-' then Some(62)
    else if c == '_' then Some(63)
    else None
  }

  /** Each character of the alphabet decodes to its own value. */
  lemma CharValue(v: nat)
    requires v < 64
    ensures Value(Char(v)) == Some(v)
  {
  }

  /** Three bytes as four characters. */
  function Quad(b0: byte, b1: byte, b2: byte): (q: string)
    ensures |q| == 4
  {
    [Char(b0 / 4), Char(b0 % 4 * 16 + b1 / 16), Char(b1 % 16 * 4 + b2 / 64), Char(b2 % 64)]
  }

  /** A final single byte, before padding. */
  function Tail1(b0: byte): (t: string)
    ensures |t| == 2
  {
    [Char(b0 / 4), Char(b0 % 4 * 16)]
  }

  /** A final pair of bytes, before padding. */
  function Tail2(b0: byte, b1: byte): (t: string)
    ensures |t| == 3
  {
    [Char(b0 / 4), Char(b0 % 4 * 16 + b1 / 16), Char(b1 % 16 * 4)]
  }

  /** `base64.URLEncoding.EncodeToString`: whole quanta, the last one padded. */
  function Encode(b: seq<byte>): string
  {
    if |b| == 0 then []
    else if |b| == 1 then Tail1(b[0]) + "=="
    else if |b| == 2 then Tail2(b[0], b[1]) + "="
    else Quad(b[0], b[1], b[2]) + Encode(b[3..])
  }

  /** Padded encoding emits whole 4-character quanta, one for every three
      bytes or part of three. */
  lemma {:induction false} EncodeLength(b: seq<byte>)
    ensures |Encode(b)| % 4 == 0
    ensures 4 * |b| <= 3 * |Encode(b)| < 4 * |b| + 12
  {
    if |b| == 0 {
    } else if |b| < 3 {
      assert |Encode(b)| == 4;
    } else {
      assert |Encode(b)| == 4 + |Encode(b[3..])|;
      EncodeLength(b[3..]);
      NextQuantum(|Encode(b[3..])|);
    }
  }

  lemma NextQuantum(n: int)
    requires n % 4 == 0
    ensures (4 + n) % 4 == 0
  {
  }

  /** `base64.RawURLEncoding.EncodeToString`: the same characters, no padding. */
  function EncodeRaw(b: seq<byte>): (s: string)
    ensures '=' !in s && '.' !in s
  {
    if |b| == 0 then []
    else if |b| == 1 then Tail1(b[0])
    else if |b| == 2 then Tail2(b[0], b[1])
    else Quad(b[0], b[1], b[2]) + EncodeRaw(b[3..])
  }

  /** `base64.URLEncoding.DecodeString` on input without line breaks: whole
      4-character quanta; padding may only end the last quantum ("xx==" or
      "xxx="); bits left over by a padded quantum are ignored. */
  function Decode(s: string): (r: Result<seq<byte>, DecodeError>)
    decreases |s|
  {
    if |s| == 0 then Ok([])
    else if |s| < 4 then Err(CorruptInput)
    else
      var v0, v1, v2, v3 := Value(s[0]), Value(s[1]), Value(s[2]), Value(s[3]);
      if v0.None? || v1.None? then Err(CorruptInput)
      else if |s| == 4 && s[2] == '=' && s[3] == '=' then
        Ok([v0.value * 4 + v1.value / 16])
      else if v2.None? then Err(CorruptInput)
      else if |s| == 4 && s[3] == '=' then
        Ok([v0.value * 4 + v1.value / 16, v1.value % 16 * 16 + v2.value / 4])
      else if v3.None? then Err(CorruptInput)
      else
        match Decode(s[4..])
        case Err(e) => Err(e)
        case Ok(rest) =>
          Ok([v0.value * 4 + v1.value / 16, v1.value % 16 * 16 + v2.value / 4, v2.value % 4 * 64 + v3.value] + rest)
  }

  /** The 6-bit groups of three bytes give the bytes back. */
  lemma RegroupBits(b0: byte, b1: byte, b2: byte)
    ensures var v1, v2 := b0 % 4 * 16 + b1 / 16, b1 % 16 * 4 + b2 / 64;
      && b0 / 4 * 4 + v1 / 16 == b0
      && v1 % 16 * 16 + v2 / 4 == b1
      && v2 % 4 * 64 + b2 % 64 == b2
  {
    var v1, v2 := b0 % 4 * 16 + b1 / 16, b1 % 16 * 4 + b2 / 64;
    assert v1 / 16 == b0 % 4 && v1 % 16 == b1 / 16;
    assert v2 / 4 == b1 % 16 && v2 % 4 == b2 / 64;
  }

  lemma DecodeSingle(b0: byte)
    ensures Decode(Tail1(b0) + "==") == Ok([b0])
  {
    RegroupBits(b0, 0, 0);
    CharValue(b0 / 4);
    CharValue(b0 % 4 * 16);
    var s := Tail1(b0) + "==";
    assert s[2] == '=' && s[3] == '=';
  }

  lemma DecodePair(b0: byte, b1: byte)
    ensures Decode(Tail2(b0, b1) + "=") == Ok([b0, b1])
  {
    RegroupBits(b0, b1, 0);
    CharValue(b0 / 4);
    CharValue(b0 % 4 * 16 + b1 / 16);
    CharValue(b1 % 16 * 4);
    var s := Tail2(b0, b1) + "=";
    assert Value(s[2]) == Some(b1 % 16 * 4);
    assert s[3] == '=';
  }

  /** A quantum of four alphabet characters decodes to three bytes, ahead of
      whatever the rest decodes to. */
  lemma DecodeFullQuantum(s: string, v0: nat, v1: nat, v2: nat, v3: nat)
    requires |s| >= 4
    requires Value(s[0]) == Some(v0) && Value(s[1]) == Some(v1)
    requires Value(s[2]) == Some(v2) && Value(s[3]) == Some(v3)
    ensures Decode(s) ==
      match Decode(s[4..])
      case Ok(bs) => Ok([v0 * 4 + v1 / 16, v1 % 16 * 16 + v2 / 4, v2 % 4 * 64 + v3] + bs)
      case Err(e) => Err(e)
  {
    assert s[2] != '=' && s[3] != '=';
  }

  lemma DecodeQuad(b0: byte, b1: byte, b2: byte, rest: string)
    ensures Decode(Quad(b0, b1, b2) + rest) ==
      match Decode(rest)
      case Ok(bs) => Ok([b0, b1, b2] + bs)
      case Err(e) => Err(e)
  {
    var v1, v2 := b0 % 4 * 16 + b1 / 16, b1 % 16 * 4 + b2 / 64;
    RegroupBits(b0, b1, b2);
    CharValue(b0 / 4);
    CharValue(v1);
    CharValue(v2);
    CharValue(b2 % 64);
    var q := Quad(b0, b1, b2);
    var s := q + rest;
    assert s[0] == q[0] && s[1] == q[1] && s[2] == q[2] && s[3] == q[3];
    assert s[4..] == rest;
    DecodeFullQuantum(s, b0 / 4, v1, v2, b2 % 64);
  }

  /** Decoding undoes padded encoding. */
  lemma {:induction false} DecodeEncode(b: seq<byte>)
    ensures Decode(Encode(b)) == Ok(b)
  {
    if |b| == 1 {
      assert Encode(b) == Tail1(b[0]) + "==";
      DecodeSingle(b[0]);
      assert b == [b[0]];
    } else if |b| == 2 {
      assert Encode(b) == Tail2(b[0], b[1]) + "=";
      DecodePair(b[0], b[1]);
      assert b == [b[0], b[1]];
    } else if |b| >= 3 {
      DecodeEncode(b[3..]);
      DecodeLeadingQuad(b);
    }
  }

  lemma DecodeLeadingQuad(b: seq<byte>)
    requires |b| >= 3 && Decode(Encode(b[3..])) == Ok(b[3..])
    ensures Decode(Encode(b)) == Ok(b)
  {
    var e := Encode(b[3..]);
    var q := Quad(b[0], b[1], b[2]);
    assert Encode(b) == q + e;
    DecodeQuad(b[0], b[1], b[2], e);
    assert Decode(q + e) == Ok([b[0], b[1], b[2]] + b[3..]);
    FirstThree(b);
  }

  lemma FirstThree(b: seq<byte>)
    requires |b| >= 3
    ensures [b[0], b[1], b[2]] + b[3..] == b
  {
  }

  /** Unpadded encoding is the padded encoding with its trailing '='s removed. */
  lemma {:induction false} EncodeRawIsUnpadded(b: seq<byte>)
    ensures var e := Encode(b); var r := EncodeRaw(b);
      |e| - 3 < |r| <= |e| && e[..|r|] == r && forall i :: |r| <= i < |e| ==> e[i] == '='
  {
    if |b| >= 3 {
      var q := Quad(b[0], b[1], b[2]);
      EncodeRawIsUnpadded(b[3..]);
      var e, r := Encode(b), EncodeRaw(b);
      var e', r' := Encode(b[3..]), EncodeRaw(b[3..]);
      assert e == q + e' && r == q + r';
      assert e[..|r|] == q + e'[..|r'|];
      forall i | |r| <= i < |e| ensures e[i] == '=' {
        assert e[i] == e'[i - 4];
      }
    }
  }

  /** A padded string whose last quantum starts its padding at the second
      character ("x===") is rejected. */
  lemma {:induction false} DecodeRejectsOneCharQuantum(s: string)
    requires |s| >= 4 && |s| % 4 == 0
    requires s[|s| - 3] == '='
    ensures Decode(s).Err?
    decreases |s|
  {
    if |s| > 4 {
      assert s[4..][|s[4..]| - 3] == s[|s| - 3];
      DecodeRejectsOneCharQuantum(s[4..]);
    }
  }
}
