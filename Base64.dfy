/**
 * Base64 as Convert.FromBase64String reads it: the alphabet and padding of section 4 of
 * RFC 4648, with the white space characters ' ', '\t', '\r' and '\n' skipped. The unused low
 * bits of a padded final group are not checked. Encode is the partner the decoder inverts.
 */
module Base64 {
  import opened Wrappers
  import Linq

  /** A .NET byte. */
  type byte = x: int | 0 <= x < 256

  /** The six-bit value one base64 character stands for. */
  type sextet = x: int | 0 <= x < 64

  /** The value of one alphabet character (Table 1 of RFC 4648). */
  function CharToSextet(c: char): (r: Option<sextet>)
    ensures r.Some? <==> ('A' <= c <= 'Z' || 'a' <= c <= 'z' || '0' <= c <= '9' || c == '+' || c == '/')
  {
    if 'A' <= c <= 'Z' then Some(c as int - 'A' as int)
    else if 'a' <= c <= 'z' then Some(c as int - 'a' as int + 26)
    else if '0' <= c <= '9' then Some(c as int - '0' as int + 52)
    else if c == '+' then Some(62)
    else if c == '/' then Some(63)
    else None
  }

  /** The alphabet character of a six-bit value. */
  function SextetToChar(v: sextet): (c: char)
    ensures c != '=' && !IsSkippedWhiteSpace(c)
  {
    if v < 26 then ('A' as int + v) as char
    else if v < 52 then ('a' as int + v - 26) as char
    else if v < 62 then ('0' as int + v - 52) as char
    else if v == 62 then '+'
    else '/'
  }

  lemma {:induction false} SextetRoundTrip(v: sextet)
    ensures CharToSextet(SextetToChar(v)) == Some(v)
    ensures SextetToChar(v) != '='
  {
  }

  predicate IsSkippedWhiteSpace(c: char) {
    c == ' ' || c == '\t' || c == '\r' || c == '\n'
  }

  /** The three bytes a group of four values stands for: 24 bits, eight at a time. */
  function DecodeGroup(s0: sextet, s1: sextet, s2: sextet, s3: sextet): seq<byte> {
    [s0 * 4 + s1 / 16, (s1 % 16) * 16 + s2 / 4, (s2 % 4) * 64 + s3]
  }

  /** The four values of a group of three bytes. */
  function EncodeGroup(b0: byte, b1: byte, b2: byte): (r: seq<sextet>)
    ensures |r| == 4
  {
    [b0 / 4, (b0 % 4) * 16 + b1 / 16, (b1 % 16) * 4 + b2 / 64, b2 % 64]
  }

  lemma {:induction false} GroupRoundTrip(b0: byte, b1: byte, b2: byte)
    ensures var g := EncodeGroup(b0, b1, b2);
      DecodeGroup(g[0], g[1], g[2], g[3]) == [b0, b1, b2]
  {
  }

  /** Decodes white-space-free text group by group; a piece shorter than a group is refused. */
  function DecodeGroups(t: string): (r: Option<seq<byte>>)
    decreases |t|
  {
    if t == [] then Some([])
    else if |t| < 4 then None
    else
      var v0, v1, v2, v3 := CharToSextet(t[0]), CharToSextet(t[1]), CharToSextet(t[2]), CharToSextet(t[3]);
      if v0.None? || v1.None? then None
      else if |t| == 4 && t[2] == '=' && t[3] == '=' then
        Some(DecodeGroup(v0.value, v1.value, 0, 0)[..1])
      else if |t| == 4 && v2.Some? && t[3] == '=' then
        Some(DecodeGroup(v0.value, v1.value, v2.value, 0)[..2])
      else if v2.None? || v3.None? then None
      else
        match DecodeGroups(t[4..])
        case None => None
        case Some(rest) => Some(DecodeGroup(v0.value, v1.value, v2.value, v3.value) + rest)
  }

  /** Convert.FromBase64String: None where it throws a FormatException. */
  function Decode(s: string): Option<seq<byte>> {
    var t := Linq.Where(s, (c: char) => !IsSkippedWhiteSpace(c));
    if |t| % 4 != 0 then None else DecodeGroups(t)
  }

  /** The four characters of three whole bytes. */
  function EncodeTriple(b0: byte, b1: byte, b2: byte): (r: string)
    ensures |r| == 4 && forall i :: 0 <= i < 4 ==> !IsSkippedWhiteSpace(r[i])
  {
    var g := EncodeGroup(b0, b1, b2);
    [SextetToChar(g[0]), SextetToChar(g[1]), SextetToChar(g[2]), SextetToChar(g[3])]
  }

  /** The padded encoding of section 4 of RFC 4648. */
  function Encode(b: seq<byte>): (r: string)
    ensures |r| % 4 == 0
    ensures forall i :: 0 <= i < |r| ==> !IsSkippedWhiteSpace(r[i])
    decreases |b|
  {
    if |b| == 0 then ""
    else if |b| == 1 then
      var g := EncodeGroup(b[0], 0, 0);
      [SextetToChar(g[0]), SextetToChar(g[1]), '=', '=']
    else if |b| == 2 then
      var g := EncodeGroup(b[0], b[1], 0);
      [SextetToChar(g[0]), SextetToChar(g[1]), SextetToChar(g[2]), '=']
    else
      var e, rest := EncodeTriple(b[0], b[1], b[2]), Encode(b[3..]);
      assert forall i :: 0 <= i < |e + rest| ==> (e + rest)[i] == if i < |e| then e[i] else rest[i - |e|];
      e + rest
  }

  /** Where keeps a text none of whose characters is dropped. */
  lemma {:induction false} WhereKeepsAll(s: string)
    requires forall i :: 0 <= i < |s| ==> !IsSkippedWhiteSpace(s[i])
    ensures Linq.Where(s, (c: char) => !IsSkippedWhiteSpace(c)) == s
    decreases |s|
  {
    if s != [] {
      WhereKeepsAll(s[1..]);
    }
  }

  lemma {:induction false} EncodeOneByte(b0: byte)
    ensures DecodeGroups(Encode([b0])) == Some([b0])
  {
    var g := EncodeGroup(b0, 0, 0);
    var e := Encode([b0]);
    SextetRoundTrip(g[0]); SextetRoundTrip(g[1]);
    GroupRoundTrip(b0, 0, 0);
    assert e == [SextetToChar(g[0]), SextetToChar(g[1]), '=', '='];
    assert CharToSextet(e[0]) == Some(g[0]);
    assert CharToSextet(e[1]) == Some(g[1]);
    assert DecodeGroups(e) == Some(DecodeGroup(g[0], g[1], 0, 0)[..1]);
    assert g[2] == 0 && g[3] == 0;
    assert DecodeGroup(g[0], g[1], 0, 0) == [b0, 0, 0];
    assert [b0, 0, 0][..1] == [b0];
  }

  lemma {:induction false} EncodeTwoBytes(b0: byte, b1: byte)
    ensures DecodeGroups(Encode([b0, b1])) == Some([b0, b1])
  {
    var g := EncodeGroup(b0, b1, 0);
    var e := Encode([b0, b1]);
    SextetRoundTrip(g[0]); SextetRoundTrip(g[1]); SextetRoundTrip(g[2]);
    GroupRoundTrip(b0, b1, 0);
    assert e[2] != '=' && CharToSextet(e[2]) == Some(g[2]);
    assert DecodeGroup(g[0], g[1], g[2], g[3]) == [b0, b1, 0];
    assert [b0, b1, 0][..2] == [b0, b1];
  }

  /** A whole group of four alphabet characters is decoded ahead of the groups after it. */
  lemma {:induction false} DecodeWholeGroup(c0: char, c1: char, c2: char, c3: char, rest: string)
    requires CharToSextet(c0).Some? && CharToSextet(c1).Some?
    requires CharToSextet(c2).Some? && CharToSextet(c3).Some?
    ensures DecodeGroups([c0, c1, c2, c3] + rest) == match DecodeGroups(rest)
      case None => None
      case Some(r) =>
        Some(DecodeGroup(CharToSextet(c0).value, CharToSextet(c1).value,
                         CharToSextet(c2).value, CharToSextet(c3).value) + r)
  {
    var t := [c0, c1, c2, c3] + rest;
    assert t[0] == c0 && t[1] == c1 && t[2] == c2 && t[3] == c3 && t[4..] == rest;
    assert c3 != '=';
  }

  /** Three whole bytes survive the trip ahead of whatever follows them. */
  lemma {:induction false} DecodeTriple(b0: byte, b1: byte, b2: byte, rest: string)
    ensures DecodeGroups(EncodeTriple(b0, b1, b2) + rest) == match DecodeGroups(rest)
      case None => None
      case Some(r) => Some([b0, b1, b2] + r)
  {
    var g := EncodeGroup(b0, b1, b2);
    SextetRoundTrip(g[0]); SextetRoundTrip(g[1]); SextetRoundTrip(g[2]); SextetRoundTrip(g[3]);
    GroupRoundTrip(b0, b1, b2);
    var e := EncodeTriple(b0, b1, b2);
    assert e == [SextetToChar(g[0]), SextetToChar(g[1]), SextetToChar(g[2]), SextetToChar(g[3])];
    DecodeWholeGroup(e[0], e[1], e[2], e[3], rest);
  }

  lemma {:induction false} DecodeGroupsEncode(b: seq<byte>)
    ensures DecodeGroups(Encode(b)) == Some(b)
    decreases |b|
  {
    if |b| == 0 {
      assert Encode(b) == "";
    } else if |b| < 3 {
      DecodeShort(b);
    } else {
      DecodeGroupsEncode(b[3..]);
      DecodeLong(b);
    }
  }

  /** One or two bytes make one padded group. */
  lemma {:induction false} DecodeShort(b: seq<byte>)
    requires 1 <= |b| <= 2
    ensures DecodeGroups(Encode(b)) == Some(b)
  {
    if |b| == 1 {
      assert [b[0]] == b;
      EncodeOneByte(b[0]);
    } else {
      assert [b[0], b[1]] == b;
      EncodeTwoBytes(b[0], b[1]);
    }
  }

  /** Three bytes and more: one whole group ahead of the encoding of the rest. */
  lemma {:induction false} DecodeLong(b: seq<byte>)
    requires |b| >= 3 && DecodeGroups(Encode(b[3..])) == Some(b[3..])
    ensures DecodeGroups(Encode(b)) == Some(b)
  {
    EncodeStep(b);
    DecodeAhead(b, Encode(b), Encode(b[3..]));
  }

  lemma {:induction false} DecodeAhead(b: seq<byte>, e: string, rest: string)
    requires |b| >= 3
    requires e == EncodeTriple(b[0], b[1], b[2]) + rest && DecodeGroups(rest) == Some(b[3..])
    ensures DecodeGroups(e) == Some(b)
  {
    FirstThree(b);
    DecodeTriple(b[0], b[1], b[2], rest);
  }

  lemma {:induction false} FirstThree<T>(b: seq<T>)
    requires |b| >= 3
    ensures [b[0], b[1], b[2]] + b[3..] == b
  {
    assert forall i :: 0 <= i < |b| ==> ([b[0], b[1], b[2]] + b[3..])[i] == b[i];
  }

  lemma {:induction false} EncodeStep(b: seq<byte>)
    requires |b| >= 3
    ensures Encode(b) == EncodeTriple(b[0], b[1], b[2]) + Encode(b[3..])
  {
  }

  /** Decoding an encoding gives the bytes back. */
  lemma {:induction false} DecodeEncode(b: seq<byte>)
    ensures Decode(Encode(b)) == Some(b)
  {
    WhereKeepsAll(Encode(b));
    DecodeGroupsEncode(b);
  }
}
