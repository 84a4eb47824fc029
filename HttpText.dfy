/**
 * The text operations the Basic handler leans on: string.Split on one separator and its
 * inverse String.Join, the Authorization header grammar of AuthenticationHeaderValue.Parse
 * (`scheme [ 1*SP parameter ]`, section 2.1 of RFC 7235) and an ASCII-only UTF-8 decode.
 */
module HttpText {
  import opened Wrappers
  import opened Exceptions
  import Base64

  // ----- string.Split(sep) and String.Join(sep, parts) -----

  /** string.Split(sep): every separator ends a part, empty parts included. */
  function Split(s: string, sep: char): (parts: seq<string>)
    ensures |parts| >= 1
    ensures forall i :: 0 <= i < |parts| ==> sep !in parts[i]
    decreases |s|
  {
    if s == [] then [""]
    else
      var rest := Split(s[1..], sep);
      if s[0] == sep then [""] + rest
      else [[s[0]] + rest[0]] + rest[1..]
  }

  /** String.Join(sep, parts). */
  function Join(parts: seq<string>, sep: char): string
    requires |parts| >= 1
    decreases |parts|
  {
    if |parts| == 1 then parts[0] else parts[0] + [sep] + Join(parts[1..], sep)
  }

  /** Joining the parts of a split gives the text back. */
  lemma {:induction false} JoinSplit(s: string, sep: char)
    ensures Join(Split(s, sep), sep) == s
    decreases |s|
  {
    if s != [] {
      var rest := Split(s[1..], sep);
      JoinSplit(s[1..], sep);
      assert s == [s[0]] + s[1..];
      if s[0] == sep {
        JoinEmptyFirst(rest, sep);
      } else {
        JoinExtendFirst(s[0], rest, sep);
      }
    }
  }

  /** An empty first part joins as a leading separator. */
  lemma {:induction false} JoinEmptyFirst(rest: seq<string>, sep: char)
    requires |rest| >= 1
    ensures Join([""] + rest, sep) == [sep] + Join(rest, sep)
  {
    var p := [""] + rest;
    assert p[0] == "" && p[1..] == rest;
  }

  /** A character in front of the first part is in front of the join. */
  lemma {:induction false} JoinExtendFirst(c: char, rest: seq<string>, sep: char)
    requires |rest| >= 1
    ensures Join([[c] + rest[0]] + rest[1..], sep) == [c] + Join(rest, sep)
  {
    var p := [[c] + rest[0]] + rest[1..];
    assert p[0] == [c] + rest[0] && p[1..] == rest[1..];
    if |rest| > 1 {
      assert ([c] + rest[0]) + [sep] + Join(rest[1..], sep) == [c] + (rest[0] + [sep] + Join(rest[1..], sep));
    }
  }

  /** A text without the separator is one part. */
  lemma {:induction false} SplitWithoutSeparator(a: string, sep: char)
    requires sep !in a
    ensures Split(a, sep) == [a]
    decreases |a|
  {
    if a != [] {
      SplitWithoutSeparator(a[1..], sep);
      assert [a[0]] + a[1..] == a;
    }
  }

  /** Text up to the first separator is the first part; the rest is split on its own. */
  lemma {:induction false} SplitAtSeparator(a: string, b: string, sep: char)
    requires sep !in a
    ensures Split(a + [sep] + b, sep) == [a] + Split(b, sep)
    decreases |a|
  {
    var s := a + [sep] + b;
    if a == [] {
      assert s[1..] == b;
    } else {
      assert s[1..] == a[1..] + [sep] + b;
      SplitAtSeparator(a[1..], b, sep);
      assert [a[0]] + a[1..] == a;
    }
  }

  /** Splitting a join of separator-free parts gives the parts back. */
  lemma {:induction false} SplitJoin(parts: seq<string>, sep: char)
    requires |parts| >= 1
    requires forall i :: 0 <= i < |parts| ==> sep !in parts[i]
    ensures Split(Join(parts, sep), sep) == parts
    decreases |parts|
  {
    if |parts| == 1 {
      SplitWithoutSeparator(parts[0], sep);
    } else {
      SplitJoin(parts[1..], sep);
      SplitAtSeparator(parts[0], Join(parts[1..], sep), sep);
      assert [parts[0]] + parts[1..] == parts;
    }
  }

  /** The position of the first separator, if there is one. */
  function IndexOf(s: string, sep: char): (r: Option<nat>)
    ensures r.Some? ==> r.value < |s| && s[r.value] == sep && sep !in s[..r.value]
    ensures r.None? ==> sep !in s
    decreases |s|
  {
    if s == [] then None
    else if s[0] == sep then Some(0)
    else match IndexOf(s[1..], sep)
      case None => None
      case Some(k) => assert s[..k + 1] == [s[0]] + s[1..][..k]; Some(k + 1)
  }

  // ----- the Authorization header: scheme [ 1*SP parameter ] -----

  /** tchar of section 3.2.6 of RFC 7230. */
  predicate IsTokenChar(c: char) {
    ('a' <= c <= 'z') || ('A' <= c <= 'Z') || ('0' <= c <= '9')
    || c == '!' || c == '#' || c == '$' || c == '%' || c == '&' || c == '\'' || c == '*'
    || c == '+' || c == '-' || c == '.' || c == '^' || c == '_' || c == '`' || c == '|' || c == '~'
  }

  /** Optional white space: SP and HTAB. */
  predicate IsHeaderWhiteSpace(c: char) {
    c == ' ' || c == '\t'
  }

  predicate IsToken(s: string) {
    |s| > 0 && forall i :: 0 <= i < |s| ==> IsTokenChar(s[i])
  }

  /** The number of leading white space characters. */
  function LeadingWhiteSpace(s: string): (n: nat)
    ensures n <= |s|
    ensures forall i :: 0 <= i < n ==> IsHeaderWhiteSpace(s[i])
    ensures n < |s| ==> !IsHeaderWhiteSpace(s[n])
    decreases |s|
  {
    if s == [] || !IsHeaderWhiteSpace(s[0]) then 0 else 1 + LeadingWhiteSpace(s[1..])
  }

  /** The number of trailing white space characters. */
  function TrailingWhiteSpace(s: string): (n: nat)
    ensures n <= |s|
    ensures forall i :: |s| - n <= i < |s| ==> IsHeaderWhiteSpace(s[i])
    ensures n < |s| ==> !IsHeaderWhiteSpace(s[|s| - n - 1])
    decreases |s|
  {
    if s == [] || !IsHeaderWhiteSpace(s[|s| - 1]) then 0 else 1 + TrailingWhiteSpace(s[..|s| - 1])
  }

  /** string.Trim over SP and HTAB. */
  function Trim(s: string): (r: string)
    ensures r == [] || (!IsHeaderWhiteSpace(r[0]) && !IsHeaderWhiteSpace(r[|r| - 1]))
  {
    var t := s[LeadingWhiteSpace(s)..];
    t[..|t| - TrailingWhiteSpace(t)]
  }

  /** The length of the leading run of token characters. */
  function TokenLength(s: string): (n: nat)
    ensures n <= |s|
    ensures forall i :: 0 <= i < n ==> IsTokenChar(s[i])
    ensures n < |s| ==> !IsTokenChar(s[n])
    decreases |s|
  {
    if s == [] || !IsTokenChar(s[0]) then 0 else 1 + TokenLength(s[1..])
  }

  /** AuthenticationHeaderValue: the scheme and the optional parameter. */
  datatype AuthenticationHeader = AuthenticationHeader(scheme: string, parameter: Option<string>)

  function FormatError(v: string): Exception {
    Format("The format of value '" + v + "' is invalid.")
  }

  /**
   * AuthenticationHeaderValue.Parse: surrounding white space is ignored, the scheme is a
   * token, and a parameter, when present, follows it after white space.
   */
  function ParseAuthenticationHeader(v: string): (r: Result<AuthenticationHeader, Exception>)
    ensures r.Success? ==> IsToken(r.value.scheme)
    ensures r.Success? && r.value.parameter.Some? ==>
      var p := r.value.parameter.value;
      |p| > 0 && !IsHeaderWhiteSpace(p[0]) && !IsHeaderWhiteSpace(p[|p| - 1])
    ensures r.Failure? ==> r.error == FormatError(v)
  {
    var t := Trim(v);
    var n := TokenLength(t);
    if n == 0 then Failure(FormatError(v))
    else if n == |t| then Success(AuthenticationHeader(t, None))
    else if !IsHeaderWhiteSpace(t[n]) then Failure(FormatError(v))
    else
      var m := LeadingWhiteSpace(t[n..]);
      assert m < |t| - n by {
        assert t[n..][|t| - n - 1] == t[|t| - 1];
      }
      Success(AuthenticationHeader(t[..n], Some(t[n + m..])))
  }

  /** A scheme token, one space and a parameter parse back into the two. */
  lemma {:induction false} ParseSchemeAndParameter(scheme: string, parameter: string)
    requires IsToken(scheme)
    requires |parameter| > 0 && !IsHeaderWhiteSpace(parameter[0])
    requires !IsHeaderWhiteSpace(parameter[|parameter| - 1])
    ensures ParseAuthenticationHeader(scheme + " " + parameter)
      == Success(AuthenticationHeader(scheme, Some(parameter)))
  {
    var v := scheme + " " + parameter;
    assert Trim(v) == v by {
      assert LeadingWhiteSpace(v) == 0 by { assert v[0] == scheme[0]; }
      assert TrailingWhiteSpace(v) == 0 by { assert v[|v| - 1] == parameter[|parameter| - 1]; }
    }
    TokenLengthOfToken(scheme, " " + parameter);
    assert v == scheme + (" " + parameter);
    var n := |scheme|;
    assert v[n] == ' ';
    assert LeadingWhiteSpace(v[n..]) == 1 by {
      assert v[n..] == " " + parameter;
      assert (" " + parameter)[1..] == parameter;
    }
    assert v[..n] == scheme && v[n + 1..] == parameter;
  }

  lemma {:induction false} TokenLengthOfToken(a: string, b: string)
    requires forall i :: 0 <= i < |a| ==> IsTokenChar(a[i])
    requires b == [] || !IsTokenChar(b[0])
    ensures TokenLength(a + b) == |a|
    decreases |a|
  {
    if a != [] {
      assert (a + b)[1..] == a[1..] + b;
      TokenLengthOfToken(a[1..], b);
    }
  }

  // ----- Encoding.UTF8.GetString, on ASCII -----

  /** Encoding.UTF8.GetString where every byte is ASCII; other bytes become U+FFFD. */
  function Utf8Decode(b: seq<Base64.byte>): string {
    seq(|b|, i requires 0 <= i < |b| => if b[i] < 0x80 then b[i] as char else '\U{FFFD}')
  }

  predicate IsAscii(s: string) {
    forall i :: 0 <= i < |s| ==> s[i] < '\U{80}'
  }

  /** Encoding.ASCII.GetBytes: one byte per character. */
  function AsciiBytes(s: string): (b: seq<Base64.byte>)
    requires IsAscii(s)
    ensures |b| == |s|
  {
    seq(|s|, i requires 0 <= i < |s| => s[i] as int)
  }

  lemma {:induction false} DecodeAsciiBytes(s: string)
    requires IsAscii(s)
    ensures Utf8Decode(AsciiBytes(s)) == s
  {
    var b := AsciiBytes(s);
    var d := Utf8Decode(b);
    assert |d| == |s|;
    forall i | 0 <= i < |s|
      ensures d[i] == s[i]
    {
      assert b[i] == s[i] as int;
      assert b[i] < 0x80;
      assert d[i] == b[i] as char;
    }
    assert d == s;
  }
}
