/** Percent-encoding of download file names. */
module UrlEscape {
  import opened Wrappers

  newtype byte = x: int | 0 <= x < 256

  /** Bytes the encoder leaves alone. */
  predicate Plain(c: byte) {
    97 <= c <= 122 || 65 <= c <= 90 || 48 <= c <= 57 || c == 46 || c == 45 || c == 95
  }

  /** An upper-case hexadecimal digit. */
  function Digit(n: byte): byte
    requires n < 16
  {
    if n < 10 then 48 + n else 55 + n
  }

  function Encoded(c: byte): seq<byte> {
    if Plain(c) then [c] else [37, Digit(c / 16), Digit(c % 16)]
  }

  function Escaped(s: seq<byte>): seq<byte> {
    if s == [] then [] else Escaped(s[..|s| - 1]) + Encoded(s[|s| - 1])
  }

  const HEX: seq<byte> := [48, 49, 50, 51, 52, 53, 54, 55, 56, 57, 65, 66, 67, 68, 69, 70]

  lemma HexIsDigit(n: byte)
    requires n < 16
    ensures HEX[n] == Digit(n)
  {
    if n < 8 { assert n in {0, 1, 2, 3, 4, 5, 6, 7}; } else { assert n in {8, 9, 10, 11, 12, 13, 14, 15}; }
  }

  lemma EscapedNext(s: seq<byte>, i: nat)
    requires i < |s|
    ensures Escaped(s[..i + 1]) == Escaped(s[..i]) + Encoded(s[i])
  {
    assert s[..i + 1][..i] == s[..i];
  }

  method Escape(s: seq<byte>) returns (out: seq<byte>)
    ensures out == Escaped(s)
  {
    out := [];
    for i := 0 to |s|
      invariant out == Escaped(s[..i])
    {
      var c := s[i];
      EscapedNext(s, i);
      if 97 <= c <= 122 || 65 <= c <= 90 || 48 <= c <= 57 || c == 46 || c == 45 || c == 95 {
        out := out + [c];
        continue;
      }
      HexIsDigit(c / 16);
      HexIsDigit(c % 16);
      out := out + [37, HEX[c / 16], HEX[c % 16]];
    }
    assert s[..|s|] == s;
  }

  lemma EscapedLast(s: seq<byte>, c: byte)
    ensures Escaped(s + [c]) == Escaped(s) + Encoded(c)
  {
    assert (s + [c])[..|s|] == s;
  }

  lemma EscapedNothing()
    ensures Escaped([]) == []
  {
  }

  lemma EscapedConcatLast(s: seq<byte>, t: seq<byte>, c: byte)
    requires Escaped(s + t) == Escaped(s) + Escaped(t)
    ensures Escaped(s + (t + [c])) == Escaped(s) + Escaped(t + [c])
  {
    hide Escaped, Encoded;
    assert s + (t + [c]) == (s + t) + [c];
    EscapedLast(s + t, c);
    EscapedLast(t, c);
    assert (Escaped(s) + Escaped(t)) + Encoded(c) == Escaped(s) + (Escaped(t) + Encoded(c));
  }

  lemma {:induction false} EscapedConcat(s: seq<byte>, t: seq<byte>)
    ensures Escaped(s + t) == Escaped(s) + Escaped(t)
  {
    hide Escaped;
    if t == [] {
      EscapedNothing();
      assert s + [] == s && Escaped(s) + [] == Escaped(s);
    } else {
      var before, c := t[..|t| - 1], t[|t| - 1];
      EscapedConcat(s, before);
      EscapedConcatLast(s, before, c);
      assert before + [c] == t;
    }
  }

  /** A letter, a digit, ".", "-" or "_". */
  predicate Literal(c: byte) {
    48 <= c <= 57 || 65 <= c <= 90 || 97 <= c <= 122 || c == 45 || c == 46 || c == 95
  }

  /** A name is encoded byte by byte: letters, digits, ".", "-" and "_" stay as they are, every other byte
      becomes a percent sign and its two hexadecimal digits in upper case. */
  lemma EscapedExact(s: seq<byte>, c: byte, t: seq<byte>)
    ensures Escaped(s + [c] + t) == Escaped(s) + Escaped([c]) + Escaped(t)
    ensures Escaped([c]) == if Literal(c) then [c]
                            else [37, if c < 160 then 48 + c / 16 else 55 + c / 16,
                                  if c % 16 < 10 then 48 + c % 16 else 55 + c % 16]
    ensures Escaped([]) == []
  {
    EscapedConcat(s + [c], t);
    EscapedConcat(s, [c]);
    assert [c][..0] == [];
  }

  /** The value of a hexadecimal digit of either case. */
  function Value(c: byte): Option<byte> {
    if 48 <= c <= 57 then Some(c - 48)
    else if 65 <= c <= 70 then Some(c - 55)
    else if 97 <= c <= 102 then Some(c - 87)
    else None
  }

  /** Percent-decoding, from the front; None when a percent sign is not followed by two digits. */
  function Decoded(s: seq<byte>): Option<seq<byte>> {
    if s == [] then Some([])
    else if s[0] != 37 then
      var rest := Decoded(s[1..]);
      if rest.Some? then Some([s[0]] + rest.value) else None
    else if |s| < 3 || Value(s[1]).None? || Value(s[2]).None? then None
    else
      var rest := Decoded(s[3..]);
      if rest.Some? then Some([Value(s[1]).value * 16 + Value(s[2]).value] + rest.value) else None
  }

  lemma DecodeOne(c: byte, rest: seq<byte>, d: seq<byte>)
    requires Decoded(rest) == Some(d)
    ensures Decoded(Encoded(c) + rest) == Some([c] + d)
  {
    var e := Encoded(c);
    assert (e + rest)[|e|..] == rest;
    assert c == c / 16 * 16 + c % 16;
  }

  lemma EscapedSplit(s: seq<byte>, rest: seq<byte>)
    requires s != []
    ensures Escaped(s) + rest == Escaped(s[..|s| - 1]) + (Encoded(s[|s| - 1]) + rest)
  {
    var before, e := Escaped(s[..|s| - 1]), Encoded(s[|s| - 1]);
    assert (before + e) + rest == before + (e + rest);
  }

  lemma Regroup(s: seq<byte>, d: seq<byte>)
    requires s != []
    ensures s[..|s| - 1] + ([s[|s| - 1]] + d) == s + d
  {
  }

  /** Decoding undoes the encoding in front of anything decodable. */
  lemma {:induction false} DecodeEscaped(s: seq<byte>, rest: seq<byte>, d: seq<byte>)
    requires Decoded(rest) == Some(d)
    ensures Decoded(Escaped(s) + rest) == Some(s + d)
  {
    if s == [] {
      assert Escaped(s) + rest == rest && s + d == d;
    } else {
      var n := |s| - 1;
      DecodeOne(s[n], rest, d);
      DecodeEscaped(s[..n], Encoded(s[n]) + rest, [s[n]] + d);
      EscapedSplit(s, rest);
      Regroup(s, d);
    }
  }

  /** Round trip, for every byte string. */
  lemma RoundTrip(s: seq<byte>)
    ensures Decoded(Escaped(s)) == Some(s)
  {
    DecodeEscaped(s, [], []);
    assert Escaped(s) + [] == Escaped(s) && s + [] == s;
  }

  /** Distinct names have distinct encodings. */
  lemma EscapeInjective(s: seq<byte>, t: seq<byte>)
    requires Escaped(s) == Escaped(t)
    ensures s == t
  {
    RoundTrip(s);
    RoundTrip(t);
  }

  // ---------------------------------------------------------------------------------------------
  // value-chars of section 3.2.1 of RFC 5987
  // ---------------------------------------------------------------------------------------------

  /** ALPHA / DIGIT / "!" / "#" / "$" / "&" / "+" / "-" / "." / "^" / "_" / "`" / "|" / "~" */
  predicate AttrChar(c: byte) {
    97 <= c <= 122 || 65 <= c <= 90 || 48 <= c <= 57
    || c in [33, 35, 36, 38, 43, 45, 46, 94, 95, 96, 124, 126]
  }

  predicate HexDigit(c: byte) {
    48 <= c <= 57 || 65 <= c <= 70 || 97 <= c <= 102
  }

  /** *( pct-encoded / attr-char ) */
  predicate ValueChars(s: seq<byte>) {
    s == []
    || (AttrChar(s[0]) && ValueChars(s[1..]))
    || (s[0] == 37 && |s| >= 3 && HexDigit(s[1]) && HexDigit(s[2]) && ValueChars(s[3..]))
  }

  lemma EncodedValueChars(c: byte, rest: seq<byte>)
    requires ValueChars(rest)
    ensures ValueChars(Encoded(c) + rest)
  {
    var e := Encoded(c);
    assert (e + rest)[|e|..] == rest;
  }

  lemma {:induction false} EscapedThenValueChars(s: seq<byte>, rest: seq<byte>)
    requires ValueChars(rest)
    ensures ValueChars(Escaped(s) + rest)
  {
    if s == [] {
      assert Escaped(s) + rest == rest;
    } else {
      var n := |s| - 1;
      EncodedValueChars(s[n], rest);
      EscapedThenValueChars(s[..n], Encoded(s[n]) + rest);
      EscapedSplit(s, rest);
    }
  }

  /** The encoding is always a legal extended parameter value. */
  lemma EscapedIsValueChars(s: seq<byte>)
    ensures ValueChars(Escaped(s))
  {
    EscapedThenValueChars(s, []);
    assert Escaped(s) + [] == Escaped(s);
  }
}
