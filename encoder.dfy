/** The query-string encoder of the tracking agent: a per-character
    percent-encoder in the application/x-www-form-urlencoded style of
    section 17.13.4.1 of HTML 4.01, with the `%XX` groups of section 2.1 of
    RFC 3986 (upper-case hexadecimal, one group per byte). */
module Encoder {
  import opened JavaLang

  type byte = b: int | 0 <= b < 256

  /** The platform's default character encoding, as `String.getBytes()`
      applies it to a one-character string. */
  type Charset = char -> seq<byte>

  const HexDigits: string := "0123456789ABCDEF"

  /** The characters copied unchanged: letters, digits and `.-*_`. */
  predicate IsUnreserved(c: char) {
    || ('a' <= c <= 'z')
    || ('A' <= c <= 'Z')
    || ('0' <= c <= '9')
    || c == '.' || c == '-' || c == '*' || c == '_'
  }

  /** The characters an encoded string may contain. */
  predicate IsEncodedChar(c: char) {
    IsUnreserved(c) || c == '+' || c == '%'
  }

  predicate IsUpperHex(c: char) {
    ('0' <= c <= '9') || ('A' <= c <= 'F')
  }

  function HexValue(c: char): (n: int)
    requires IsUpperHex(c)
    ensures 0 <= n < 16
  {
    if c <= '9' then c as int - '0' as int else c as int - 'A' as int + 10
  }

  /** `digits.charAt(n)` for a nibble `n`. */
  function HexDigit(n: int): (c: char)
    requires 0 <= n < 16
    ensures IsUpperHex(c) && IsUnreserved(c)
    ensures HexValue(c) == n
  {
    HexDigits[n]
  }

  /** `%` and two upper-case hex digits for one byte. Java's bytes are
      signed, but `(b & 0xf0) >> 4` and `b & 0xf` keep only the two nibbles
      of the unsigned value, which is what `b / 16` and `b % 16` are here. */
  function PercentGroup(b: byte): string {
    ['%', HexDigit(b / 16), HexDigit(b % 16)]
  }

  /** One `%XX` group per byte, in order. */
  function PercentGroups(bs: seq<byte>): (r: string)
    ensures |r| == 3 * |bs|
  {
    if bs == [] then [] else PercentGroup(bs[0]) + PercentGroups(bs[1..])
  }

  /** The groups consist of `%` and upper-case hexadecimal digits only. */
  lemma {:induction false} PercentGroupsAlphabet(bs: seq<byte>)
    ensures forall i :: 0 <= i < |PercentGroups(bs)| ==> PercentGroups(bs)[i] == '%' || IsUpperHex(PercentGroups(bs)[i])
  {
    if bs != [] {
      PercentGroupsAlphabet(bs[1..]);
      var g, rest := PercentGroup(bs[0]), PercentGroups(bs[1..]);
      assert PercentGroups(bs) == g + rest;
      forall i | 0 <= i < |g + rest|
        ensures (g + rest)[i] == '%' || IsUpperHex((g + rest)[i])
      {
        if i >= |g| {
          assert (g + rest)[i] == rest[i - |g|];
        }
      }
    }
  }

  /** The encoding of one character. */
  function EncodeChar(cs: Charset, c: char): (r: string)
    ensures r == [c] <==> IsUnreserved(c)
    ensures |r| == if IsUnreserved(c) || c == ' ' then 1 else 3 * |cs(c)|
  {
    if IsUnreserved(c) then [c]
    else if c == ' ' then "+"
    else PercentGroups(cs(c))
  }

  /** `GoogleAnalytics.encode`: the characters encoded one by one, in order.
      A string of unreserved characters is its own encoding, and encoding
      never shortens a string whose characters all have bytes. */
  function Encode(cs: Charset, s: string): (r: string)
    ensures AllUnreserved(s) ==> r == s
    ensures (forall i :: 0 <= i < |s| ==> |cs(s[i])| >= 1) ==> |r| >= |s|
  {
    if s == [] then [] else EncodeChar(cs, s[0]) + Encode(cs, s[1..])
  }

  /** Whatever the charset, an encoded string uses only unreserved
      characters, `+` and `%`. */
  lemma {:induction false} EncodeAlphabet(cs: Charset, s: string)
    ensures forall i :: 0 <= i < |Encode(cs, s)| ==> IsEncodedChar(Encode(cs, s)[i])
  {
    if s != [] {
      EncodeAlphabet(cs, s[1..]);
      var head, rest := EncodeChar(cs, s[0]), Encode(cs, s[1..]);
      if !IsUnreserved(s[0]) && s[0] != ' ' {
        PercentGroupsAlphabet(cs(s[0]));
      }
      assert Encode(cs, s) == head + rest;
      forall i | 0 <= i < |head + rest|
        ensures IsEncodedChar((head + rest)[i])
      {
        if i >= |head| {
          assert (head + rest)[i] == rest[i - |head|];
        }
      }
    }
  }

  /** Encoding distributes over concatenation. */
  lemma {:induction false} EncodeAppend(cs: Charset, a: string, b: string)
    ensures Encode(cs, a + b) == Encode(cs, a) + Encode(cs, b)
  {
    if a != [] {
      calc {
        Encode(cs, a + b);
        { assert (a + b)[0] == a[0] && (a + b)[1..] == a[1..] + b; }
        EncodeChar(cs, a[0]) + Encode(cs, a[1..] + b);
        { EncodeAppend(cs, a[1..], b); }
        EncodeChar(cs, a[0]) + (Encode(cs, a[1..]) + Encode(cs, b));
      }
    } else {
      assert a + b == b;
    }
  }

  predicate AllUnreserved(s: string) {
    forall i :: 0 <= i < |s| ==> IsUnreserved(s[i])
  }

  lemma AllUnreservedAppend(a: string, b: string)
    requires AllUnreserved(a) && AllUnreserved(b)
    ensures AllUnreserved(a + b)
  {
  }

  lemma {:induction false} ConcatUnreserved(pieces: seq<string>)
    requires forall i :: 0 <= i < |pieces| ==> AllUnreserved(pieces[i])
    ensures AllUnreserved(Concat(pieces))
  {
    if pieces != [] {
      ConcatUnreserved(pieces[1..]);
      AllUnreservedAppend(pieces[0], Concat(pieces[1..]));
    }
  }

  /** A character that is neither unreserved nor a space is encoded as the
      `%XX` groups of its bytes, alone. */
  lemma EncodeEscapedChar(cs: Charset, c: char)
    requires !IsUnreserved(c) && c != ' '
    ensures Encode(cs, [c]) == PercentGroups(cs(c))
  {
    assert Encode(cs, [c]) == EncodeChar(cs, c) + Encode(cs, []);
  }

  /** Between two runs of unreserved characters, only the one escaped
      character changes. */
  lemma EncodeOneEscaped(cs: Charset, a: string, c: char, b: string)
    requires AllUnreserved(a) && AllUnreserved(b) && !IsUnreserved(c) && c != ' '
    ensures Encode(cs, a + [c] + b) == a + PercentGroups(cs(c)) + b
  {
    EncodeAppend(cs, a + [c], b);
    EncodeAppend(cs, a, [c]);
    EncodeEscapedChar(cs, c);
  }

  /** `encode` as the source writes it: a loop over the characters that
      appends to a buffer, with an inner loop over the bytes of each
      character that is neither unreserved nor a space. */
  method EncodeString(cs: Charset, s: string) returns (buf: string)
    ensures buf == Encode(cs, s)
  {
    buf := [];
    var i := 0;
    while i < |s|
      invariant 0 <= i <= |s|
      invariant buf == Encode(cs, s[..i])
    {
      var ch := s[i];
      var piece: string;
      if IsUnreserved(ch) {
        piece := [ch];
      } else if ch == ' ' {
        piece := ['+'];
      } else {
        var bytes := cs(ch);
        piece := [];
        var j := 0;
        while j < |bytes|
          invariant 0 <= j <= |bytes|
          invariant piece == PercentGroups(bytes[..j])
        {
          AppendPercentGroup(bytes[..j], bytes[j]);
          assert bytes[..j + 1] == bytes[..j] + [bytes[j]];
          piece := piece + ['%', HexDigits[bytes[j] / 16], HexDigits[bytes[j] % 16]];
          j := j + 1;
        }
        assert bytes[..j] == bytes;
      }
      EncodeStep(cs, s, i, piece);
      buf := buf + piece;
      i := i + 1;
    }
    assert s[..i] == s;
  }

  lemma AppendPercentGroup(bs: seq<byte>, b: byte)
    ensures PercentGroups(bs + [b]) == PercentGroups(bs) + ['%', HexDigits[b / 16], HexDigits[b % 16]]
  {
    PercentGroupsAppend(bs, [b]);
    assert PercentGroups([b]) == PercentGroup(b) + PercentGroups([]);
  }

  lemma EncodeStep(cs: Charset, s: string, i: nat, piece: string)
    requires i < |s| && piece == EncodeChar(cs, s[i])
    ensures Encode(cs, s[..i + 1]) == Encode(cs, s[..i]) + piece
  {
    var prefix, c := s[..i], s[i];
    assert s[..i + 1] == prefix + [c];
    EncodeAppendChar(cs, prefix, c);
  }

  lemma EncodeAppendChar(cs: Charset, s: string, c: char)
    ensures Encode(cs, s + [c]) == Encode(cs, s) + EncodeChar(cs, c)
  {
    EncodeAppend(cs, s, [c]);
    assert Encode(cs, [c]) == EncodeChar(cs, c) + Encode(cs, []);
  }

  lemma {:induction false} PercentGroupsAppend(a: seq<byte>, b: seq<byte>)
    ensures PercentGroups(a + b) == PercentGroups(a) + PercentGroups(b)
  {
    if a != [] {
      calc {
        PercentGroups(a + b);
        { assert (a + b)[0] == a[0] && (a + b)[1..] == a[1..] + b; }
        PercentGroup(a[0]) + PercentGroups(a[1..] + b);
        { PercentGroupsAppend(a[1..], b); }
        PercentGroup(a[0]) + (PercentGroups(a[1..]) + PercentGroups(b));
      }
    } else {
      assert a + b == b;
    }
  }

  // ---------------------------------------------------------------------
  // The collector's side: decoding an encoded string back to bytes.

  /** The bytes of a string in the given charset. */
  function Bytes(cs: Charset, s: string): seq<byte> {
    if s == [] then [] else cs(s[0]) + Bytes(cs, s[1..])
  }

  /** Every charset a Java ME device uses agrees with ASCII on the
      unreserved characters and on the space. */
  ghost predicate AsciiCompatible(cs: Charset) {
    forall c :: IsUnreserved(c) || c == ' ' ==> cs(c) == [c as int as byte]
  }

  /** application/x-www-form-urlencoded decoding to bytes: `+` is a space,
      `%XX` one byte, an unreserved character its ASCII code; anything else
      is malformed. */
  function Decode(e: string): Option<seq<byte>> {
    if e == [] then Some([])
    else if e[0] == '+' then Prepend([' ' as int as byte], Decode(e[1..]))
    else if e[0] == '%' then
      if |e| >= 3 && IsUpperHex(e[1]) && IsUpperHex(e[2])
      then Prepend([16 * HexValue(e[1]) + HexValue(e[2])], Decode(e[3..]))
      else None
    else if IsUnreserved(e[0]) && (e[0] as int) < 128 then Prepend([e[0] as int as byte], Decode(e[1..]))
    else None
  }

  function Prepend(bs: seq<byte>, rest: Option<seq<byte>>): Option<seq<byte>> {
    match rest
    case Some(t) => Some(bs + t)
    case None => None
  }

  lemma DecodePercentGroup(b: byte, rest: string)
    ensures Decode(PercentGroup(b) + rest) == Prepend([b], Decode(rest))
  {
    var e := PercentGroup(b) + rest;
    assert e[0] == '%' && e[1] == HexDigit(b / 16) && e[2] == HexDigit(b % 16);
    assert e[3..] == rest;
  }

  lemma {:induction false} DecodePercentGroups(bs: seq<byte>, tail: string)
    ensures Decode(PercentGroups(bs) + tail) == Prepend(bs, Decode(tail))
  {
    if bs == [] {
      assert PercentGroups(bs) + tail == tail;
      PrependNothing(Decode(tail));
    } else {
      var b, rest := bs[0], PercentGroups(bs[1..]) + tail;
      assert PercentGroups(bs) + tail == PercentGroup(b) + rest;
      DecodePercentGroup(b, rest);
      DecodePercentGroups(bs[1..], tail);
      PrependTwice([b], bs[1..], Decode(tail));
      assert [b] + bs[1..] == bs;
    }
  }

  lemma PrependNothing(d: Option<seq<byte>>)
    ensures Prepend([], d) == d
  {
    if d.Some? {
      assert [] + d.value == d.value;
    }
  }

  lemma PrependTwice(x: seq<byte>, y: seq<byte>, d: Option<seq<byte>>)
    ensures Prepend(x, Prepend(y, d)) == Prepend(x + y, d)
  {
    if d.Some? {
      assert x + (y + d.value) == (x + y) + d.value;
    }
  }

  lemma DecodeEncodeChar(cs: Charset, c: char, tail: string)
    requires AsciiCompatible(cs)
    ensures Decode(EncodeChar(cs, c) + tail) == Prepend(cs(c), Decode(tail))
  {
    var e := EncodeChar(cs, c) + tail;
    if IsUnreserved(c) || c == ' ' {
      assert cs(c) == [c as int as byte];
      assert e[0] == (if c == ' ' then '+' else c) && e[1..] == tail;
    } else {
      DecodePercentGroups(cs(c), tail);
    }
  }

  /** Decoding the encoding of a string gives back the string's bytes: the
      encoder loses nothing. */
  lemma {:induction false} DecodeEncode(cs: Charset, s: string)
    requires AsciiCompatible(cs)
    ensures Decode(Encode(cs, s)) == Some(Bytes(cs, s))
  {
    if s != [] {
      DecodeEncode(cs, s[1..]);
      DecodeEncodeChar(cs, s[0], Encode(cs, s[1..]));
    }
  }
}
