/**
Percent encoding and string splitting (src/common/util/Escape.cc; sections 2.1 and 2.3 of
RFC 3986). A C++ string is a sequence of bytes: characters below 256.
 */
module Escape {
  import opened Common

  ghost predicate IsBytes(s: string) {
    forall i :: 0 <= i < |s| ==> s[i] as int < 256
  }

  predicate IsUnreserved(c: char) {
    '0' <= c <= '9' || 'a' <= c <= 'z' || 'A' <= c <= 'Z' || c == '-' || c == '.' || c == '_' || c == '~'
  }

  predicate NeedEscape(c: char) {
    !IsUnreserved(c) && c !in "!$&()'*+,;=:@/"
  }

  function HexDigit(c: char): Option<nat> {
    if '0' <= c <= '9' then Some(c as int - '0' as int)
    else if 'A' <= c <= 'F' then Some(c as int - 'A' as int + 10)
    else if 'a' <= c <= 'f' then Some(c as int - 'a' as int + 10)
    else None
  }

  function FromHex(msb: char, lsb: char): Option<char> {
    var big, sml := HexDigit(msb), HexDigit(lsb);
    if big.Some? && sml.Some? then Some((big.value * 16 + sml.value) as char) else None
  }

  const HEX := "0123456789ABCDEF"

  function EncodeByte(c: char): string {
    if NeedEscape(c) then ['%', HEX[c as int / 16 % 16], HEX[c as int % 16]] else [c]
  }

  function Encode(s: string): string {
    if s == [] then [] else EncodeByte(s[0]) + Encode(s[1..])
  }

  // Decoding stops at the first malformed escape.
  function Decode(s: string): string {
    if s == [] then []
    else if s[0] != '%' then [s[0]] + Decode(s[1..])
    else if |s| >= 3 && FromHex(s[1], s[2]).Some? then [FromHex(s[1], s[2]).value] + Decode(s[3..])
    else []
  }

  method UrlEncode(input: string) returns (result: string)
    ensures result == Encode(input)
  {
    result := [];
    for i := 0 to |input|
      invariant result == Encode(input[..i])
    {
      result := PushEncoded(result, input[i]);
      EncodeSnoc(input[..i], input[i]);
      assert input[..i + 1] == input[..i] + [input[i]];
    }
    assert input[..|input|] == input;
  }

  method PushEncoded(before: string, c: char) returns (result: string)
    ensures result == before + EncodeByte(c)
  {
    result := before;
    if NeedEscape(c) {
      var uc := c as int;
      result := result + ['%'];
      result := result + [HEX[uc / 16 % 16]];
      result := result + [HEX[uc % 16]];
    } else {
      result := result + [c];
    }
  }

  lemma EncodeSnoc(s: string, c: char)
    ensures Encode(s + [c]) == Encode(s) + EncodeByte(c)
  {
    EncodeConcat(s, [c]);
    assert Encode([c]) == EncodeByte(c) + [];
  }

  method UrlDecode(input: string) returns (result: string)
    ensures result == Decode(input)
  {
    result := [];
    var view := input;
    while view != []
      invariant result + Decode(view) == Decode(input)
      decreases |view|
    {
      if view[0] != '%' {
        result := result + [view[0]];
        view := view[1..];
      } else if |view| >= 3 {
        var ch := FromHex(view[1], view[2]);
        if ch.None? {
          break;
        }
        result := result + [ch.value];
        view := view[3..];
      } else {
        break;
      }
    }
  }

  // ------------------------------------------------------------------
  // Encoding and decoding are inverse; encoding respects slashes
  // ------------------------------------------------------------------

  lemma {:induction false} HexRoundTrip(c: char)
    requires c as int < 256
    ensures FromHex(HEX[c as int / 16 % 16], HEX[c as int % 16]) == Some(c)
  {
    HexDigitOf(c as int / 16 % 16);
    HexDigitOf(c as int % 16);
  }

  lemma HexDigitOf(n: nat)
    requires n < 16
    ensures HexDigit(HEX[n]) == Some(n)
  {}

  lemma {:induction false} DecodeEncode(s: string)
    requires IsBytes(s)
    ensures Decode(Encode(s)) == s
  {
    if s != [] {
      DecodeEncode(s[1..]);
      var e := Encode(s);
      if NeedEscape(s[0]) {
        HexRoundTrip(s[0]);
        assert e[3..] == Encode(s[1..]);
      } else {
        assert e[1..] == Encode(s[1..]);
      }
    }
  }

  lemma Associate<T>(a: seq<T>, b: seq<T>, c: seq<T>)
    ensures (a + b) + c == a + (b + c)
  {}

  lemma {:induction false} EncodeConcat(a: string, b: string)
    ensures Encode(a + b) == Encode(a) + Encode(b)
  {
    if a == [] {
      assert a + b == b;
    } else {
      EncodeConcat(a[1..], b);
      assert (a + b)[0] == a[0] && (a + b)[1..] == a[1..] + b;
      Associate(EncodeByte(a[0]), Encode(a[1..]), Encode(b));
    }
  }

  lemma EncodeByteChars(c: char)
    ensures forall i :: 0 <= i < |EncodeByte(c)| ==> EncodeByte(c)[i] != '?' && EncodeByte(c)[i] != '#'
    ensures '/' in EncodeByte(c) <==> c == '/'
    ensures '%' in EncodeByte(c) <==> NeedEscape(c)
    ensures EncodeByte(c) != [] && (EncodeByte(c)[0] == '/' <==> c == '/')
    ensures EncodeByte(c)[|EncodeByte(c)| - 1] == '/' <==> c == '/'
  {
    HexChar(c as int / 16 % 16);
    HexChar(c as int % 16);
  }

  lemma HexChar(n: nat)
    requires n < 16
    ensures HEX[n] != '?' && HEX[n] != '#' && HEX[n] != '/' && HEX[n] != '%'
  {}

  // Encoding introduces no delimiter, and a slash only for a slash.
  lemma {:induction false} EncodeNoDelimiters(s: string, i: nat)
    requires i < |Encode(s)|
    ensures Encode(s)[i] != '?' && Encode(s)[i] != '#'
  {
    EncodeByteChars(s[0]);
    var n := |EncodeByte(s[0])|;
    if i < n {
      assert Encode(s)[i] == EncodeByte(s[0])[i];
    } else {
      assert Encode(s)[i] == Encode(s[1..])[i - n];
      EncodeNoDelimiters(s[1..], i - n);
    }
  }

  lemma {:induction false} EncodeSlashes(s: string)
    ensures '/' in Encode(s) <==> '/' in s
  {
    if s != [] {
      EncodeSlashes(s[1..]);
      EncodeByteChars(s[0]);
      InConcat([s[0]], s[1..], '/');
      InConcat(EncodeByte(s[0]), Encode(s[1..]), '/');
      assert s == [s[0]] + s[1..];
    }
  }

  lemma InConcat<T>(a: seq<T>, b: seq<T>, x: T)
    ensures x in a + b <==> x in a || x in b
  {}

  // Text without a percent sign was not changed.
  lemma {:induction false} EncodedPlain(s: string)
    requires '%' !in Encode(s)
    ensures Encode(s) == s
  {
    if s != [] {
      EncodeByteChars(s[0]);
      InConcat(EncodeByte(s[0]), Encode(s[1..]), '%');
      EncodedPlain(s[1..]);
    }
  }

  lemma {:induction false} EncodeUnescaped(s: string)
    requires forall i :: 0 <= i < |s| ==> !NeedEscape(s[i])
    ensures Encode(s) == s
  {
    if s != [] {
      EncodeUnescaped(s[1..]);
    }
  }

  // ------------------------------------------------------------------
  // What an escaped text stands for
  // ------------------------------------------------------------------

  const UPPER := "0123456789ABCDEF"
  const LOWER := "0123456789abcdef"

  // c is a hexadecimal digit of either case with value n.
  predicate Digit(c: char, n: nat) { n < 16 && (c == UPPER[n] || c == LOWER[n]) }

  ghost predicate IsDigit(c: char) { exists n :: Digit(c, n) }

  // A byte is written plainly, unless it is a percent sign, or as a percent sign and its two digits.
  predicate Writes(piece: string, c: char) {
    || (piece == [c] && c != '%')
    || (|piece| == 3 && piece[0] == '%' && Digit(piece[1], c as int / 16) && Digit(piece[2], c as int % 16))
  }

  predicate WritesAll(pieces: seq<string>, bytes: string) {
    |pieces| == |bytes| && forall i :: 0 <= i < |bytes| ==> Writes(pieces[i], bytes[i])
  }

  function Joined(pieces: seq<string>): string {
    if pieces == [] then "" else pieces[0] + Joined(pieces[1..])
  }

  // An escape without its two digits.
  ghost predicate Malformed(text: string) {
    text != "" && text[0] == '%' && !(|text| >= 3 && IsDigit(text[1]) && IsDigit(text[2]))
  }

  lemma HexDigitIs(c: char, n: nat)
    ensures HexDigit(c) == Some(n) <==> Digit(c, n)
  {
    if n < 16 {
      HexDigitOf(n);
      assert LOWER[n] as int == if n < 10 then '0' as int + n else 'a' as int + n - 10;
      assert UPPER[n] as int == if n < 10 then '0' as int + n else 'A' as int + n - 10;
    }
  }

  lemma HexDigitExists(c: char)
    ensures HexDigit(c).Some? <==> IsDigit(c)
  {
    if HexDigit(c).Some? {
      HexDigitIs(c, HexDigit(c).value);
    }
    if IsDigit(c) {
      var n :| Digit(c, n);
      HexDigitIs(c, n);
    }
  }

  lemma DecodePiece(piece: string, c: char, rest: string)
    requires Writes(piece, c) && c as int < 256
    ensures Decode(piece + rest) == [c] + Decode(rest)
  {
    if |piece| == 3 {
      HexDigitIs(piece[1], c as int / 16);
      HexDigitIs(piece[2], c as int % 16);
      assert (piece + rest)[3..] == rest;
    } else {
      assert (piece + rest)[1..] == rest;
    }
  }

  // Whatever bytes a text writes, in escapes of either case or plainly, decoding gives them back;
  // and a malformed escape ends the text.
  lemma {:induction false} DecodesWriting(pieces: seq<string>, bytes: string, rest: string)
    requires WritesAll(pieces, bytes) && IsBytes(bytes) && (rest == "" || Malformed(rest))
    ensures Decode(Joined(pieces) + rest) == bytes
  {
    if pieces == [] {
      assert Joined(pieces) + rest == rest;
      if rest != "" && |rest| >= 3 {
        HexDigitExists(rest[1]);
        HexDigitExists(rest[2]);
      }
    } else {
      DecodesWriting(pieces[1..], bytes[1..], rest);
      Associate(pieces[0], Joined(pieces[1..]), rest);
      DecodePiece(pieces[0], bytes[0], Joined(pieces[1..]) + rest);
    }
  }

  // Every text writes some bytes, up to its end or to its first malformed escape.
  lemma {:induction false} EveryTextWrites(text: string) returns (pieces: seq<string>, bytes: string, rest: string)
    requires IsBytes(text)
    ensures text == Joined(pieces) + rest && WritesAll(pieces, bytes) && IsBytes(bytes) && (rest == "" || Malformed(rest))
    decreases |text|
  {
    if text == "" || Malformed(text) {
      pieces, bytes, rest := [], "", text;
    } else {
      var k := if text[0] == '%' then 3 else 1;
      var more, tail;
      more, tail, rest := EveryTextWrites(text[k..]);
      var c := WrittenByte(text[..k]);
      pieces, bytes := [text[..k]] + more, [c] + tail;
      Associate(text[..k], Joined(more), rest);
      assert text == text[..k] + text[k..];
    }
  }

  lemma WrittenByte(piece: string) returns (c: char)
    requires IsBytes(piece)
    requires (|piece| == 1 && piece[0] != '%') || (|piece| == 3 && piece[0] == '%' && IsDigit(piece[1]) && IsDigit(piece[2]))
    ensures Writes(piece, c) && c as int < 256
  {
    if |piece| == 1 {
      c := piece[0];
    } else {
      var m: nat :| Digit(piece[1], m);
      var n: nat :| Digit(piece[2], n);
      TwoDigits(m, n);
      c := (16 * m + n) as char;
    }
  }

  lemma TwoDigits(m: nat, n: nat)
    requires m < 16 && n < 16
    ensures 16 * m + n < 256 && (16 * m + n) / 16 == m && (16 * m + n) % 16 == n
  {}

  // The bytes that stand for themselves in a path: the unreserved ones of section 2.3 of RFC 3986,
  // the sub-delims of section 2.2, and the colon, at sign and slash of section 3.3.
  predicate PathByte(c: char) {
    || 'A' <= c <= 'Z' || 'a' <= c <= 'z' || '0' <= c <= '9' || c in "-._~"
    || c in "!$&'()*+,;=" || c == ':' || c == '@' || c == '/'
  }

  function Standard(c: char): string
    requires c as int < 256
  {
    if PathByte(c) then [c] else ['%', UPPER[c as int / 16], UPPER[c as int % 16]]
  }

  // Encoding goes byte by byte and escapes exactly the other bytes, in upper-case digits.
  lemma {:induction false} EncodesStandard(s: string, c: char)
    requires c as int < 256
    ensures Encode("") == "" && Encode(s + [c]) == Encode(s) + Standard(c)
  {
    EncodeSnoc(s, c);
    EncodeByteIsStandard(c);
  }

  lemma EncodeByteIsStandard(c: char)
    requires c as int < 256
    ensures EncodeByte(c) == Standard(c)
  {
    EscapedIffNotPath(c);
    SmallDigits(c as int);
    assert HEX == UPPER;
  }

  lemma SmallDigits(n: nat)
    requires n < 256
    ensures n / 16 % 16 == n / 16 < 16
  {}

  lemma EscapedIffNotPath(c: char)
    ensures NeedEscape(c) <==> !PathByte(c)
  {}

  // ------------------------------------------------------------------
  // Splitting
  // ------------------------------------------------------------------

  // find_first_of(): the length of the string when nothing is found.
  function FirstOf(s: string, value: string): (k: nat)
    ensures k <= |s| && (k < |s| ==> s[k] in value) && forall i :: 0 <= i < k ==> s[i] !in value
  {
    if s == [] || s[0] in value then 0 else 1 + FirstOf(s[1..], value)
  }

  // find_last_of(): one past the last match, or 0.
  function AfterLastOf(s: string, value: string): (k: nat)
    ensures k <= |s| && (k > 0 ==> s[k - 1] in value) && forall i :: k <= i < |s| ==> s[i] !in value
  {
    if s == [] then 0 else if s[|s| - 1] in value then |s| else AfterLastOf(s[..|s| - 1], value)
  }

  // The view that split_left() leaves behind.
  function RestAfter(s: string, value: string): string {
    var k := FirstOf(s, value);
    if k < |s| then s[k + 1..] else []
  }

  function Match(s: string, k: nat): char { if k < |s| then s[k] else '\0' }

  method SplitLeft(input: string, value: string) returns (field: string, sep: char, rest: string)
    ensures field == input[..FirstOf(input, value)] && rest == RestAfter(input, value)
    ensures sep == Match(input, FirstOf(input, value))
  {
    var location := 0;
    while location < |input| && input[location] !in value
      invariant 0 <= location <= |input| && forall i :: 0 <= i < location ==> input[i] !in value
    {
      location := location + 1;
    }
    FirstOfIs(input, value, location);
    field := input[..location];
    rest := input[location..];
    sep := '\0';
    if location < |input| {
      sep := rest[0];
      rest := rest[1..];
    }
  }

  method SplitRight(input: string, value: string) returns (field: string, sep: char, rest: string)
    ensures field == input[AfterLastOf(input, value)..]
    ensures rest == if AfterLastOf(input, value) == 0 then [] else input[..AfterLastOf(input, value) - 1]
    ensures sep == if AfterLastOf(input, value) == 0 then '\0' else input[AfterLastOf(input, value) - 1]
  {
    var location := |input|;
    while location > 0 && input[location - 1] !in value
      invariant 0 <= location <= |input| && forall i :: location <= i < |input| ==> input[i] !in value
    {
      location := location - 1;
    }
    LastOfIs(input, value, location);
    if location > 0 {
      field, rest, sep := input[location..], input[..location - 1], input[location - 1];
    } else {
      field, rest, sep := input, [], '\0';
    }
  }

  // Both positions are determined by what they promise.
  lemma FirstOfIs(s: string, value: string, k: nat)
    requires k <= |s| && (k < |s| ==> s[k] in value) && forall i :: 0 <= i < k ==> s[i] !in value
    ensures FirstOf(s, value) == k
  {}

  lemma LastOfIs(s: string, value: string, k: nat)
    requires k <= |s| && (k > 0 ==> s[k - 1] in value) && forall i :: k <= i < |s| ==> s[i] !in value
    ensures AfterLastOf(s, value) == k
  {}
}
