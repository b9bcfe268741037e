/** ECMAScript `encodeURIComponent`: every character outside the unreserved
    set is written as the `%XX` escapes (upper-case hex) of its UTF-8 bytes,
    the percent-encoding of section 2.1 of RFC 3986. `Decode` is an inverse,
    used to state that the encoding is lossless. */
module UriComponent {
  import opened Wrappers

  type Byte = b: int | 0 <= b < 0x100

  /** Letters, digits and `-_.!~*'()`: the characters the encoder leaves as they are. */
  predicate Unreserved(c: char) {
    || ('A' <= c <= 'Z') || ('a' <= c <= 'z') || ('0' <= c <= '9')
    || c == '-' || c == '_' || c == '.' || c == '!' || c == '~' || c == '*' || c == '\'' || c == '(' || c == ')'
  }

  /** The characters that end a URL path segment. */
  predicate Delimiter(c: char) {
    c == '/' || c == '?' || c == '#'
  }

  /** The characters an encoded component may contain. */
  predicate EncodedChar(c: char) {
    Unreserved(c) || c == '%'
  }

  /** The digits an escape is written with: upper-case hex only. */
  predicate UpperHex(c: char) {
    ('0' <= c <= '9') || ('A' <= c <= 'F')
  }

  /** Every `%` in `e` starts an escape of two upper-case hex digits. */
  predicate WellEscaped(e: string) {
    forall i :: 0 <= i < |e| && e[i] == '%' ==> i + 2 < |e| && UpperHex(e[i + 1]) && UpperHex(e[i + 2])
  }

  lemma WellEscapedAppend(a: string, b: string)
    requires WellEscaped(a) && WellEscaped(b)
    ensures WellEscaped(a + b)
  {
    var e := a + b;
    forall i | 0 <= i < |e| && e[i] == '%'
      ensures i + 2 < |e| && UpperHex(e[i + 1]) && UpperHex(e[i + 2])
    {
      if i < |a| {
        assert a[i] == '%';
      } else {
        assert b[i - |a|] == '%';
      }
    }
  }

  /** The UTF-8 encoding of one Unicode scalar value. */
  function Utf8(c: char): (bs: seq<Byte>)
    ensures 1 <= |bs| <= 4
    ensures (|bs| == 1) == (c as int < 0x80)
  {
    var cp := c as int;
    if cp < 0x80 then [cp]
    else if cp < 0x800 then [0xC0 + cp / 0x40, 0x80 + cp % 0x40]
    else if cp < 0x10000 then [0xE0 + cp / 0x1000, 0x80 + cp / 0x40 % 0x40, 0x80 + cp % 0x40]
    else [0xF0 + cp / 0x40000, 0x80 + cp / 0x1000 % 0x40, 0x80 + cp / 0x40 % 0x40, 0x80 + cp % 0x40]
  }

  function HexDigit(d: int): (c: char)
    requires 0 <= d < 16
    ensures Unreserved(c) && UpperHex(c) && HexValue(c) == Some(d)
  {
    if d < 10 then ('0' as int + d) as char else ('A' as int + d - 10) as char
  }

  /** The value of a hex digit of either case. */
  function HexValue(c: char): (r: Option<int>)
    ensures r.Some? ==> 0 <= r.value < 16
  {
    if '0' <= c <= '9' then Some(c as int - '0' as int)
    else if 'A' <= c <= 'F' then Some(c as int - 'A' as int + 10)
    else if 'a' <= c <= 'f' then Some(c as int - 'a' as int + 10)
    else None
  }

  function PercentByte(b: Byte): (s: string)
    ensures |s| == 3 && s[0] == '%' && Unreserved(s[1]) && Unreserved(s[2])
    ensures UpperHex(s[1]) && UpperHex(s[2])
  {
    ['%', HexDigit(b / 16), HexDigit(b % 16)]
  }

  function PercentBytes(bs: seq<Byte>): (s: string)
    ensures |s| == 3 * |bs|
    ensures forall i :: 0 <= i < |s| ==> EncodedChar(s[i])
    ensures WellEscaped(s)
  {
    if bs == [] then []
    else
      var head, tail := PercentByte(bs[0]), PercentBytes(bs[1..]);
      WellEscapedAppend(head, tail);
      head + tail
  }

  function EncodeChar(c: char): (s: string)
    ensures 1 <= |s| <= 12
    ensures forall i :: 0 <= i < |s| ==> EncodedChar(s[i])
    ensures WellEscaped(s)
  {
    if Unreserved(c) then [c] else PercentBytes(Utf8(c))
  }

  /** `encodeURIComponent(s)` for a string of Unicode scalar values: only
      unreserved characters and escapes of two upper-case hex digits. */
  function Encode(s: string): (e: string)
    ensures forall i :: 0 <= i < |e| ==> EncodedChar(e[i])
    ensures WellEscaped(e)
    ensures |s| <= |e| <= 12 * |s|
  {
    if s == [] then []
    else
      var head, tail := EncodeChar(s[0]), Encode(s[1..]);
      WellEscapedAppend(head, tail);
      head + tail
  }

  /** The byte written as `%XY` at position `i` of `e`. */
  function ByteAt(e: string, i: nat): (r: Option<Byte>)
    ensures r.Some? ==> i + 3 <= |e|
  {
    if i + 3 <= |e| && e[i] == '%' then
      match (HexValue(e[i + 1]), HexValue(e[i + 2]))
      case (Some(h), Some(l)) => Some(h * 16 + l)
      case _ => None
    else None
  }

  /** The six payload bits of a UTF-8 continuation byte escaped at position `i`. */
  function ContinuationAt(e: string, i: nat): (r: Option<int>)
    ensures r.Some? ==> i + 3 <= |e| && 0 <= r.value < 0x40
  {
    match ByteAt(e, i)
    case Some(b) => if 0x80 <= b < 0xC0 then Some(b - 0x80) else None
    case None => None
  }

  /** The character `cp` names, paired with the length of its escapes, when
      `cp` is a scalar value that needs that many UTF-8 bytes. */
  function ScalarOf(cp: int, least: int, width: nat): (r: Option<(char, nat)>)
    ensures r.Some? ==> r.value.1 == width && r.value.0 as int == cp
  {
    if 0 <= cp && least <= cp < 0x110000 && !(0xD800 <= cp < 0xE000) then Some((cp as char, width)) else None
  }

  /** Decodes the escaped UTF-8 sequence at the start of `e`: the character
      and the number of characters of `e` it occupies. */
  function SequenceAt(e: string): (r: Option<(char, nat)>)
    ensures r.Some? ==> 3 <= r.value.1 <= |e|
  {
    match ByteAt(e, 0)
    case None => None
    case Some(b0) =>
      if b0 < 0x80 then Some((b0 as char, 3))
      else if b0 < 0xC0 then None
      else if b0 < 0xE0 then
        match ContinuationAt(e, 3)
        case Some(c1) => ScalarOf((b0 - 0xC0) * 0x40 + c1, 0x80, 6)
        case None => None
      else if b0 < 0xF0 then
        match (ContinuationAt(e, 3), ContinuationAt(e, 6))
        case (Some(c1), Some(c2)) => ScalarOf((b0 - 0xE0) * 0x1000 + c1 * 0x40 + c2, 0x800, 9)
        case _ => None
      else if b0 < 0xF8 then
        match (ContinuationAt(e, 3), ContinuationAt(e, 6), ContinuationAt(e, 9))
        case (Some(c1), Some(c2), Some(c3)) =>
          ScalarOf((b0 - 0xF0) * 0x40000 + c1 * 0x1000 + c2 * 0x40 + c3, 0x10000, 12)
        case _ => None
      else None
  }

  function Prepend(c: char, rest: Option<string>): Option<string> {
    match rest
    case Some(t) => Some([c] + t)
    case None => None
  }

  /** Undoes percent-encoding; `None` for a malformed escape. */
  function Decode(e: string): Option<string>
    decreases |e|
  {
    if e == [] then Some([])
    else if e[0] != '%' then Prepend(e[0], Decode(e[1..]))
    else
      match SequenceAt(e)
      case Some((c, n)) => Prepend(c, Decode(e[n..]))
      case None => None
  }

  /** The `k`-th escape of `PercentBytes(bs)` is that of `bs[k]`. */
  lemma {:induction false} PercentBytesAt(bs: seq<Byte>, k: nat)
    requires k < |bs|
    ensures PercentBytes(bs)[3 * k .. 3 * k + 3] == PercentByte(bs[k])
  {
    if k > 0 {
      PercentBytesAt(bs[1..], k - 1);
      SliceOfAppendRight(PercentByte(bs[0]), PercentBytes(bs[1..]), 3 * k, 3 * k + 3);
    }
  }

  lemma ByteAtPercentByte(e: string, i: nat, b: Byte)
    requires i + 3 <= |e| && e[i .. i + 3] == PercentByte(b)
    ensures ByteAt(e, i) == Some(b)
  {
    assert e[i] == '%' && e[i + 1] == HexDigit(b / 16) && e[i + 2] == HexDigit(b % 16);
  }

  /** The `k`-th escape of `PercentBytes(bs)` reads back as `bs[k]`. */
  lemma ByteAtPercentBytes(bs: seq<Byte>, rest: string, k: nat)
    requires k < |bs|
    ensures ByteAt(PercentBytes(bs) + rest, 3 * k) == Some(bs[k])
  {
    var e := PercentBytes(bs) + rest;
    PercentBytesAt(bs, k);
    SliceOfAppend(PercentBytes(bs), rest, 3 * k, 3 * k + 3);
    ByteAtPercentByte(e, 3 * k, bs[k]);
  }

  lemma SliceOfAppendRight(a: string, b: string, i: nat, j: nat)
    requires |a| <= i <= j <= |a| + |b|
    ensures (a + b)[i..j] == b[i - |a| .. j - |a|]
  {
  }

  lemma SliceOfAppend(a: string, b: string, i: nat, j: nat)
    requires i <= j <= |a|
    ensures (a + b)[i..j] == a[i..j]
  {
  }

  lemma Recombine2(cp: int)
    requires 0 <= cp
    ensures (cp / 0x40) * 0x40 + cp % 0x40 == cp
  {
  }

  lemma Recombine3(cp: int)
    requires 0 <= cp
    ensures (cp / 0x1000) * 0x1000 + (cp / 0x40 % 0x40) * 0x40 + cp % 0x40 == cp
  {
    var q := cp / 0x40;
    Recombine2(cp);
    Recombine2(q);
    assert q / 0x40 == cp / 0x1000;
  }

  lemma Recombine4(cp: int)
    requires 0 <= cp
    ensures (cp / 0x40000) * 0x40000 + (cp / 0x1000 % 0x40) * 0x1000 + (cp / 0x40 % 0x40) * 0x40 + cp % 0x40 == cp
  {
    var q := cp / 0x1000;
    Recombine3(cp);
    Recombine2(q);
    assert q / 0x40 == cp / 0x40000;
  }

  lemma ContinuationOf(e: string, i: nat, bits: int)
    requires 0 <= bits < 0x40 && ByteAt(e, i) == Some(0x80 + bits)
    ensures ContinuationAt(e, i) == Some(bits)
  {
  }

  lemma ScalarOfChar(c: char, least: int, width: nat)
    requires least <= c as int
    ensures ScalarOf(c as int, least, width) == Some((c, width))
  {
  }

  lemma SequenceAtUtf8One(c: char, rest: string)
    requires c as int < 0x80
    ensures SequenceAt(PercentBytes(Utf8(c)) + rest) == Some((c, 3))
  {
    var e := PercentBytes(Utf8(c)) + rest;
    assert Utf8(c) == [c as int];
    ByteAtPercentBytes(Utf8(c), rest, 0);
    assert ByteAt(e, 0) == Some(c as int);
  }

  /** How `SequenceAt` reads a two-byte sequence, given its bytes. */
  lemma SequenceAtTwoBytes(e: string, b0: int, c1: int)
    requires 2 <= b0 < 0x20
    requires ByteAt(e, 0) == Some(0xC0 + b0)
    requires ContinuationAt(e, 3) == Some(c1)
    ensures SequenceAt(e) == ScalarOf(b0 * 0x40 + c1, 0x80, 6)
  {
  }

  lemma {:induction false} Utf8Two(c: char)
    requires 0x80 <= c as int < 0x800
    ensures Utf8(c) == [0xC0 + c as int / 0x40, 0x80 + c as int % 0x40]
  {
  }

  lemma SequenceAtUtf8Two(c: char, rest: string)
    requires 0x80 <= c as int < 0x800
    ensures SequenceAt(PercentBytes(Utf8(c)) + rest) == Some((c, 6))
  {
    var bs, cp := Utf8(c), c as int;
    var e := PercentBytes(bs) + rest;
    var b0, c1 := cp / 0x40, cp % 0x40;
    Utf8Two(c);
    ByteAtPercentBytes(bs, rest, 0);
    ByteAtPercentBytes(bs, rest, 1);
    ContinuationOf(e, 3, c1);
    SequenceAtTwoBytes(e, b0, c1);
    Recombine2(cp);
    ScalarOfChar(c, 0x80, 6);
  }

  /** How `SequenceAt` reads a three-byte sequence, given its bytes. */
  lemma SequenceAtThreeBytes(e: string, b0: int, c1: int, c2: int)
    requires 0 <= b0 < 0x10
    requires ByteAt(e, 0) == Some(0xE0 + b0)
    requires ContinuationAt(e, 3) == Some(c1)
    requires ContinuationAt(e, 6) == Some(c2)
    ensures SequenceAt(e) == ScalarOf(b0 * 0x1000 + c1 * 0x40 + c2, 0x800, 9)
  {
  }

  lemma {:induction false} Utf8Three(c: char)
    requires 0x800 <= c as int < 0x10000
    ensures Utf8(c) == [0xE0 + c as int / 0x1000, 0x80 + c as int / 0x40 % 0x40, 0x80 + c as int % 0x40]
  {
  }

  lemma SequenceAtUtf8Three(c: char, rest: string)
    requires 0x800 <= c as int < 0x10000
    ensures SequenceAt(PercentBytes(Utf8(c)) + rest) == Some((c, 9))
  {
    var bs, cp := Utf8(c), c as int;
    var e := PercentBytes(bs) + rest;
    var b0, c1, c2 := cp / 0x1000, cp / 0x40 % 0x40, cp % 0x40;
    Utf8Three(c);
    ByteAtPercentBytes(bs, rest, 0);
    ByteAtPercentBytes(bs, rest, 1);
    ByteAtPercentBytes(bs, rest, 2);
    ContinuationOf(e, 3, c1);
    ContinuationOf(e, 6, c2);
    SequenceAtThreeBytes(e, b0, c1, c2);
    Recombine3(cp);
    ScalarOfChar(c, 0x800, 9);
  }

  /** How `SequenceAt` reads a four-byte sequence, given its bytes. */
  lemma SequenceAtFourBytes(e: string, b0: int, c1: int, c2: int, c3: int)
    requires 0 <= b0 < 8
    requires ByteAt(e, 0) == Some(0xF0 + b0)
    requires ContinuationAt(e, 3) == Some(c1)
    requires ContinuationAt(e, 6) == Some(c2)
    requires ContinuationAt(e, 9) == Some(c3)
    ensures SequenceAt(e) == ScalarOf(b0 * 0x40000 + c1 * 0x1000 + c2 * 0x40 + c3, 0x10000, 12)
  {
  }

  lemma {:induction false} Utf8Four(c: char)
    requires 0x10000 <= c as int
    ensures c as int / 0x40000 < 8
    ensures Utf8(c) == [0xF0 + c as int / 0x40000, 0x80 + c as int / 0x1000 % 0x40,
                        0x80 + c as int / 0x40 % 0x40, 0x80 + c as int % 0x40]
  {
  }

  lemma SequenceAtUtf8Four(c: char, rest: string)
    requires 0x10000 <= c as int
    ensures SequenceAt(PercentBytes(Utf8(c)) + rest) == Some((c, 12))
  {
    var bs, cp := Utf8(c), c as int;
    var e := PercentBytes(bs) + rest;
    var b0, c1, c2, c3 := cp / 0x40000, cp / 0x1000 % 0x40, cp / 0x40 % 0x40, cp % 0x40;
    Utf8Four(c);
    ByteAtPercentBytes(bs, rest, 0);
    ByteAtPercentBytes(bs, rest, 1);
    ByteAtPercentBytes(bs, rest, 2);
    ByteAtPercentBytes(bs, rest, 3);
    ContinuationOf(e, 3, c1);
    ContinuationOf(e, 6, c2);
    ContinuationOf(e, 9, c3);
    SequenceAtFourBytes(e, b0, c1, c2, c3);
    Recombine4(cp);
    ScalarOfChar(c, 0x10000, 12);
  }

  /** The escapes of a character's UTF-8 bytes decode to that character. */
  lemma SequenceAtUtf8(c: char, rest: string)
    requires !Unreserved(c)
    ensures SequenceAt(PercentBytes(Utf8(c)) + rest) == Some((c, 3 * |Utf8(c)|))
  {
    var cp := c as int;
    if cp < 0x80 {
      SequenceAtUtf8One(c, rest);
    } else if cp < 0x800 {
      SequenceAtUtf8Two(c, rest);
    } else if cp < 0x10000 {
      SequenceAtUtf8Three(c, rest);
    } else {
      SequenceAtUtf8Four(c, rest);
    }
  }

  /** Decoding the encoding of one character yields that character and
      leaves the rest of the input to decode. */
  lemma DecodeEncodeChar(c: char, rest: string)
    ensures Decode(EncodeChar(c) + rest) == Prepend(c, Decode(rest))
  {
    var e := EncodeChar(c) + rest;
    if Unreserved(c) {
      assert e[1..] == rest;
    } else {
      var bs := Utf8(c);
      SequenceAtUtf8(c, rest);
      assert e[0] == '%';
      assert e[3 * |bs|..] == rest;
    }
  }

  /** Encoding loses nothing: decoding the encoded string gives it back. */
  lemma {:induction false} DecodeEncode(s: string)
    ensures Decode(Encode(s)) == Some(s)
  {
    if s != [] {
      DecodeEncodeChar(s[0], Encode(s[1..]));
      DecodeEncode(s[1..]);
      assert [s[0]] + s[1..] == s;
    }
  }

  /** Distinct strings have distinct encodings. */
  lemma EncodeInjective(s: string, t: string)
    ensures Encode(s) == Encode(t) <==> s == t
  {
    if Encode(s) == Encode(t) {
      DecodeEncode(s);
      DecodeEncode(t);
    }
  }

  /** A string of unreserved characters is its own encoding. */
  lemma {:induction false} EncodeUnreserved(s: string)
    requires forall i :: 0 <= i < |s| ==> Unreserved(s[i])
    ensures Encode(s) == s
  {
    if s != [] {
      EncodeUnreserved(s[1..]);
      assert [s[0]] + s[1..] == s;
    }
  }

  /** An encoded component never holds a path separator, a query start or a
      fragment start. */
  lemma EncodeHasNoDelimiters(s: string)
    ensures forall i :: 0 <= i < |Encode(s)| ==> !Delimiter(Encode(s)[i])
  {
  }

  lemma EncodeCons(c: char, s: string)
    ensures Encode([c] + s) == EncodeChar(c) + Encode(s)
  {
    assert ([c] + s)[1..] == s;
  }

  lemma EncodeHash()
    ensures EncodeChar('#') == "%23"
  {
    assert Utf8('#') == [0x23];
  }

  /** The example tag from the command registration: only the `#` is escaped.
      The tag is a parameter pinned by `requires` so that Dafny does not
      unroll `Encode` on the literal. */
  lemma EncodeExampleTag(tag: string)
    requires tag == "#2P0LYQ09V"
    ensures Encode(tag) == "%232P0LYQ09V"
  {
    var rest := tag[1..];
    assert tag == ['#'] + rest;
    assert forall i :: 0 <= i < |rest| ==> Unreserved(rest[i]);
    EncodeCons('#', rest);
    EncodeHash();
    EncodeUnreserved(rest);
  }

  /** A character outside ASCII: `é` (U+00E9) is the two UTF-8 bytes C3 A9,
      escaped with upper-case hex. The character is a parameter for the same
      reason as in `EncodeExampleTag`. */
  lemma EncodeNonAsciiExample(c: char)
    requires c == '\U{E9}'
    ensures Encode([c]) == "%C3%A9"
  {
    assert Utf8(c) == [0xC3, 0xA9];
    assert PercentByte(0xC3) == "%C3";
    assert PercentByte(0xA9) == "%A9";
    assert PercentBytes([0xA9]) == "%A9";
    assert EncodeChar(c) == "%C3%A9";
    EncodeCons(c, []);
  }
}
