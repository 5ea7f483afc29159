/**
 * The `application/x-www-form-urlencoded` serializer behind the browser's
 * `URLSearchParams.prototype.toString`: ASCII letters, digits and `*-._`
 * are kept, a space becomes `+`, and every other character becomes the
 * `%XX` escapes (upper-case hex) of its UTF-8 bytes.
 *
 * The client builds its fetch fingerprint from this encoding, so what
 * matters here is that the encoding is injective and never produces the
 * characters the fingerprint uses as delimiters.
 */
module FormUrl {
  import opened Text

  predicate Unreserved(c: char)
  {
    || ('a' <= c <= 'z') || ('A' <= c <= 'Z') || ('0' <= c <= '9')
    || c == '*' || c == '-' || c == '.' || c == '_'
  }

  /** The characters an encoded string is made of. */
  predicate EncodedChar(c: char) { Unreserved(c) || c == '+' || c == '%' }

  function HexDigit(d: int): (c: char)
    requires 0 <= d < 16
    ensures Unreserved(c)
  {
    if d < 10 then ('0' as int + d) as char else ('A' as int + d - 10) as char
  }

  predicate IsByteSeq(bs: seq<int>) { forall i :: 0 <= i < |bs| ==> 0 <= bs[i] < 256 }

  /** `%XX` for one byte. */
  function PercentByte(b: int): (r: string)
    requires 0 <= b < 256
    ensures |r| == 3 && r[0] == '%'
  {
    ['%', HexDigit(b / 16), HexDigit(b % 16)]
  }

  function Percent(bs: seq<int>): (r: string)
    requires IsByteSeq(bs)
    ensures |r| == 3 * |bs|
    ensures forall i :: 0 <= i < |r| ==> EncodedChar(r[i])
    decreases |bs|
  {
    if bs == [] then "" else PercentByte(bs[0]) + Percent(bs[1..])
  }

  /** The UTF-8 bytes of a code point. */
  function Utf8(cp: int): (bs: seq<int>)
    requires 0 <= cp < 0x11_0000
    ensures 1 <= |bs| <= 4 && IsByteSeq(bs)
  {
    var q1, r1 := cp / 64, cp % 64;
    var q2, r2 := q1 / 64, q1 % 64;
    var q3, r3 := q2 / 64, q2 % 64;
    if cp < 0x80 then [cp]
    else if cp < 0x800 then [0xC0 + q1, 0x80 + r1]
    else if cp < 0x1_0000 then [0xE0 + q2, 0x80 + r2, 0x80 + r1]
    else [0xF0 + q3, 0x80 + r3, 0x80 + r2, 0x80 + r1]
  }

  /** The number of bytes of a UTF-8 sequence, read off its first byte. */
  function Utf8Length(lead: int): int
  {
    if lead < 0x80 then 1 else if lead < 0xE0 then 2 else if lead < 0xF0 then 3 else 4
  }

  /** The code point a well-formed UTF-8 sequence stands for. */
  function Utf8Value(bs: seq<int>): int
    requires |bs| >= 1
  {
    if |bs| == 1 then bs[0]
    else if |bs| == 2 then (bs[0] - 0xC0) * 64 + (bs[1] - 0x80)
    else if |bs| == 3 then ((bs[0] - 0xE0) * 64 + (bs[1] - 0x80)) * 64 + (bs[2] - 0x80)
    else (((bs[0] - 0xF0) * 64 + (bs[1] - 0x80)) * 64 + (bs[2] - 0x80)) * 64 + (bs[3] - 0x80)
  }

  /** UTF-8 is decodable: the first byte gives the length, the bytes give the code point back. */
  lemma Utf8Decodes(cp: int)
    requires 0 <= cp < 0x11_0000
    ensures |Utf8(cp)| == Utf8Length(Utf8(cp)[0])
    ensures Utf8Value(Utf8(cp)) == cp
  {
  }

  function CodePoint(c: char): (cp: int)
    ensures 0 <= cp < 0x11_0000
  {
    c as int
  }

  /** One character, form-encoded. */
  function EncodeChar(c: char): (r: string)
    ensures r != []
    ensures forall i :: 0 <= i < |r| ==> EncodedChar(r[i])
  {
    if Unreserved(c) then [c] else if c == ' ' then "+" else Percent(Utf8(CodePoint(c)))
  }

  /** `URLSearchParams` serialization of one name or value. */
  function Encode(s: string): (r: string)
    ensures forall i :: 0 <= i < |r| ==> EncodedChar(r[i])
    decreases |s|
  {
    if s == [] then "" else EncodeChar(s[0]) + Encode(s[1..])
  }

  /** Strings made only of unreserved characters (decimal numbers, for one) are left as they are. */
  lemma {:induction false} EncodeUnreserved(s: string)
    requires forall i :: 0 <= i < |s| ==> Unreserved(s[i])
    ensures Encode(s) == s
    decreases |s|
  {
    if s != [] {
      EncodeUnreserved(s[1..]);
      assert [s[0]] + s[1..] == s;
    }
  }

  lemma EncodeIntToString(n: int)
    ensures Encode(IntToString(n)) == IntToString(n)
  {
    var s := IntToString(n);
    assert forall i :: 0 <= i < |s| ==> Unreserved(s[i]) by {
      if n < 0 {
        assert forall i :: 1 <= i < |s| ==> s[i] == NatToString(-n)[i - 1];
      }
    }
    EncodeUnreserved(s);
  }

  lemma {:induction false} PercentInjective(a: seq<int>, b: seq<int>)
    requires IsByteSeq(a) && IsByteSeq(b) && |a| == |b|
    requires Percent(a) == Percent(b)
    ensures a == b
    decreases |a|
  {
    if a != [] {
      var pa, pb := Percent(a), Percent(b);
      PercentLead(a);
      PercentLead(b);
      HexByteInjective(a[0], b[0]);
      assert pa[3..] == Percent(a[1..]) && pb[3..] == Percent(b[1..]);
      PercentInjective(a[1..], b[1..]);
      assert a == [a[0]] + a[1..] && b == [b[0]] + b[1..];
    }
  }

  /** The first escape of a percent-encoding spells out the first byte. */
  lemma PercentLead(a: seq<int>)
    requires IsByteSeq(a) && a != []
    ensures Percent(a)[1] == HexDigit(a[0] / 16) && Percent(a)[2] == HexDigit(a[0] % 16)
  {
    assert Percent(a) == PercentByte(a[0]) + Percent(a[1..]);
  }

  /** Two hex digits name one byte. */
  lemma HexByteInjective(x: int, y: int)
    requires 0 <= x < 256 && 0 <= y < 256
    requires HexDigit(x / 16) == HexDigit(y / 16) && HexDigit(x % 16) == HexDigit(y % 16)
    ensures x == y
  {
  }

  /** Percent-encodings of byte strings of one length are not prefixes of each other unless equal. */
  lemma PercentPrefixFree(a: seq<int>, b: seq<int>, t1: string, t2: string)
    requires IsByteSeq(a) && IsByteSeq(b) && |a| == |b|
    requires Percent(a) + t1 == Percent(b) + t2
    ensures a == b
  {
    var x := Percent(a) + t1;
    assert Percent(a) == x[..3 * |a|] == Percent(b);
    PercentInjective(a, b);
  }

  /** No character's encoding is a prefix of another's (the code is prefix-free). */
  lemma EncodeCharPrefixFree(c1: char, c2: char, t1: string, t2: string)
    requires EncodeChar(c1) + t1 == EncodeChar(c2) + t2
    ensures c1 == c2
  {
    var x := EncodeChar(c1) + t1;
    assert x[0] == EncodeChar(c1)[0] && x[0] == EncodeChar(c2)[0];
    if !Unreserved(c1) && c1 != ' ' {
      assert !Unreserved(c2) && c2 != ' ';
      var a, b := Utf8(CodePoint(c1)), Utf8(CodePoint(c2));
      PercentLead(a);
      PercentLead(b);
      assert x[1] == Percent(a)[1] && x[2] == Percent(a)[2];
      assert x[1] == Percent(b)[1] && x[2] == Percent(b)[2];
      HexByteInjective(a[0], b[0]);
      Utf8Decodes(CodePoint(c1));
      Utf8Decodes(CodePoint(c2));
      PercentPrefixFree(a, b, t1, t2);
    }
  }

  /** Different strings encode differently. */
  lemma {:induction false} EncodeInjective(a: string, b: string)
    requires Encode(a) == Encode(b)
    ensures a == b
    decreases |a|
  {
    if a != [] && b != [] {
      EncodeCharPrefixFree(a[0], b[0], Encode(a[1..]), Encode(b[1..]));
      var n := |EncodeChar(a[0])|;
      assert Encode(a)[n..] == Encode(a[1..]);
      assert Encode(b)[n..] == Encode(b[1..]);
      EncodeInjective(a[1..], b[1..]);
      assert a == [a[0]] + a[1..] && b == [b[0]] + b[1..];
    }
  }
}
