// UTF-8, as far as a byte stream cut anywhere needs it: which byte strings are texts.
module Utf8 {
  import opened Tables

  type Byte = n: int | 0 <= n < 256

  /** The bytes of a character, a Unicode scalar value. */
  function Encode(c: char): (bytes: seq<Byte>)
    ensures 1 <= |bytes| <= 4
  {
    var n := c as int;
    if n < 0x80 then [n]
    else if n < 0x800 then [0xC0 + n / 64, 0x80 + n % 64]
    else if n < 0x10000 then [0xE0 + n / 64 / 64, 0x80 + n / 64 % 64, 0x80 + n % 64]
    else [0xF0 + n / 64 / 64 / 64, 0x80 + n / 64 / 64 % 64, 0x80 + n / 64 % 64, 0x80 + n % 64]
  }

  function EncodeAll(text: string): seq<Byte> {
    if text == "" then [] else Encode(text[0]) + EncodeAll(text[1..])
  }

  /** How many bytes a lead byte announces; 0 for a byte that leads nothing. */
  function Width(lead: Byte): nat {
    if lead < 0x80 then 1
    else if 0xC0 <= lead < 0xE0 then 2
    else if 0xE0 <= lead < 0xF0 then 3
    else if 0xF0 <= lead < 0xF8 then 4
    else 0
  }

  /** Six bits from every byte but the first. */
  function ScalarOf(bytes: seq<int>): int
    requires 1 <= |bytes| <= 4
  {
    if |bytes| == 1 then bytes[0]
    else if |bytes| == 2 then (bytes[0] - 0xC0) * 64 + (bytes[1] - 0x80)
    else if |bytes| == 3 then ((bytes[0] - 0xE0) * 64 + (bytes[1] - 0x80)) * 64 + (bytes[2] - 0x80)
    else (((bytes[0] - 0xF0) * 64 + (bytes[1] - 0x80)) * 64 + (bytes[2] - 0x80)) * 64 + (bytes[3] - 0x80)
  }

  predicate IsScalar(n: int) {
    0 <= n < 0xD800 || 0xE000 <= n < 0x110000
  }

  /** The first character, unless the bytes do not start with one in its only encoding. */
  function DecodeOne(bytes: seq<Byte>): (c: Option<char>)
    requires bytes != []
    ensures c.Some? ==> Encode(c.value) <= bytes
  {
    var w := Width(bytes[0]);
    if w == 0 || w > |bytes| then None else
    var n := ScalarOf(bytes[..w]);
    if !IsScalar(n) || Encode(n as char) != bytes[..w] then None else Some(n as char)
  }

  function Decode(bytes: seq<Byte>): Option<string> {
    if bytes == [] then Some("") else
    var c := DecodeOne(bytes);
    if c.None? then None else
    var rest := Decode(bytes[|Encode(c.value)|..]);
    if rest.None? then None else Some([c.value] + rest.value)
  }

  lemma ScalarOfEncode(c: char)
    ensures Width(Encode(c)[0]) == |Encode(c)| && ScalarOf(Encode(c)) == c as int && IsScalar(c as int)
  {
    var n := c as int;
    assert n == n / 64 * 64 + n % 64;
    assert n / 64 == n / 64 / 64 * 64 + n / 64 % 64;
    assert n / 64 / 64 == n / 64 / 64 / 64 * 64 + n / 64 / 64 % 64;
  }

  /** One lead byte that tells the length, then continuation bytes of six bits each; as in
      the standard's examples for two, three and four bytes. */
  lemma EncodeShape(c: char)
    ensures var bytes := Encode(c);
            && (bytes[0] < 0x80 <==> |bytes| == 1) && (0xC0 <= bytes[0] < 0xE0 <==> |bytes| == 2)
            && (0xE0 <= bytes[0] < 0xF0 <==> |bytes| == 3) && (0xF0 <= bytes[0] < 0xF8 <==> |bytes| == 4)
            && (forall i :: 1 <= i < |bytes| ==> 0x80 <= bytes[i] < 0xC0)
    ensures Encode('\U{00E9}') == [0xC3, 0xA9] && Encode('\U{20AC}') == [0xE2, 0x82, 0xAC]
    ensures Encode('\U{1F600}') == [0xF0, 0x9F, 0x98, 0x80]
  {
    ScalarOfEncode(c);
  }

  lemma DecodeOneEncoded(c: char, rest: seq<Byte>)
    ensures DecodeOne(Encode(c) + rest) == Some(c)
  {
    ScalarOfEncode(c);
    var bytes := Encode(c) + rest;
    assert bytes[..|Encode(c)|] == Encode(c);
  }

  /** A byte string decodes to a text exactly when it is that text's encoding. */
  lemma {:induction false} DecodeIff(bytes: seq<Byte>, text: string)
    ensures Decode(bytes) == Some(text) <==> bytes == EncodeAll(text)
    decreases |bytes|
  {
    if bytes != [] && text != "" {
      var c, rest := text[0], text[1..];
      DecodeFirst(bytes, c);
      if Encode(c) <= bytes {
        var more := bytes[|Encode(c)|..];
        assert bytes == Encode(c) + more;
        DecodeIff(more, rest);
        SameAfter(Encode(c), more, EncodeAll(rest));
      }
      assert text == [c] + rest;
    }
  }

  /** The first character is what the bytes start with. */
  lemma DecodeFirst(bytes: seq<Byte>, c: char)
    requires bytes != []
    ensures DecodeOne(bytes) == Some(c) <==> Encode(c) <= bytes
  {
    if Encode(c) <= bytes {
      DecodeOneEncoded(c, bytes[|Encode(c)|..]);
      assert bytes == Encode(c) + bytes[|Encode(c)|..];
    }
  }

  lemma SameAfter(a: seq<Byte>, b: seq<Byte>, c: seq<Byte>)
    ensures a + b == a + c <==> b == c
  {
    assert (a + b)[|a|..] == b && (a + c)[|a|..] == c;
  }

  lemma {:induction false} EncodeAllConcat(a: string, b: string)
    ensures EncodeAll(a + b) == EncodeAll(a) + EncodeAll(b)
  {
    if a == "" {
      assert a + b == b;
    } else {
      assert (a + b)[1..] == a[1..] + b;
      EncodeAllConcat(a[1..], b);
    }
  }

  lemma Injective(a: string, b: string)
    requires EncodeAll(a) == EncodeAll(b)
    ensures a == b
  {
    DecodeIff(EncodeAll(a), a);
    DecodeIff(EncodeAll(a), b);
  }

  /** Longer prefixes of a text have longer encodings. */
  lemma PrefixLengths(text: string, i: nat, j: nat)
    requires j < i <= |text|
    ensures |EncodeAll(text[..j])| < |EncodeAll(text[..i])|
  {
    assert text[..i] == text[..j] + text[j..i];
    EncodeAllConcat(text[..j], text[j..i]);
    assert text[j..i] != "";
  }
}
