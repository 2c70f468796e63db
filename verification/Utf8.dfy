/** Text as bytes: the encoding of Rust strings and its strict inverse. */
module Utf8 {
  import opened Wrappers

  function EncodeChar(c: char): (bytes: seq<u8>)
    ensures 1 <= |bytes| <= 4
    ensures (c as int) < 0x80 ==> bytes == [c as int]
    ensures (c as int) >= 0x80 ==> forall b | b in bytes :: b >= 0x80
  {
    var n := c as int;
    var m := n / 0x40;
    var k := m / 0x40;
    if n < 0x80 then [n]
    else if n < 0x800 then [0xc0 + m, 0x80 + n % 0x40]
    else if n < 0x1_0000 then [0xe0 + k, 0x80 + m % 0x40, 0x80 + n % 0x40]
    else [0xf0 + k / 0x40, 0x80 + k % 0x40, 0x80 + m % 0x40, 0x80 + n % 0x40]
  }

  function Encode(s: string): seq<u8> {
    if s == [] then [] else EncodeChar(s[0]) + Encode(s[1..])
  }

  /** How many bytes a leading byte announces; 0 when it cannot lead. */
  function Length(lead: u8): nat {
    if lead < 0x80 then 1
    else if lead < 0xc0 then 0
    else if lead < 0xe0 then 2
    else if lead < 0xf0 then 3
    else if lead < 0xf8 then 4
    else 0
  }

  /** The code point of that many bytes, read as digits to the base 64. */
  function Code(bytes: seq<u8>): int
    requires 1 <= |bytes| <= 4
  {
    var lead: int := bytes[0];
    match |bytes|
    case 1 => lead
    case 2 => 0x40 * (lead - 0xc0) + bytes[1] - 0x80
    case 3 => 0x40 * (0x40 * (lead - 0xe0) + bytes[1] - 0x80) + bytes[2] - 0x80
    case _ => 0x40 * (0x40 * (0x40 * (lead - 0xf0) + bytes[1] - 0x80) + bytes[2] - 0x80) + bytes[3] - 0x80
  }

  predicate Scalar(code: int) {
    0 <= code < 0xd800 || 0xe000 <= code < 0x11_0000
  }

  /** The first character, if its bytes are the encoding of a character. */
  function DecodeFirst(bytes: seq<u8>): (c: Option<char>)
    requires bytes != []
    ensures c.Some? ==> EncodeChar(c.value) <= bytes
  {
    var n := Length(bytes[0]);
    if n == 0 || |bytes| < n || !Scalar(Code(bytes[..n])) then None
    else
      var c := Code(bytes[..n]) as char;
      if EncodeChar(c) <= bytes then Some(c) else None
  }

  function Decode(bytes: seq<u8>): Option<string>
    decreases |bytes|
  {
    if bytes == [] then Some("")
    else
      var c := DecodeFirst(bytes);
      if c.None? then None
      else
        var rest := Decode(bytes[|EncodeChar(c.value)|..]);
        if rest.None? then None else Some([c.value] + rest.value)
  }

  /** The bytes of a character: the length follows from its code point, and the
      payload bits of the bytes are the code point. */
  lemma CharBytes(c: char)
    ensures var n, b := c as int, EncodeChar(c);
            && |b| == (if n < 0x80 then 1 else if n < 0x800 then 2 else if n < 0x1_0000 then 3 else 4)
            && (forall i | 1 <= i < |b| :: 0x80 <= b[i] < 0xc0)
            && (|b| == 2 ==> 0xc2 <= b[0] < 0xe0 && n == (b[0] as int - 0xc0) * 0x40 + (b[1] as int - 0x80))
            && (|b| == 3 ==> 0xe0 <= b[0] < 0xf0 && n == (b[0] as int - 0xe0) * 0x1000 + (b[1] as int - 0x80) * 0x40 + (b[2] as int - 0x80))
            && (|b| == 4 ==> 0xf0 <= b[0] < 0xf5
                             && n == (b[0] as int - 0xf0) * 0x4_0000 + (b[1] as int - 0x80) * 0x1000
                                  + (b[2] as int - 0x80) * 0x40 + (b[3] as int - 0x80))
  {
    var n := c as int;
    var m := n / 0x40;
    var k := m / 0x40;
    assert n == m * 0x40 + n % 0x40 && m == k * 0x40 + m % 0x40 && k == k / 0x40 * 0x40 + k % 0x40;
  }

  lemma CodeOfChar(c: char)
    ensures var bytes := EncodeChar(c);
            Length(bytes[0]) == |bytes| && Code(bytes) == c as int
  {
  }

  lemma DecodeFirstEncoded(c: char, rest: seq<u8>)
    ensures DecodeFirst(EncodeChar(c) + rest) == Some(c)
  {
    var bytes := EncodeChar(c) + rest;
    CodeOfChar(c);
    assert bytes[..|EncodeChar(c)|] == EncodeChar(c);
  }

  /** Every string survives. */
  lemma {:induction false} DecodeEncode(s: string)
    ensures Decode(Encode(s)) == Some(s)
  {
    if s != [] {
      DecodeEncode(s[1..]);
      DecodeFirstEncoded(s[0], Encode(s[1..]));
      var bytes := Encode(s);
      assert bytes[|EncodeChar(s[0])|..] == Encode(s[1..]);
      assert s == [s[0]] + s[1..];
    }
  }

  lemma EncodeCons(c: char, tail: string)
    ensures Encode([c] + tail) == EncodeChar(c) + Encode(tail)
  {
    assert ([c] + tail)[1..] == tail;
  }

  lemma DecodeCons(bytes: seq<u8>) returns (c: char, rest: seq<u8>)
    requires bytes != [] && Decode(bytes).Some?
    ensures bytes == EncodeChar(c) + rest && |rest| < |bytes| && Decode(rest).Some?
    ensures Decode(bytes) == Some([c] + Decode(rest).value)
  {
    c := DecodeFirst(bytes).value;
    rest := bytes[|EncodeChar(c)|..];
  }

  /** Only encodings are accepted. */
  lemma {:induction false} EncodeDecode(bytes: seq<u8>)
    requires Decode(bytes).Some?
    ensures Encode(Decode(bytes).value) == bytes
    decreases |bytes|
  {
    if bytes != [] {
      var c, rest := DecodeCons(bytes);
      EncodeDecode(rest);
      EncodeCons(c, Decode(rest).value);
    }
  }

  lemma {:induction false} EncodeConcat(a: string, b: string)
    ensures Encode(a + b) == Encode(a) + Encode(b)
  {
    if a == [] {
      assert a + b == b;
    } else {
      EncodeConcat(a[1..], b);
      assert a + b == [a[0]] + (a[1..] + b);
      EncodeCons(a[0], a[1..] + b);
    }
  }

  /** Below 0x80 a byte stands for its own character and for nothing else. */
  lemma {:induction false} AsciiByte(s: string, b: u8)
    requires b < 0x80
    ensures b in Encode(s) <==> (b as char) in s
  {
    if s != [] {
      AsciiByte(s[1..], b);
    }
  }

  lemma {:induction false} EncodeAscii(s: string)
    requires forall c | c in s :: (c as int) < 0x80
    ensures |Encode(s)| == |s| && forall i | 0 <= i < |s| :: Encode(s)[i] == s[i] as int
  {
    if s != [] {
      assert s[0] in s && forall c | c in s[1..] :: c in s;
      EncodeAscii(s[1..]);
      assert EncodeChar(s[0]) == [s[0] as int];
    }
  }
}
