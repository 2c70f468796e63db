/**
  The string operations that both ends of the socket rely on: white space,
  splitting and joining, and numbers in decimal and hexadecimal.
*/
module Text {
  import opened Wrappers

  // ----------------------------------------------------------- white space

  predicate AsciiSpace(c: char) {
    c in {' ', '\t', '\n', '\r', '\U{c}'}
  }

  /** The Unicode property White_Space. */
  predicate Space(c: char) {
    var n := c as int;
    || 0x09 <= n <= 0x0d || n == 0x20 || n == 0x85 || n == 0xa0 || n == 0x1680 || 0x2000 <= n <= 0x200a
    || n == 0x2028 || n == 0x2029 || n == 0x202f || n == 0x205f || n == 0x3000
  }

  function TrimStart(s: string): string {
    if s != [] && Space(s[0]) then TrimStart(s[1..]) else s
  }

  function TrimEnd(s: string): string {
    if s != [] && Space(s[|s| - 1]) then TrimEnd(s[..|s| - 1]) else s
  }

  function Trim(s: string): string {
    TrimEnd(TrimStart(s))
  }

  lemma {:induction false} TrimEndConcat(a: string, b: string)
    ensures TrimEnd(a + b) == if TrimEnd(b) == "" then TrimEnd(a) else a + TrimEnd(b)
    decreases |b|
  {
    if b == [] {
      assert a + b == a;
    } else {
      var s, n := a + b, |b| - 1;
      assert s[..|s| - 1] == a + b[..n];
      TrimEndConcat(a, b[..n]);
    }
  }

  lemma {:induction false} AllSpace(s: string)
    ensures TrimEnd(s) == "" <==> TrimStart(s) == ""
    ensures TrimStart(s) == "" <==> forall c | c in s :: Space(c)
    decreases |s|
  {
    if s != [] {
      AllSpace(s[1..]);
      assert s == [s[0]] + s[1..];
      TrimEndConcat([s[0]], s[1..]);
      assert [s[0]][..0] == [];
    }
  }

  /** The two ends are trimmed independently. */
  lemma {:induction false} TrimAfterTrimEnd(s: string)
    ensures Trim(TrimEnd(s)) == Trim(s)
  {
    if s != [] {
      var rest := s[1..];
      assert s == [s[0]] + rest;
      TrimEndConcat([s[0]], rest);
      TrimAfterTrimEnd(rest);
      if TrimEnd(rest) == "" {
        AllSpace(rest);
        assert [s[0]][..0] == [];
      } else if Space(s[0]) {
        assert ([s[0]] + TrimEnd(rest))[1..] == TrimEnd(rest);
      } else {
        TrimEndTwice(s);
      }
    }
  }

  lemma {:induction false} TrimEndTwice(s: string)
    ensures TrimEnd(TrimEnd(s)) == TrimEnd(s)
    decreases |s|
  {
    if s != [] && Space(s[|s| - 1]) {
      TrimEndTwice(s[..|s| - 1]);
    }
  }

  // ------------------------------------------------- splitting and joining

  /** The place of the first `c`, or the length when there is none. */
  function Find(s: string, c: char): (n: nat)
    ensures n <= |s| && c !in s[..n] && (n < |s| ==> s[n] == c)
  {
    if s == [] || s[0] == c then 0 else 1 + Find(s[1..], c)
  }

  lemma {:induction false} FindAfter(head: string, c: char, rest: string)
    requires c !in head
    ensures Find(head + [c] + rest, c) == |head|
  {
    var s := head + [c] + rest;
    if head != [] {
      assert s[1..] == head[1..] + [c] + rest;
      FindAfter(head[1..], c, rest);
    }
  }

  lemma {:induction false} FindNone(s: string, c: char)
    requires c !in s
    ensures Find(s, c) == |s|
  {
    if s != [] {
      FindNone(s[1..], c);
    }
  }

  function Join(parts: seq<string>, c: char): string {
    if parts == [] then ""
    else if |parts| == 1 then parts[0]
    else parts[0] + [c] + Join(parts[1..], c)
  }

  /** The parts between the separators; at least one. */
  function Split(s: string, c: char): (parts: seq<string>)
    ensures parts != []
    decreases |s|
  {
    var n := Find(s, c);
    if n == |s| then [s] else [s[..n]] + Split(s[n + 1..], c)
  }

  lemma SplitFirst(head: string, c: char, rest: string)
    requires c !in head
    ensures Split(head + [c] + rest, c) == [head] + Split(rest, c)
  {
    var s := head + [c] + rest;
    FindAfter(head, c, rest);
    assert s[..|head|] == head && s[|head| + 1..] == rest;
  }

  lemma {:induction false} SplitJoin(parts: seq<string>, c: char)
    requires parts != [] && forall part | part in parts :: c !in part
    ensures Split(Join(parts, c), c) == parts
  {
    if |parts| == 1 {
      FindNone(parts[0], c);
    } else {
      SplitFirst(parts[0], c, Join(parts[1..], c));
      SplitJoin(parts[1..], c);
      assert parts == [parts[0]] + parts[1..];
    }
  }

  function SplitOnce(s: string, c: char): Option<(string, string)> {
    var n := Find(s, c);
    if n == |s| then None else Some((s[..n], s[n + 1..]))
  }

  lemma SplitOnceJoined(name: string, c: char, value: string)
    requires c !in name
    ensures SplitOnce(name + [c] + value, c) == Some((name, value))
  {
    FindAfter(name, c, value);
    var s := name + [c] + value;
    assert s[..|name|] == name && s[|name| + 1..] == value;
  }

  predicate IsWord(s: string) {
    s != "" && forall c | c in s :: !AsciiSpace(c)
  }

  predicate AllWords(words: seq<string>) {
    forall i | 0 <= i < |words| :: IsWord(words[i])
  }

  function WordEnd(s: string): (n: nat)
    ensures n <= |s| && (forall c | c in s[..n] :: !AsciiSpace(c)) && (n < |s| ==> AsciiSpace(s[n]))
  {
    if s == [] || AsciiSpace(s[0]) then 0 else 1 + WordEnd(s[1..])
  }

  /** The maximal runs without ASCII white space. */
  function Words(s: string): seq<string>
    decreases |s|
  {
    if s == [] then []
    else if AsciiSpace(s[0]) then Words(s[1..])
    else
      var n := WordEnd(s);
      [s[..n]] + Words(s[n..])
  }

  lemma {:induction false} WordsAreWords(s: string)
    ensures AllWords(Words(s))
    decreases |s|
  {
    if s != [] {
      if AsciiSpace(s[0]) {
        WordsAreWords(s[1..]);
      } else {
        var n := WordEnd(s);
        WordsAreWords(s[n..]);
        assert s[..n][0] == s[0];
      }
    }
  }

  lemma {:induction false} WordEndAt(word: string, rest: string)
    requires (forall c | c in word :: !AsciiSpace(c)) && (rest == [] || AsciiSpace(rest[0]))
    ensures WordEnd(word + rest) == |word|
  {
    if word != [] {
      assert (word + rest)[1..] == word[1..] + rest;
      WordEndAt(word[1..], rest);
    }
  }

  lemma {:induction false} WordsJoin(words: seq<string>)
    requires AllWords(words)
    ensures Words(Join(words, ' ')) == words
  {
    if words != [] {
      var word, tail := words[0], words[1..];
      var rest := if tail == [] then [] else [' '] + Join(tail, ' ');
      var s := Join(words, ' ');
      assert IsWord(word) && s == word + rest;
      WordEndAt(word, rest);
      WordsJoin(tail);
      assert s[..|word|] == word && s[|word|..] == rest;
      assert tail != [] ==> rest[1..] == Join(tail, ' ');
      assert words == [word] + tail;
    }
  }

  // ------------------------------------------------------------- numbers

  datatype Radix = Decimal | Hexadecimal
  {
    function Base(): nat {
      if Decimal? then 10 else 16
    }
    function Shift(n: nat, digit: nat): nat {
      if Decimal? then n * 10 + digit else n * 16 + digit
    }
    function Quotient(n: nat): nat {
      if Decimal? then n / 10 else n / 16
    }
    function Remainder(n: nat): nat {
      if Decimal? then n % 10 else n % 16
    }
  }

  /** Lower-case digits. */
  function DigitChar(n: nat): char
    requires n < 16
  {
    if n < 10 then '0' + n as char else 'a' + (n - 10) as char
  }

  /** The value of a digit in either case. */
  function DigitOf(c: char): Option<nat> {
    if '0' <= c <= '9' then Some((c - '0') as nat)
    else if 'a' <= c <= 'f' then Some((c - 'a') as nat + 10)
    else if 'A' <= c <= 'F' then Some((c - 'A') as nat + 10)
    else None
  }

  predicate IsHexDigit(c: char) {
    DigitOf(c).Some?
  }

  function Print(n: nat, radix: Radix): string {
    if n < radix.Base() then [DigitChar(n)] else Print(radix.Quotient(n), radix) + [DigitChar(radix.Remainder(n))]
  }

  function Digits(s: string, radix: Radix): Option<nat> {
    if s == "" then Some(0)
    else
      var front, last := Digits(s[..|s| - 1], radix), DigitOf(s[|s| - 1]);
      if front.None? || last.None? || last.value >= radix.Base() then None
      else Some(radix.Shift(front.value, last.value))
  }

  /** Number parsing of unsigned integers: an optional plus, then digits whose
      value fits the type. */
  function ParseUnsigned(s: string, radix: Radix, maximum: nat): (n: Option<nat>)
    ensures n.Some? ==> n.value <= maximum
  {
    var digits := if s != "" && s[0] == '+' then s[1..] else s;
    if digits == "" then None
    else
      var n := Digits(digits, radix);
      if n.None? || n.value > maximum then None else n
  }

  predicate Plain(c: char) {
    IsHexDigit(c) && !AsciiSpace(c) && c != '+' && c != '=' && c != ','
  }

  lemma DigitCharIs(n: nat)
    requires n < 16
    ensures DigitOf(DigitChar(n)) == Some(n) && Plain(DigitChar(n))
  {
  }

  lemma {:induction false} DigitsPrint(n: nat, radix: Radix)
    ensures Print(n, radix) != "" && Digits(Print(n, radix), radix) == Some(n)
    ensures forall c | c in Print(n, radix) :: Plain(c)
  {
    DigitCharIs(radix.Remainder(n));
    if n < radix.Base() {
      assert Print(n, radix)[..0] == "";
    } else {
      DigitsPrint(radix.Quotient(n), radix);
      var front := Print(radix.Quotient(n), radix);
      assert Print(n, radix)[..|front|] == front;
    }
  }

  /** Printing and parsing a number of the type gives it back. */
  lemma ParsePrint(n: nat, radix: Radix, maximum: nat)
    requires n <= maximum
    ensures ParseUnsigned(Print(n, radix), radix, maximum) == Some(n)
    ensures IsWord(Print(n, radix)) && '=' !in Print(n, radix) && ',' !in Print(n, radix)
  {
    DigitsPrint(n, radix);
    assert Print(n, radix)[0] in Print(n, radix);
  }

  function HexByte(b: u8): string {
    [DigitChar(b / 16), DigitChar(b % 16)]
  }

  type Rgb = (u8, u8, u8)

  function HexColor(color: Rgb): string {
    HexByte(color.0) + HexByte(color.1) + HexByte(color.2)
  }

  /** Exactly six hexadecimal digits, in either case. */
  function ParseColor(s: string): Option<Rgb> {
    if |s| != 6 || exists c | c in s :: !IsHexDigit(c) then None
    else
      assert forall i | 0 <= i < 6 :: s[i] in s;
      Some((Pair(s[0], s[1]), Pair(s[2], s[3]), Pair(s[4], s[5])))
  }

  function Pair(high: char, low: char): u8
    requires IsHexDigit(high) && IsHexDigit(low)
  {
    DigitOf(high).value * 16 + DigitOf(low).value
  }

  lemma ParseHexColor(color: Rgb)
    ensures ParseColor(HexColor(color)) == Some(color)
    ensures IsWord(HexColor(color)) && '=' !in HexColor(color) && ',' !in HexColor(color)
  {
    HexByteDigits(color.0);
    HexByteDigits(color.1);
    HexByteDigits(color.2);
  }

  lemma HexByteDigits(b: u8)
    ensures var s := HexByte(b);
            IsHexDigit(s[0]) && IsHexDigit(s[1]) && Pair(s[0], s[1]) == b
            && forall c | c in s :: Plain(c)
  {
  }

  /** Two lower-case digits for every byte. */
  function HexBytes(r: seq<u8>): string {
    if r == [] then "" else HexByte(r[0]) + HexBytes(r[1..])
  }

  lemma {:induction false} HexBytesPlain(r: seq<u8>)
    ensures |HexBytes(r)| == 2 * |r| && forall c | c in HexBytes(r) :: Plain(c)
  {
    if r != [] {
      HexByteDigits(r[0]);
      HexBytesPlain(r[1..]);
    }
  }

  lemma {:induction false} HexBytesAt(r: seq<u8>, i: nat)
    requires i < |r|
    ensures |HexBytes(r)| == 2 * |r|
    ensures HexBytes(r)[2 * i] == DigitChar(r[i] / 16) && HexBytes(r)[2 * i + 1] == DigitChar(r[i] % 16)
  {
    HexBytesPlain(r);
    if i > 0 {
      HexBytesAt(r[1..], i - 1);
    }
  }
}
