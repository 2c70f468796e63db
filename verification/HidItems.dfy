/**
  The short items of a HID report descriptor (Device Class Definition for HID
  1.11, section 6.2.2.2), as src/passive_hid.rs cuts them out of the raw bytes.
*/
module HidItems {
  import opened Wrappers

  /** The prefix of a long item, which the parser refuses. */
  const LONG_ITEM: u8 := 0xfe

  datatype ItemType = Main | Global | Local | Reserved

  datatype Item = Item(prefix: u8, data: seq<u8>)
  {
    predicate WellFormed() {
      prefix != LONG_ITEM && |data| == DataSize(prefix)
    }

    function Type(): ItemType {
      match prefix / 4 % 4
      case 0 => Main
      case 1 => Global
      case 2 => Local
      case _ => Reserved
    }

    function Tag(): nat {
      prefix / 16
    }

    function Value(): nat {
      Unsigned(data)
    }
  }

  /** The two low bits of the prefix; 3 stands for four bytes. */
  function DataSize(prefix: u8): nat {
    if prefix % 4 == 3 then 4 else prefix % 4
  }

  /** Little endian. */
  function Unsigned(data: seq<u8>): nat {
    if data == [] then 0 else data[0] + 256 * Unsigned(data[1..])
  }

  function Range(n: nat): nat {
    if n == 0 then 1 else 256 * Range(n - 1)
  }

  lemma {:induction false} UnsignedFits(data: seq<u8>)
    ensures Unsigned(data) < Range(|data|)
    ensures |data| <= 4 ==> Unsigned(data) < 0x1_0000_0000
  {
    if data != [] {
      UnsignedFits(data[1..]);
    }
    assert Range(4) == 0x1_0000_0000 && Range(3) == 0x100_0000;
  }

  lemma QuotientOfQuotient(n: nat, d: nat)
    requires d > 0
    ensures n / (256 * d) == n / 256 / d
  {
    var q := n / 256 / d;
    assert n == n / 256 * 256 + n % 256;
    assert n / 256 == q * d + n / 256 % d;
    assert n == q * (256 * d) + (n / 256 % d * 256 + n % 256);
    QuotientIs(n, 256 * d, q, n / 256 % d * 256 + n % 256);
  }

  lemma QuotientIs(n: nat, d: nat, q: nat, r: nat)
    requires n == q * d + r && r < d
    ensures n / d == q
  {
    var k := n / d;
    assert n == k * d + n % d;
    assert k < q ==> (k + 1) * d <= q * d;
    assert k > q ==> k * d >= (q + 1) * d;
  }

  /** The byte at a place is the digit of that place, the first one the lowest. */
  lemma {:induction false} DigitsOf(data: seq<u8>, i: nat)
    requires i < |data|
    ensures Range(i) > 0 && Unsigned(data) / Range(i) % 256 == data[i] as nat
  {
    if i > 0 {
      var rest := Unsigned(data[1..]);
      DigitsOf(data[1..], i - 1);
      assert Unsigned(data) / 256 == rest;
      QuotientOfQuotient(Unsigned(data), Range(i - 1));
    }
  }

  lemma UnsignedIs(data: seq<u8>)
    requires |data| <= 4
    ensures data == [] ==> Unsigned(data) == 0
    ensures |data| == 1 ==> Unsigned(data) == data[0] as nat
    ensures |data| == 2 ==> Unsigned(data) == data[0] as nat + 256 * data[1] as nat
    ensures |data| == 4 ==>
              Unsigned(data) == data[0] as nat + 256 * data[1] as nat + 0x1_0000 * data[2] as nat + 0x100_0000 * data[3] as nat
  {
    if data != [] {
      var tail := data[1..];
      if tail != [] {
        var last := tail[1..];
        assert |last| == 2 ==> Unsigned(last) == last[0] as nat + 256 * Unsigned(last[1..]) && Unsigned(last[1..]) == last[1] as nat;
      }
    }
  }

  /** The first item and the bytes after it; None for a long item or when the
      bytes end inside the item. */
  function NextItem(bytes: seq<u8>): (r: Option<(Item, seq<u8>)>)
    requires bytes != []
    ensures r.Some? ==> r.value.0.WellFormed() && bytes == [r.value.0.prefix] + r.value.0.data + r.value.1
    ensures r.None? <==> bytes[0] == LONG_ITEM || |bytes| < 1 + DataSize(bytes[0])
  {
    var size := DataSize(bytes[0]);
    if bytes[0] == LONG_ITEM || |bytes| < 1 + size then None
    else Some((Item(bytes[0], bytes[1..1 + size]), bytes[1 + size..]))
  }

  /** All items up to the first defect, and whether there is none. */
  function Tokenise(bytes: seq<u8>): (seq<Item>, bool)
    decreases |bytes|
  {
    if bytes == [] then ([], true)
    else
      var next := NextItem(bytes);
      if next.None? then ([], false)
      else
        var (items, complete) := Tokenise(next.value.1);
        ([next.value.0] + items, complete)
  }

  function Serialise(items: seq<Item>): seq<u8> {
    if items == [] then [] else [items[0].prefix] + items[0].data + Serialise(items[1..])
  }

  predicate AllWellFormed(items: seq<Item>) {
    forall item | item in items :: item.WellFormed()
  }

  /** Tokenising undoes serialising. */
  lemma {:induction false} TokeniseSerialise(items: seq<Item>)
    requires AllWellFormed(items)
    ensures Tokenise(Serialise(items)) == (items, true)
    decreases |items|
  {
    if items != [] {
      var bytes, rest := Serialise(items), Serialise(items[1..]);
      TokeniseSerialise(items[1..]);
      assert items[0].WellFormed();
      assert bytes[1..1 + |items[0].data|] == items[0].data && bytes[1 + |items[0].data|..] == rest;
      assert items == [items[0]] + items[1..];
    }
  }

  /** The bytes after the whole items: nothing, a long item or a cut one. */
  predicate Defect(rest: seq<u8>) {
    rest != [] && (rest[0] == LONG_ITEM || |rest| < 1 + DataSize(rest[0]))
  }

  /** Serialising undoes tokenising, up to a defect where there is one. */
  lemma {:induction false} SerialiseTokenise(bytes: seq<u8>) returns (rest: seq<u8>)
    ensures var (items, complete) := Tokenise(bytes);
            AllWellFormed(items) && bytes == Serialise(items) + rest
            && (if complete then rest == [] else Defect(rest))
    decreases |bytes|
  {
    if bytes == [] || NextItem(bytes).None? {
      rest := bytes;
    } else {
      var next := NextItem(bytes).value;
      rest := SerialiseTokenise(next.1);
      var tail := Tokenise(next.1).0;
      assert ([next.0] + tail)[1..] == tail;
    }
  }
}
