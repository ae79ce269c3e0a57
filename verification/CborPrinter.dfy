/** A reference printer for CBOR items of every kind (section 3 of RFC 8949),
    inverted by the decoder: what Cbor.Decode takes for an array, a tag, a
    float or an item of indefinite length is one. */
module CborPrinter {
  import opened Cbor
  import opened Prelude

  const TWO_64 := 0x1_0000_0000_0000_0000

  /** The low w octets of n, most significant first. */
  function Octets(n: nat, w: nat): (s: bytes)
    ensures |s| == w
  {
    if w == 0 then [] else Octets(n / 256, w - 1) + [n % 256]
  }

  function Pow256(w: nat): nat {
    if w == 0 then 1 else 256 * Pow256(w - 1)
  }

  lemma {:induction false} BigEndianOctets(n: nat, w: nat)
    requires n < Pow256(w)
    ensures BigEndian(Octets(n, w)) == n
  {
    if w > 0 {
      BigEndianOctets(n / 256, w - 1);
      assert Octets(n, w)[..w - 1] == Octets(n / 256, w - 1);
    }
  }

  /** The shortest head for any 64-bit argument. */
  function LongHead(major: nat, n: nat): (h: bytes)
    requires major < 8 && n < TWO_64
    ensures h != []
  {
    if n < 0x1_0000_0000 then Head(major, n).value else [major * 32 + 27] + Octets(n, 8)
  }

  /** Items whose arguments fit 64 bits and whose simple values and floats are
      of the kinds there are. */
  predicate Printable(v: Item) {
    match v
    case UInt(n) => n < TWO_64
    case NegInt(n) => n < TWO_64
    case ByteString(b) => |b| < TWO_64
    case TextString(t) => |t| < TWO_64
    case Array(items) => |items| < TWO_64 && forall i :: 0 <= i < |items| ==> Printable(items[i])
    case Map(pairs) => |pairs| < TWO_64 && forall i :: 0 <= i < |pairs| ==> PrintablePair(pairs[i])
    case Chunks(major, chunks) =>
      2 <= major <= 3 && forall i :: 0 <= i < |chunks| ==> |chunks[i]| < TWO_64
    case OpenArray(items) => forall i :: 0 <= i < |items| ==> Printable(items[i])
    case OpenMap(pairs) => forall i :: 0 <= i < |pairs| ==> PrintablePair(pairs[i])
    case Tag(tag, content) => tag < TWO_64 && Printable(content)
    case Simple(n) => n < 24 || 32 <= n < 256
    case Float(width, bits) => (width == 2 || width == 4 || width == 8) && bits < Pow256(width)
  }

  predicate PrintablePair(p: Pair) {
    Printable(p.key) && Printable(p.value)
  }

  function Print(v: Item): (s: bytes)
    requires Printable(v)
    ensures s != []
    decreases v, 1
  {
    match v
    case UInt(n) => LongHead(0, n)
    case NegInt(n) => LongHead(1, n)
    case ByteString(b) => LongHead(2, |b|) + b
    case TextString(t) => LongHead(3, |t|) + t
    case Array(items) => LongHead(4, |items|) + PrintItems(items)
    case Map(pairs) => LongHead(5, |pairs|) + PrintPairs(pairs)
    case Chunks(major, chunks) => [major * 32 + 31] + PrintChunks(major, chunks) + [0xff]
    case OpenArray(items) => [0x9f] + PrintItems(items) + [0xff]
    case OpenMap(pairs) => [0xbf] + PrintPairs(pairs) + [0xff]
    case Tag(tag, content) => LongHead(6, tag) + Print(content)
    case Simple(n) => if n < 24 then [0xe0 + n] else [0xf8, n]
    case Float(width, bits) =>
      [if width == 2 then 0xf9 else if width == 4 then 0xfa else 0xfb] + Octets(bits, width)
  }

  function PrintItems(items: seq<Item>): bytes
    requires forall i :: 0 <= i < |items| ==> Printable(items[i])
    decreases items, 0
  {
    if items == [] then [] else Print(items[0]) + PrintItems(items[1..])
  }

  function PrintPairs(pairs: seq<Pair>): bytes
    requires forall i :: 0 <= i < |pairs| ==> PrintablePair(pairs[i])
    decreases pairs, 0
  {
    if pairs == [] then [] else PrintPair(pairs[0]) + PrintPairs(pairs[1..])
  }

  function PrintPair(p: Pair): bytes
    requires PrintablePair(p)
    decreases p, 2
  {
    Print(p.key) + Print(p.value)
  }

  function PrintChunks(major: nat, chunks: seq<bytes>): bytes
    requires 2 <= major <= 3 && forall i :: 0 <= i < |chunks| ==> |chunks[i]| < TWO_64
  {
    if chunks == [] then [] else LongHead(major, |chunks[0]|) + chunks[0] + PrintChunks(major, chunks[1..])
  }

  // Heads

  lemma ReadLongHead(major: nat, n: nat, rest: bytes)
    requires major < 8 && n < TWO_64
    ensures ReadHead(LongHead(major, n) + rest) == Some(HeadRead(major, n, rest))
    ensures LongHead(major, n)[0] != BREAK && LongHead(major, n)[0] % 32 != 31
  {
    if n < 0x1_0000_0000 {
      ReadHeadOfHead(major, n, rest);
    } else {
      var s := LongHead(major, n) + rest;
      Pow8();
      BigEndianOctets(n, 8);
      hide Octets, BigEndian, Pow256;
      assert s[1..9] == Octets(n, 8) && s[9..] == rest;
    }
  }

  lemma Pow8()
    ensures Pow256(8) == TWO_64 && Pow256(4) == 0x1_0000_0000 && Pow256(2) == 0x1_0000
  {
    assert Pow256(4) == 0x1_0000_0000;
  }

  lemma PrintStarts(v: Item)
    requires Printable(v)
    ensures Print(v)[0] != BREAK
  {
    hide LongHead, PrintItems, PrintPairs, PrintChunks, Octets, ReadHead;
    match v
    case UInt(n) => ReadLongHead(0, n, []);
    case NegInt(n) => ReadLongHead(1, n, []);
    case ByteString(b) => ReadLongHead(2, |b|, []);
    case TextString(t) => ReadLongHead(3, |t|, []);
    case Array(items) => ReadLongHead(4, |items|, []);
    case Map(pairs) => ReadLongHead(5, |pairs|, []);
    case Tag(tag, content) => ReadLongHead(6, tag, []);
    case _ =>
  }

  // The decoder inverts the printer

  /** Every item of every kind, at any depth, is read back with exactly what
      follows it. */
  lemma {:induction false} DecodePrinted(v: Item, rest: bytes)
    requires Printable(v)
    ensures Decode(Print(v) + rest) == Some((v, rest))
    decreases v, 1
  {
    hide ReadHead, LongHead, Octets, PrintItems, PrintPairs, DecodeItems, DecodePairs, DecodeOpen;
    match v
    case UInt(n) => ReadLongHead(0, n, rest);
    case NegInt(n) => ReadLongHead(1, n, rest);
    case ByteString(b) => StringPrinted(2, b, rest);
    case TextString(t) => StringPrinted(3, t, rest);
    case Array(items) =>
      assert Print(v) + rest == LongHead(4, |items|) + (PrintItems(items) + rest);
      ReadLongHead(4, |items|, PrintItems(items) + rest);
      ItemsPrinted(items, rest);
    case Map(pairs) =>
      assert Print(v) + rest == LongHead(5, |pairs|) + (PrintPairs(pairs) + rest);
      ReadLongHead(5, |pairs|, PrintPairs(pairs) + rest);
      PairsPrinted(pairs, rest);
    case Tag(tag, content) =>
      assert Print(v) + rest == LongHead(6, tag) + (Print(content) + rest);
      ReadLongHead(6, tag, Print(content) + rest);
      DecodePrinted(content, rest);
    case Simple(n) => SimplePrinted(n, rest);
    case Float(width, bits) => FloatPrinted(width, bits, rest);
    case Chunks(major, chunks) => OpenChunks(major, chunks, rest);
    case OpenArray(items) =>
      OpenItemsPrinted(items, rest);
      OpenArrayDecodes(items, rest);
    case OpenMap(pairs) =>
      OpenPairsPrinted(pairs, rest);
      OpenMapDecodes(pairs, rest);
  }

  lemma NoHead(s: bytes)
    requires s != [] && s[0] % 32 == 31
    ensures ReadHead(s) == None
  {
  }

  lemma StringPrinted(major: nat, b: bytes, rest: bytes)
    requires major < 8 && |b| < TWO_64
    ensures ReadHead(LongHead(major, |b|) + b + rest) == Some(HeadRead(major, |b|, b + rest))
    ensures (b + rest)[..|b|] == b && (b + rest)[|b|..] == rest
  {
    hide ReadHead, LongHead;
    assert LongHead(major, |b|) + b + rest == LongHead(major, |b|) + (b + rest);
    ReadLongHead(major, |b|, b + rest);
  }

  lemma SimplePrinted(n: nat, rest: bytes)
    requires Printable(Simple(n))
    ensures Decode(Print(Simple(n)) + rest) == Some((Simple(n), rest))
  {
    var s := Print(Simple(n)) + rest;
    if n < 24 {
      assert s[0] == 0xe0 + n && s[1..] == rest;
    } else {
      assert s[0] == 0xf8 && s[1..2] == [n] && s[2..] == rest;
      BigEndianOne(n);
    }
  }

  lemma BigEndianOne(n: byte)
    ensures BigEndian([n]) == n
  {
    assert [n][..0] == [];
  }

  function FloatHead(width: nat): byte {
    if width == 2 then 0xf9 else if width == 4 then 0xfa else 0xfb
  }

  lemma ReadFloatHead(width: nat, octets: bytes, rest: bytes)
    requires (width == 2 || width == 4 || width == 8) && |octets| == width
    ensures ReadHead([FloatHead(width)] + octets + rest) == Some(HeadRead(7, BigEndian(octets), rest))
  {
    hide BigEndian;
    var s := [FloatHead(width)] + octets + rest;
    assert s[1..1 + width] == octets && s[1 + width..] == rest && s[0] == FloatHead(width);
  }

  lemma FloatPrinted(width: nat, bits: nat, rest: bytes)
    requires Printable(Float(width, bits))
    ensures Decode(Print(Float(width, bits)) + rest) == Some((Float(width, bits), rest))
  {
    BigEndianOctets(bits, width);
    hide Octets, BigEndian, Pow256, ReadHead;
    var s := Print(Float(width, bits)) + rest;
    assert s == [FloatHead(width)] + Octets(bits, width) + rest;
    ReadFloatHead(width, Octets(bits, width), rest);
    assert s[0] == FloatHead(width);
  }

  lemma {:induction false} ItemsPrinted(items: seq<Item>, rest: bytes)
    requires forall i :: 0 <= i < |items| ==> Printable(items[i])
    ensures DecodeItems(|items|, PrintItems(items) + rest) == Some((items, rest))
    decreases items, 0
  {
    hide Decode, Print;
    if items == [] {
      assert PrintItems(items) + rest == rest;
    } else {
      var more := PrintItems(items[1..]) + rest;
      assert PrintItems(items) + rest == Print(items[0]) + more;
      DecodePrinted(items[0], more);
      ItemsPrinted(items[1..], rest);
      assert [items[0]] + items[1..] == items;
    }
  }

  lemma {:induction false} PairsPrinted(pairs: seq<Pair>, rest: bytes)
    requires forall i :: 0 <= i < |pairs| ==> PrintablePair(pairs[i])
    ensures DecodePairs(|pairs|, PrintPairs(pairs) + rest) == Some((pairs, rest))
    decreases pairs, 0
  {
    hide Decode, Print;
    if pairs == [] {
      assert PrintPairs(pairs) + rest == rest;
    } else {
      var more := PrintPairs(pairs[1..]) + rest;
      assert PrintPairs(pairs) + rest == PrintPair(pairs[0]) + more;
      PairPrinted(pairs[0], more);
      PairsPrinted(pairs[1..], rest);
      assert [pairs[0]] + pairs[1..] == pairs;
    }
  }

  lemma PairPrinted(p: Pair, rest: bytes)
    requires PrintablePair(p)
    ensures var s := PrintPair(p) + rest;
            && Decode(s).Some? && Decode(s).value.0 == p.key
            && Decode(Decode(s).value.1) == Some((p.value, rest))
            && s != [] && s[0] != BREAK
    decreases p, 2
  {
    hide Decode, Print;
    assert PrintPair(p) + rest == Print(p.key) + (Print(p.value) + rest);
    DecodePrinted(p.key, Print(p.value) + rest);
    DecodePrinted(p.value, rest);
    PrintStarts(p.key);
  }

  lemma {:induction false} OpenItemsPrinted(items: seq<Item>, rest: bytes)
    requires forall i :: 0 <= i < |items| ==> Printable(items[i])
    ensures DecodeOpenItems(PrintItems(items) + ([0xff] + rest)) == Some((items, rest))
    decreases items, 0
  {
    hide Decode, Print;
    var s := PrintItems(items) + ([0xff] + rest);
    if items == [] {
      assert s == [0xff] + rest && s[1..] == rest;
    } else {
      var more := PrintItems(items[1..]) + ([0xff] + rest);
      assert s == Print(items[0]) + more;
      DecodePrinted(items[0], more);
      PrintStarts(items[0]);
      OpenItemsPrinted(items[1..], rest);
      assert [items[0]] + items[1..] == items;
    }
  }

  lemma {:induction false} OpenPairsPrinted(pairs: seq<Pair>, rest: bytes)
    requires forall i :: 0 <= i < |pairs| ==> PrintablePair(pairs[i])
    ensures DecodeOpenPairs(PrintPairs(pairs) + ([0xff] + rest)) == Some((pairs, rest))
    decreases pairs, 0
  {
    hide Decode, Print;
    var s := PrintPairs(pairs) + ([0xff] + rest);
    if pairs == [] {
      assert s == [0xff] + rest && s[1..] == rest;
    } else {
      var more := PrintPairs(pairs[1..]) + ([0xff] + rest);
      assert s == PrintPair(pairs[0]) + more;
      PairPrinted(pairs[0], more);
      OpenPairsPrinted(pairs[1..], rest);
      assert [pairs[0]] + pairs[1..] == pairs;
    }
  }

  lemma {:induction false} ChunksPrinted(major: nat, chunks: seq<bytes>, rest: bytes)
    requires Printable(Chunks(major, chunks))
    ensures DecodeChunks(major, PrintChunks(major, chunks) + ([0xff] + rest)) == Some((chunks, rest))
    decreases |chunks|
  {
    hide ReadHead, LongHead;
    var s := PrintChunks(major, chunks) + ([0xff] + rest);
    if chunks == [] {
      assert s == [0xff] + rest && s[1..] == rest;
    } else {
      var c := chunks[0];
      var more := PrintChunks(major, chunks[1..]) + ([0xff] + rest);
      assert s == LongHead(major, |c|) + c + more;
      StringPrinted(major, c, more);
      ReadLongHead(major, |c|, []);
      ChunksPrinted(major, chunks[1..], rest);
      assert [c] + chunks[1..] == chunks;
    }
  }

  lemma OpenChunks(major: nat, chunks: seq<bytes>, rest: bytes)
    requires Printable(Chunks(major, chunks))
    ensures Decode(Print(Chunks(major, chunks)) + rest) == Some((Chunks(major, chunks), rest))
  {
    hide ReadHead, PrintChunks, DecodeChunks;
    var s := Print(Chunks(major, chunks)) + rest;
    assert s[0] == major * 32 + 31 && s[1..] == PrintChunks(major, chunks) + ([0xff] + rest);
    NoHead(s);
    ChunksPrinted(major, chunks, rest);
  }

  lemma OpenArrayDecodes(items: seq<Item>, rest: bytes)
    requires Printable(OpenArray(items))
    requires DecodeOpenItems(PrintItems(items) + ([0xff] + rest)) == Some((items, rest))
    ensures Decode(Print(OpenArray(items)) + rest) == Some((OpenArray(items), rest))
  {
    hide DecodeOpenItems, PrintItems, ReadHead;
    var s := Print(OpenArray(items)) + rest;
    assert s[0] == 0x9f && s[1..] == PrintItems(items) + ([0xff] + rest);
    NoHead(s);
  }

  lemma OpenMapDecodes(pairs: seq<Pair>, rest: bytes)
    requires Printable(OpenMap(pairs))
    requires DecodeOpenPairs(PrintPairs(pairs) + ([0xff] + rest)) == Some((pairs, rest))
    ensures Decode(Print(OpenMap(pairs)) + rest) == Some((OpenMap(pairs), rest))
  {
    hide DecodeOpenPairs, PrintPairs, ReadHead;
    var s := Print(OpenMap(pairs)) + rest;
    assert s[0] == 0xbf && s[1..] == PrintPairs(pairs) + ([0xff] + rest);
    NoHead(s);
  }

  // The test tool's encoder among them

  /** What the encoder prints is what the reference prints. */
  lemma {:induction false} EncodeIsPrint(v: Item)
    requires Encode(v).Some?
    ensures Printable(v) && Print(v) == Encode(v).value
    decreases v, 1
  {
    hide Head, Octets;
    match v
    case Map(pairs) => EncodePairsIsPrint(pairs);
    case _ =>
  }

  lemma {:induction false} EncodePairsIsPrint(pairs: seq<Pair>)
    requires EncodePairs(pairs).Some?
    ensures forall i :: 0 <= i < |pairs| ==> PrintablePair(pairs[i])
    ensures PrintPairs(pairs) == EncodePairs(pairs).value
    decreases pairs, 0
  {
    hide Encode, Print, Printable;
    if pairs != [] {
      EncodePairIsPrint(pairs[0]);
      EncodePairsIsPrint(pairs[1..]);
      forall i | 0 <= i < |pairs| ensures PrintablePair(pairs[i]) {
        assert i > 0 ==> pairs[i] == pairs[1..][i - 1];
      }
    }
  }

  lemma EncodePairIsPrint(p: Pair)
    requires EncodePair(p).Some?
    ensures PrintablePair(p) && PrintPair(p) == EncodePair(p).value
    decreases p, 2
  {
    hide Encode, Print, Printable;
    EncodeIsPrint(p.key);
    EncodeIsPrint(p.value);
  }

  // Examples of Appendix A of RFC 8949, octet by octet

  lemma ArrayExample()
    ensures Print(Array([UInt(1), UInt(2), UInt(3)])) == [0x83, 0x01, 0x02, 0x03]
  {
    ThreeItems();
    hide PrintItems;
  }

  lemma EmptyExample()
    ensures Print(OpenArray([])) == [0x9f, 0xff]
  {
    assert PrintItems([]) == [];
  }

  lemma ChunksExample()
    ensures Print(Chunks(2, [[1, 2], [3, 4, 5]])) == [0x5f, 0x42, 0x01, 0x02, 0x43, 0x03, 0x04, 0x05, 0xff]
  {
    TwoChunks();
    hide PrintChunks;
  }

  lemma NumberExamples()
    ensures Print(Simple(20)) == [0xf4] && Print(Simple(255)) == [0xf8, 0xff]
    ensures Printable(Float(2, 0x3c00)) && Print(Float(2, 0x3c00)) == [0xf9, 0x3c, 0x00]
    ensures Print(UInt(1000000000000)) == [0x1b, 0x00, 0x00, 0x00, 0xe8, 0xd4, 0xa5, 0x10, 0x00]
  {
    EightOctets();
    assert Octets(0x3c00, 2) == [0x3c, 0x00] by { assert Octets(0x3c, 1) == [0x3c]; }
    Pow8();
    hide Octets, Pow256;
  }

  lemma TagExample()
    ensures Print(Tag(1, UInt(1363896240))) == [0xc1, 0x1a, 0x51, 0x4b, 0x67, 0xb0]
  {
    hide Octets;
  }

  lemma ThreeItems()
    ensures PrintItems([UInt(1), UInt(2), UInt(3)]) == [0x01, 0x02, 0x03]
  {
    var items := [UInt(1), UInt(2), UInt(3)];
    assert items[1..] == [UInt(2), UInt(3)] && items[1..][1..] == [UInt(3)] && items[1..][1..][1..] == [];
    assert PrintItems([UInt(3)]) == [0x03];
    assert PrintItems([UInt(2), UInt(3)]) == [0x02] + [0x03];
  }

  lemma TwoChunks()
    ensures PrintChunks(2, [[1, 2], [3, 4, 5]]) == [0x42, 0x01, 0x02, 0x43, 0x03, 0x04, 0x05]
  {
    var chunks: seq<bytes> := [[1, 2], [3, 4, 5]];
    assert chunks[1..] == [[3, 4, 5]] && chunks[1..][1..] == [];
    assert PrintChunks(2, [[3, 4, 5]]) == [0x43] + [3, 4, 5] + [];
  }

  lemma EightOctets()
    ensures Octets(1000000000000, 8) == [0x00, 0x00, 0x00, 0xe8, 0xd4, 0xa5, 0x10, 0x00]
  {
    assert Octets(0, 1) == [0x00];
    assert Octets(0, 2) == [0x00, 0x00];
    assert Octets(0, 3) == [0x00, 0x00, 0x00];
    assert Octets(0xe8, 4) == [0x00, 0x00, 0x00, 0xe8];
    assert Octets(0xe8d4, 5) == [0x00, 0x00, 0x00, 0xe8, 0xd4];
    assert Octets(0xe8d4a5, 6) == [0x00, 0x00, 0x00, 0xe8, 0xd4, 0xa5];
    assert Octets(0xe8d4a510, 7) == [0x00, 0x00, 0x00, 0xe8, 0xd4, 0xa5, 0x10];
  }
}
