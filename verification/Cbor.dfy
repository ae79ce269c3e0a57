/** CBOR: the encoder of t/data/webauthn_tool.py, and a decoder written from
    section 3 of RFC 8949, for all major types and for definite and indefinite
    lengths, that stands for libcbor's cbor_load. */
module Cbor {
  import opened Prelude

  /** A data item. A Python int i is IntItem(i); a Python dict is its item list
      in insertion order. */
  datatype Item =
    | UInt(n: nat)
    | NegInt(n: nat)
    | ByteString(b: bytes)
    | TextString(t: bytes)
    | Array(items: seq<Item>)
    | Map(pairs: seq<Pair>)
    | Chunks(major: nat, chunks: seq<bytes>) // a string of indefinite length
    | OpenArray(items: seq<Item>)            // of indefinite length
    | OpenMap(pairs: seq<Pair>)              // of indefinite length
    | Tag(tag: nat, content: Item)
    | Simple(value: nat)
    | Float(width: nat, bits: nat)

  datatype Pair = Pair(key: Item, value: Item)

  /** The pairs of a map, of definite length or not. */
  function PairsOf(v: Item): Option<seq<Pair>> {
    match v
    case Map(pairs) => Some(pairs)
    case OpenMap(pairs) => Some(pairs)
    case _ => None
  }

  /** The items of an array, of definite length or not. */
  function ItemsOf(v: Item): Option<seq<Item>> {
    match v
    case Array(items) => Some(items)
    case OpenArray(items) => Some(items)
    case _ => None
  }

  function IntItem(i: int): Item {
    if i >= 0 then UInt(i) else NegInt(-1 - i)
  }

  // Encoder

  /** _cbor_head: None stands for its ValueError. */
  function Head(major: nat, n: nat): (h: Option<bytes>)
    requires major < 8
    ensures h.Some? <==> n < 0x1_0000_0000
  {
    var mt := major * 32;
    if n < 24 then Some([mt + n])
    else if n < 0x100 then Some([mt + 24, n])
    else if n < 0x1_0000 then Some([mt + 25, n / 256, n % 256])
    else if n < 0x1_0000_0000
    then Some([mt + 26, n / 0x100_0000, n / 0x1_0000 % 256, n / 256 % 256, n % 256])
    else None
  }

  function Concat(a: Option<bytes>, b: Option<bytes>): Option<bytes> {
    if a.Some? && b.Some? then Some(a.value + b.value) else None
  }

  /** What `cbor` returns; None for its exceptions. */
  function Encode(v: Item): Option<bytes>
    decreases v, 1
  {
    match v
    case UInt(n) => Head(0, n)
    case NegInt(n) => Head(1, n)
    case ByteString(b) => Concat(Head(2, |b|), Some(b))
    case TextString(t) => Concat(Head(3, |t|), Some(t))
    case Map(pairs) => Concat(Head(5, |pairs|), EncodePairs(pairs))
    case _ => None
  }

  function EncodePairs(pairs: seq<Pair>): Option<bytes>
    decreases pairs, 0
  {
    if pairs == [] then Some([])
    else Concat(EncodePair(pairs[0]), EncodePairs(pairs[1..]))
  }

  function EncodePair(p: Pair): Option<bytes>
    decreases p, 2
  {
    Concat(Encode(p.key), Encode(p.value))
  }

  lemma {:induction false} EncodePairsAppend(ps: seq<Pair>, qs: seq<Pair>)
    ensures EncodePairs(ps + qs) == Concat(EncodePairs(ps), EncodePairs(qs))
    decreases |ps|
  {
    if ps == [] {
      assert ps + qs == qs;
      assert EncodePairs(qs).Some? ==> [] + EncodePairs(qs).value == EncodePairs(qs).value;
    } else {
      EncodePairsAppend(ps[1..], qs);
      assert (ps + qs)[0] == ps[0] && (ps + qs)[1..] == ps[1..] + qs;
      ConcatAssociative(EncodePair(ps[0]), EncodePairs(ps[1..]), EncodePairs(qs));
    }
  }

  lemma ConcatAssociative(a: Option<bytes>, b: Option<bytes>, c: Option<bytes>)
    ensures Concat(Concat(a, b), c) == Concat(a, Concat(b, c))
  {
    if a.Some? && b.Some? && c.Some? {
      assert a.value + b.value + c.value == a.value + (b.value + c.value);
    }
  }

  /** The recursive printer with its dict loop, t/data/webauthn_tool.py:71. */
  method Cbor(v: Item) returns (out: Option<bytes>)
    ensures out == Encode(v)
    decreases v
  {
    match v {
      case UInt(n) =>
        out := Head(0, n);
      case NegInt(n) =>
        out := Head(1, n);
      case ByteString(b) =>
        out := Concat(Head(2, |b|), Some(b));
      case TextString(t) =>
        out := Concat(Head(3, |t|), Some(t));
      case Map(pairs) =>
        out := Head(5, |pairs|);
        assert pairs[..0] == [] && (out.Some? ==> out.value + [] == out.value);
        var i := 0;
        while i < |pairs|
          invariant 0 <= i <= |pairs|
          invariant out == Concat(Head(5, |pairs|), EncodePairs(pairs[..i]))
        {
          var key := Cbor(pairs[i].key);
          var value := Cbor(pairs[i].value);
          out := Concat(out, Concat(key, value));
          assert pairs[..i + 1] == pairs[..i] + [pairs[i]];
          EncodePairsAppend(pairs[..i], [pairs[i]]);
          EncodeOnePair(pairs[i]);
          ConcatAssociative(Head(5, |pairs|), EncodePairs(pairs[..i]), Concat(key, value));
          i := i + 1;
        }
        assert pairs[..i] == pairs;
      case _ =>
        out := None;
    }
  }

  lemma EncodeOnePair(p: Pair)
    ensures EncodePairs([p]) == EncodePair(p)
  {
    assert [p][1..] == [];
    var e := EncodePair(p);
    assert e.Some? ==> e.value + [] == e.value;
  }

  // Decoder

  datatype HeadRead = HeadRead(major: nat, n: nat, rest: bytes)

  function BigEndian(s: bytes): nat {
    if s == [] then 0 else BigEndian(s[..|s| - 1]) * 256 + s[|s| - 1]
  }

  /** How many octets of argument follow an initial octet with this additional
      information; None where it is reserved or means an indefinite length. */
  function ArgumentWidth(info: nat): (w: Option<nat>)
    ensures w.Some? ==> w.value <= 8
  {
    if info < 24 then Some(0)
    else if info == 24 then Some(1)
    else if info == 25 then Some(2)
    else if info == 26 then Some(4)
    else if info == 27 then Some(8)
    else None
  }

  /** Initial octet and argument, section 3 of RFC 8949. */
  function ReadHead(s: bytes): (r: Option<HeadRead>)
    ensures r.Some? ==> |r.value.rest| < |s| && r.value.major < 8
  {
    if s == [] then None
    else
      var info := s[0] % 32;
      var w := ArgumentWidth(info);
      if w.None? || |s| < 1 + w.value then None
      else
        var n := if w.value == 0 then info else BigEndian(s[1..1 + w.value]);
        Some(HeadRead(s[0] / 32, n, s[1 + w.value..]))
  }

  const BREAK: byte := 0xff

  /** One item and what follows it. */
  function Decode(s: bytes): (r: Option<(Item, bytes)>)
    ensures r.Some? ==> |r.value.1| < |s|
    decreases |s|, 1
  {
    var h := ReadHead(s);
    if h.None? then if s != [] && s[0] % 32 == 31 then DecodeOpen(s) else None
    else
      var HeadRead(major, n, rest) := h.value;
      if major == 0 then Some((UInt(n), rest))
      else if major == 1 then Some((NegInt(n), rest))
      else if major == 2 && n <= |rest| then Some((ByteString(rest[..n]), rest[n..]))
      else if major == 3 && n <= |rest| then Some((TextString(rest[..n]), rest[n..]))
      else if major == 4 then
        var items := DecodeItems(n, rest);
        if items.None? then None else Some((Array(items.value.0), items.value.1))
      else if major == 5 then
        var pairs := DecodePairs(n, rest);
        if pairs.None? then None else Some((Map(pairs.value.0), pairs.value.1))
      else if major == 6 then
        var content := Decode(rest);
        if content.None? then None else Some((Tag(n, content.value.0), content.value.1))
      else if major == 7 then
        var info := s[0] % 32;
        if info > 24 then Some((Float(ArgumentWidth(info).value, n), rest))
        else if info < 24 || n >= 32 then Some((Simple(n), rest))
        else None
      else None
  }

  /** An item of indefinite length: chunks, items or pairs up to a break. */
  function DecodeOpen(s: bytes): (r: Option<(Item, bytes)>)
    requires s != []
    ensures r.Some? ==> |r.value.1| < |s|
    decreases |s|, 0
  {
    var major, rest := s[0] / 32, s[1..];
    if major == 2 || major == 3 then
      var chunks := DecodeChunks(major, rest);
      if chunks.None? then None else Some((Chunks(major, chunks.value.0), chunks.value.1))
    else if major == 4 then
      var items := DecodeOpenItems(rest);
      if items.None? then None else Some((OpenArray(items.value.0), items.value.1))
    else if major == 5 then
      var pairs := DecodeOpenPairs(rest);
      if pairs.None? then None else Some((OpenMap(pairs.value.0), pairs.value.1))
    else None
  }

  /** Chunks are definite strings of the same major type. */
  function DecodeChunks(major: nat, s: bytes): (r: Option<(seq<bytes>, bytes)>)
    ensures r.Some? ==> |r.value.1| < |s|
    decreases |s|, 2
  {
    if s == [] then None
    else if s[0] == BREAK then Some(([], s[1..]))
    else
      var h := ReadHead(s);
      if h.None? || h.value.major != major || h.value.n > |h.value.rest| then None
      else
        var others := DecodeChunks(major, h.value.rest[h.value.n..]);
        if others.None? then None
        else Some(([h.value.rest[..h.value.n]] + others.value.0, others.value.1))
  }

  function DecodeOpenItems(s: bytes): (r: Option<(seq<Item>, bytes)>)
    ensures r.Some? ==> |r.value.1| < |s|
    decreases |s|, 2
  {
    if s == [] then None
    else if s[0] == BREAK then Some(([], s[1..]))
    else
      var first := Decode(s);
      if first.None? then None
      else
        var others := DecodeOpenItems(first.value.1);
        if others.None? then None
        else Some(([first.value.0] + others.value.0, others.value.1))
  }

  function DecodeOpenPairs(s: bytes): (r: Option<(seq<Pair>, bytes)>)
    ensures r.Some? ==> |r.value.1| < |s|
    decreases |s|, 2
  {
    if s == [] then None
    else if s[0] == BREAK then Some(([], s[1..]))
    else
      var key := Decode(s);
      if key.None? then None
      else
        var value := Decode(key.value.1);
        if value.None? then None
        else
          var others := DecodeOpenPairs(value.value.1);
          if others.None? then None
          else Some(([Pair(key.value.0, value.value.0)] + others.value.0, others.value.1))
  }

  function DecodeItems(n: nat, s: bytes): (r: Option<(seq<Item>, bytes)>)
    ensures r.Some? ==> |r.value.1| <= |s| && |r.value.0| == n
    decreases |s|, 2
  {
    if n == 0 then Some(([], s))
    else
      var first := Decode(s);
      if first.None? then None
      else
        var others := DecodeItems(n - 1, first.value.1);
        if others.None? then None
        else Some(([first.value.0] + others.value.0, others.value.1))
  }

  function DecodePairs(n: nat, s: bytes): (r: Option<(seq<Pair>, bytes)>)
    ensures r.Some? ==> |r.value.1| <= |s| && |r.value.0| == n
    decreases |s|, 2
  {
    if n == 0 then Some(([], s))
    else
      var key := Decode(s);
      if key.None? then None
      else
        var value := Decode(key.value.1);
        if value.None? then None
        else
          var others := DecodePairs(n - 1, value.value.1);
          if others.None? then None
          else Some(([Pair(key.value.0, value.value.0)] + others.value.0, others.value.1))
  }

  // Heads

  lemma BigEndian1(a: byte)
    ensures BigEndian([a]) == a
  {
    assert [a][..0] == [];
  }

  lemma BigEndian2(a: byte, b: byte)
    ensures BigEndian([a, b]) == a * 256 + b
  {
    assert [a, b][..1] == [a];
    BigEndian1(a);
  }

  lemma BigEndian4(a: byte, b: byte, c: byte, d: byte)
    ensures BigEndian([a, b, c, d]) == a * 0x100_0000 + b * 0x1_0000 + c * 256 + d
  {
    assert [a, b, c, d][..3] == [a, b, c];
    assert [a, b, c][..2] == [a, b];
    BigEndian2(a, b);
  }

  lemma Split4(n: nat)
    requires n < 0x1_0000_0000
    ensures n / 0x100_0000 * 0x100_0000 + n / 0x1_0000 % 256 * 0x1_0000 + n / 256 % 256 * 256 + n % 256 == n
    ensures n / 0x100_0000 < 256
  {
    assert n / 0x1_0000 / 256 == n / 0x100_0000;
    assert n / 256 / 256 == n / 0x1_0000;
  }

  lemma ReadHeadOfHead(major: nat, n: nat, rest: bytes)
    requires major < 8 && n < 0x1_0000_0000
    ensures ReadHead(Head(major, n).value + rest) == Some(HeadRead(major, n, rest))
  {
    var h := Head(major, n).value;
    var s := h + rest;
    assert s[0] == h[0] && s[|h|..] == rest && s[1..|h|] == h[1..];
    if n >= 0x1_0000 {
      Split4(n);
      BigEndian4(h[1], h[2], h[3], h[4]);
      assert h[1..] == [h[1], h[2], h[3], h[4]];
    } else if n >= 0x100 {
      BigEndian2(h[1], h[2]);
      assert h[1..] == [h[1], h[2]];
    } else if n >= 24 {
      BigEndian1(n);
      assert h[1..] == [n];
    }
  }

  lemma {:induction false} BigEndianBound(s: bytes)
    ensures |s| == 1 ==> BigEndian(s) < 0x100
    ensures |s| == 2 ==> BigEndian(s) < 0x1_0000
  {
    if |s| == 1 {
      BigEndian1(s[0]);
      assert s == [s[0]];
    } else if |s| == 2 {
      BigEndian2(s[0], s[1]);
      assert s == [s[0], s[1]];
    }
  }

  /** The octets of a head, from the fields it reads as. */
  lemma HeadOctets(s: bytes)
    requires ReadHead(s).Some?
    ensures var HeadRead(major, n, rest) := ReadHead(s).value;
            var info := s[0] % 32;
            && ArgumentWidth(info).Some?
            && var w := ArgumentWidth(info).value;
            && s[0] == major * 32 + info
            && |s| == 1 + w + |rest|
            && s == [s[0]] + s[1..1 + w] + rest
            && n == if w == 0 then info else BigEndian(s[1..1 + w])
  {
  }

  lemma ArgumentOctets(a: bytes)
    ensures |a| == 1 ==> a == [BigEndian(a)]
    ensures |a| == 2 ==> a == [BigEndian(a) / 256, BigEndian(a) % 256]
    ensures |a| == 4 ==>
              var n := BigEndian(a);
              a == [n / 0x100_0000, n / 0x1_0000 % 256, n / 256 % 256, n % 256]
  {
    if |a| == 1 {
      BigEndian1(a[0]);
      assert a == [a[0]];
    } else if |a| == 2 {
      BigEndian2(a[0], a[1]);
      assert a == [a[0], a[1]];
    } else if |a| == 4 {
      BigEndian4(a[0], a[1], a[2], a[3]);
      assert a == [a[0], a[1], a[2], a[3]];
      Digits4(a[0], a[1], a[2], a[3]);
    }
  }

  lemma Digits4(a: byte, b: byte, c: byte, d: byte)
    ensures var n := a * 0x100_0000 + b * 0x1_0000 + c * 256 + d;
            n / 0x100_0000 == a && n / 0x1_0000 % 256 == b && n / 256 % 256 == c && n % 256 == d
  {
    var n := a * 0x100_0000 + b * 0x1_0000 + c * 256 + d;
    assert n / 256 == a * 0x1_0000 + b * 256 + c;
    assert n / 0x1_0000 == a * 256 + b;
    assert n / 0x100_0000 == a;
  }

  /** The encoder's head is the only shortest one that reads as (major, n). */
  lemma HeadIsShortest(s: bytes)
    requires ReadHead(s).Some? && ReadHead(s).value.n < 0x1_0000_0000
    ensures var HeadRead(major, n, rest) := ReadHead(s).value;
            var h := Head(major, n).value;
            && |h| + |rest| <= |s|
            && (|h| + |rest| == |s| ==> s == h + rest)
  {
    hide ReadHead, BigEndian;
    var HeadRead(major, n, rest) := ReadHead(s).value;
    HeadOctets(s);
    var arg := s[1..1 + ArgumentWidth(s[0] % 32).value];
    ArgumentOctets(arg);
    BigEndianBound(arg);
    HeadForm(major, n, s[0] % 32, arg);
  }

  lemma HeadForm(major: nat, n: nat, info: nat, arg: bytes)
    requires major < 8 && n < 0x1_0000_0000 && info < 32
    requires ArgumentWidth(info) == Some(|arg|)
    requires n == if |arg| == 0 then info else BigEndian(arg)
    ensures var h := Head(major, n).value;
            |h| <= 1 + |arg| && (|h| == 1 + |arg| ==> h == [major * 32 + info] + arg)
  {
    hide BigEndian;
    ArgumentOctets(arg);
    BigEndianBound(arg);
  }

  // Round trip

  lemma StringRoundTrip(major: nat, b: bytes, rest: bytes)
    requires major < 8 && |b| < 0x1_0000_0000
    ensures var s := Head(major, |b|).value + b + rest;
            && ReadHead(s) == Some(HeadRead(major, |b|, b + rest))
            && (b + rest)[..|b|] == b && (b + rest)[|b|..] == rest
  {
    ReadHeadOfHead(major, |b|, b + rest);
    assert Head(major, |b|).value + b + rest == Head(major, |b|).value + (b + rest);
  }

  /** Decoding inverts encoding on every value the encoder accepts, at any
      depth, and leaves exactly what follows. */
  lemma {:induction false} RoundTrip(v: Item, rest: bytes)
    requires Encode(v).Some?
    ensures Decode(Encode(v).value + rest) == Some((v, rest))
    decreases v, 1
  {
    hide ReadHead, Head;
    match v
    case UInt(n) => ReadHeadOfHead(0, n, rest);
    case NegInt(n) => ReadHeadOfHead(1, n, rest);
    case ByteString(b) => StringRoundTrip(2, b, rest);
    case TextString(t) => StringRoundTrip(3, t, rest);
    case Map(pairs) =>
      var body := EncodePairs(pairs).value;
      ReadHeadOfHead(5, |pairs|, body + rest);
      assert Encode(v).value + rest == Head(5, |pairs|).value + (body + rest);
      PairsRoundTrip(pairs, rest);
  }

  lemma {:induction false} PairsRoundTrip(pairs: seq<Pair>, rest: bytes)
    requires EncodePairs(pairs).Some?
    ensures DecodePairs(|pairs|, EncodePairs(pairs).value + rest) == Some((pairs, rest))
    decreases pairs, 0
  {
    hide Decode, Encode;
    if pairs == [] {
      assert EncodePairs(pairs).value + rest == rest;
    } else {
      var others := EncodePairs(pairs[1..]).value;
      assert EncodePairs(pairs).value + rest == EncodePair(pairs[0]).value + (others + rest);
      PairRoundTrip(pairs[0], others + rest);
      PairsRoundTrip(pairs[1..], rest);
      assert [pairs[0]] + pairs[1..] == pairs;
    }
  }

  lemma PairRoundTrip(p: Pair, rest: bytes)
    requires EncodePair(p).Some?
    ensures var s := EncodePair(p).value + rest;
            && Decode(s).Some? && Decode(s).value.0 == p.key
            && Decode(Decode(s).value.1) == Some((p.value, rest))
    decreases p, 2
  {
    hide Decode;
    var k, v := Encode(p.key).value, Encode(p.value).value;
    assert EncodePair(p).value + rest == k + (v + rest);
    RoundTrip(p.key, v + rest);
    RoundTrip(p.value, rest);
  }

  /** No encoding is a proper prefix of another, and encoding is injective. */
  lemma PrefixFree(u: Item, v: Item, x: bytes, y: bytes)
    requires Encode(u).Some? && Encode(v).Some?
    requires Encode(u).value + x == Encode(v).value + y
    ensures u == v && x == y
  {
    RoundTrip(u, x);
    RoundTrip(v, y);
  }

  // Trailing data

  lemma ReadHeadExtends(s: bytes, t: bytes)
    requires ReadHead(s).Some?
    ensures ReadHead(s + t) == Some(ReadHead(s).value.(rest := ReadHead(s).value.rest + t))
  {
    var w := ArgumentWidth(s[0] % 32).value;
    assert (s + t)[1..1 + w] == s[1..1 + w];
    assert (s + t)[1 + w..] == s[1 + w..] + t;
  }

  /** Octets after an item change neither the item nor its extent. */
  lemma {:induction false} DecodeExtends(s: bytes, t: bytes)
    requires Decode(s).Some?
    ensures Decode(s + t) == Some((Decode(s).value.0, Decode(s).value.1 + t))
    decreases |s|, 1
  {
    hide ReadHead, DecodeOpen;
    if ReadHead(s).None? {
      OpenExtends(s, t);
      return;
    }
    ReadHeadExtends(s, t);
    assert (s + t)[0] == s[0];
    var HeadRead(major, n, rest) := ReadHead(s).value;
    if major == 2 || major == 3 {
      assert (rest + t)[..n] == rest[..n];
      assert (rest + t)[n..] == rest[n..] + t;
    } else if major == 4 {
      DecodeItemsExtends(n, rest, t);
    } else if major == 5 {
      DecodePairsExtends(n, rest, t);
    } else if major == 6 {
      DecodeExtends(rest, t);
    }
  }

  lemma HeadStaysOpen(s: bytes, t: bytes)
    requires s != [] && s[0] % 32 == 31
    ensures ReadHead(s) == None && ReadHead(s + t) == None
  {
    assert (s + t)[0] == s[0];
  }

  lemma {:induction false} OpenExtends(s: bytes, t: bytes)
    requires s != [] && s[0] % 32 == 31 && DecodeOpen(s).Some?
    ensures Decode(s + t) == Some((DecodeOpen(s).value.0, DecodeOpen(s).value.1 + t))
    decreases |s|, 0
  {
    hide DecodeChunks, DecodeOpenItems, DecodeOpenPairs;
    HeadStaysOpen(s, t);
    assert (s + t)[0] == s[0] && (s + t)[1..] == s[1..] + t;
    var major, rest := s[0] / 32, s[1..];
    if major == 2 || major == 3 {
      ChunksExtend(major, rest, t);
    } else if major == 4 {
      OpenItemsExtend(rest, t);
    } else if major == 5 {
      OpenPairsExtend(rest, t);
    }
  }

  lemma {:induction false} ChunksExtend(major: nat, s: bytes, t: bytes)
    requires DecodeChunks(major, s).Some?
    ensures DecodeChunks(major, s + t)
         == Some((DecodeChunks(major, s).value.0, DecodeChunks(major, s).value.1 + t))
    decreases |s|, 2
  {
    hide ReadHead;
    assert (s + t)[0] == s[0];
    if s[0] == BREAK {
      assert (s + t)[1..] == s[1..] + t;
    } else {
      ReadHeadExtends(s, t);
      var n, rest := ReadHead(s).value.n, ReadHead(s).value.rest;
      assert (rest + t)[..n] == rest[..n] && (rest + t)[n..] == rest[n..] + t;
      ChunksExtend(major, rest[n..], t);
    }
  }

  lemma {:induction false} OpenItemsExtend(s: bytes, t: bytes)
    requires DecodeOpenItems(s).Some?
    ensures DecodeOpenItems(s + t) == Some((DecodeOpenItems(s).value.0, DecodeOpenItems(s).value.1 + t))
    decreases |s|, 2
  {
    hide Decode;
    assert (s + t)[0] == s[0];
    if s[0] == BREAK {
      assert (s + t)[1..] == s[1..] + t;
    } else {
      DecodeExtends(s, t);
      OpenItemsExtend(Decode(s).value.1, t);
    }
  }

  lemma {:induction false} OpenPairsExtend(s: bytes, t: bytes)
    requires DecodeOpenPairs(s).Some?
    ensures DecodeOpenPairs(s + t) == Some((DecodeOpenPairs(s).value.0, DecodeOpenPairs(s).value.1 + t))
    decreases |s|, 2
  {
    hide Decode;
    assert (s + t)[0] == s[0];
    if s[0] == BREAK {
      assert (s + t)[1..] == s[1..] + t;
    } else {
      DecodeExtends(s, t);
      var rest := Decode(s).value.1;
      DecodeExtends(rest, t);
      OpenPairsExtend(Decode(rest).value.1, t);
    }
  }

  lemma {:induction false} DecodeItemsExtends(n: nat, s: bytes, t: bytes)
    requires DecodeItems(n, s).Some?
    ensures DecodeItems(n, s + t) == Some((DecodeItems(n, s).value.0, DecodeItems(n, s).value.1 + t))
    decreases |s|, 2
  {
    if n > 0 {
      DecodeExtends(s, t);
      DecodeItemsExtends(n - 1, Decode(s).value.1, t);
    }
  }

  lemma {:induction false} DecodePairsExtends(n: nat, s: bytes, t: bytes)
    requires DecodePairs(n, s).Some?
    ensures DecodePairs(n, s + t) == Some((DecodePairs(n, s).value.0, DecodePairs(n, s).value.1 + t))
    decreases |s|, 2
  {
    hide Decode;
    if n > 0 {
      DecodeExtends(s, t);
      var r := Decode(s).value.1;
      DecodeExtends(r, t);
      DecodePairsExtends(n - 1, Decode(r).value.1, t);
    }
  }

  // Shortest form

  /** Of all the octet strings that decode to a value, the encoder's is the
      single shortest: anything as short is the encoding itself. */
  lemma {:induction false} EncodingIsShortest(s: bytes)
    requires Decode(s).Some? && Encode(Decode(s).value.0).Some?
    ensures var (v, rest) := Decode(s).value;
            var e := Encode(v).value;
            && |e| + |rest| <= |s|
            && (|e| + |rest| == |s| ==> s == e + rest)
    decreases |s|, 1
  {
    hide ReadHead, Head, DecodeOpen;
    if ReadHead(s).None? {
      OpenIsNotEncoded(s);
    }
    var HeadRead(major, n, r) := ReadHead(s).value;
    HeadIsShortest(s);
    var h := Head(major, n).value;
    var (v, rest) := Decode(s).value;
    if major == 2 || major == 3 {
      assert r == r[..n] + r[n..];
      assert h + r == h + r[..n] + rest;
    } else if major == 5 {
      PairsAreShortest(n, r);
      var body := EncodePairs(v.pairs).value;
      assert h + (body + rest) == h + body + rest;
    }
  }

  /** Nothing of indefinite length is a value the encoder prints. */
  lemma OpenIsNotEncoded(s: bytes)
    requires s != [] && DecodeOpen(s).Some?
    ensures Encode(DecodeOpen(s).value.0) == None
  {
  }

  lemma Chain(a: bytes, b: bytes, c: bytes, s: bytes, r: bytes, r2: bytes, rest: bytes)
    requires |a| + |r| <= |s| && (|a| + |r| == |s| ==> s == a + r)
    requires |b| + |r2| <= |r| && (|b| + |r2| == |r| ==> r == b + r2)
    requires |c| + |rest| <= |r2| && (|c| + |rest| == |r2| ==> r2 == c + rest)
    ensures |a + b + c| + |rest| <= |s|
    ensures |a + b + c| + |rest| == |s| ==> s == a + b + c + rest
  {
    if |a + b + c| + |rest| == |s| {
      assert a + (b + (c + rest)) == a + b + c + rest;
    }
  }

  lemma {:induction false} PairsAreShortest(n: nat, s: bytes)
    requires DecodePairs(n, s).Some? && EncodePairs(DecodePairs(n, s).value.0).Some?
    ensures var (pairs, rest) := DecodePairs(n, s).value;
            var e := EncodePairs(pairs).value;
            && |e| + |rest| <= |s|
            && (|e| + |rest| == |s| ==> s == e + rest)
    decreases |s|, 2
  {
    hide Decode, Encode;
    var (pairs, rest) := DecodePairs(n, s).value;
    if n > 0 {
      var (k, r) := Decode(s).value;
      var (v, r2) := Decode(r).value;
      var others := DecodePairs(n - 1, r2).value.0;
      assert pairs[0] == Pair(k, v) && pairs[1..] == others;
      EncodingIsShortest(s);
      EncodingIsShortest(r);
      PairsAreShortest(n - 1, r2);
      Chain(Encode(k).value, Encode(v).value, EncodePairs(others).value, s, r, r2, rest);
    } else {
      assert s == [] + s;
    }
  }
}
