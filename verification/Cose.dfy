/** COSE_Key extraction, src/ngx_auth_webauthn_cose.c (section 7 of RFC 8152),
    over the CBOR decoder. Building the OpenSSL key is an oracle. */
module Cose {
  import opened Cbor
  import opened Prelude

  const TWO_63 := 0x8000_0000_0000_0000
  const TWO_64 := 0x1_0000_0000_0000_0000

  /** cose_int: libcbor hands out a 64-bit argument, which the cast to int64_t
      wraps. */
  function CoseInt(item: Item): (v: Option<int>)
    ensures v.Some? <==> item.UInt? || item.NegInt?
    ensures v.Some? ==> INT64_MIN <= v.value <= INT64_MAX
  {
    match item
    case UInt(n) => Some(AsInt64(n))
    case NegInt(n) => Some(-1 - AsInt64(n))
    case _ => None
  }

  /** The integer a CBOR item denotes. */
  function Denotes(item: Item): Option<int> {
    match item
    case UInt(n) => Some(n)
    case NegInt(n) => Some(-1 - n)
    case _ => None
  }

  predicate Argument64(item: Item) {
    (item.UInt? || item.NegInt?) && item.n < TWO_64
  }

  /** The value is exact if and only if the argument is below 2^63; above it
      is off by 2^64, towards the other sign. */
  lemma CoseIntExact(item: Item)
    requires Argument64(item)
    ensures CoseInt(item) == Denotes(item) <==> item.n < TWO_63
    ensures item.n >= TWO_63 ==>
              CoseInt(item).value == Denotes(item).value + if item.UInt? then -TWO_64 else TWO_64
  {
  }

  /** So every int64 has exactly two spellings that the code takes for it. */
  lemma TwoSpellings(item: Item, v: int)
    requires Argument64(item) && INT64_MIN <= v <= INT64_MAX
    ensures CoseInt(item) == Some(v)
       <==> item == IntItem(v) || item == (if v < 0 then UInt(v + TWO_64) else NegInt(TWO_64 - 1 - v))
  {
  }

  /** The value of the last pair labelled so; earlier ones are overwritten. */
  function LastWith(pairs: seq<Pair>, v: int): Option<Item> {
    if pairs == [] then None
    else if CoseInt(pairs[|pairs| - 1].key) == Some(v) then Some(pairs[|pairs| - 1].value)
    else LastWith(pairs[..|pairs| - 1], v)
  }

  function IntWith(pairs: seq<Pair>, v: int): Option<int> {
    if LastWith(pairs, v).Some? then CoseInt(LastWith(pairs, v).value) else None
  }

  function BytesWith(pairs: seq<Pair>, v: int): Option<bytes> {
    match LastWith(pairs, v)
    case Some(ByteString(b)) => Some(b)
    case _ => None
  }

  /** What OpenSSL gets to build a key from. */
  datatype Key =
    | Ec2(point: bytes)
    | Okp(raw: bytes)
    | Rsa(n: bytes, e: bytes)

  const KTY := 1
  const ALG := 3
  const KTY_OKP := 1
  const KTY_EC2 := 2
  const KTY_RSA := 3
  const CRV_P256 := 1
  const CRV_ED25519 := 6
  const ES256 := -7
  const EDDSA := -8
  const RS256 := -257
  const COORD_LEN := 32

  function AlgOf(key: Key): int {
    match key
    case Ec2(_) => ES256
    case Okp(_) => EDDSA
    case Rsa(_, _) => RS256
  }

  /** A map that describes a supported key. */
  ghost predicate Describes(pairs: seq<Pair>, key: Key) {
    && IntWith(pairs, ALG) == Some(AlgOf(key))
    && match key
       case Ec2(point) =>
         && IntWith(pairs, KTY) == Some(KTY_EC2) && IntWith(pairs, -1) == Some(CRV_P256)
         && BytesWith(pairs, -2).Some? && |BytesWith(pairs, -2).value| == COORD_LEN
         && BytesWith(pairs, -3).Some? && |BytesWith(pairs, -3).value| == COORD_LEN
         && point == [4] + BytesWith(pairs, -2).value + BytesWith(pairs, -3).value
       case Okp(raw) =>
         && IntWith(pairs, KTY) == Some(KTY_OKP) && IntWith(pairs, -1) == Some(CRV_ED25519)
         && BytesWith(pairs, -2) == Some(raw) && |raw| == COORD_LEN
       case Rsa(n, e) =>
         IntWith(pairs, KTY) == Some(KTY_RSA) && BytesWith(pairs, -1) == Some(n) && BytesWith(pairs, -2) == Some(e)
  }

  lemma DescribesOne(pairs: seq<Pair>, k: Key, l: Key)
    requires Describes(pairs, k) && Describes(pairs, l)
    ensures k == l
  {
    hide IntWith, BytesWith;
  }

  /** The items the loop of cose_to_pkey collects. */
  datatype Slots = Slots(kty: Option<Item>, alg: Option<Item>, m1: Option<Item>, m2: Option<Item>, m3: Option<Item>)

  ghost predicate Collected(s: Slots, pairs: seq<Pair>) {
    && s.kty == LastWith(pairs, KTY) && s.alg == LastWith(pairs, ALG)
    && s.m1 == LastWith(pairs, -1) && s.m2 == LastWith(pairs, -2) && s.m3 == LastWith(pairs, -3)
  }

  method Collect(pairs: seq<Pair>) returns (s: Slots)
    ensures Collected(s, pairs)
  {
    s := Slots(None, None, None, None, None);
    for i := 0 to |pairs|
      invariant Collected(s, pairs[..i])
    {
      var key, value := CoseInt(pairs[i].key), pairs[i].value;
      assert pairs[..i + 1][..i] == pairs[..i];
      match key {
        case None =>
        case Some(v) =>
          if v == KTY {
            s := s.(kty := Some(value));
          } else if v == ALG {
            s := s.(alg := Some(value));
          } else if v == -1 {
            s := s.(m1 := Some(value));
          } else if v == -2 {
            s := s.(m2 := Some(value));
          } else if v == -3 {
            s := s.(m3 := Some(value));
          }
      }
    }
    assert pairs[..|pairs|] == pairs;
  }

  function SlotInt(slot: Option<Item>): Option<int> {
    if slot.Some? then CoseInt(slot.value) else None
  }

  function SlotBytes(slot: Option<Item>): Option<bytes> {
    match slot
    case Some(ByteString(b)) => Some(b)
    case _ => None
  }

  /** The dispatch on key type, up to OpenSSL. */
  method Interpret(s: Slots, ghost pairs: seq<Pair>) returns (key: Option<Key>)
    requires Collected(s, pairs)
    ensures key.Some? ==> Describes(pairs, key.value)
    ensures key.None? ==> forall k :: !Describes(pairs, k)
  {
    hide CoseInt, LastWith;
    var kty, alg := SlotInt(s.kty), SlotInt(s.alg);
    if kty.None? || alg.None? {
      return None;
    }
    if kty.value == KTY_EC2 {
      if alg.value != ES256 || SlotInt(s.m1) != Some(CRV_P256) {
        return None;
      }
      var x, y := SlotBytes(s.m2), SlotBytes(s.m3);
      if x.None? || y.None? || |x.value| != COORD_LEN || |y.value| != COORD_LEN {
        return None;
      }
      key := Some(Ec2([4] + x.value + y.value));
    } else if kty.value == KTY_OKP {
      if alg.value != EDDSA || SlotInt(s.m1) != Some(CRV_ED25519) {
        return None;
      }
      var x := SlotBytes(s.m2);
      if x.None? || |x.value| != COORD_LEN {
        return None;
      }
      key := Some(Okp(x.value));
    } else if kty.value == KTY_RSA {
      if alg.value != RS256 {
        return None;
      }
      var n, e := SlotBytes(s.m1), SlotBytes(s.m2);
      if n.None? || e.None? {
        return None;
      }
      key := Some(Rsa(n.value, e.value));
    } else {
      key := None;
    }
  }

  /** The first item of the octets is a map of these pairs. */
  ghost predicate StartsWithMap(cose: bytes, pairs: seq<Pair>) {
    Decode(cose).Some? && PairsOf(Decode(cose).value.0) == Some(pairs)
  }

  /** What cose_to_pkey answers: Error without a leading map or when OpenSSL
      refuses the key, Declined for a map that describes no supported key. */
  ghost predicate Answers(cose: bytes, loads: Key -> bool, r: Rc<Key>) {
    match r
    case Ok(key) => exists pairs :: StartsWithMap(cose, pairs) && Describes(pairs, key) && loads(key)
    case Declined => exists pairs :: StartsWithMap(cose, pairs) && forall k :: !Describes(pairs, k)
    case Error =>
      forall pairs :: StartsWithMap(cose, pairs) ==> exists k :: Describes(pairs, k) && !loads(k)
  }

  /** src/ngx_auth_webauthn_cose.c:237. */
  method ToKey(cose: bytes, loads: Key -> bool) returns (r: Rc<Key>)
    ensures Answers(cose, loads, r)
  {
    hide Decode, Describes, Collected;
    var root := Decode(cose);
    if root.None? || PairsOf(root.value.0).None? {
      return Error;
    }
    var pairs := PairsOf(root.value.0).value;
    assert StartsWithMap(cose, pairs);
    var slots := Collect(pairs);
    var key := Interpret(slots, pairs);
    if key.None? {
      return Declined;
    }
    r := if loads(key.value) then Ok(key.value) else Error;
  }

  /** There is one answer. */
  lemma AnswersOnce(cose: bytes, loads: Key -> bool, r: Rc<Key>, q: Rc<Key>)
    requires Answers(cose, loads, r) && Answers(cose, loads, q)
    ensures r == q
  {
    hide Decode, Describes;
    forall pairs, k, l | Describes(pairs, k) && Describes(pairs, l) ensures k == l { DescribesOne(pairs, k, l); }
  }

  /** Octets after the key do not matter, whatever they are. */
  lemma TrailingIgnored(cose: bytes, more: bytes, loads: Key -> bool, r: Rc<Key>)
    requires Decode(cose).Some?
    ensures Answers(cose + more, loads, r) <==> Answers(cose, loads, r)
  {
    hide Decode, Describes;
    DecodeExtends(cose, more);
    assert forall pairs :: StartsWithMap(cose + more, pairs) <==> StartsWithMap(cose, pairs);
  }

  // The test tool's printer

  function CoseKeyItem(x: bytes, y: bytes): Item {
    Map([Pair(IntItem(1), IntItem(KTY_EC2)), Pair(IntItem(3), IntItem(ES256)), Pair(IntItem(-1), IntItem(CRV_P256)),
         Pair(IntItem(-2), ByteString(x)), Pair(IntItem(-3), ByteString(y))])
  }

  /** cose_key, t/data/webauthn_tool.py:102. */
  method CoseKey(x: bytes, y: bytes) returns (cose: bytes)
    requires |x| == COORD_LEN && |y| == COORD_LEN
    ensures Encode(CoseKeyItem(x, y)) == Some(cose)
  {
    CoseKeyEncodes(x, y);
    var out := Cbor.Cbor(CoseKeyItem(x, y));
    cose := out.value;
  }

  lemma {:induction false} EncodeCons(p: Pair, ps: seq<Pair>)
    ensures EncodePairs([p] + ps) == Concat(EncodePair(p), EncodePairs(ps))
  {
    assert ([p] + ps)[1..] == ps;
  }

  /** The octets, as an authenticator would emit them. */
  function CoseKeyOctets(x: bytes, y: bytes): bytes {
    [0xa5] + [0x01, 0x02] + [0x03, 0x26] + [0x20, 0x01] + ([0x21] + [0x58, 0x20] + x) + ([0x22] + [0x58, 0x20] + y)
  }

  lemma SmallEncodes(i: int)
    requires -24 <= i < 24
    ensures Encode(IntItem(i)) == Some([if i >= 0 then i else 31 - i])
  {
  }

  lemma CoordEncodes(b: bytes)
    requires |b| == COORD_LEN
    ensures Encode(ByteString(b)) == Some([0x58, 0x20] + b)
  {
  }

  lemma CoseKeyEncodes(x: bytes, y: bytes)
    requires |x| == COORD_LEN && |y| == COORD_LEN
    ensures Encode(CoseKeyItem(x, y)) == Some(CoseKeyOctets(x, y))
  {
    hide Head, EncodePairs, IntItem, Encode, EncodePair;
    var p := CoseKeyItem(x, y).pairs;
    PairsEncode(x, y);
    EncodeNil();
    EncodeFive(p[0], p[1], p[2], p[3], p[4], [0x01, 0x02], [0x03, 0x26], [0x20, 0x01],
               [0x21] + [0x58, 0x20] + x, [0x22] + [0x58, 0x20] + y);
    assert p == [p[0], p[1], p[2], p[3], p[4]];
    EncodeMap(p);
    HeadFirst([0xa5], [0x01, 0x02], [0x03, 0x26], [0x20, 0x01], [0x21] + [0x58, 0x20] + x, [0x22] + [0x58, 0x20] + y);
  }

  lemma HeadFirst(h: bytes, a: bytes, b: bytes, c: bytes, d: bytes, e: bytes)
    ensures h + (a + b + c + d + e) == h + a + b + c + d + e
  {
  }

  lemma EncodeFive(p: Pair, q: Pair, r: Pair, s: Pair, t: Pair, a: bytes, b: bytes, c: bytes, d: bytes, e: bytes)
    requires EncodePair(p) == Some(a) && EncodePair(q) == Some(b) && EncodePair(r) == Some(c)
    requires EncodePair(s) == Some(d) && EncodePair(t) == Some(e)
    ensures EncodePairs([p, q, r, s, t]) == Some(a + b + c + d + e)
  {
    hide EncodePair, EncodePairs;
    EncodeNil();
    EncodeCons(t, []);
    EncodeCons(s, [t]);
    EncodeCons(r, [s, t]);
    EncodeCons(q, [r, s, t]);
    EncodeCons(p, [q, r, s, t]);
    assert [t] + [] == [t] && [s] + [t] == [s, t] && [r] + [s, t] == [r, s, t];
    assert [q] + [r, s, t] == [q, r, s, t] && [p] + [q, r, s, t] == [p, q, r, s, t];
    assert a + (b + (c + (d + (e + [])))) == a + b + c + d + e;
  }

  lemma EncodeFew(p: Pair, q: Pair, r: Pair)
    requires EncodePair(p).Some? && EncodePair(q).Some? && EncodePair(r).Some?
    ensures EncodePairs([p, q, r]).Some?
  {
    hide EncodePair, EncodePairs;
    EncodeNil();
    EncodeCons(r, []);
    EncodeCons(q, [r]);
    EncodeCons(p, [q, r]);
    assert [r] + [] == [r] && [q] + [r] == [q, r] && [p] + [q, r] == [p, q, r];
  }

  lemma EncodeNil()
    ensures EncodePairs([]) == Some([])
    ensures Head(5, 5) == Some([0xa5])
  {
  }

  lemma EncodeMap(p: seq<Pair>)
    ensures Encode(Map(p)) == Concat(Head(5, |p|), EncodePairs(p))
  {
    hide EncodePairs, Head;
  }

  lemma TwoOctets(a: byte, b: byte)
    ensures Concat(Some([a]), Some([b])) == Some([a, b])
  {
    assert [a] + [b] == [a, b];
  }

  lemma PairsEncode(x: bytes, y: bytes)
    requires |x| == COORD_LEN && |y| == COORD_LEN
    ensures var p := CoseKeyItem(x, y).pairs;
            && EncodePair(p[0]) == Some([0x01, 0x02]) && EncodePair(p[1]) == Some([0x03, 0x26])
            && EncodePair(p[2]) == Some([0x20, 0x01])
            && EncodePair(p[3]) == Some([0x21] + [0x58, 0x20] + x)
            && EncodePair(p[4]) == Some([0x22] + [0x58, 0x20] + y)
  {
    hide Encode, IntItem;
    SmallEncodes(1);
    SmallEncodes(KTY_EC2);
    SmallEncodes(3);
    SmallEncodes(ES256);
    SmallEncodes(-1);
    SmallEncodes(-2);
    SmallEncodes(-3);
    CoordEncodes(x);
    CoordEncodes(y);
    TwoOctets(0x01, 0x02);
    TwoOctets(0x03, 0x26);
    TwoOctets(0x20, 0x01);
    assert [0x21] + ([0x58, 0x20] + x) == [0x21] + [0x58, 0x20] + x;
    assert [0x22] + ([0x58, 0x20] + y) == [0x22] + [0x58, 0x20] + y;
  }

  lemma LastSnoc(pairs: seq<Pair>, p: Pair, v: int)
    ensures LastWith(pairs + [p], v) == if CoseInt(p.key) == Some(v) then Some(p.value) else LastWith(pairs, v)
  {
    assert (pairs + [p])[..|pairs|] == pairs;
  }

  lemma LastOfFive(a: Pair, b: Pair, c: Pair, d: Pair, e: Pair, v: int)
    ensures LastWith([a, b, c, d, e], v)
         == if CoseInt(e.key) == Some(v) then Some(e.value) else if CoseInt(d.key) == Some(v) then Some(d.value)
            else if CoseInt(c.key) == Some(v) then Some(c.value) else if CoseInt(b.key) == Some(v) then Some(b.value)
            else if CoseInt(a.key) == Some(v) then Some(a.value) else None
  {
    hide CoseInt;
    LastSnoc([], a, v);
    LastSnoc([a], b, v);
    LastSnoc([a, b], c, v);
    LastSnoc([a, b, c], d, v);
    LastSnoc([a, b, c, d], e, v);
    assert [] + [a] == [a] && [a] + [b] == [a, b] && [a, b] + [c] == [a, b, c];
    assert [a, b, c] + [d] == [a, b, c, d] && [a, b, c, d] + [e] == [a, b, c, d, e];
  }

  lemma CoseKeyDescribes(x: bytes, y: bytes)
    requires |x| == COORD_LEN && |y| == COORD_LEN
    ensures Describes(CoseKeyItem(x, y).pairs, Ec2([4] + x + y))
  {
    hide LastWith;
    var p := CoseKeyItem(x, y).pairs;
    assert CoseInt(p[0].key) == Some(KTY) && CoseInt(p[1].key) == Some(ALG) && CoseInt(p[2].key) == Some(-1);
    assert CoseInt(p[3].key) == Some(-2) && CoseInt(p[4].key) == Some(-3);
    assert CoseInt(p[0].value) == Some(KTY_EC2) && CoseInt(p[1].value) == Some(ES256);
    assert CoseInt(p[2].value) == Some(CRV_P256) && p[3].value == ByteString(x) && p[4].value == ByteString(y);
    hide CoseInt, IntItem;
    LastOfFive(p[0], p[1], p[2], p[3], p[4], KTY);
    LastOfFive(p[0], p[1], p[2], p[3], p[4], ALG);
    LastOfFive(p[0], p[1], p[2], p[3], p[4], -1);
    LastOfFive(p[0], p[1], p[2], p[3], p[4], -2);
    LastOfFive(p[0], p[1], p[2], p[3], p[4], -3);
    assert p == [p[0], p[1], p[2], p[3], p[4]];
  }

  /** A key printed by the tool is extracted as its point, with or without
      octets after it. */
  lemma CoseKeyRoundTrip(x: bytes, y: bytes, more: bytes, loads: Key -> bool)
    requires |x| == COORD_LEN && |y| == COORD_LEN
    ensures Encode(CoseKeyItem(x, y)).Some?
    ensures var key := Ec2([4] + x + y);
            Answers(Encode(CoseKeyItem(x, y)).value + more, loads, if loads(key) then Ok(key) else Error)
  {
    hide Decode, Encode, Describes, CoseKeyOctets;
    var v, key := CoseKeyItem(x, y), Ec2([4] + x + y);
    CoseKeyEncodes(x, y);
    RoundTrip(v, more);
    CoseKeyDescribes(x, y);
    var cose := Encode(v).value + more;
    assert StartsWithMap(cose, v.pairs);
  }

  // The other two key types, as section 13.2 of RFC 8152 and section 4 of RFC 8230 write them

  /** OKP, EdDSA over Ed25519: {1: 1, 3: -8, -1: 6, -2: x}. */
  function OkpKeyItem(x: bytes): Item {
    Map([Pair(UInt(1), UInt(1)), Pair(UInt(3), NegInt(7)), Pair(NegInt(0), UInt(6)), Pair(NegInt(1), ByteString(x))])
  }

  /** RSA, RS256: {1: 3, 3: -257, -1: n, -2: e}. */
  function RsaKeyItem(n: bytes, e: bytes): Item {
    Map([Pair(UInt(1), UInt(3)), Pair(UInt(3), NegInt(256)), Pair(NegInt(0), ByteString(n)),
         Pair(NegInt(1), ByteString(e))])
  }

  lemma LastOfFour(a: Pair, b: Pair, c: Pair, d: Pair, v: int)
    ensures LastWith([a, b, c, d], v)
         == if CoseInt(d.key) == Some(v) then Some(d.value) else if CoseInt(c.key) == Some(v) then Some(c.value)
            else if CoseInt(b.key) == Some(v) then Some(b.value) else if CoseInt(a.key) == Some(v) then Some(a.value)
            else None
  {
    hide CoseInt;
    LastSnoc([], a, v);
    LastSnoc([a], b, v);
    LastSnoc([a, b], c, v);
    LastSnoc([a, b, c], d, v);
    assert [] + [a] == [a] && [a] + [b] == [a, b] && [a, b] + [c] == [a, b, c] && [a, b, c] + [d] == [a, b, c, d];
  }

  lemma FourLabels(a: Item, b: Item, c: Item, d: Item)
    ensures var p := [Pair(UInt(1), a), Pair(UInt(3), b), Pair(NegInt(0), c), Pair(NegInt(1), d)];
            && LastWith(p, 1) == Some(a) && LastWith(p, 3) == Some(b)
            && LastWith(p, -1) == Some(c) && LastWith(p, -2) == Some(d)
  {
    hide LastWith;
    LastOfFour(Pair(UInt(1), a), Pair(UInt(3), b), Pair(NegInt(0), c), Pair(NegInt(1), d), 1);
    LastOfFour(Pair(UInt(1), a), Pair(UInt(3), b), Pair(NegInt(0), c), Pair(NegInt(1), d), 3);
    LastOfFour(Pair(UInt(1), a), Pair(UInt(3), b), Pair(NegInt(0), c), Pair(NegInt(1), d), -1);
    LastOfFour(Pair(UInt(1), a), Pair(UInt(3), b), Pair(NegInt(0), c), Pair(NegInt(1), d), -2);
  }

  /** Every supported key, printed as its standard writes it and followed by
      anything, is extracted as what it was made of. */
  lemma OkpKeyRoundTrip(x: bytes, more: bytes, loads: Key -> bool)
    requires |x| == 32
    ensures Encode(OkpKeyItem(x)).Some?
    ensures Answers(Encode(OkpKeyItem(x)).value + more, loads, if loads(Okp(x)) then Ok(Okp(x)) else Error)
  {
    hide Decode, Encode, Describes;
    var v := OkpKeyItem(x);
    FourEncode(UInt(1), NegInt(7), UInt(6), ByteString(x));
    RoundTrip(v, more);
    OkpDescribes(x);
    assert StartsWithMap(Encode(v).value + more, v.pairs);
  }

  lemma RsaKeyRoundTrip(n: bytes, e: bytes, more: bytes, loads: Key -> bool)
    requires |n| < 0x1_0000_0000 && |e| < 0x1_0000_0000
    ensures Encode(RsaKeyItem(n, e)).Some?
    ensures Answers(Encode(RsaKeyItem(n, e)).value + more, loads, if loads(Rsa(n, e)) then Ok(Rsa(n, e)) else Error)
  {
    hide Decode, Encode, Describes;
    var v := RsaKeyItem(n, e);
    FourEncode(UInt(3), NegInt(256), ByteString(n), ByteString(e));
    RoundTrip(v, more);
    RsaDescribes(n, e);
    assert StartsWithMap(Encode(v).value + more, v.pairs);
  }

  lemma OkpDescribes(x: bytes)
    requires |x| == 32
    ensures Describes(OkpKeyItem(x).pairs, Okp(x))
  {
    hide LastWith;
    FourLabels(UInt(1), NegInt(7), UInt(6), ByteString(x));
  }

  lemma RsaDescribes(n: bytes, e: bytes)
    ensures Describes(RsaKeyItem(n, e).pairs, Rsa(n, e))
  {
    hide LastWith;
    FourLabels(UInt(3), NegInt(256), ByteString(n), ByteString(e));
  }

  /** A value short enough for the encoder. */
  predicate Short(v: Item) {
    (v.UInt? && v.n < 0x1_0000_0000) || (v.NegInt? && v.n < 0x1_0000_0000)
    || (v.ByteString? && |v.b| < 0x1_0000_0000)
  }

  lemma ShortEncodes(key: Item, value: Item)
    requires Short(key) && Short(value)
    ensures EncodePair(Pair(key, value)).Some?
  {
  }

  lemma FourEncode(a: Item, b: Item, c: Item, d: Item)
    requires Short(a) && Short(b) && Short(c) && Short(d)
    ensures Encode(Map([Pair(UInt(1), a), Pair(UInt(3), b), Pair(NegInt(0), c), Pair(NegInt(1), d)])).Some?
  {
    hide EncodePair, EncodePairs, Encode;
    var p, q, r, s := Pair(UInt(1), a), Pair(UInt(3), b), Pair(NegInt(0), c), Pair(NegInt(1), d);
    ShortEncodes(UInt(1), a);
    ShortEncodes(UInt(3), b);
    ShortEncodes(NegInt(0), c);
    ShortEncodes(NegInt(1), d);
    EncodeFew(q, r, s);
    EncodeCons(p, [q, r, s]);
    assert [p] + [q, r, s] == [p, q, r, s];
    EncodeMap([p, q, r, s]);
  }
}
