/** base64url without padding (section 5 of RFC 4648), as
    tools/admin/ngx_compat/ngx_compat.c encodes and decodes it. The reference
    is the bit stream: text and octets mean the same when they spell the same
    bits, up to the zero bits that fill the last sextet. */
module Base64url {
  import opened Buffer
  import opened Prelude

  const UPPER := "ABCDEFGHIJKLMNOPQRSTUVWXYZ"
  const LOWER := "abcdefghijklmnopqrstuvwxyz"
  const DIGITS := "0123456789"
  const BASIS := UPPER + LOWER + DIGITS + "-_"

  /** The sextet a char denotes, or -1. */
  function CharValue(c: char): (v: int)
    ensures -1 <= v < 64
  {
    if 'A' <= c <= 'Z' then c as int - 'A' as int
    else if 'a' <= c <= 'z' then c as int - 'a' as int + 26
    else if '0' <= c <= '9' then c as int - '0' as int + 52
    else if c == '-' then 62
    else if c == '_' then 63
    else -1
  }

  /** CharValue inverts the encoder's table, and covers nothing else. */
  lemma BasisIsInverse(v: int)
    requires 0 <= v < 64
    ensures CharValue(Basis(v)) == v && Basis(v) != '='
  {
    hide UPPER, LOWER, DIGITS;
    assert |UPPER| == 26 && |LOWER| == 26 && |DIGITS| == 10 by { TableLengths(); }
    if v < 26 {
      UpperRun(v);
    } else if v < 52 {
      LowerRun(v - 26);
    } else if v < 62 {
      DigitRun(v - 52);
    }
  }

  lemma TableLengths()
    ensures |UPPER| == 26 && |LOWER| == 26 && |DIGITS| == 10
  {
  }

  lemma UpperRun(v: int)
    requires 0 <= v < 26
    ensures UPPER[v] as int == 'A' as int + v
  {
  }

  lemma LowerRun(v: int)
    requires 0 <= v < 26
    ensures LOWER[v] as int == 'a' as int + v
  {
  }

  lemma DigitRun(v: int)
    requires 0 <= v < 10
    ensures DIGITS[v] as int == '0' as int + v
  {
  }

  /** A lookup in the encoder's table. */
  function Basis(v: nat): char
    requires v < 64
  {
    BASIS[v]
  }

  // Bit streams

  /** The low w bits of v, most significant first. */
  function Bits(v: nat, w: nat): (b: seq<bool>)
    ensures |b| == w
  {
    if w == 0 then [] else Bits(v / 2, w - 1) + [v % 2 == 1]
  }

  function BitsOf(b: bytes): (r: seq<bool>)
    ensures |r| == 8 * |b|
  {
    if b == [] then [] else BitsOf(b[..|b| - 1]) + Bits(b[|b| - 1], 8)
  }

  predicate InAlphabet(s: string) {
    forall i :: 0 <= i < |s| ==> CharValue(s[i]) >= 0
  }

  /** The bits of one char; zeros for a char outside the alphabet, which no
      accepted text contains. */
  function CharBits(c: char): (r: seq<bool>)
    ensures |r| == 6
  {
    Bits(if CharValue(c) < 0 then 0 else CharValue(c), 6)
  }

  function SextetBits(s: string): (r: seq<bool>)
    ensures |r| == 6 * |s|
  {
    if s == [] then [] else SextetBits(s[..|s| - 1]) + CharBits(s[|s| - 1])
  }

  /** The text with every '=' deleted, wherever it stands. */
  function Strip(s: string): (r: string)
    ensures |r| <= |s|
  {
    if s == [] then []
    else Strip(s[..|s| - 1]) + if s[|s| - 1] == '=' then [] else [s[|s| - 1]]
  }

  function Num(b: seq<bool>): nat {
    if b == [] then 0 else 2 * Num(b[..|b| - 1]) + if b[|b| - 1] then 1 else 0
  }

  function Pow2(k: nat): (p: nat)
    ensures p >= 1
  {
    if k == 0 then 1 else 2 * Pow2(k - 1)
  }

  lemma {:induction false} NumBound(b: seq<bool>)
    ensures Num(b) < Pow2(|b|)
  {
    if b != [] {
      NumBound(b[..|b| - 1]);
    }
  }

  /** Whole octets of a bit stream; up to seven bits are left over. */
  function Octets(b: seq<bool>): (r: bytes)
    ensures |r| == |b| / 8
    decreases |b|
  {
    if |b| < 8 then []
    else
      NumBound(b[..8]);
      assert Pow2(8) == 256;
      [Num(b[..8])] + Octets(b[8..])
  }

  function Zeros(n: nat): seq<bool> {
    seq(n, _ => false)
  }

  function FirstSextet(b: seq<bool>): (r: seq<bool>)
    ensures |r| == 6
  {
    if |b| < 6 then b + Zeros(6 - |b|) else b[..6]
  }

  function Later(b: seq<bool>): seq<bool> {
    if |b| < 6 then [] else b[6..]
  }

  /** The chars of a bit stream in sextets, the last one zero-filled. */
  function Chars(b: seq<bool>): (s: string)
    ensures InAlphabet(s) && |b| <= 6 * |s| < |b| + 6
    decreases |b|
  {
    if b == [] then []
    else
      SextetBound(FirstSextet(b));
      [Basis(Num(FirstSextet(b)))] + Chars(Later(b))
  }

  /** The reference encoder. */
  function Encode(b: bytes): (s: string)
    ensures InAlphabet(s) && 8 * |b| <= 6 * |s| < 8 * |b| + 6
  {
    Chars(BitsOf(b))
  }

  /** The reference decoder: '=' deleted, sextets read as one bit stream, whole
      octets kept. */
  function Decode(s: string): Option<bytes> {
    if InAlphabet(Strip(s)) then Some(Octets(SextetBits(Strip(s)))) else None
  }

  // Facts about bit streams

  function Shr(v: nat, k: nat): nat {
    if k == 0 then v else Shr(v / 2, k - 1)
  }

  lemma {:induction false} BitsSplit(v: nat, a: nat, b: nat)
    ensures Bits(v, a + b) == Bits(Shr(v, b), a) + Bits(v, b)
  {
    if b > 0 {
      BitsSplit(v / 2, a, b - 1);
    }
  }

  lemma {:induction false} BitsJoin(x: nat, a: nat, y: nat, b: nat)
    requires y < Pow2(b)
    ensures Bits(x * Pow2(b) + y, a + b) == Bits(x, a) + Bits(y, b)
  {
    if b > 0 {
      assert (x * Pow2(b) + y) / 2 == x * Pow2(b - 1) + y / 2 by {
        assert x * Pow2(b) == 2 * (x * Pow2(b - 1));
      }
      assert (x * Pow2(b) + y) % 2 == y % 2 by {
        assert x * Pow2(b) == 2 * (x * Pow2(b - 1));
      }
      BitsJoin(x, a, y / 2, b - 1);
    }
  }

  lemma {:induction false} BitsIgnoreHigh(v: nat, c: nat, k: nat, w: nat)
    requires w <= k
    ensures Bits(v + c * Pow2(k), w) == Bits(v, w)
  {
    if w > 0 {
      assert c * Pow2(k) == 2 * (c * Pow2(k - 1));
      BitsIgnoreHigh(v / 2, c, k - 1, w - 1);
    }
  }

  lemma DivMod(v: nat, p: nat)
    requires p > 0
    ensures v == v % p + v / p * p
  {
  }

  /** A wrapping k-bit word shows the same low bits as the unbounded number. */
  lemma BitsWrap(v: nat, k: nat, w: nat)
    requires w <= k
    ensures Bits(v % Pow2(k), w) == Bits(v, w)
  {
    hide Bits, Pow2;
    DivMod(v, Pow2(k));
    BitsIgnoreHigh(v % Pow2(k), v / Pow2(k), k, w);
  }

  lemma {:induction false} NumOfBits(v: nat, w: nat)
    requires v < Pow2(w)
    ensures Num(Bits(v, w)) == v
  {
    if w > 0 {
      NumOfBits(v / 2, w - 1);
      assert Bits(v, w)[..w - 1] == Bits(v / 2, w - 1);
    }
  }

  lemma {:induction false} BitsOfNum(b: seq<bool>)
    ensures Bits(Num(b), |b|) == b
  {
    if b != [] {
      BitsOfNum(b[..|b| - 1]);
    }
  }

  lemma {:induction false} BitsOfAppend(a: bytes, b: bytes)
    ensures BitsOf(a + b) == BitsOf(a) + BitsOf(b)
    decreases |b|
  {
    hide Bits;
    if b == [] {
      assert a + b == a;
    } else {
      BitsOfAppend(a, b[..|b| - 1]);
      assert (a + b)[..|a + b| - 1] == a + b[..|b| - 1];
    }
  }

  lemma {:induction false} SextetBitsAppend(s: string, t: string)
    ensures SextetBits(s + t) == SextetBits(s) + SextetBits(t)
    decreases |t|
  {
    hide CharBits;
    if t == [] {
      assert s + t == s;
    } else {
      SextetBitsAppend(s, t[..|t| - 1]);
      assert (s + t)[..|s + t| - 1] == s + t[..|t| - 1];
    }
  }

  lemma SextetBitsSnoc(s: string, c: char)
    ensures SextetBits(s + [c]) == SextetBits(s) + CharBits(c)
  {
    assert (s + [c])[..|s|] == s;
  }

  /** Octets reads back the octets whose bits a stream starts with. */
  lemma {:induction false} OctetsOfBits(b: bytes, rest: seq<bool>)
    requires |rest| < 8
    ensures Octets(BitsOf(b) + rest) == b
    decreases |b|
  {
    if b != [] {
      BitsOfAppend(b[..1], b[1..]);
      assert b == b[..1] + b[1..];
      assert b[..1][..0] == [];
      assert BitsOf(b[..1]) == Bits(b[0], 8);
      var s := BitsOf(b) + rest;
      assert s[..8] == Bits(b[0], 8) && s[8..] == BitsOf(b[1..]) + rest;
      assert Pow2(8) == 256;
      NumOfBits(b[0], 8);
      OctetsOfBits(b[1..], rest);
    } else {
      assert BitsOf(b) + rest == rest;
    }
  }

  lemma SextetBound(sextet: seq<bool>)
    requires |sextet| == 6
    ensures Num(sextet) < 64 && CharValue(Basis(Num(sextet))) >= 0
  {
    NumBound(sextet);
    assert Pow2(6) == 64;
    BasisIsInverse(Num(sextet));
  }

  lemma SextetChar(sextet: seq<bool>)
    requires |sextet| == 6
    ensures Num(sextet) < 64 && CharValue(Basis(Num(sextet))) >= 0
    ensures CharBits(Basis(Num(sextet))) == sextet
    ensures SextetBits([Basis(Num(sextet))]) == sextet
  {
    SextetBound(sextet);
    BasisIsInverse(Num(sextet));
    BitsOfNum(sextet);
    assert [Basis(Num(sextet))][..0] == [];
  }

  lemma {:induction false} CharsBits(b: seq<bool>)
    ensures SextetBits(Chars(b)) == b + Zeros(6 * |Chars(b)| - |b|)
    decreases |b|
  {
    hide SextetBits, Num, Bits, Basis;
    if b != [] {
      SextetChar(FirstSextet(b));
      var c := Basis(Num(FirstSextet(b)));
      CharsBits(Later(b));
      SextetBitsAppend([c], Chars(Later(b)));
      assert Chars(b) == [c] + Chars(Later(b));
      FillOnce(b, 6 * |Chars(b)| - |b|);
    }
  }

  /** Cutting off the first sextet does not change how the stream is filled. */
  lemma FillOnce(b: seq<bool>, fill: nat)
    requires b != [] && fill < 6 && (|b| < 6 ==> fill == 6 - |b|)
    ensures FirstSextet(b) + (Later(b) + Zeros(if |b| < 6 then 0 else fill)) == b + Zeros(fill)
  {
  }

  lemma CharValueInjective(c: char, d: char)
    requires CharValue(c) == CharValue(d) >= 0
    ensures c == d
  {
  }

  lemma CharBitsInjective(c: char, d: char)
    requires CharValue(c) >= 0 && CharValue(d) >= 0 && CharBits(c) == CharBits(d)
    ensures c == d
  {
    assert Pow2(6) == 64;
    NumOfBits(CharValue(c), 6);
    NumOfBits(CharValue(d), 6);
    CharValueInjective(c, d);
  }

  lemma SuffixesEqual(a: seq<bool>, b: seq<bool>, c: seq<bool>, d: seq<bool>)
    requires a + b == c + d && |b| == |d|
    ensures a == c && b == d
  {
    assert (a + b)[..|a|] == a && (c + d)[..|c|] == c;
    assert (a + b)[|a|..] == b && (c + d)[|c|..] == d;
  }

  /** A text over the alphabet is determined by its bits. */
  lemma {:induction false} SextetBitsInjective(s: string, t: string)
    requires InAlphabet(s) && InAlphabet(t) && SextetBits(s) == SextetBits(t)
    ensures s == t
    decreases |s|
  {
    if s != [] {
      var m, n := |s| - 1, |t| - 1;
      SuffixesEqual(SextetBits(s[..m]), CharBits(s[m]), SextetBits(t[..n]), CharBits(t[n]));
      SextetBitsInjective(s[..m], t[..n]);
      CharBitsInjective(s[m], t[n]);
    }
  }

  lemma {:induction false} StripAlphabet(s: string)
    requires forall i :: 0 <= i < |s| ==> s[i] != '='
    ensures Strip(s) == s
    decreases |s|
  {
    if s != [] {
      StripAlphabet(s[..|s| - 1]);
    }
  }

  lemma EncodeBits(b: bytes)
    ensures SextetBits(Encode(b)) == BitsOf(b) + Zeros(6 * |Encode(b)| - 8 * |b|)
  {
    CharsBits(BitsOf(b));
  }

  // The code against the reference

  /** What the decoder's variables mean: octets written, then the low `bits`
      bits of the word, spell the text read so far. */
  ghost predicate Pending(text: string, octets: bytes, buf: nat, bits: nat) {
    && (bits == 0 || bits == 2 || bits == 4 || bits == 6)
    && buf < 0x1_0000_0000
    && InAlphabet(text) && 6 * |text| == 8 * |octets| + bits
    && BitsOf(octets) + Bits(buf, bits) == SextetBits(text)
  }

  lemma PendingStep(text: string, octets: bytes, buf: nat, bits: nat, ch: char)
    requires Pending(text, octets, buf, bits) && CharValue(ch) >= 0
    ensures var word := (buf * 64 + CharValue(ch)) % 0x1_0000_0000;
            && (bits + 6 < 8 ==> Pending(text + [ch], octets, word, bits + 6))
            && (bits + 6 >= 8 ==>
                  Pending(text + [ch], octets + [Shifted(word, bits - 2) % 256], word, bits - 2))
  {
    hide Bits;
    var word := (buf * 64 + CharValue(ch)) % 0x1_0000_0000;
    AccumulatorStep(octets, text, buf, bits, ch);
    if bits + 6 >= 8 {
      OutputStep(octets, word, bits - 2);
    }
  }

  /** tools/admin/ngx_compat/ngx_compat.c:315. `buf` is the unmasked int
      accumulator, taken as a 32-bit word that wraps; on the non-negative
      word, `<< 6 |` is `* 64 +`, `>> bits` is a division and `& 0xff` a
      remainder. A dst sized by ngx_base64_decoded_length is large enough. */
  method DecodeInto(src: string, dst: Buffer<byte>) returns (ok: bool)
    requires dst.Valid() && dst.contents == [] && 4 * dst.Capacity() >= 3 * |src|
    modifies dst, dst.data
    ensures dst.Valid()
    ensures ok <==> Decode(src).Some?
    ensures ok ==> dst.contents == Decode(src).value
  {
    hide Bits, BitsOf, SextetBits, Strip, Decode;
    var bits: nat, buf: nat := 0, 0;
    for i := 0 to |src|
      invariant dst.Valid() && Pending(Strip(src[..i]), dst.contents, buf, bits)
    {
      var ch := src[i];
      DecodeStep(src, i, dst.contents, buf, bits);
      if ch == '=' {
        continue;
      }
      var v := CharValue(ch);
      if v < 0 {
        return false;
      }
      buf := (buf * 64 + v) % 0x1_0000_0000;
      bits := bits + 6;
      if bits >= 8 {
        bits := bits - 8;
        dst.Put(Shifted(buf, bits) % 256);
      }
    }
    DecodeDone(src, dst.contents, buf, bits);
    ok := true;
  }

  /** One round of the loop, for each of its exits. */
  lemma DecodeStep(src: string, i: nat, octets: bytes, buf: nat, bits: nat)
    requires i < |src| && Pending(Strip(src[..i]), octets, buf, bits)
    ensures var text, v := Strip(src[..i + 1]), CharValue(src[i]);
            && (src[i] == '=' ==> Pending(text, octets, buf, bits))
            && (src[i] != '=' && v < 0 ==> Decode(src).None?)
            && (src[i] != '=' && v >= 0 ==>
                  var word := (buf * 64 + v) % 0x1_0000_0000;
                  if bits + 6 < 8 then Pending(text, octets, word, bits + 6)
                  else Pending(text, octets + [Shifted(word, bits - 2) % 256], word, bits - 2))
  {
    hide Bits, BitsOf, SextetBits, Pending;
    StripStep(src, i);
    if CharValue(src[i]) >= 0 {
      PendingStep(Strip(src[..i]), octets, buf, bits, src[i]);
    } else if src[i] != '=' {
      StripKeeps(src, i + 1);
    }
  }

  lemma DecodeDone(src: string, octets: bytes, buf: nat, bits: nat)
    requires Pending(Strip(src[..|src|]), octets, buf, bits)
    ensures Decode(src) == Some(octets)
  {
    assert src[..|src|] == src;
    OctetsOfBits(octets, Bits(buf, bits));
  }

  /** The sizes the callers allocate satisfy the two methods' demands. */
  lemma LengthMacros(n: nat)
    ensures 4 * ((n + 3) / 4 * 3) >= 3 * n
    ensures 3 * ((n + 2) / 3 * 4) >= 4 * n
  {
  }

  lemma StripStep(s: string, i: nat)
    requires i < |s|
    ensures Strip(s[..i + 1]) == if s[i] == '=' then Strip(s[..i]) else Strip(s[..i]) + [s[i]]
  {
    assert s[..i + 1][..i] == s[..i];
  }

  lemma {:induction false} StripKeeps(src: string, i: nat)
    requires 0 < i <= |src| && src[i - 1] != '=' && CharValue(src[i - 1]) < 0
    ensures !InAlphabet(Strip(src))
    decreases |src|
  {
    if i < |src| {
      StripKeeps(src[..|src| - 1], i);
      var init := Strip(src[..|src| - 1]);
      assert Strip(src)[..|init|] == init;
      assert !InAlphabet(init);
      var j :| 0 <= j < |init| && CharValue(init[j]) < 0;
      assert CharValue(Strip(src)[j]) < 0;
    } else {
      assert CharValue(Strip(src)[|Strip(src)| - 1]) < 0;
    }
  }

  lemma Word(v: nat, w: nat)
    requires w <= 32
    ensures Bits(v % 0x1_0000_0000, w) == Bits(v, w)
  {
    hide Bits;
    assert Pow2(8) == 256;
    assert Pow2(14) == 16384;
    assert Pow2(20) == 104_8576;
    assert Pow2(26) == 6710_8864;
    assert Pow2(32) == 0x1_0000_0000;
    BitsWrap(v, 32, w);
  }

  lemma Octet(v: nat)
    ensures Bits(v % 256, 8) == Bits(v, 8)
  {
    assert Pow2(8) == 256;
    BitsWrap(v, 8, 8);
  }

  lemma Join6(x: nat, a: nat, y: nat)
    requires y < 64
    ensures Bits(x * 64 + y, a + 6) == Bits(x, a) + Bits(y, 6)
  {
    assert Pow2(6) == 64;
    BitsJoin(x, a, y, 6);
  }

  lemma AccumulatorStep(octets: bytes, text: string, buf: nat, bits: nat, ch: char)
    requires bits < 8 && CharValue(ch) >= 0
    requires BitsOf(octets) + Bits(buf, bits) == SextetBits(text)
    ensures BitsOf(octets) + Bits((buf * 64 + CharValue(ch)) % 0x1_0000_0000, bits + 6)
         == SextetBits(text + [ch])
  {
    hide Bits, BitsOf, SextetBits;
    Word(buf * 64 + CharValue(ch), bits + 6);
    Join6(buf, bits, CharValue(ch));
    SextetBitsSnoc(text, ch);
    Regroup3(BitsOf(octets), Bits(buf, bits), CharBits(ch));
  }

  lemma Regroup3(a: seq<bool>, b: seq<bool>, c: seq<bool>)
    ensures a + (b + c) == a + b + c
  {
  }

  /** The number read off `buf >> bits`. */
  function Shifted(buf: nat, bits: nat): nat {
    buf / (if bits == 0 then 1 else if bits == 2 then 4 else if bits == 4 then 16 else 64)
  }

  lemma ShiftIsShr(buf: nat, bits: nat)
    requires bits == 0 || bits == 2 || bits == 4 || bits == 6
    ensures Shr(buf, bits) == Shifted(buf, bits)
  {
    ShrTwo(buf, bits);
    if bits >= 4 {
      ShrTwo(buf / 4, bits - 2);
      assert buf / 4 / 4 == buf / 16;
    }
    if bits == 6 {
      ShrTwo(buf / 16, 2);
      assert buf / 16 / 4 == buf / 64;
    }
    ShrTwo(Shifted(buf, bits), 0);
  }

  lemma OutputStep(octets: bytes, buf: nat, bits: nat)
    requires bits == 0 || bits == 2 || bits == 4 || bits == 6
    ensures BitsOf(octets + [Shifted(buf, bits) % 256]) + Bits(buf, bits)
         == BitsOf(octets) + Bits(buf, bits + 8)
  {
    var b := Shifted(buf, bits) % 256;
    ShiftIsShr(buf, bits);
    BitsSplit(buf, 8, bits);
    Octet(Shifted(buf, bits));
    assert (octets + [b])[..|octets|] == octets;
    Regroup3(BitsOf(octets), Bits(b, 8), Bits(buf, bits));
  }

  lemma ShrTwo(v: nat, k: nat)
    ensures Shr(v, 0) == v
    ensures k >= 2 ==> Shr(v, k) == Shr(v / 4, k - 2)
  {
    if k >= 2 {
      assert Shr(v, k) == Shr(v / 2 / 2, k - 2);
      assert v / 2 / 2 == v / 4;
    }
  }

  /** tools/admin/ngx_compat/ngx_compat.c:250, into a buffer at least
      as long as ngx_base64_encoded_length makes it. */
  method EncodeInto(src: bytes, dst: Buffer<char>)
    requires dst.Valid() && dst.contents == [] && 3 * dst.Capacity() >= 4 * |src|
    modifies dst, dst.data
    ensures dst.Valid() && dst.contents == Encode(src)
  {
    var i := 0;
    while |src| - i > 2
      invariant 0 <= i <= |src| && 3 * |dst.contents| == 4 * i
      invariant dst.Valid() && Encoding(dst.contents, src, i)
    {
      EncodeStep(src, i, dst.contents);
      var s0, s1, s2 := src[i], src[i + 1], src[i + 2];
      Snoc4(dst.contents, Quad(s0, s1, s2));
      dst.Put(Basis(s0 / 4 % 64));
      dst.Put(Basis(s0 % 4 * 16 + s1 / 16));
      dst.Put(Basis(s1 % 16 * 4 + s2 / 64));
      dst.Put(Basis(s2 % 64));
      i := i + 3;
    }
    if |src| - i > 0 {
      EncodeTail(src, i, dst.contents);
      var s0 := src[i];
      dst.Put(Basis(s0 / 4 % 64));
      if |src| - i == 1 {
        dst.Put(Basis(s0 % 4 * 16));
      } else {
        var s1 := src[i + 1];
        dst.Put(Basis(s0 % 4 * 16 + s1 / 16));
        dst.Put(Basis(s1 % 16 * 4));
      }
    } else {
      assert src[..i] == src;
      EncodeUnique(src, dst.contents, 0);
    }
  }

  ghost predicate Encoding(text: string, src: bytes, i: nat)
    requires i <= |src|
  {
    InAlphabet(text) && SextetBits(text) == BitsOf(src[..i])
  }

  lemma EncodeStep(src: bytes, i: nat, text: string)
    requires i + 3 <= |src| && Encoding(text, src, i)
    ensures var s0, s1, s2 := src[i], src[i + 1], src[i + 2];
            Encoding(text + Quad(s0, s1, s2), src, i + 3)
  {
    hide Bits, BitsOf, SextetBits, Quad;
    var q := Quad(src[i], src[i + 1], src[i + 2]);
    QuadBits(src[i], src[i + 1], src[i + 2]);
    SextetBitsAppend(text, q);
    BitsOfAppend(src[..i], src[i..i + 3]);
    assert src[..i + 3] == src[..i] + src[i..i + 3];
    assert src[i..i + 3] == [src[i], src[i + 1], src[i + 2]];
  }

  /** One or two octets left: two or three chars, the last zero-filled. */
  lemma EncodeTail(src: bytes, i: nat, text: string)
    requires i < |src| <= i + 2 && Encoding(text, src, i)
    ensures var s0 := src[i];
            && (|src| == i + 1 ==>
                  text + [Basis(s0 / 4 % 64)] + [Basis(s0 % 4 * 16)] == Encode(src))
            && (|src| == i + 2 ==>
                  var s1 := src[i + 1];
                  text + [Basis(s0 / 4 % 64)] + [Basis(s0 % 4 * 16 + s1 / 16)]
                  + [Basis(s1 % 16 * 4)] == Encode(src))
  {
    hide Bits, BitsOf, SextetBits, Basis, Encode;
    var s1: byte := if |src| == i + 2 then src[i + 1] else 0;
    var kept, pad := |src| - i + 1, if |src| == i + 2 then 2 else 4;
    var q := Quad(src[i], s1, 0);
    TailBits(src[i], s1);
    assert src[i..] == if |src| == i + 2 then [src[i], s1] else [src[i]];
    SextetBitsAppend(text, q[..kept]);
    BitsOfAppend(src[..i], src[i..]);
    assert src == src[..i] + src[i..];
    Regroup3(SextetBits(text), BitsOf(src[i..]), Zeros(pad));
    EncodeUnique(src, text + q[..kept], pad);
    Snoc23(text, q);
  }

  lemma Snoc23(text: string, q: string)
    requires |q| == 4
    ensures text + q[..2] == text + [q[0]] + [q[1]]
    ensures text + q[..3] == text + [q[0]] + [q[1]] + [q[2]]
  {
  }

  lemma TailBits(s0: byte, s1: byte)
    ensures InAlphabet(Quad(s0, s1, 0))
    ensures SextetBits(Quad(s0, s1, 0)[..3]) == BitsOf([s0, s1]) + Zeros(2)
    ensures s1 == 0 ==> SextetBits(Quad(s0, s1, 0)[..2]) == BitsOf([s0]) + Zeros(4)
  {
    hide Bits, SextetBits, Quad;
    var q := Quad(s0, s1, 0);
    QuadBits(s0, s1, 0);
    BitsOfThree(s0, s1, 0);
    ZeroBits(8);
    SextetBitsAppend(q[..3], q[3..]);
    assert q == q[..3] + q[3..];
    CutZeros(SextetBits(q[..3]), SextetBits(q[3..]), BitsOf([s0, s1]), 8);
    SextetBitsAppend(q[..2], q[2..]);
    assert q == q[..2] + q[2..];
    if s1 == 0 {
      assert BitsOf([s0]) + Zeros(8) + Zeros(8) == BitsOf([s0]) + Zeros(16);
      CutZeros(SextetBits(q[..2]), SextetBits(q[2..]), BitsOf([s0]), 16);
    }
  }

  lemma CutZeros(a: seq<bool>, b: seq<bool>, c: seq<bool>, n: nat)
    requires a + b == c + Zeros(n) && |c| <= |a| <= |c| + n
    ensures a == c + Zeros(|a| - |c|)
  {
    assert (a + b)[..|a|] == a;
    assert (c + Zeros(n))[..|a|] == c + Zeros(|a| - |c|);
  }

  lemma Snoc4(text: string, q: string)
    requires |q| == 4
    ensures text + q == text + [q[0]] + [q[1]] + [q[2]] + [q[3]]
  {
  }

  lemma {:induction false} ZeroBits(w: nat)
    ensures Bits(0, w) == Zeros(w)
  {
    if w > 0 {
      ZeroBits(w - 1);
    }
  }

  lemma EncodeUnique(src: bytes, text: string, pad: nat)
    requires InAlphabet(text) && pad < 6 && SextetBits(text) == BitsOf(src) + Zeros(pad)
    ensures text == Encode(src)
  {
    EncodeBits(src);
    assert |text| == |Encode(src)|;
    SextetBitsInjective(text, Encode(src));
  }

  /** Four chars for three octets, with the bits they spell. */
  function Quad(s0: byte, s1: byte, s2: byte): string {
    [Basis(s0 / 4 % 64), Basis(s0 % 4 * 16 + s1 / 16),
     Basis(s1 % 16 * 4 + s2 / 64), Basis(s2 % 64)]
  }

  lemma QuadBits(s0: byte, s1: byte, s2: byte)
    ensures SextetBits(Quad(s0, s1, s2)) == BitsOf([s0, s1, s2])
    ensures InAlphabet(Quad(s0, s1, s2))
  {
    hide Bits, BitsOf, SextetBits, Basis;
    var v0, v1, v2, v3 := s0 / 4 % 64, s0 % 4 * 16 + s1 / 16, s1 % 16 * 4 + s2 / 64, s2 % 64;
    BasisIsInverse(v0);
    BasisIsInverse(v1);
    BasisIsInverse(v2);
    BasisIsInverse(v3);
    SextetBitsOfFour(Basis(v0), Basis(v1), Basis(v2), Basis(v3));
    OctetSplit(s0, s1, s2);
    BitsOfThree(s0, s1, s2);
  }

  lemma SextetBitsOfFour(a: char, b: char, c: char, d: char)
    ensures SextetBits([a, b, c, d]) == CharBits(a) + CharBits(b) + CharBits(c) + CharBits(d)
  {
    SextetBitsSnoc([], a);
    SextetBitsSnoc([a], b);
    SextetBitsSnoc([a, b], c);
    SextetBitsSnoc([a, b, c], d);
    assert [] + [a] == [a] && [a] + [b] == [a, b];
    assert [a, b] + [c] == [a, b, c] && [a, b, c] + [d] == [a, b, c, d];
    assert [] + CharBits(a) == CharBits(a);
  }

  lemma BitsOfThree(s0: byte, s1: byte, s2: byte)
    ensures BitsOf([s0]) == Bits(s0, 8)
    ensures BitsOf([s0, s1]) == Bits(s0, 8) + Bits(s1, 8)
    ensures BitsOf([s0, s1, s2]) == Bits(s0, 8) + Bits(s1, 8) + Bits(s2, 8)
  {
    var none: bytes := [];
    assert BitsOf(none) == [];
    assert [s0][..0] == none;
    assert BitsOf([s0]) == BitsOf(none) + Bits(s0, 8) == Bits(s0, 8);
    assert [s0, s1][..1] == [s0];
    assert BitsOf([s0, s1]) == BitsOf([s0]) + Bits(s1, 8);
    assert [s0, s1, s2][..2] == [s0, s1];
  }

  lemma Combine(p0: seq<bool>, q0: seq<bool>, p1: seq<bool>, q1: seq<bool>, p2: seq<bool>, q2: seq<bool>,
                mid1: seq<bool>, mid2: seq<bool>, o0: seq<bool>, o1: seq<bool>, o2: seq<bool>)
    requires o0 == p0 + q0 && o1 == p1 + q1 && o2 == p2 + q2
    requires mid1 == q0 + p1 && mid2 == q1 + p2
    ensures p0 + mid1 + mid2 + q2 == o0 + o1 + o2
  {
  }

  lemma OctetSplit(s0: byte, s1: byte, s2: byte)
    ensures Bits(s0 / 4 % 64, 6) + Bits(s0 % 4 * 16 + s1 / 16, 6)
          + Bits(s1 % 16 * 4 + s2 / 64, 6) + Bits(s2 % 64, 6)
         == Bits(s0, 8) + Bits(s1, 8) + Bits(s2, 8)
  {
    Cut62(s0);
    Cut44(s1);
    Cut26(s2);
    Middle1(s0, s1);
    Middle2(s1, s2);
    Combine(Bits(s0 / 4 % 64, 6), Bits(s0 % 4, 2), Bits(s1 / 16, 4), Bits(s1 % 16, 4),
            Bits(s2 / 64, 2), Bits(s2 % 64, 6),
            Bits(s0 % 4 * 16 + s1 / 16, 6), Bits(s1 % 16 * 4 + s2 / 64, 6),
            Bits(s0, 8), Bits(s1, 8), Bits(s2, 8));
  }

  lemma Cut62(s: byte)
    ensures Bits(s, 8) == Bits(s / 4 % 64, 6) + Bits(s % 4, 2)
  {
    hide Bits;
    assert s / 4 % 64 == s / 4;
    Join2(s / 4, 6, s % 4);
  }

  lemma Cut44(s: byte)
    ensures Bits(s, 8) == Bits(s / 16, 4) + Bits(s % 16, 4)
  {
    hide Bits;
    Join4(s / 16, 4, s % 16);
  }

  lemma Cut26(s: byte)
    ensures Bits(s, 8) == Bits(s / 64, 2) + Bits(s % 64, 6)
  {
    hide Bits;
    Join6(s / 64, 2, s % 64);
  }

  lemma Middle1(s: byte, t: byte)
    ensures Bits(s % 4 * 16 + t / 16, 6) == Bits(s % 4, 2) + Bits(t / 16, 4)
  {
    hide Bits;
    Join4(s % 4, 2, t / 16);
  }

  lemma Middle2(s: byte, t: byte)
    ensures Bits(s % 16 * 4 + t / 64, 6) == Bits(s % 16, 4) + Bits(t / 64, 2)
  {
    hide Bits;
    Join2(s % 16, 4, t / 64);
  }

  lemma Join2(x: nat, a: nat, y: nat)
    requires y < 4
    ensures Bits(x * 4 + y, a + 2) == Bits(x, a) + Bits(y, 2)
  {
    assert Pow2(2) == 4;
    BitsJoin(x, a, y, 2);
  }

  lemma Join4(x: nat, a: nat, y: nat)
    requires y < 16
    ensures Bits(x * 16 + y, a + 4) == Bits(x, a) + Bits(y, 4)
  {
    assert Pow2(4) == 16;
    BitsJoin(x, a, y, 4);
  }

  // What the two promise together

  /** Decoding an encoding gives the octets back, with any number of '='
      inserted anywhere. */
  lemma RoundTrip(b: bytes, t: string)
    requires Strip(t) == Encode(b)
    ensures Decode(t) == Some(b)
  {
    EncodeBits(b);
    OctetsOfBits(b, Zeros(6 * |Encode(b)| - 8 * |b|));
  }

  /** An encoding has no '=' to delete. */
  lemma EncodeIsStripped(b: bytes)
    ensures Strip(Encode(b)) == Encode(b)
  {
    StripAlphabet(Encode(b));
  }

  /** The alphabet of section 5 of RFC 4648, char by char. */
  lemma Alphabet(v: nat)
    requires v < 64
    ensures Basis(v) as int == if v < 26 then 'A' as int + v else if v < 52 then 'a' as int + (v - 26)
                               else if v < 62 then '0' as int + (v - 52) else if v == 62 then '-' as int
                               else '_' as int
  {
    hide UPPER, LOWER, DIGITS;
    assert |UPPER| == 26 && |LOWER| == 26 && |DIGITS| == 10 by { TableLengths(); }
    if v < 26 {
      UpperRun(v);
    } else if v < 52 {
      LowerRun(v - 26);
    } else if v < 62 {
      DigitRun(v - 52);
    }
  }

  /** Three octets give four chars. */
  lemma EncodeThree(s0: byte, s1: byte, s2: byte)
    ensures Encode([s0, s1, s2]) == Quad(s0, s1, s2)
  {
    hide Bits, BitsOf, SextetBits, Encode;
    QuadBits(s0, s1, s2);
    EncodeUnique([s0, s1, s2], Quad(s0, s1, s2), 0);
  }

  /** The two chars section 5 has of its own, and an example of section 10. */
  lemma RfcExamples()
    ensures Encode([0x66, 0x6f, 0x6f]) == "Zm9v"
    ensures Encode([0xff, 0xff, 0xbf]) == "__-_"
  {
    hide Encode, Basis;
    EncodeThree(0x66, 0x6f, 0x6f);
    Alphabet(25);
    Alphabet(38);
    Alphabet(61);
    Alphabet(47);
    EncodeThree(0xff, 0xff, 0xbf);
    Alphabet(63);
    Alphabet(62);
  }
}
