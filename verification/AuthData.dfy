/** authenticatorData (sections 6.1 and 6.5.1 of WebAuthn Level 2): the parser
    of src/ngx_auth_webauthn_authdata.c and the printer of
    t/data/webauthn_tool.py. */
module AuthData {
  import Bits
  import opened Prelude

  const MIN_LEN := 37
  const HASH_LEN := 32

  datatype AuthData = AuthData(
    rpIdHash: bytes,
    flags: byte,
    signCount: nat,
    aaguid: bytes,
    credentialId: bytes,
    cosePublicKey: bytes)

  predicate UserPresent(flags: byte) { flags % 2 == 1 }
  predicate UserVerified(flags: byte) { flags / 4 % 2 == 1 }
  predicate HasAttested(flags: byte) { flags / 64 % 2 == 1 }
  predicate HasExtensions(flags: byte) { flags / 128 == 1 }

  /** Big-endian shifts and ors of octets. */
  function U32(a: int, b: int, c: int, d: int): int {
    a * 0x100_0000 + b * 0x1_0000 + c * 0x100 + d
  }

  function U16(a: int, b: int): int {
    a * 256 + b
  }

  function Fill(n: nat): bytes {
    seq(n, _ => 0)
  }

  /** Field sizes of the layout; without AT the attested fields are zeroed. */
  predicate WellFormed(a: AuthData) {
    && |a.rpIdHash| == HASH_LEN
    && a.signCount <= UINT32_MAX
    && |a.aaguid| == AAGUID_LEN
    && |a.credentialId| < 0x1_0000
    && (!HasAttested(a.flags) ==>
          a.aaguid == Fill(AAGUID_LEN) && a.credentialId == [] && a.cosePublicKey == [])
  }

  function BigEndian4(n: nat): bytes
    requires n <= UINT32_MAX
  {
    [n / 0x100_0000, n / 0x1_0000 % 256, n / 256 % 256, n % 256]
  }

  function Prefix(a: AuthData): (s: bytes)
    requires WellFormed(a)
    ensures |s| == MIN_LEN
  {
    a.rpIdHash + [a.flags] + BigEndian4(a.signCount)
  }

  function Attested(a: AuthData): bytes
    requires WellFormed(a)
  {
    a.aaguid + [|a.credentialId| / 256, |a.credentialId| % 256] + a.credentialId + a.cosePublicKey
  }

  /** auth_data, for any aaguid. */
  function Print(a: AuthData): bytes
    requires WellFormed(a)
  {
    if HasAttested(a.flags) then Prefix(a) + Attested(a) else Prefix(a)
  }

  /** The printer's statements. */
  method AuthDataOf(a: AuthData) returns (data: bytes)
    requires WellFormed(a)
    ensures data == Print(a)
  {
    data := a.rpIdHash;
    data := data + [a.flags];
    data := data + BigEndian4(a.signCount);
    if HasAttested(a.flags) {
      data := data + a.aaguid;
      data := data + [|a.credentialId| / 256, |a.credentialId| % 256];
      data := data + a.credentialId;
      data := data + a.cosePublicKey;
      AppendChain(Prefix(a), a.aaguid, [|a.credentialId| / 256, |a.credentialId| % 256],
                  a.credentialId, a.cosePublicKey);
    }
  }

  lemma AppendChain(p: bytes, a: bytes, b: bytes, c: bytes, d: bytes)
    ensures p + a + b + c + d == p + (a + b + c + d)
  {
  }

  /** What the layout demands of the octets themselves. */
  predicate Accepts(data: bytes) {
    && |data| >= MIN_LEN
    && (HasAttested(data[32]) ==>
          |data| >= 55 && U16(data[53], data[54]) <= |data| - 55)
  }

  /** src/ngx_auth_webauthn_authdata.c:11. Offsets are naturals and every read
      is inside `data`, as Dafny checks. With AT clear, whatever follows the
      37-octet prefix is ignored. */
  method Parse(data: bytes) returns (r: Rc<AuthData>)
    ensures r == Parsed(data)
  {
    var len: nat := |data|;
    if len < MIN_LEN {
      return Declined;
    }
    var rpIdHash := data[..HASH_LEN];
    var p: nat := HASH_LEN;
    var flags := data[p];
    p := p + 1;
    var signCount := U32(data[p], data[p + 1], data[p + 2], data[p + 3]);
    var out := AuthData(rpIdHash, flags, signCount, Fill(AAGUID_LEN), [], []);
    if !HasAttested(flags) {
      return Ok(out);
    }
    var offset: nat := MIN_LEN;
    if len < offset + AAGUID_LEN + 2 {
      return Declined;
    }
    out := out.(aaguid := data[offset..offset + AAGUID_LEN]);
    offset := offset + AAGUID_LEN;
    var credIdLen := U16(data[offset], data[offset + 1]);
    offset := offset + 2;
    var left: nat := len - offset;
    if credIdLen > left {
      return Declined;
    }
    out := out.(credentialId := data[offset..offset + credIdLen]);
    offset := offset + credIdLen;
    out := out.(cosePublicKey := data[offset..]);
    r := Ok(out);
  }

  /** The parser as a function of the octets. */
  function Parsed(data: bytes): (r: Rc<AuthData>)
    ensures r.Ok? <==> Accepts(data)
    ensures !r.Error?
    ensures r.Ok? ==> WellFormed(r.value)
  {
    if !Accepts(data) then Declined
    else
      var signCount := U32(data[33], data[34], data[35], data[36]);
      var n := if HasAttested(data[32]) then U16(data[53], data[54]) else 0;
      if HasAttested(data[32])
      then Ok(AuthData(data[..32], data[32], signCount, data[37..53], data[55..55 + n], data[55 + n..]))
      else Ok(AuthData(data[..32], data[32], signCount, Fill(AAGUID_LEN), [], []))
  }

  // The layout in numbers

  /** The flag predicates are the bit masks 0x01, 0x04, 0x40 and 0x80. */
  lemma FlagBits(flags: byte)
    ensures UserPresent(flags) <==> flags as bv8 & 0x01 != 0
    ensures UserVerified(flags) <==> flags as bv8 & 0x04 != 0
    ensures HasAttested(flags) <==> flags as bv8 & 0x40 != 0
    ensures HasExtensions(flags) <==> flags as bv8 & 0x80 != 0
  {
    Bits.Masks(flags);
  }

  /** Bits the tool's printer sets, and no others: UP, UV and AT. */
  lemma ToolFlags()
    ensures UserPresent(0x01) && !UserVerified(0x01) && !HasAttested(0x01) && !HasExtensions(0x01)
    ensures UserPresent(0x05) && UserVerified(0x05) && !HasAttested(0x05) && !HasExtensions(0x05)
    ensures UserPresent(0x45) && UserVerified(0x45) && HasAttested(0x45) && !HasExtensions(0x45)
  {
  }

  /** Where every field of an accepted input lies, and how its numbers are
      spelled: octet by octet, with the attested fields exactly if the flags
      have the bit 0x40. */
  lemma Layout(data: bytes)
    ensures Parsed(data).Ok? <==>
              && |data| >= 37
              && (data[32] as bv8 & 0x40 != 0 ==>
                    |data| >= 55 && data[53] as int * 0x100 + data[54] as int <= |data| - 55)
    ensures Parsed(data).Ok? ==>
              var a := Parsed(data).value;
              && a.rpIdHash == data[..32] && a.flags == data[32]
              && a.signCount == data[33] as int * 0x100_0000 + data[34] as int * 0x1_0000
                                + data[35] as int * 0x100 + data[36] as int
              && if data[32] as bv8 & 0x40 != 0 then
                   var n := data[53] as int * 0x100 + data[54] as int;
                   && a.aaguid == data[37..53] && a.credentialId == data[55..55 + n]
                   && a.cosePublicKey == data[55 + n..]
                 else a.aaguid == Fill(16) && a.credentialId == [] && a.cosePublicKey == []
  {
    hide HasAttested;
    if |data| >= 37 {
      FlagBits(data[32]);
    }
  }

  lemma FourOctets(a: byte, b: byte, c: byte, d: byte)
    ensures var n := U32(a, b, c, d);
            n <= UINT32_MAX && BigEndian4(n) == [a, b, c, d]
  {
    var n := U32(a, b, c, d);
    assert n / 256 == U32(0, a, b, c);
    assert n / 0x1_0000 == U16(a, b);
    assert n / 0x100_0000 == a;
  }

  lemma FromFourOctets(n: nat)
    requires n <= UINT32_MAX
    ensures var s := BigEndian4(n); U32(s[0], s[1], s[2], s[3]) == n
  {
    assert n / 0x1_0000 / 256 == n / 0x100_0000;
    assert n / 256 / 256 == n / 0x1_0000;
  }

  /** The parser inverts the printer on every field. */
  lemma ParseInvertsPrint(a: AuthData)
    requires WellFormed(a)
    ensures Parsed(Print(a)) == Ok(a)
  {
    var data := Print(a);
    FromFourOctets(a.signCount);
    assert data[..32] == a.rpIdHash && data[32] == a.flags;
    assert data[33..37] == BigEndian4(a.signCount) by { assert data[..37] == Prefix(a); }
    assert data[33] == data[33..37][0] && data[34] == data[33..37][1]
        && data[35] == data[33..37][2] && data[36] == data[33..37][3];
    if HasAttested(a.flags) {
      AttestedSlices(a);
    }
  }

  lemma AttestedSlices(a: AuthData)
    requires WellFormed(a) && HasAttested(a.flags)
    ensures var data, n := Print(a), |a.credentialId|;
            && |data| >= 55 + n && data[53] == n / 256 && data[54] == n % 256
            && data[37..53] == a.aaguid
            && data[55..55 + n] == a.credentialId && data[55 + n..] == a.cosePublicKey
  {
    hide Prefix;
    var data, n := Print(a), |a.credentialId|;
    assert data[37..] == Attested(a);
    assert data[37..53] == data[37..][..16];
    assert data[53] == data[37..][16] && data[54] == data[37..][17];
    assert data[55..55 + n] == data[37..][18..18 + n];
    assert data[55 + n..] == data[37..][18 + n..];
  }

  lemma PrefixOfParsed(data: bytes)
    requires Parsed(data).Ok?
    ensures Prefix(Parsed(data).value) == data[..MIN_LEN]
  {
    FourOctets(data[33], data[34], data[35], data[36]);
    assert data[..37] == data[..32] + [data[32]] + [data[33], data[34], data[35], data[36]];
  }

  lemma AttestedOfParsed(data: bytes)
    requires Parsed(data).Ok? && HasAttested(data[32])
    ensures Attested(Parsed(data).value) == data[MIN_LEN..]
  {
    var n: nat := U16(data[53], data[54]);
    LengthOctets(data[53], data[54]);
    assert data[37..] == data[37..53] + [data[53], data[54]] + data[55..55 + n] + data[55 + n..];
  }

  lemma LengthOctets(a: byte, b: byte)
    ensures U16(a, b) / 256 == a && U16(a, b) % 256 == b
  {
  }

  /** On accepted input, printing the parsed fields gives back the octets read:
      all of them when AT is set, the 37-octet prefix when it is clear. So
      nothing is lost exactly when AT is set or nothing follows the prefix. */
  lemma PrintInvertsParse(data: bytes)
    requires Parsed(data).Ok?
    ensures var a := Parsed(data).value;
            && (HasAttested(data[32]) ==> Print(a) == data)
            && (!HasAttested(data[32]) ==> Print(a) == data[..MIN_LEN])
            && (Print(a) == data <==> HasAttested(data[32]) || |data| == MIN_LEN)
  {
    hide Prefix, Attested;
    PrefixOfParsed(data);
    if HasAttested(data[32]) {
      AttestedOfParsed(data);
    }
    assert data == data[..MIN_LEN] + data[MIN_LEN..];
  }
}
