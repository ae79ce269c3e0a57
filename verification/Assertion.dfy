/** The acceptance decision of src/ngx_auth_webauthn_assertion.c (section 7.2
    of WebAuthn Level 2). Cryptography and JSON parsing are oracles. */
module Assertion {
  import AuthData
  import opened Buffer
  import ClientData
  import opened Prelude

  datatype ClonePolicy = Strict | Lax | Off

  datatype KeyType = EC | RSA | Ed25519 | OtherKey

  datatype DigestKind = Sha256 | NoDigest

  const SHA256_LEN := 32

  type sha256 = s: bytes | |s| == SHA256_LEN witness seq(SHA256_LEN, _ => 0)

  /** What OpenSSL, the JSON parser and the base64url decoder compute. `keyType` is None for a key that
      does not load; `check` is None for an error, else whether the signature
      is valid. */
  datatype Oracle = Oracle(
    decode: ClientData.Decoder,
    parse: bytes -> Option<ClientData.Json>,
    hash: bytes -> sha256,
    keyType: string -> Option<KeyType>,
    check: (string, DigestKind, bytes, bytes) -> Option<bool>)

  datatype Assertion = Assertion(authenticatorData: bytes, clientDataJson: bytes, signature: bytes)

  datatype Policy = Policy(
    rpId: string,
    challenge: bytes,
    origins: seq<string>,
    requireUv: bool,
    clone: ClonePolicy)

  const EXPECTED_TYPE := "webauthn.get"

  /** src/ngx_auth_webauthn_assertion.c:21. */
  function CheckCounter(clone: ClonePolicy, auth: nat, stored: nat): (ok: bool)
    ensures clone.Strict? ==> (ok <==> (auth == 0 && stored == 0) || auth > stored)
    ensures !clone.Strict? ==> ok
  {
    if clone.Off? then true
    else if auth == 0 && stored == 0 then true
    else if auth > stored then true
    else clone.Lax?
  }

  function WantedKey(alg: int): Option<(DigestKind, KeyType)> {
    match alg
    case -7 => Some((Sha256, EC))
    case -257 => Some((Sha256, RSA))
    case -8 => Some((NoDigest, Ed25519))
    case _ => None
  }

  /** A signature the stored key and algorithm both vouch for. */
  ghost predicate Signed(o: Oracle, key: string, alg: int, data: bytes, signature: bytes) {
    && WantedKey(alg).Some?
    && o.keyType(key) == Some(WantedKey(alg).value.1)
    && o.check(key, WantedKey(alg).value.0, data, signature) == Some(true)
  }

  /** A well-typed key that cleanly rejects the signature. */
  ghost predicate Refuted(o: Oracle, key: string, alg: int, data: bytes, signature: bytes) {
    && WantedKey(alg).Some?
    && o.keyType(key) == Some(WantedKey(alg).value.1)
    && o.check(key, WantedKey(alg).value.0, data, signature) == Some(false)
  }

  /** src/ngx_auth_webauthn_assertion.c:53. Only a well-typed key with a
      cleanly refuted signature is Declined; the rest are errors. */
  method CheckSignature(o: Oracle, key: string, alg: int, data: bytes, signature: bytes) returns (r: Rc<()>)
    ensures r.Ok? <==> Signed(o, key, alg, data, signature)
    ensures r.Declined? <==> Refuted(o, key, alg, data, signature)
  {
    var md, want;
    match alg {
      case -7 => md, want := Sha256, EC;
      case -257 => md, want := Sha256, RSA;
      case -8 => md, want := NoDigest, Ed25519;
      case _ => return Error;
    }
    var pkey := o.keyType(key);
    if pkey.None? {
      return Error;
    }
    if pkey.value != want {
      return Error;
    }
    r := match o.check(key, md, data, signature)
      case Some(true) => Ok(())
      case Some(false) => Declined
      case None => Error;
  }

  function SignedData(o: Oracle, a: Assertion): bytes {
    a.authenticatorData + o.hash(a.clientDataJson)
  }

  /** The sign counter: octets 33 to 36, big-endian. */
  function CountIn(data: bytes): nat
    requires |data| >= AuthData.MIN_LEN
  {
    AuthData.U32(data[33], data[34], data[35], data[36])
  }

  function ReportedCount(a: Assertion): nat
    requires |a.authenticatorData| >= AuthData.MIN_LEN
  {
    CountIn(a.authenticatorData)
  }

  /** Length, flags and relying party. */
  ghost predicate AuthDataPasses(o: Oracle, data: bytes, p: Policy)
    ensures AuthDataPasses(o, data, p) ==> |data| >= AuthData.MIN_LEN
  {
    && |data| >= AuthData.MIN_LEN
    && !AuthData.HasAttested(data[32]) && !AuthData.HasExtensions(data[32])
    && data[..32] == o.hash(OctetsOf(p.rpId))
    && AuthData.UserPresent(data[32])
    && (p.requireUv ==> AuthData.UserVerified(data[32]))
  }

  /** Everything that depends on neither the challenge nor the stored record. */
  ghost predicate WellMade(o: Oracle, a: Assertion, p: Policy)
    ensures WellMade(o, a, p) ==> |a.authenticatorData| >= AuthData.MIN_LEN && o.parse(a.clientDataJson).Some?
  {
    && ClientData.PassesBesides(o.parse(a.clientDataJson), EXPECTED_TYPE, p.origins)
    && AuthDataPasses(o, a.authenticatorData, p)
  }

  /** Everything checked before the signature. */
  ghost predicate Presentable(o: Oracle, a: Assertion, stored: nat, p: Policy) {
    && WellMade(o, a, p)
    && ClientData.ChallengeIs(o.decode, o.parse(a.clientDataJson).value, p.challenge)
    && CheckCounter(p.clone, ReportedCount(a), stored)
  }

  /** The checks on authenticator data, in order; Some is its counter. */
  method CheckAuthData(o: Oracle, data: bytes, p: Policy) returns (count: Option<nat>)
    ensures count.Some? <==> AuthDataPasses(o, data, p)
    ensures count.Some? ==> count.value <= UINT32_MAX && count.value == CountIn(data)
  {
    hide AuthData.HasAttested, AuthData.HasExtensions, AuthData.UserPresent, AuthData.UserVerified;
    var parsed := AuthData.Parse(data);
    if !parsed.Ok? {
      return None;
    }
    var ad := parsed.value;
    if AuthData.HasAttested(ad.flags) || AuthData.HasExtensions(ad.flags) {
      return None;
    }
    var rpIdHash := o.hash(OctetsOf(p.rpId));
    if rpIdHash != ad.rpIdHash {
      return None;
    }
    if !AuthData.UserPresent(ad.flags) {
      return None;
    }
    if p.requireUv && !AuthData.UserVerified(ad.flags) {
      return None;
    }
    count := Some(ad.signCount);
  }

  /** Section 7.2 of WebAuthn Level 2 for what was posted, octet by octet, up to
      the signature: the document's members, the relying party's hash, UP set
      and AT and ED clear, UV if required, and the counter in octets 33 to 36. */
  ghost predicate Conforms(o: Oracle, a: Assertion, stored: nat, rpId: string, challenge: bytes, origins: seq<string>,
                           requireUv: bool, clone: ClonePolicy)
  {
    var doc, d := o.parse(a.clientDataJson), a.authenticatorData;
    && doc.Some? && doc.value.Object?
    && Says(doc.value.members, "type", s => s == "webauthn.get")
    && Says(doc.value.members, "challenge", s => o.decode(s) == Some(challenge))
    && Says(doc.value.members, "origin", s => s in origins)
    && !("crossOrigin" in doc.value.members && doc.value.members["crossOrigin"] == ClientData.Truth(true))
    && |d| >= 37 && d[..32] == o.hash(OctetsOf(rpId))
    && d[32] as bv8 & 0xc1 == 0x01
    && (requireUv ==> d[32] as bv8 & 0x04 == 0x04)
    && (clone.Strict? ==> Ahead(d[33] as int * 0x100_0000 + d[34] as int * 0x1_0000 + d[35] as int * 0x100
                                + d[36] as int, stored))
  }

  predicate Says(members: map<string, ClientData.Json>, name: string, ok: string -> bool) {
    name in members && members[name].Str? && ok(members[name].s)
  }

  predicate Ahead(count: int, stored: nat) {
    count > stored || (count == 0 && stored == 0)
  }

  /** What checking the signature says, by a key of the type the algorithm
      calls for, over the authenticator data followed by the hash of the client
      data. */
  ghost predicate SignatureIs(o: Oracle, a: Assertion, key: string, alg: int, verdict: bool) {
    var octets := a.authenticatorData + o.hash(a.clientDataJson);
    || (alg == -7 && o.keyType(key) == Some(EC) && o.check(key, Sha256, octets, a.signature) == Some(verdict))
    || (alg == -257 && o.keyType(key) == Some(RSA) && o.check(key, Sha256, octets, a.signature) == Some(verdict))
    || (alg == -8 && o.keyType(key) == Some(Ed25519) && o.check(key, NoDigest, octets, a.signature) == Some(verdict))
  }

  lemma ConformsExactly(o: Oracle, a: Assertion, stored: nat, p: Policy)
    ensures Presentable(o, a, stored, p)
       <==> Conforms(o, a, stored, p.rpId, p.challenge, p.origins, p.requireUv, p.clone)
  {
    hide AuthData.HasAttested, AuthData.HasExtensions, AuthData.UserPresent, AuthData.UserVerified;
    var d := a.authenticatorData;
    if |d| >= 37 {
      AuthData.FlagBits(d[32]);
      FlagMask(d[32] as bv8);
    }
  }

  lemma FlagMask(x: bv8)
    ensures x & 0xc1 == 0x01 <==> x & 0x01 != 0 && x & 0x40 == 0 && x & 0x80 == 0
    ensures x & 0x04 == 0x04 <==> x & 0x04 != 0
  {
  }

  lemma SignatureExactly(o: Oracle, a: Assertion, key: string, alg: int)
    ensures Signed(o, key, alg, SignedData(o, a), a.signature) <==> SignatureIs(o, a, key, alg, true)
    ensures Refuted(o, key, alg, SignedData(o, a), a.signature) <==> SignatureIs(o, a, key, alg, false)
  {
  }

  /** src/ngx_auth_webauthn_assertion.c:129. Accepted exactly when the whole
      conjunction holds, with the reported counter as the result; an error is
      only left for a key or a signature that cannot be processed. */
  method Verify(o: Oracle, a: Assertion, key: string, alg: int, stored: nat, p: Policy) returns (r: Rc<nat>)
    ensures r.Ok? <==> Presentable(o, a, stored, p) && Signed(o, key, alg, SignedData(o, a), a.signature)
    ensures r.Ok? ==> r.value == ReportedCount(a) && r.value <= UINT32_MAX
    ensures r.Declined? <==>
              !Presentable(o, a, stored, p) || Refuted(o, key, alg, SignedData(o, a), a.signature)
    ensures var conforms := Conforms(o, a, stored, p.rpId, p.challenge, p.origins, p.requireUv, p.clone);
            && (r.Ok? <==> conforms && SignatureIs(o, a, key, alg, true))
            && (r.Declined? <==> !conforms || SignatureIs(o, a, key, alg, false))
  {
    hide AuthDataPasses, Signed, Refuted, ClientData.ChallengeIs, ClientData.PassesBesides, CountIn;
    hide Buffer.Valid, Conforms, SignatureIs;
    ConformsExactly(o, a, stored, p);
    SignatureExactly(o, a, key, alg);
    var rc := ClientData.Verify(o.decode, o.parse(a.clientDataJson), EXPECTED_TYPE, p.challenge, p.origins);
    if !rc.Ok? {
      return Declined;
    }
    var count := CheckAuthData(o, a.authenticatorData, p);
    if count.None? {
      return Declined;
    }
    if !CheckCounter(p.clone, count.value, stored) {
      return Declined;
    }
    var signedData := new Buffer<byte>(|a.authenticatorData| + SHA256_LEN);
    signedData.Append(a.authenticatorData);
    signedData.Append(o.hash(a.clientDataJson));
    var data := signedData.Text();
    assert data == SignedData(o, a);
    var sig := CheckSignature(o, key, alg, data, a.signature);
    r := match sig
      case Ok(_) => Ok(count.value)
      case Declined => Declined
      case Error => Error;
  }

  /** What a stored key and algorithm contribute to a verdict. */
  ghost predicate Vouches(o: Oracle, a: Assertion, p: Policy, key: string, alg: int) {
    && WellMade(o, a, p)
    && ClientData.ChallengeIs(o.decode, o.parse(a.clientDataJson).value, p.challenge)
    && Signed(o, key, alg, SignedData(o, a), a.signature)
  }

  /** The record enters the decision through its key and algorithm on one side
      and its counter on the other, and the two sides do not interact. */
  lemma VerdictFactors(o: Oracle, a: Assertion, key: string, alg: int, stored: nat, p: Policy)
    ensures (Presentable(o, a, stored, p) && Signed(o, key, alg, SignedData(o, a), a.signature))
       <==> Vouches(o, a, p, key, alg) && CheckCounter(p.clone, ReportedCount(a), stored)
  {
  }

  /** Inside the handler, once the challenge named in clientDataJSON has been
      consumed, the challenge comparison is redundant. */
  lemma ConsumedChallengeAgrees(o: Oracle, a: Assertion, p: Policy, key: string, alg: int)
    requires ClientData.Named(o.decode, o.parse(a.clientDataJson)) == Some(p.challenge)
    ensures Vouches(o, a, p, key, alg)
       <==> WellMade(o, a, p) && Signed(o, key, alg, SignedData(o, a), a.signature)
  {
  }
}
