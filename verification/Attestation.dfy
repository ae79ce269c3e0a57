/** The attestation object of a registration: parsing and policy decision of
    src/ngx_auth_webauthn_attestation.c (section 6.5 of WebAuthn Level 2). */
module Attestation {
  import Assertion
  import AuthData
  import opened Buffer
  import opened Cbor
  import Cose
  import opened Prelude

  datatype Attestation = Attestation(fmt: bytes, authData: bytes, alg: int, sig: bytes, hasX5c: bool)

  /** str_eq: a text string with these octets. */
  predicate IsText(item: Item, literal: string) {
    item == TextString(OctetsOf(literal))
  }

  /** The low 32 bits as a C int. */
  function AsInt32(x: int): (r: int)
    ensures INT32_MIN <= r <= INT32_MAX
    ensures INT32_MIN <= x <= INT32_MAX ==> r == x
  {
    var low := x % 0x1_0000_0000;
    if low <= INT32_MAX then low else low - 0x1_0000_0000
  }

  // The statement

  /** The last integer under "alg"; other values there are passed over. */
  function LastAlg(pairs: seq<Pair>): int {
    if pairs == [] then 0
    else
      var p := pairs[|pairs| - 1];
      if IsText(p.key, "alg") && Cose.CoseInt(p.value).Some? then AsInt32(Cose.CoseInt(p.value).value)
      else LastAlg(pairs[..|pairs| - 1])
  }

  predicate SigsAreBytes(pairs: seq<Pair>) {
    forall i :: 0 <= i < |pairs| && IsText(pairs[i].key, "sig") ==> pairs[i].value.ByteString?
  }

  function LastSig(pairs: seq<Pair>): bytes {
    if pairs == [] then []
    else
      var p := pairs[|pairs| - 1];
      if IsText(p.key, "sig") && p.value.ByteString? then p.value.b
      else LastSig(pairs[..|pairs| - 1])
  }

  predicate Filled(v: Item) {
    ItemsOf(v).Some? && ItemsOf(v).value != []
  }

  predicate HasX5c(pairs: seq<Pair>) {
    exists i :: 0 <= i < |pairs| && IsText(pairs[i].key, "x5c") && Filled(pairs[i].value)
  }

  lemma NamesDiffer()
    ensures OctetsOf("alg") != OctetsOf("sig") && OctetsOf("alg") != OctetsOf("x5c")
    ensures OctetsOf("sig") != OctetsOf("x5c")
  {
    assert OctetsOf("alg")[0] == 97 && OctetsOf("sig")[0] == 115 && OctetsOf("x5c")[0] == 120;
  }

  /** src/ngx_auth_webauthn_attestation.c:82, into the fields it fills. */
  method ParseStmt(stmt: Item, att: Attestation) returns (r: Rc<Attestation>)
    requires att.alg == 0 && att.sig == [] && !att.hasX5c
    ensures r.Ok? <==> PairsOf(stmt).Some? && SigsAreBytes(PairsOf(stmt).value)
    ensures r.Ok? ==>
              var pairs := PairsOf(stmt).value;
              r.value == att.(alg := LastAlg(pairs), sig := LastSig(pairs), hasX5c := HasX5c(pairs))
    ensures !r.Error?
  {
    hide Cose.CoseInt, OctetsOf, AsInt32;
    NamesDiffer();
    if PairsOf(stmt).None? {
      return Declined;
    }
    var pairs := PairsOf(stmt).value;
    var out := att;
    for i := 0 to |pairs|
      invariant SigsAreBytes(pairs[..i])
      invariant out == att.(alg := LastAlg(pairs[..i]), sig := LastSig(pairs[..i]), hasX5c := HasX5c(pairs[..i]))
    {
      var k, v := pairs[i].key, pairs[i].value;
      StmtStep(pairs, i);
      if IsText(k, "alg") {
        if Cose.CoseInt(v).Some? {
          out := out.(alg := AsInt32(Cose.CoseInt(v).value));
        }
      } else if IsText(k, "sig") {
        if !v.ByteString? {
          return Declined;
        }
        out := out.(sig := v.b);
      } else if IsText(k, "x5c") {
        if Filled(v) {
          out := out.(hasX5c := true);
        }
      }
    }
    assert pairs[..|pairs|] == pairs;
    r := Ok(out);
  }

  lemma StmtStep(pairs: seq<Pair>, i: nat)
    requires i < |pairs|
    ensures var p := pairs[i];
            && (LastAlg(pairs[..i + 1])
                == if IsText(p.key, "alg") && Cose.CoseInt(p.value).Some? then AsInt32(Cose.CoseInt(p.value).value)
                   else LastAlg(pairs[..i]))
            && (LastSig(pairs[..i + 1])
                == if IsText(p.key, "sig") && p.value.ByteString? then p.value.b else LastSig(pairs[..i]))
            && (SigsAreBytes(pairs[..i + 1])
                <==> SigsAreBytes(pairs[..i]) && (IsText(p.key, "sig") ==> p.value.ByteString?))
            && (HasX5c(pairs[..i + 1])
                <==> HasX5c(pairs[..i]) || (IsText(p.key, "x5c") && Filled(p.value)))
  {
    hide Cose.CoseInt, OctetsOf, AsInt32, IsText;
    assert pairs[..i + 1][..i] == pairs[..i];
    forall j | 0 <= j < i ensures pairs[..i + 1][j] == pairs[..i][j] { }
    assert pairs[..i + 1][i] == pairs[i];
  }

  // The object

  function LastText(pairs: seq<Pair>, name: string): Option<Item> {
    if pairs == [] then None
    else if IsText(pairs[|pairs| - 1].key, name) then Some(pairs[|pairs| - 1].value)
    else LastText(pairs[..|pairs| - 1], name)
  }

  /** A whole attestation object: one map and nothing after it. */
  ghost predicate IsObject(data: bytes, pairs: seq<Pair>) {
    Decode(data).Some? && Decode(data).value.1 == [] && PairsOf(Decode(data).value.0) == Some(pairs)
  }

  /** What the map means. */
  ghost predicate Means(pairs: seq<Pair>, att: Attestation) {
    && LastText(pairs, "fmt") == Some(TextString(att.fmt))
    && LastText(pairs, "authData") == Some(ByteString(att.authData))
    && match LastText(pairs, "attStmt")
       case None => att.alg == 0 && att.sig == [] && !att.hasX5c
       case Some(stmt) =>
         && PairsOf(stmt).Some? && SigsAreBytes(PairsOf(stmt).value)
         && att.alg == LastAlg(PairsOf(stmt).value) && att.sig == LastSig(PairsOf(stmt).value)
         && att.hasX5c == HasX5c(PairsOf(stmt).value)
  }

  lemma MemberNamesDiffer()
    ensures OctetsOf("fmt") != OctetsOf("authData") && OctetsOf("fmt") != OctetsOf("attStmt")
    ensures OctetsOf("authData") != OctetsOf("attStmt")
  {
    assert |OctetsOf("fmt")| == 3 && |OctetsOf("authData")| == 8 && |OctetsOf("attStmt")| == 7;
  }

  /** src/ngx_auth_webauthn_attestation.c:134. */
  method Parse(data: bytes) returns (r: Rc<Attestation>)
    ensures r.Ok? ==> exists pairs :: IsObject(data, pairs) && Means(pairs, r.value)
    ensures r.Declined? ==> forall pairs, att :: IsObject(data, pairs) ==> !Means(pairs, att)
    ensures !r.Error?
  {
    hide Decode, OctetsOf, LastAlg, LastSig, SigsAreBytes, HasX5c;
    MemberNamesDiffer();
    var root := Decode(data);
    if root.None? || root.value.1 != [] || PairsOf(root.value.0).None? {
      return Declined;
    }
    var pairs := PairsOf(root.value.0).value;
    assert IsObject(data, pairs);
    var fmt, authData, attStmt: Option<Item> := None, None, None;
    for i := 0 to |pairs|
      invariant fmt == LastText(pairs[..i], "fmt")
      invariant authData == LastText(pairs[..i], "authData")
      invariant attStmt == LastText(pairs[..i], "attStmt")
    {
      var k := pairs[i].key;
      assert pairs[..i + 1][..i] == pairs[..i];
      if IsText(k, "fmt") {
        fmt := Some(pairs[i].value);
      } else if IsText(k, "authData") {
        authData := Some(pairs[i].value);
      } else if IsText(k, "attStmt") {
        attStmt := Some(pairs[i].value);
      }
    }
    assert pairs[..|pairs|] == pairs;
    if fmt.None? || !fmt.value.TextString? || authData.None? || !authData.value.ByteString? {
      return Declined;
    }
    var out := Attestation(fmt.value.t, authData.value.b, 0, [], false);
    if attStmt.None? {
      return Ok(out);
    }
    r := ParseStmt(attStmt.value, out);
  }

  /** A parsed object means one thing. */
  lemma MeansOnce(data: bytes, ps: seq<Pair>, a: Attestation, qs: seq<Pair>, b: Attestation)
    requires IsObject(data, ps) && Means(ps, a) && IsObject(data, qs) && Means(qs, b)
    ensures a == b
  {
    hide Decode, LastText, LastAlg, LastSig, HasX5c, SigsAreBytes;
  }

  /** Anything after a complete item is rejected, where COSE keys ignore it. */
  lemma TrailingRejected(data: bytes, more: bytes)
    requires Decode(data).Some? && more != []
    ensures forall pairs :: !IsObject(data + more, pairs)
  {
    hide Decode;
    DecodeExtends(data, more);
  }

  // The decision

  datatype Require = OnlyNone | SelfPacked

  /** What OpenSSL computes. */
  datatype Oracle = Oracle(
    hash: bytes -> Assertion.sha256,
    loads: Cose.Key -> bool,
    check: (Cose.Key, Assertion.DigestKind, bytes, bytes) -> Option<bool>)

  function DigestOf(alg: int): Assertion.DigestKind {
    if alg == Cose.EDDSA then Assertion.NoDigest else Assertion.Sha256
  }

  /** The octets a packed self-attestation signs. */
  function SignedBy(att: Attestation, clientDataHash: bytes): bytes {
    att.authData + clientDataHash
  }

  /** The credential key of the authenticator data vouches for the object:
      `verdict` is what checking the signature says. */
  ghost predicate SelfSigned(o: Oracle, att: Attestation, ad: AuthData.AuthData, clientDataHash: bytes,
                             verdict: Option<bool>)
  {
    && att.sig != [] && AuthData.HasAttested(ad.flags) && ad.cosePublicKey != []
    && exists key ::
         && Cose.Answers(ad.cosePublicKey, o.loads, Ok(key))
         && att.alg == Cose.AlgOf(key)
         && o.check(key, DigestOf(att.alg), SignedBy(att, clientDataHash), att.sig) == verdict
  }

  /** src/ngx_auth_webauthn_attestation.c:252. */
  method VerifyPacked(o: Oracle, att: Attestation, ad: AuthData.AuthData, clientDataHash: bytes) returns (r: Rc<()>)
    ensures r.Ok? <==> SelfSigned(o, att, ad, clientDataHash, Some(true))
    ensures r.Error? <==>
              || SelfSigned(o, att, ad, clientDataHash, None)
              || (att.sig != [] && AuthData.HasAttested(ad.flags) && ad.cosePublicKey != []
                  && Cose.Answers(ad.cosePublicKey, o.loads, Error))
  {
    hide Cose.Answers, AuthData.HasAttested, Buffer.Valid;
    if |att.sig| == 0 {
      return Declined;
    }
    if !AuthData.HasAttested(ad.flags) || |ad.cosePublicKey| == 0 {
      return Declined;
    }
    var rc := Cose.ToKey(ad.cosePublicKey, o.loads);
    forall q | Cose.Answers(ad.cosePublicKey, o.loads, q) ensures q == rc {
      Cose.AnswersOnce(ad.cosePublicKey, o.loads, q, rc);
    }
    if !rc.Ok? {
      r := if rc.Declined? then Declined else Error;
      return;
    }
    var key := rc.value;
    if att.alg != Cose.AlgOf(key) {
      return Declined;
    }
    var signedData := new Buffer<byte>(|att.authData| + |clientDataHash|);
    signedData.Append(att.authData);
    signedData.Append(clientDataHash);
    var data := signedData.Text();
    assert data == SignedBy(att, clientDataHash);
    r := match o.check(key, DigestOf(att.alg), data, att.sig)
      case Some(true) => Ok(())
      case Some(false) => Declined
      case None => Error;
  }

  ghost predicate ForParty(o: Oracle, att: Attestation, rpId: string) {
    && AuthData.Parsed(att.authData).Ok?
    && AuthData.Parsed(att.authData).value.rpIdHash == o.hash(OctetsOf(rpId))
  }

  predicate Wanted(att: Attestation, require: Require) {
    require.SelfPacked? && att.fmt == OctetsOf("packed") && !att.hasX5c
  }

  /** src/ngx_auth_webauthn_attestation.c:339. "none" passes under either
      policy once the relying party matches; otherwise only a self-signed
      "packed" without certificates, and only where it is asked for. */
  method Verify(o: Oracle, att: Attestation, rpId: string, clientDataHash: bytes, require: Require)
    returns (r: Rc<()>)
    ensures r.Ok? <==>
              && ForParty(o, att, rpId)
              && (|| att.fmt == OctetsOf("none")
                  || (Wanted(att, require)
                      && SelfSigned(o, att, AuthData.Parsed(att.authData).value, clientDataHash, Some(true))))
    ensures r.Error? ==> ForParty(o, att, rpId) && Wanted(att, require) && att.fmt != OctetsOf("none")
  {
    hide OctetsOf, SelfSigned, AuthData.Parsed, Cose.Answers, AuthData.HasAttested;
    var parsed := AuthData.Parse(att.authData);
    if !parsed.Ok? {
      return Declined;
    }
    var ad := parsed.value;
    var rpIdHash := o.hash(OctetsOf(rpId));
    if ad.rpIdHash != rpIdHash {
      return Declined;
    }
    if att.fmt == OctetsOf("none") {
      return Ok(());
    }
    if require.OnlyNone? {
      return Declined;
    }
    if att.fmt != OctetsOf("packed") {
      return Declined;
    }
    if att.hasX5c {
      return Declined;
    }
    r := VerifyPacked(o, att, ad, clientDataHash);
  }

  // The test tool's printer

  /** The object of cmd_attestation, t/data/webauthn_tool.py:172. */
  function ObjectItem(authData: bytes): Item {
    Map([Pair(TextString(OctetsOf("fmt")), TextString(OctetsOf("none"))),
         Pair(TextString(OctetsOf("attStmt")), Map([])),
         Pair(TextString(OctetsOf("authData")), ByteString(authData))])
  }

  lemma TextSnoc(pairs: seq<Pair>, p: Pair, name: string)
    ensures LastText(pairs + [p], name) == if IsText(p.key, name) then Some(p.value) else LastText(pairs, name)
  {
    hide OctetsOf;
    assert (pairs + [p])[..|pairs|] == pairs;
  }

  lemma ObjectMeans(authData: bytes)
    ensures Means(ObjectItem(authData).pairs, Attestation(OctetsOf("none"), authData, 0, [], false))
  {
    hide OctetsOf;
    MemberNamesDiffer();
    var p := ObjectItem(authData).pairs;
    assert p == [] + [p[0]] + [p[1]] + [p[2]];
    forall name: string {:trigger LastText(p, name)}
      ensures LastText(p, name)
           == if IsText(p[2].key, name) then Some(p[2].value) else if IsText(p[1].key, name) then Some(p[1].value)
              else if IsText(p[0].key, name) then Some(p[0].value) else None
    {
      TextSnoc([], p[0], name);
      TextSnoc([] + [p[0]], p[1], name);
      TextSnoc([] + [p[0]] + [p[1]], p[2], name);
    }
    hide LastText;
  }

  lemma PrintedLength(a: AuthData.AuthData, x: bytes, y: bytes)
    requires AuthData.WellFormed(a) && |x| == Cose.COORD_LEN && |y| == Cose.COORD_LEN
    requires Encode(Cose.CoseKeyItem(x, y)) == Some(a.cosePublicKey)
    ensures |AuthData.Print(a)| < 0x2_0000
  {
    hide Encode;
    Cose.CoseKeyEncodes(x, y);
  }

  lemma ObjectEncodes(authData: bytes)
    requires |authData| < 0x1_0000_0000
    ensures Encode(ObjectItem(authData)).Some?
  {
    hide OctetsOf;
    var p := ObjectItem(authData).pairs;
    assert |OctetsOf("fmt")| == 3 && |OctetsOf("none")| == 4;
    assert |OctetsOf("attStmt")| == 7 && |OctetsOf("authData")| == 8;
    assert EncodePair(p[0]).Some? && EncodePair(p[1]).Some? && EncodePair(p[2]).Some?;
    Cose.EncodeFew(p[0], p[1], p[2]);
    assert p == [p[0], p[1], p[2]];
  }

  /** A registration end to end: what the tool prints parses back, under any
      policy, to the credential id, the counter and the key it was made of,
      and passes for its own relying party and no other. */
  lemma RegistrationReadsBack(a: AuthData.AuthData, x: bytes, y: bytes, o: Oracle, rpId: string)
    requires AuthData.WellFormed(a) && AuthData.HasAttested(a.flags)
    requires |x| == Cose.COORD_LEN && |y| == Cose.COORD_LEN
    requires Encode(Cose.CoseKeyItem(x, y)) == Some(a.cosePublicKey)
    ensures Encode(ObjectItem(AuthData.Print(a))).Some?
    ensures var data := Encode(ObjectItem(AuthData.Print(a))).value;
            var att := Attestation(OctetsOf("none"), AuthData.Print(a), 0, [], false);
            var key := Cose.Ec2([4] + x + y);
            && (exists pairs :: IsObject(data, pairs) && Means(pairs, att))
            && AuthData.Parsed(att.authData) == Ok(a)
            && Cose.Answers(a.cosePublicKey, o.loads, if o.loads(key) then Ok(key) else Error)
            && (ForParty(o, att, rpId) <==> a.rpIdHash == o.hash(OctetsOf(rpId)))
  {
    hide Decode, Encode, Means, Cose.Answers, AuthData.Parsed, AuthData.Print, OctetsOf;
    var v := ObjectItem(AuthData.Print(a));
    PrintedLength(a, x, y);
    ObjectEncodes(AuthData.Print(a));
    var data := Encode(v).value;
    RoundTrip(v, []);
    assert data + [] == data;
    ObjectMeans(AuthData.Print(a));
    assert IsObject(data, v.pairs);
    AuthData.ParseInvertsPrint(a);
    Cose.CoseKeyRoundTrip(x, y, [], o.loads);
    assert a.cosePublicKey + [] == a.cosePublicKey;
  }

  // The tables of algorithms, and what is signed

  /** Both verifiers and the key extraction agree on the algorithms: ES256 with
      a P-256 key, EdDSA with an Ed25519 key and no digest, RS256 with an RSA
      key, and no other. */
  lemma AlgorithmTables(key: Cose.Key, alg: int)
    ensures Assertion.WantedKey(alg).Some? <==> alg == -7 || alg == -8 || alg == -257
    ensures Assertion.WantedKey(-7) == Some((Assertion.Sha256, Assertion.EC))
    ensures Assertion.WantedKey(-8) == Some((Assertion.NoDigest, Assertion.Ed25519))
    ensures Assertion.WantedKey(-257) == Some((Assertion.Sha256, Assertion.RSA))
    ensures Cose.AlgOf(key) == if key.Ec2? then -7 else if key.Okp? then -8 else -257
    ensures Assertion.WantedKey(Cose.AlgOf(key)).value.0 == DigestOf(Cose.AlgOf(key))
  {
  }

  /** A self-attestation, octet by octet: the credential's own key checks the
      signature over the authenticator data followed by the client data hash,
      with its own algorithm's digest. */
  lemma SelfSignedExactly(o: Oracle, att: Attestation, ad: AuthData.AuthData, clientDataHash: bytes,
                          verdict: Option<bool>)
    ensures SelfSigned(o, att, ad, clientDataHash, verdict)
       <==> && att.sig != [] && ad.flags as bv8 & 0x40 != 0 && ad.cosePublicKey != []
            && exists key :: SignedWith(o, att, ad.cosePublicKey, clientDataHash, verdict, key)
  {
    hide Cose.Answers, AuthData.HasAttested;
    AuthData.FlagBits(ad.flags);
    forall key ensures SignedWith(o, att, ad.cosePublicKey, clientDataHash, verdict, key)
                  <==> && Cose.Answers(ad.cosePublicKey, o.loads, Ok(key)) && att.alg == Cose.AlgOf(key)
                       && o.check(key, DigestOf(att.alg), SignedBy(att, clientDataHash), att.sig) == verdict
    {
    }
  }

  ghost predicate SignedWith(o: Oracle, att: Attestation, cose: bytes, clientDataHash: bytes, verdict: Option<bool>,
                             key: Cose.Key)
  {
    && Cose.Answers(cose, o.loads, Ok(key))
    && att.alg == (if key.Ec2? then -7 else if key.Okp? then -8 else -257)
    && o.check(key, if key.Okp? then Assertion.NoDigest else Assertion.Sha256, att.authData + clientDataHash, att.sig)
    == verdict
  }

  /** A packed statement as an authenticator writes it, with or without a
      certificate chain, of either length form. */
  lemma PackedStatement(alg: int, sig: bytes, chain: Item, certs: seq<Item>)
    requires INT32_MIN <= alg <= INT32_MAX && (chain == Array(certs) || chain == OpenArray(certs))
    ensures var pairs := [Pair(TextString(OctetsOf("alg")), IntItem(alg)),
                          Pair(TextString(OctetsOf("sig")), ByteString(sig)),
                          Pair(TextString(OctetsOf("x5c")), chain)];
            && SigsAreBytes(pairs) && LastAlg(pairs) == alg && LastSig(pairs) == sig
            && (HasX5c(pairs) <==> certs != [])
  {
    hide OctetsOf, Cose.CoseInt, AsInt32;
    NamesDiffer();
    var p := [Pair(TextString(OctetsOf("alg")), IntItem(alg)), Pair(TextString(OctetsOf("sig")), ByteString(sig)),
              Pair(TextString(OctetsOf("x5c")), chain)];
    IntStays(alg);
    StmtStep(p, 0);
    StmtStep(p, 1);
    StmtStep(p, 2);
    assert p[..0] == [] && p[..3] == p;
  }

  lemma IntStays(alg: int)
    requires INT32_MIN <= alg <= INT32_MAX
    ensures Cose.CoseInt(IntItem(alg)) == Some(alg) && AsInt32(alg) == alg
  {
  }
}
