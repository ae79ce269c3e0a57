/** The assertion subcommand of t/data/webauthn_tool.py against the verifier:
    what the tool prints is accepted, and each of its switches for a bad
    assertion makes it rejected. */
module Tool {
  import Assertion
  import AuthData
  import opened ClientData
  import opened Login
  import opened Prelude

  /** client_data_json, as the tree a parser makes of it. */
  function ClientDataTree(kind: string, challenge: string, origin: string): Json {
    Object(map["type" := Str(kind), "challenge" := Str(challenge), "origin" := Str(origin),
               "crossOrigin" := Truth(false)])
  }

  /** The octets of an assertion's authenticator data: the relying party's hash,
      FLAG_UP or FLAG_UP | FLAG_UV, and the counter in four octets. */
  function AuthenticatorData(hash: Assertion.sha256, verified: bool, count: uint32): (data: bytes)
    ensures |data| == 37
  {
    hash + [if verified then 0x05 else 0x01]
    + [count / 0x100_0000, count / 0x1_0000 % 0x100, count / 0x100 % 0x100, count % 0x100]
  }

  /** auth_data for an assertion. */
  method PrintAuthenticatorData(hash: Assertion.sha256, verified: bool, count: uint32) returns (data: bytes)
    ensures data == AuthenticatorData(hash, verified, count)
  {
    var flags: byte := if verified then 0x05 else 0x01;
    data := AuthData.AuthDataOf(AuthData.AuthData(hash, flags, count, AuthData.Fill(16), [], []));
  }

  /** What makes a printed assertion acceptable. */
  predicate Good(o: Assertion.Oracle, rpId: string, verified: bool, count: uint32, kind: string, challenge: string,
                 origin: string, stored: nat, p: Assertion.Policy)
  {
    && kind == "webauthn.get" && o.decode(challenge) == Some(p.challenge) && origin in p.origins
    && o.hash(OctetsOf(rpId)) == o.hash(OctetsOf(p.rpId))
    && (p.requireUv ==> verified)
    && (p.clone.Strict? ==> count > stored || (count == 0 && stored == 0))
  }

  lemma PrintedConforms(o: Assertion.Oracle, rpId: string, verified: bool, count: uint32, kind: string,
                        challenge: string, origin: string, cdj: bytes, sig: bytes, stored: nat, p: Assertion.Policy)
    requires o.parse(cdj) == Some(ClientDataTree(kind, challenge, origin))
    ensures var a := Assertion.Assertion(AuthenticatorData(o.hash(OctetsOf(rpId)), verified, count), cdj, sig);
            (Assertion.Conforms(o, a, stored, p.rpId, p.challenge, p.origins, p.requireUv, p.clone)
             <==> Good(o, rpId, verified, count, kind, challenge, origin, stored, p))
  {
    var hash := o.hash(OctetsOf(rpId));
    var d := AuthenticatorData(hash, verified, count);
    assert d[..32] == hash;
    CountOctets(count);
    Flags();
  }

  lemma CountOctets(count: uint32)
    ensures count / 0x100_0000 * 0x100_0000 + count / 0x1_0000 % 0x100 * 0x1_0000 + count / 0x100 % 0x100 * 0x100
            + count % 0x100 == count
  {
  }

  lemma Flags()
    ensures 0x05 as bv8 & 0xc1 == 0x01 && 0x01 as bv8 & 0xc1 == 0x01
    ensures 0x05 as bv8 & 0x04 == 0x04 && 0x01 as bv8 & 0x04 != 0x04
  {
  }

  /** cmd_assertion and assertion_verify together, for an ES256 key: accepted
      with the printed counter if nothing about the assertion is bad and the
      signature is good over the octets printed, followed by the hash of the
      client data; declined if anything is bad or the signature is. */
  method AssertAndVerify(o: Assertion.Oracle, rpId: string, verified: bool, count: uint32, kind: string,
                         challenge: string, origin: string, cdj: bytes, sig: bytes, key: string, stored: nat,
                         p: Assertion.Policy)
    returns (r: Rc<nat>)
    requires o.parse(cdj) == Some(ClientDataTree(kind, challenge, origin)) && o.keyType(key) == Some(Assertion.EC)
    ensures var octets := o.hash(OctetsOf(rpId)) + [if verified then 0x05 else 0x01]
                          + [count / 0x100_0000, count / 0x1_0000 % 0x100, count / 0x100 % 0x100, count % 0x100]
                          + o.hash(cdj);
            r == if !Good(o, rpId, verified, count, kind, challenge, origin, stored, p) then Declined
                 else match o.check(key, Assertion.Sha256, octets, sig)
                   case Some(true) => Ok(count)
                   case Some(false) => Declined
                   case None => Error
  {
    hide Assertion.Conforms, Good, Assertion.Presentable, Assertion.Signed, Assertion.Refuted, ClientDataTree;
    var data := PrintAuthenticatorData(o.hash(OctetsOf(rpId)), verified, count);
    var a := Assertion.Assertion(data, cdj, sig);
    PrintedConforms(o, rpId, verified, count, kind, challenge, origin, cdj, sig, stored, p);
    CountOctets(count);
    r := Assertion.Verify(o, a, key, -7, stored, p);
  }

  /** The request body, as the tree a parser makes of it. */
  function BodyTree(id: string, clientData: string, authenticatorData: string, signature: string): Json {
    Object(map["id" := Str(id), "rawId" := Str(id), "type" := Str("public-key"),
               "response" := Object(map["clientDataJSON" := Str(clientData),
                                        "authenticatorData" := Str(authenticatorData),
                                        "signature" := Str(signature), "userHandle" := Other]),
               "clientExtensionResults" := Object(map[])])
  }

  /** The handler takes from a printed body what was put into it, each part in
      its own place. */
  lemma PrintedBodyPosts(decode: Decoder, id: string, clientData: string, authenticatorData: string,
                         signature: string, a: Assertion.Assertion)
    requires id != "" && clientData != "" && authenticatorData != "" && signature != ""
    requires decode(clientData) == Some(a.clientDataJson) && decode(signature) == Some(a.signature)
    requires decode(authenticatorData) == Some(a.authenticatorData)
    ensures Posts(decode, Some(BodyTree(id, clientData, authenticatorData, signature)), Posted(id, a))
  {
  }
}
