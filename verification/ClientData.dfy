/** The clientData check of src/ngx_auth_webauthn_clientdata.c. JSON parsing is
    an oracle; the document is the tree it returns. */
module ClientData {
  import opened Prelude

  datatype Json =
    | Str(s: string)
    | Truth(b: bool)
    | Object(members: map<string, Json>)
    | Other

  /** Absent members, and any member of something that is no object, are None. */
  function MemberOf(root: Json, key: string): Option<Json> {
    if root.Object? && key in root.members then Some(root.members[key]) else None
  }

  function StringOf(root: Json, key: string): Option<string> {
    match MemberOf(root, key)
    case Some(Str(s)) => Some(s)
    case _ => None
  }

  /** ngx_decode_base64url as the module is linked: nginx core's, or one that
      reads the same, such as Base64url.Decode. None is its error. */
  type Decoder = string -> Option<bytes>

  predicate ChallengeIs(decode: Decoder, root: Json, raw: bytes) {
    && StringOf(root, "challenge").Some?
    && decode(StringOf(root, "challenge").value) == Some(raw)
  }

  /** The checks on every member but the challenge. */
  predicate PassesBesides(doc: Option<Json>, expectedType: string, origins: seq<string>) {
    && doc.Some?
    && StringOf(doc.value, "type") == Some(expectedType)
    && StringOf(doc.value, "origin").Some?
    && StringOf(doc.value, "origin").value in origins
    && MemberOf(doc.value, "crossOrigin") != Some(Truth(true))
  }

  predicate Passes(decode: Decoder, doc: Option<Json>, expectedType: string, expected: bytes, origins: seq<string>) {
    PassesBesides(doc, expectedType, origins) && ChallengeIs(decode, doc.value, expected)
  }

  /** src/ngx_auth_webauthn_clientdata.c:41. */
  method Verify(decode: Decoder, doc: Option<Json>, expectedType: string, expected: bytes, origins: seq<string>)
    returns (r: Rc<()>)
    ensures r.Ok? <==> Passes(decode, doc, expectedType, expected, origins)
    ensures !r.Error?
  {
    if doc.None? {
      return Declined;
    }
    var root := doc.value;
    var kind := StringOf(root, "type");
    if kind.None? || kind.value != expectedType {
      return Declined;
    }
    var encoded := StringOf(root, "challenge");
    if encoded.None? {
      return Declined;
    }
    var challenge := decode(encoded.value);
    if challenge.None? || challenge.value != expected {
      return Declined;
    }
    var origin := StringOf(root, "origin");
    if origin.None? {
      return Declined;
    }
    r := Declined;
    for i := 0 to |origins|
      invariant r == Declined && origin.value !in origins[..i]
    {
      if origin.value == origins[i] {
        r := Ok(());
        break;
      }
    }
    if r != Ok(()) {
      return;
    }
    var cross := MemberOf(root, "crossOrigin");
    if cross.Some? && cross.value.Truth? && cross.value.b {
      return Declined;
    }
    r := Ok(());
  }

  /** The challenge the verify handler reads out of clientDataJSON before it
      consumes it, src/ngx_http_auth_webauthn_module.c:1434. */
  function Named(decode: Decoder, doc: Option<Json>): Option<bytes> {
    if doc.None? || !doc.value.Object? || StringOf(doc.value, "challenge").None? then None
    else decode(StringOf(doc.value, "challenge").value)
  }

  method ExtractChallenge(decode: Decoder, doc: Option<Json>) returns (raw: Option<bytes>)
    ensures raw == Named(decode, doc)
  {
    if doc.None? || !doc.value.Object? {
      return None;
    }
    var encoded := StringOf(doc.value, "challenge");
    if encoded.None? {
      return None;
    }
    raw := decode(encoded.value);
  }

  /** Both sides decode the same member: with the challenge the handler named,
      the comparison cannot fail, and with any other value it must. */
  lemma NamedChallengeAgrees(decode: Decoder, doc: Option<Json>, raw: bytes, expected: bytes, expectedType: string,
                             origins: seq<string>)
    requires Named(decode, doc) == Some(raw)
    ensures Passes(decode, doc, expectedType, expected, origins)
       <==> PassesBesides(doc, expectedType, origins) && expected == raw
  {
  }
}
