/** The texts src/ngx_http_auth_webauthn_module.c formats into buffers it sized
    beforehand. Each method writes through Buffer, so that it verifies at all
    means the output fits for every input length. */
module Formats {
  import Base64url
  import opened Buffer
  import opened Decimal
  import opened JsonText
  import Log
  import opened Prelude

  predicate IsTime(t: int) {
    INT64_MIN <= t <= INT64_MAX
  }

  /** `%T` of an int64. */
  method PutTime(p: Buffer<char>, t: int)
    requires p.Valid() && IsTime(t) && |p.contents| + 20 <= p.Capacity()
    modifies p, p.data
    ensures p.Valid() && p.contents == old(p.contents) + Print(t)
    ensures |p.contents| <= |old(p.contents)| + 20
  {
    PrintLength(t);
    p.Append(Print(t));
  }

  // Session claims

  /** The claims object, member by member. */
  function ClaimsText(rpId: string, user: string, cid: string, iat: int, exp: int, jti: string): string {
    "{" + StringMember("iss", "nginx-webauthn")
    + "," + StringMember("aud", rpId)
    + "," + StringMember("sub", Escape(user))
    + "," + StringMember("cid", cid)
    + "," + NumberMember("iat", iat)
    + "," + NumberMember("exp", exp)
    + "," + StringMember("jti", jti) + "}"
  }

  /** The text that goes into a token for these claims. */
  function TokenText(c: Log.Claims, jti: bytes): string {
    ClaimsText(c.aud, c.sub, c.cid, c.iat, c.exp, Base64url.Encode(jti))
  }

  // The literal parts of the C format string.
  const ISS_AUD := "{\"iss\":\"nginx-webauthn\",\"aud\":\""
  const SUB := "\",\"sub\":\""
  const CID := "\",\"cid\":\""
  const IAT := "\",\"iat\":"
  const EXP := ",\"exp\":"
  const JTI := ",\"jti\":\""
  const END := "\"}"

  lemma ClaimsLengths()
    ensures |ISS_AUD| == 31 && |SUB| == 9 && |CID| == 9 && |IAT| == 8
    ensures |EXP| == 7 && |JTI| == 8 && |END| == 2
  {
  }

  lemma ClaimsHead()
    ensures ISS_AUD == "{" + ("\"" + "iss" + "\":\"" + "nginx-webauthn" + "\"") + "," + ("\"" + "aud" + "\":\"")
  {
  }

  lemma ClaimsNames()
    ensures SUB == "\"" + "," + ("\"" + "sub" + "\":\"")
    ensures CID == "\"" + "," + ("\"" + "cid" + "\":\"")
    ensures END == "\"" + "}"
  {
  }

  lemma ClaimsTimes()
    ensures IAT == "\"" + "," + ("\"" + "iat" + "\":")
    ensures EXP == "," + ("\"" + "exp" + "\":")
    ensures JTI == "," + ("\"" + "jti" + "\":\"")
  {
  }

  /** The claims text cut where the C format string has its conversions. */
  lemma ClaimsPieces(rpId: string, user: string, cid: string, iat: int, exp: int, jti: string)
    ensures ClaimsText(rpId, user, cid, iat, exp, jti)
         == ISS_AUD + rpId + SUB + Escape(user) + CID + cid + IAT + Print(iat)
            + EXP + Print(exp) + JTI + jti + END
  {
    hide Escape, Print, ISS_AUD, SUB, CID, IAT, EXP, JTI, END;
    ClaimsHead();
    ClaimsNames();
    ClaimsTimes();
    var q := "\"";
    Interleave("{" + StringMember("iss", "nginx-webauthn") + ",", q + "aud" + "\":\"", rpId, q, ",",
               q + "sub" + "\":\"", Escape(user), q + "cid" + "\":\"", cid, q + "iat" + "\":", Print(iat),
               q + "exp" + "\":", Print(exp), q + "jti" + "\":\"", jti, "}");
  }

  /** Regrouping of a member list: values between literal parts. */
  lemma Interleave(head: string, n1: string, v1: string, q: string, c: string, n2: string, v2: string,
                   n3: string, v3: string, n4: string, v4: string, n5: string, v5: string,
                   n6: string, v6: string, close: string)
    ensures head + (n1 + v1 + q) + c + (n2 + v2 + q) + c + (n3 + v3 + q) + c + (n4 + v4) + c + (n5 + v5)
            + c + (n6 + v6 + q) + close
         == (head + n1) + v1 + (q + c + n2) + v2 + (q + c + n3) + v3 + (q + c + n4) + v4 + (c + n5) + v5
            + (c + n6) + v6 + (q + close)
  {
  }

  /** src/ngx_http_auth_webauthn_module.c:1546. */
  method WriteClaims(rpId: string, user: string, cid: string, now: int, ttl: int, jti: string)
    returns (claims: string)
    requires IsTime(now) && IsTime(now + ttl)
    ensures claims == ClaimsText(rpId, user, cid, now, now + ttl, jti)
  {
    hide *;
    ClaimsLengths();
    var sub := JsonEscape(user);
    var p := new Buffer<char>(256 + |sub| + |cid| + |rpId| + |jti|);
    WriteNames(p, rpId, sub, cid);
    WriteTimes(p, now, now + ttl);
    p.Append(JTI);
    p.Append(jti);
    p.Append(END);
    ClaimsPieces(rpId, user, cid, now, now + ttl, jti);
    claims := p.Text();
  }

  method WriteNames(p: Buffer<char>, rpId: string, sub: string, cid: string)
    requires p.Valid() && p.contents == [] && 49 + |rpId| + |sub| + |cid| <= p.Capacity()
    modifies p, p.data
    ensures p.Valid() && p.contents == ISS_AUD + rpId + SUB + sub + CID + cid
    ensures |p.contents| == 49 + |rpId| + |sub| + |cid|
  {
    hide *;
    ClaimsLengths();
    p.Append(ISS_AUD);
    assert [] + ISS_AUD == ISS_AUD;
    p.Append(rpId);
    p.Append(SUB);
    p.Append(sub);
    p.Append(CID);
    p.Append(cid);
  }

  method WriteTimes(p: Buffer<char>, iat: int, exp: int)
    requires p.Valid() && IsTime(iat) && IsTime(exp) && |p.contents| + 55 <= p.Capacity()
    modifies p, p.data
    ensures p.Valid() && p.contents == old(p.contents) + IAT + Print(iat) + EXP + Print(exp)
    ensures |p.contents| <= |old(p.contents)| + 55
  {
    hide *;
    ClaimsLengths();
    p.Append(IAT);
    PutTime(p, iat);
    p.Append(EXP);
    PutTime(p, exp);
  }

  /** The members a claims object is meant to have. */
  function ClaimsMembers(rpId: string, user: string, cid: string, iat: int, exp: int, jti: string): seq<Member> {
    [Member("iss", JString("nginx-webauthn")), Member("aud", JString(rpId)), Member("sub", JString(user)),
     Member("cid", JString(cid)), Member("iat", JNumber(iat)), Member("exp", JNumber(exp)),
     Member("jti", JString(jti))]
  }

  /** The claims a gate reads from a minted token are the ones minted if and
      only if the members written unescaped are plain; `sub` is the stored user
      id whatever characters that holds. */
  lemma ClaimsReadBack(rpId: string, user: string, cid: string, iat: int, exp: int, jti: string)
    requires IsTime(iat) && IsTime(exp)
    ensures ReadObject(ClaimsText(rpId, user, cid, iat, exp, jti))
            == Some(ClaimsMembers(rpId, user, cid, iat, exp, jti))
       <==> Plain(rpId) && Plain(cid) && Plain(jti)
  {
    hide ReadMembers, ReadString, Escape, Print, StringMember, NumberMember, ReadValue, Plain, Follows, ReadObject;
    var t5, m5 := TimesTail(iat, exp, jti);
    var t4, m4 := StringMember("cid", cid) + ("," + t5), [Member("cid", JString(cid))] + m5;
    NamesPlain();
    MemberComes(t5);
    RawMemberIsRead("cid", cid, "," + t5, m5, "");
    StringComes("cid", cid, "," + t5);
    var t3, m3 := StringMember("sub", Escape(user)) + ("," + t4), [Member("sub", JString(user))] + m4;
    ReadEscaped(user, "," + t4);
    StringMemberReads("sub", user, Escape(user), "," + t4, m4, "");
    StringComes("sub", Escape(user), "," + t4);
    var t2, m2 := StringMember("aud", rpId) + ("," + t3), [Member("aud", JString(rpId))] + m3;
    RawMemberIsRead("aud", rpId, "," + t3, m3, "");
    StringComes("aud", rpId, "," + t3);
    var iss := "nginx-webauthn";
    var t1, m1 := StringMember("iss", iss) + ("," + t2), [Member("iss", JString(iss))] + m2;
    RawMemberIsRead("iss", iss, "," + t2, m2, "");
    StringComes("iss", iss, "," + t2);
    ClaimsNested(rpId, user, cid, iat, exp, jti, t5, t4, t3, t2);
    assert m1 == ClaimsMembers(rpId, user, cid, iat, exp, jti);
    ObjectReads(t1, m1, "");
  }

  /** The last three members: they read back if and only if jti is plain. */
  lemma TimesTail(iat: int, exp: int, jti: string) returns (t5: string, m5: seq<Member>)
    requires IsTime(iat) && IsTime(exp)
    ensures t5 == NumberMember("iat", iat)
                  + ("," + (NumberMember("exp", exp) + ("," + (StringMember("jti", jti) + "}"))))
    ensures m5 == [Member("iat", JNumber(iat)), Member("exp", JNumber(exp)), Member("jti", JString(jti))]
    ensures |t5| >= 1 && t5[0] == '"' && (Reads(t5, m5, "") <==> Plain(jti))
  {
    hide ReadMembers, ReadString, Print, ReadValue, Plain, Follows;
    NamesPlain();
    var t7, m7 := StringMember("jti", jti) + "}", [Member("jti", JString(jti))];
    BraceComes();
    RawMemberIsRead("jti", jti, "}", [], "");
    assert m7 == [Member("jti", JString(jti))] + [] && "}"[1..] == "";
    var t6, m6 := NumberMember("exp", exp) + ("," + t7), [Member("exp", JNumber(exp))] + m7;
    assert ("," + t7)[1..] == t7;
    NumberMemberReads("exp", exp, "," + t7, m7, "");
    t5, m5 := NumberMember("iat", iat) + ("," + t6), [Member("iat", JNumber(iat))] + m6;
    assert ("," + t6)[1..] == t6;
    NumberMemberReads("iat", iat, "," + t6, m6, "");
  }

  lemma NamesPlain()
    ensures Plain("iss") && Plain("aud") && Plain("sub") && Plain("cid") && Plain("iat") && Plain("exp")
    ensures Plain("jti") && Plain("nginx-webauthn")
  {
  }

  /** A member may follow a string, after a comma. */
  lemma MemberComes(t: string)
    requires t != [] && t[0] == '"'
    ensures Follows("," + t) && EndsMember("," + t) && ("," + t)[1..] == t
  {
    var s := "," + t;
    assert s[1..] == t;
    assert Calm(t) == 0 && Calm(s) == 1;
  }

  lemma StringComes(name: string, text: string, more: string)
    ensures var t := StringMember(name, text) + more;
            t[0] == '"' && Follows("," + t) && EndsMember("," + t) && ("," + t)[1..] == t
  {
    var t := StringMember(name, text) + more;
    assert t[0] == '"';
    MemberComes(t);
  }

  /** So may the end of the object. */
  lemma BraceComes()
    ensures Follows("}") && EndsMember("}")
  {
    assert "}"[1..] == "" && Calm("") == 0 && Calm("}") == 1;
  }

  lemma ClaimsNested(rpId: string, user: string, cid: string, iat: int, exp: int, jti: string,
                     t5: string, t4: string, t3: string, t2: string)
    requires t5 == NumberMember("iat", iat)
                   + ("," + (NumberMember("exp", exp) + ("," + (StringMember("jti", jti) + "}"))))
    requires t4 == StringMember("cid", cid) + ("," + t5)
    requires t3 == StringMember("sub", Escape(user)) + ("," + t4)
    requires t2 == StringMember("aud", rpId) + ("," + t3)
    ensures ClaimsText(rpId, user, cid, iat, exp, jti)
         == "{" + (StringMember("iss", "nginx-webauthn") + ("," + t2))
  {
    hide Escape, Print, StringMember, NumberMember;
  }

  // Set-Cookie

  datatype SameSite = Strict | Lax | NoRestriction

  function SameSiteName(s: SameSite): (n: string)
    ensures |n| <= 6
  {
    match s
    case Strict => "Strict"
    case Lax => "Lax"
    case NoRestriction => "None"
  }

  const SAME_SITE_ATTR := "; HttpOnly; SameSite="
  const PATH_ATTR := "; Path="
  const SECURE_ATTR := "; Secure"
  const DOMAIN_ATTR := "; Domain="
  const MAX_AGE_ATTR := "; Max-Age="

  lemma CookieLengths()
    ensures |SAME_SITE_ATTR| == 21 && |PATH_ATTR| == 7 && |SECURE_ATTR| == 8 && |DOMAIN_ATTR| == 9
    ensures |MAX_AGE_ATTR| == 10
  {
  }

  function CookieFixed(name: string, jwt: string, sameSite: SameSite, path: string): string {
    name + "=" + jwt + SAME_SITE_ATTR + SameSiteName(sameSite) + PATH_ATTR + path
  }

  function CookieText(name: string, jwt: string, sameSite: SameSite, path: string, secure: bool,
                      domain: string, ttl: int): string {
    CookieFixed(name, jwt, sameSite, path)
    + (if secure then SECURE_ATTR else "")
    + (if domain != [] then DOMAIN_ATTR + domain else "")
    + MAX_AGE_ATTR + Print(ttl)
  }

  /** src/ngx_http_auth_webauthn_module.c:1575. */
  method WriteCookie(name: string, jwt: string, sameSite: SameSite, path: string, secure: bool,
                     domain: string, ttl: int)
    returns (cookie: string)
    requires IsTime(ttl)
    ensures cookie == CookieText(name, jwt, sameSite, path, secure, domain, ttl)
  {
    hide *;
    CookieLengths();
    var p := new Buffer<char>(|name| + |jwt| + |path| + |domain| + 128);
    WriteFixed(p, name, jwt, sameSite, path);
    p.Append(if secure then SECURE_ATTR else "");
    ghost var head := p.contents;
    if |domain| != 0 {
      p.Append(DOMAIN_ATTR);
      p.Append(domain);
    }
    Optional(head, DOMAIN_ATTR, domain);
    p.Append(MAX_AGE_ATTR);
    PutTime(p, ttl);
    CookiePieces(name, jwt, sameSite, path, secure, domain, ttl);
    cookie := p.Text();
  }

  method WriteFixed(p: Buffer<char>, name: string, jwt: string, sameSite: SameSite, path: string)
    requires p.Valid() && p.contents == [] && 35 + |name| + |jwt| + |path| <= p.Capacity()
    modifies p, p.data
    ensures p.Valid() && p.contents == CookieFixed(name, jwt, sameSite, path)
    ensures |p.contents| <= 35 + |name| + |jwt| + |path|
  {
    hide SAME_SITE_ATTR, PATH_ATTR, SameSiteName, Buffer.Valid;
    CookieLengths();
    p.Append(name);
    assert [] + name == name;
    p.Append("=");
    p.Append(jwt);
    p.Append(SAME_SITE_ATTR);
    p.Append(SameSiteName(sameSite));
    p.Append(PATH_ATTR);
    p.Append(path);
  }

  lemma Optional(head: string, attr: string, value: string)
    ensures head + (attr + value) == head + attr + value
    ensures head + "" == head
  {
  }

  lemma CookiePieces(name: string, jwt: string, sameSite: SameSite, path: string, secure: bool,
                     domain: string, ttl: int)
    ensures CookieText(name, jwt, sameSite, path, secure, domain, ttl)
         == CookieFixed(name, jwt, sameSite, path)
            + (if secure then SECURE_ATTR else "")
            + (if domain != [] then DOMAIN_ATTR + domain else "")
            + MAX_AGE_ATTR + Print(ttl)
  {
  }

  // Success body

  const OK_USER := "{\"ok\":true,\"user_id\":\""
  const OK_EXP := "\",\"exp\":"

  lemma SuccessLengths()
    ensures |OK_USER| == 22 && |OK_EXP| == 8
  {
  }

  const REJECTED_TEXT := "{\"ok\":false,\"error\":\"E_ASSERTION\"}"

  function SuccessText(user: string, exp: int): string {
    OK_USER + Escape(user) + OK_EXP + Print(exp) + "}"
  }

  /** src/ngx_http_auth_webauthn_module.c:1608. */
  method WriteSuccess(user: string, exp: int) returns (body: string)
    requires IsTime(exp)
    ensures body == SuccessText(user, exp)
  {
    hide OK_USER, OK_EXP, Escape, Print, Buffer.Valid;
    SuccessLengths();
    var sub := JsonEscape(user);
    var p := new Buffer<char>(64 + |sub|);
    p.Append(OK_USER);
    p.Append(sub);
    p.Append(OK_EXP);
    PutTime(p, exp);
    p.Append("}");
    body := p.Text();
  }

  // Key documents

  const KEY_OPEN := "{\"keys\":[{\"kty\":\"oct\",\"k\":\""
  const KEY_ALG := "\",\"alg\":\""
  const KEY_CLOSE := "\"}]}"
  const PEM_OPEN := "{\"webauthn\":\""

  lemma KeyLengths()
    ensures |KEY_OPEN| == 27 && |KEY_ALG| == 9 && |KEY_CLOSE| == 4 && |PEM_OPEN| == 13
  {
  }

  /** src/ngx_http_auth_webauthn_module.c:1676. */
  method WriteHmacKey(k: string, alg: string) returns (doc: string)
    ensures doc == KEY_OPEN + k + KEY_ALG + alg + KEY_CLOSE
  {
    hide KEY_OPEN, KEY_ALG, KEY_CLOSE, Buffer.Valid;
    KeyLengths();
    var p := new Buffer<char>(64 + |k| + |alg|);
    p.Append(KEY_OPEN);
    p.Append(k);
    p.Append(KEY_ALG);
    p.Append(alg);
    p.Append(KEY_CLOSE);
    doc := p.Text();
  }

  function PemKeyText(pem: string): string {
    PEM_OPEN + Escape(pem) + END
  }

  /** src/ngx_http_auth_webauthn_module.c:1692. */
  method WritePemKey(pem: string) returns (doc: string)
    ensures doc == PemKeyText(pem)
  {
    hide PEM_OPEN, END, Escape, Buffer.Valid;
    KeyLengths();
    ClaimsLengths();
    var esc := JsonEscape(pem);
    var p := new Buffer<char>(24 + |esc|);
    p.Append(PEM_OPEN);
    p.Append(esc);
    p.Append(END);
    doc := p.Text();
  }

  /** The key document carries the PEM text itself, line breaks and all. */
  lemma PemKeyReadsBack(pem: string)
    ensures ReadObject(PemKeyText(pem)) == Some([Member("webauthn", JString(pem))])
  {
    hide ReadMembers, ReadString, Escape, ReadValue, ReadObject;
    var t, m := StringMember("webauthn", Escape(pem)) + "}", [Member("webauthn", JString(pem))];
    ReadEscaped(pem, "}");
    StringMemberReads("webauthn", pem, Escape(pem), "}", [], "");
    assert m == m + [] && "}"[1..] == "";
    assert PEM_OPEN == "{" + ("\"" + "webauthn" + "\":\"");
    assert PemKeyText(pem) == "{" + t;
    ObjectReads(t, m, "");
  }

  // Challenge body

  const ENTRY_OPEN := "{\"type\":\"public-key\",\"id\":\""

  function CredentialEntry(id: string): (s: string)
    ensures |s| == 29 + |id|
  {
    ENTRY_OPEN + id + END
  }

  /** Entries separated by commas. */
  function CredentialList(ids: seq<string>): string {
    if ids == [] then ""
    else
      CredentialList(ids[..|ids| - 1]) + (if |ids| == 1 then "" else ",")
      + CredentialEntry(ids[|ids| - 1])
  }

  function TotalLength(ids: seq<string>): nat {
    if ids == [] then 0 else TotalLength(ids[..|ids| - 1]) + |ids[|ids| - 1]|
  }

  const CHALLENGE_OPEN := "{\"challenge\":\""
  const RP_ID_PART := "\",\"rpId\":\""
  const TIMEOUT_PART := "\",\"timeout\":"
  const UV_PART := ",\"userVerification\":\""
  const LIST_PART := "\",\"allowCredentials\":["

  lemma ChallengeLengths()
    ensures |CHALLENGE_OPEN| == 14 && |RP_ID_PART| == 10 && |TIMEOUT_PART| == 12 && |UV_PART| == 21
    ensures |LIST_PART| == 22
  {
  }

  function ChallengeHead(challenge: string, rpId: string, ttl: int, uv: string): string {
    CHALLENGE_OPEN + challenge + RP_ID_PART + rpId + TIMEOUT_PART + Print(ttl * 1000)
    + UV_PART + uv + LIST_PART
  }

  function ChallengeText(challenge: string, rpId: string, ttl: int, uv: string, ids: seq<string>): string {
    ChallengeHead(challenge, rpId, ttl, uv) + CredentialList(ids) + "]" + "}"
  }

  /** How much of the allocation the first n entries take. */
  lemma {:induction false} CredentialListLength(ids: seq<string>)
    ensures |CredentialList(ids)| <= 32 * |ids| + TotalLength(ids)
  {
    if ids != [] {
      CredentialListLength(ids[..|ids| - 1]);
    }
  }

  lemma {:induction false} TotalLengthGrows(ids: seq<string>, n: nat)
    requires n <= |ids|
    ensures TotalLength(ids[..n]) <= TotalLength(ids)
    decreases |ids|
  {
    if n < |ids| {
      assert ids[..|ids| - 1][..n] == ids[..n];
      TotalLengthGrows(ids[..|ids| - 1], n);
    } else {
      assert ids[..n] == ids;
    }
  }

  lemma ListSnoc(ids: seq<string>, i: nat)
    requires i < |ids|
    ensures CredentialList(ids[..i + 1])
         == CredentialList(ids[..i]) + (if i == 0 then "" else ",") + CredentialEntry(ids[i])
    ensures TotalLength(ids[..i + 1]) == TotalLength(ids[..i]) + |ids[i]|
  {
    assert ids[..i + 1][..i] == ids[..i];
  }

  /** The allocation of src/ngx_http_auth_webauthn_module.c:1253, with an
      arbitrary number of credentials written by its loop. The time-to-live has
      passed challenge_issue, which refuses anything above UINT32_MAX. */
  method WriteChallenge(challenge: string, rpId: string, ttl: int, uv: string, ids: seq<string>)
    returns (body: string)
    requires 0 < ttl <= UINT32_MAX
    ensures body == ChallengeText(challenge, rpId, ttl, uv, ids)
  {
    hide CredentialList, CredentialEntry, TotalLength, ChallengeHead;
    assert ids[..0] == [] && TotalLength([]) == 0 by { NoEntries(); }
    var sum := 0;
    for i := 0 to |ids|
      invariant sum == TotalLength(ids[..i])
    {
      ListSnoc(ids, i);
      sum := sum + |ids[i]|;
    }
    assert ids[..|ids|] == ids;
    var p := new Buffer<char>(160 + |challenge| + |rpId| + |uv| + |ids| * 32 + sum);
    WriteHead(p, challenge, rpId, ttl, uv);
    WriteList(p, ids);
    p.Put(']');
    p.Put('}');
    body := p.Text();
  }

  /** The first ngx_sprintf: at most 99 octets beside its strings. */
  method WriteHead(p: Buffer<char>, challenge: string, rpId: string, ttl: int, uv: string)
    requires p.Valid() && p.contents == [] && 0 < ttl <= UINT32_MAX
    requires 99 + |challenge| + |rpId| + |uv| <= p.Capacity()
    modifies p, p.data
    ensures p.Valid() && p.contents == ChallengeHead(challenge, rpId, ttl, uv)
    ensures |p.contents| <= 99 + |challenge| + |rpId| + |uv|
  {
    hide CHALLENGE_OPEN, RP_ID_PART, TIMEOUT_PART, UV_PART, LIST_PART, Print, Buffer.Valid;
    ChallengeLengths();
    p.Append(CHALLENGE_OPEN);
    p.Append(challenge);
    p.Append(RP_ID_PART);
    p.Append(rpId);
    p.Append(TIMEOUT_PART);
    PutTime(p, ttl * 1000);
    p.Append(UV_PART);
    p.Append(uv);
    p.Append(LIST_PART);
    assert [] + CHALLENGE_OPEN == CHALLENGE_OPEN;
  }

  /** The loop over the credentials. */
  method WriteList(p: Buffer<char>, ids: seq<string>)
    requires p.Valid() && |p.contents| + |ids| * 32 + TotalLength(ids) <= p.Capacity()
    modifies p, p.data
    ensures p.Valid() && p.contents == old(p.contents) + CredentialList(ids)
    ensures |p.contents| <= |old(p.contents)| + |ids| * 32 + TotalLength(ids)
  {
    hide CredentialList, CredentialEntry, TotalLength;
    ghost var head := p.contents;
    assert ids[..0] == [] && head + CredentialList([]) == head by { NoEntries(); }
    for i := 0 to |ids|
      invariant p.Valid() && p.contents == head + CredentialList(ids[..i])
    {
      EntryFits(ids, i);
      ListSnoc(ids, i);
      if i != 0 {
        p.Append(",");
      }
      p.Append(ENTRY_OPEN);
      p.Append(ids[i]);
      p.Append(END);
      EntryAppended(head, CredentialList(ids[..i]), if i == 0 then "" else ",", ids[i]);
    }
    assert ids[..|ids|] == ids;
    CredentialListLength(ids);
  }

  lemma EntryAppended(head: string, list: string, comma: string, id: string)
    ensures head + (list + comma + CredentialEntry(id)) == head + list + comma + ENTRY_OPEN + id + END
    ensures head + list + "" == head + list
  {
    hide ENTRY_OPEN, END;
  }

  lemma NoEntries()
    ensures TotalLength([]) == 0 && CredentialList([]) == ""
  {
  }

  lemma EntryFits(ids: seq<string>, i: nat)
    requires i < |ids|
    ensures |CredentialList(ids[..i])| + 30 + |ids[i]| + 2 <= 32 * |ids| + TotalLength(ids)
  {
    CredentialListLength(ids[..i]);
    ListSnoc(ids, i);
    TotalLengthGrows(ids, i + 1);
  }

  // Request body

  const MAX_BODY := 64 * 1024

  /** One link of the request-body chain: its octets, and whether they were
      spilled to a file. */
  datatype Link = Link(octets: string, inFile: bool)

  function Flatten(chain: seq<Link>): string {
    if chain == [] then "" else Flatten(chain[..|chain| - 1]) + chain[|chain| - 1].octets
  }

  lemma {:induction false} FlattenGrows(chain: seq<Link>, n: nat)
    requires n <= |chain|
    ensures |Flatten(chain[..n])| <= |Flatten(chain)|
    decreases |chain|
  {
    if n < |chain| {
      assert chain[..|chain| - 1][..n] == chain[..n];
      FlattenGrows(chain[..|chain| - 1], n);
    } else {
      assert chain[..n] == chain;
    }
  }

  /** src/ngx_http_auth_webauthn_module.c:1296: the chain concatenated, unless a
      link is on disk or the total is empty or above the limit. */
  method ReadBody(chain: seq<Link>) returns (body: Option<string>)
    ensures body.Some? <==> (forall i :: 0 <= i < |chain| ==> !chain[i].inFile)
                            && 0 < |Flatten(chain)| <= MAX_BODY
    ensures body.Some? ==> body.value == Flatten(chain)
  {
    var len := 0;
    for i := 0 to |chain|
      invariant len == |Flatten(chain[..i])|
      invariant forall j :: 0 <= j < i ==> !chain[j].inFile
    {
      assert chain[..i + 1][..i] == chain[..i];
      len := len + |chain[i].octets|;
      if chain[i].inFile {
        return None;
      }
    }
    assert chain[..|chain|] == chain;
    if len == 0 || len > MAX_BODY {
      return None;
    }
    var p := new Buffer<char>(len);
    for i := 0 to |chain|
      invariant p.Valid() && fresh(p) && fresh(p.data) && p.Capacity() == len
      invariant p.contents == Flatten(chain[..i])
    {
      assert chain[..i + 1][..i] == chain[..i];
      FlattenGrows(chain, i + 1);
      p.Append(chain[i].octets);
    }
    var text := p.Text();
    body := Some(text);
  }
}
