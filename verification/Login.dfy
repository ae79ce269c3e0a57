/** The two content handlers of src/ngx_http_auth_webauthn_module.c, from the
    parsed request to the response, each command a step of the protocol. */
module Login {
  import Assertion
  import Base64url
  import opened Buffer
  import opened ClientData
  import Cookie
  import opened Credential
  import opened Formats
  import Gate
  import opened Handlers
  import JsonText
  import opened KeySpace
  import opened Log
  import opened Prelude
  import opened Protocol
  import opened Redis
  import Responses
  import opened Schedule
  import Stores
  import opened Traces

  /** The settings of a location, beyond what the protocol depends on. */
  datatype Site = Site(
    prefix: string,
    loc: Location,
    origins: seq<string>,
    requireUv: bool,
    uvName: string,
    cookieName: string,
    cookiePath: string,
    cookieDomain: string,
    cookieSecure: bool,
    cookieSameSite: SameSite,
    challengeTtl: int,
    rateMax: nat,
    rateWindow: nat)

  // Challenge

  method Base64urlText(src: bytes) returns (text: string)
    ensures text == Base64url.Encode(src)
  {
    Base64url.LengthMacros(|src|);
    var dst := new Buffer<char>((|src| + 2) / 3 * 4);
    Base64url.EncodeInto(src, dst);
    text := dst.Text();
  }

  const OK := 200
  const TOO_MANY_REQUESTS := 429
  const INTERNAL_SERVER_ERROR := 500

  /** Whether the quota turns a request away: Redis answered, and the hit is not
      one the quota admits. */
  ghost predicate OverQuota(redis: Redis, n: nat, s: State, ts: seq<Turn>, site: Site, ip: string) {
    && site.rateMax > 0 && |ts| >= 1 && redis.fate(n).Done?
    && !Admits(MomentOf(s, ts, 0, site.rateWindow), After(s, ts[..1], site.rateWindow), ip, site.rateMax)
  }

  /** src/ngx_http_auth_webauthn_module.c:1152, after the connection; `user` is
      the user_id argument with its escapes undone, if one was given that was
      not empty before that, and `last` what others did before the SMEMBERS.
      Exactly a hit above the quota is answered 429, and then nothing more is
      sent; otherwise it succeeds exactly if Redis answers the SET and, for a
      named user, the SMEMBERS. A success offers a challenge that
      was live right after it was issued, and lists exactly the ids indexed
      under the user: the same empty list for an unknown and an absent one. */
  method ChallengeContent(redis: Redis, site: Site, ip: string, user: Option<string>, random: bytes, ghost s: State)
    returns (status: int, body: string, ghost ts: seq<Turn>, ghost last: seq<Event>, ghost ids: seq<string>)
    requires Follows(site.prefix, redis, s)
    modifies redis
    ensures Follows(site.prefix, redis, Play(After(s, ts, site.rateWindow), last, site.rateWindow))
    ensures status == TOO_MANY_REQUESTS <==> OverQuota(redis, old(redis.sent), s, ts, site, ip)
    ensures var n, k := old(redis.sent), if site.rateMax == 0 then 0 else 1;
            var sets := 0 < site.challengeTtl <= UINT32_MAX;
            var issued := sets && redis.fate(n + k).Done?;
            && (k == 1 ==> |ts| >= 1 && ts[0].own == Hit(ip, redis.fate(n)))
            && (status == TOO_MANY_REQUESTS ==> |ts| == k == 1 && last == [] && redis.sent == n + 1)
            && (status != TOO_MANY_REQUESTS ==>
                  && |ts| == k + (if sets then 1 else 0)
                  && (sets ==> ts[k].own == Issue(TextOf(random), site.challengeTtl, redis.fate(n + k)))
                  && (!issued || user.None? ==> last == [])
                  && redis.sent == n + |ts| + (if issued && user.Some? then 1 else 0)
                  && status == if issued && (user.Some? ==> redis.fate(n + k + 1).Done?) then OK
                               else INTERNAL_SERVER_ERROR)
    ensures var met := After(s, ts, site.rateWindow);
            status == OK ==>
              && Stores.ChallengeLive(met.stores, TextOf(random), met.now)
              && Lists(ids, if user.Some? then Stores.IndexOf(Play(met, last, site.rateWindow).stores, user.value)
                            else {})
              && body == ChallengeText(Base64url.Encode(random), site.loc.rpId, site.challengeTtl, site.uvName, ids)
  {
    hide Represents, IndexKey, Play, ChallengeText, Base64url.Encode, Admits, After, Lists, MomentOf, Moment;
    hide VerifyStep, LookupStep, SaveStep, MintStep, GateStep, PutStep, PutIndexStep, RevokeStep, DeleteStep;
    hide UnindexStep, TickStep, HitStep;
    ghost var w := site.rateWindow;
    status, body, last, ids := INTERNAL_SERVER_ERROR, "", [], [];
    var quota;
    quota, ts := QuotaAllows(redis, site.prefix, ip, site.rateMax, site.rateWindow, s);
    AfterNothing(After(s, ts, w), w);
    assert ts[..|ts|] == ts;
    if |ts| >= 1 {
      FirstMoment(s, ts, w);
    }
    if quota.Declined? {
      status := TOO_MANY_REQUESTS;
      return;
    }
    ghost var s1, hit, issue := After(s, ts, w), ts, [];
    var rc;
    rc, issue := ChallengeIssue(redis, site.prefix, site.challengeTtl, TextOf(random), s1, w);
    AppendTurns(s, hit, issue, w);
    ts := hit + issue;
    assert |hit| == 1 ==> ts[..1] == hit && ts[0] == hit[0];
    if |ts| >= 1 {
      FirstMoment(s, ts, w);
    }
    AfterNothing(After(s, ts, w), w);
    if !rc.Ok? {
      return;
    }
    IssuedIsLive(s1, issue[0], w);
    assert issue == [issue[0]];
    var creds := [];
    if user.Some? {
      last := OthersAct(redis, site.prefix, After(s, ts, w), None, w);
      var key := UserKey(site.prefix, user.value);
      ghost var met := Play(After(s, ts, w), last, w);
      IndexRefines(site.prefix, redis.db, met.stores, user.value, {}, redis.now);
      var ok;
      ok, creds := redis.AllMembers(key);
      if !ok {
        return;
      }
    } else {
      NobodyListed();
    }
    ids := creds;
    var b64 := Base64urlText(random);
    body := WriteChallenge(b64, site.loc.rpId, site.challengeTtl, site.uvName, creds);
    status := OK;
  }

  /** What a client reads in a success: the nonce's text, the relying party, the
      time to live in milliseconds, the wish for verification and the listed
      ids, if and only if the configured strings and those ids are plain. */
  lemma ChallengeOffers(site: Site, random: bytes, ids: seq<string>)
    requires 0 < site.challengeTtl <= UINT32_MAX
    ensures JsonText.ReadObject(ChallengeText(Base64url.Encode(random), site.loc.rpId, site.challengeTtl, site.uvName,
                                              ids))
            == Some(Responses.ChallengeMembers(Base64url.Encode(random), site.loc.rpId, site.challengeTtl, site.uvName,
                                               ids))
       <==> JsonText.Plain(site.loc.rpId) && JsonText.Plain(site.uvName) && Responses.AllPlain(ids)
  {
    hide Base64url.Encode, JsonText.ReadObject, ChallengeText, Responses.ChallengeMembers, JsonText.Plain;
    hide Responses.AllPlain;
    Gate.EncodedIsPlain(random);
    Responses.ChallengeReadsBack(Base64url.Encode(random), site.loc.rpId, site.challengeTtl, site.uvName, ids);
  }

  lemma NobodyListed()
    ensures Lists([], {})
  {
  }

  lemma AppendTurns(s: State, a: seq<Turn>, b: seq<Turn>, w: int)
    requires |b| <= 1
    ensures After(s, a + b, w) == After(After(s, a, w), b, w)
  {
    hide Taken;
    AfterNothing(After(s, a, w), w);
    if b == [] {
      assert a + b == a;
    } else {
      AfterSnoc(s, a, b[0], w);
      AfterSnoc(After(s, a, w), [], b[0], w);
      assert b == [b[0]] && [] + [b[0]] == [b[0]];
    }
  }

  lemma IssuedIsLive(s: State, t: Turn, w: int)
    requires t.own.Issue? && 0 < t.own.ttl <= UINT32_MAX && t.own.outcome.Done?
    ensures var met := After(s, [t], w); Stores.ChallengeLive(met.stores, t.own.nonce, met.now)
  {
    hide Play;
    AfterNothing(s, w);
    AfterSnoc(s, [], t, w);
    assert [] + [t] == [t];
  }

  // Verify

  /** The fields of a verify request. */
  datatype Posted = Posted(id: string, assertion: Assertion.Assertion)

  predicate DecodesTo(decode: Decoder, root: Json, name: string, octets: bytes) {
    && StringOf(root, name).Some? && StringOf(root, name).value != ""
    && decode(StringOf(root, name).value) == Some(octets)
  }

  /** The request body a handler accepts, and what it stands for. */
  predicate Posts(decode: Decoder, doc: Option<Json>, p: Posted) {
    && doc.Some? && doc.value.Object?
    && p.id != "" && StringOf(doc.value, "id") == Some(p.id)
    && MemberOf(doc.value, "response").Some? && MemberOf(doc.value, "response").value.Object?
    && var response := MemberOf(doc.value, "response").value;
       && DecodesTo(decode, response, "clientDataJSON", p.assertion.clientDataJson)
       && DecodesTo(decode, response, "authenticatorData", p.assertion.authenticatorData)
       && DecodesTo(decode, response, "signature", p.assertion.signature)
  }

  /** src/ngx_http_auth_webauthn_module.c:1333. */
  method DecodedField(decode: Decoder, obj: Json, name: string) returns (r: Option<bytes>)
    ensures r.Some? ==> DecodesTo(decode, obj, name, r.value)
    ensures r.None? ==> forall octets :: !DecodesTo(decode, obj, name, octets)
  {
    var encoded := StringOf(obj, name);
    if encoded.None? || |encoded.value| == 0 {
      return None;
    }
    r := decode(encoded.value);
  }

  /** src/ngx_http_auth_webauthn_module.c:1401. */
  method ParsePosted(decode: Decoder, doc: Option<Json>) returns (r: Option<Posted>)
    ensures r.Some? ==> Posts(decode, doc, r.value)
    ensures r.None? ==> forall p :: !Posts(decode, doc, p)
  {
    hide DecodesTo;
    if doc.None? || !doc.value.Object? {
      return None;
    }
    var id := StringOf(doc.value, "id");
    if id.None? || |id.value| == 0 {
      return None;
    }
    var response := MemberOf(doc.value, "response");
    if response.None? || !response.value.Object? {
      return None;
    }
    var clientData := DecodedField(decode, response.value, "clientDataJSON");
    if clientData.None? {
      return None;
    }
    var authData := DecodedField(decode, response.value, "authenticatorData");
    if authData.None? {
      return None;
    }
    var signature := DecodedField(decode, response.value, "signature");
    if signature.None? {
      return None;
    }
    r := Some(Posted(id.value, Assertion.Assertion(authData.value, clientData.value, signature.value)));
  }

  lemma PostedOnce(decode: Decoder, doc: Option<Json>, p: Posted, q: Posted)
    requires Posts(decode, doc, p) && Posts(decode, doc, q)
    ensures p == q
  {
  }

  function PolicyOf(site: Site, challenge: bytes): Assertion.Policy {
    Assertion.Policy(site.loc.rpId, challenge, site.origins, site.requireUv, site.loc.clone)
  }

  /** The protocol's view of a posted assertion. */
  ghost function RequestOf(o: Assertion.Oracle, site: Site, p: Posted, challenge: bytes): Request {
    var a := p.assertion;
    Request(p.id, TextOf(challenge),
            if |a.authenticatorData| >= 37 then CountOf(a) else 0,
            (key, alg) => Assertion.Vouches(o, a, PolicyOf(site, challenge), key, alg))
  }

  ghost function CountOf(a: Assertion.Assertion): uint32
    requires |a.authenticatorData| >= 37
  {
    Assertion.ReportedCount(a)
  }

  /** The record passes the whole check for this request. */
  ghost predicate Succeeds(o: Assertion.Oracle, site: Site, p: Posted, raw: bytes, r: Rc<Credential>) {
    r.Ok? && Acceptable(site.loc, RequestOf(o, site, p, raw), r.value)
  }

  /** The turns of a verify, given the first exchange it makes: GETDEL, then
      HGETALL if the challenge was live, then HSET if the record passed, then
      the token if the signer works. */
  ghost predicate VerifyTurns(redis: Redis, n: nat, s: State, ts: seq<Turn>, o: Assertion.Oracle, site: Site,
                              p: Posted, raw: bytes, clock: int, signer: Signer, pid: nat)
  {
    var w, req := site.rateWindow, RequestOf(o, site, p, raw);
    && OwnTurns(ts, pid)
    && (|raw| != CHALLENGE_LEN ==> ts == [])
    && (|raw| == CHALLENGE_LEN ==>
          && |ts| >= 1 && ts[0].own == Verify(pid, site.loc, req, redis.fate(n))
          && (|ts| >= 2 <==> Finds(redis, n, s, ts, raw, w))
          && (|ts| >= 2 ==> ts[1].own == Lookup(pid, redis.fate(n + 1).Done?))
          && (|ts| >= 3 <==> |ts| >= 2 && Accepts(redis, n, s, ts, o, site, p, raw))
          && (|ts| >= 3 ==> ts[2].own == Save(pid, clock, redis.fate(n + 2)))
          && (|ts| >= 4 <==> |ts| >= 3 && Signs(s, ts, site, p, clock, signer))
          && (|ts| >= 4 ==> |ts| == 4 && ts[3].own == Mint(pid)))
  }

  /** RAND_bytes and the JWT encoder; None where they fail. */
  datatype Signer = Signer(jti: Option<bytes>, sign: string -> Option<string>)

  /** The token made of these claims, if the signer works. */
  function TokenOf(signer: Signer, c: Claims): Option<string> {
    if signer.jti.None? then None else signer.sign(TokenText(c, signer.jti.value))
  }

  /** The signer makes a token of the claims this verify comes to. */
  ghost predicate Signs(s: State, ts: seq<Turn>, site: Site, p: Posted, clock: int, signer: Signer)
    requires |ts| >= 2
  {
    var r := RecordAt(s, ts, p.id, site.rateWindow);
    r.Ok? && TokenOf(signer, ClaimsFor(site, p, r.value, clock)).Some?
  }

  /** The GETDEL was answered and found the challenge live at that moment. */
  ghost predicate Finds(redis: Redis, n: nat, s: State, ts: seq<Turn>, raw: bytes, w: int)
    requires |ts| >= 1
  {
    var met := MomentOf(s, ts, 0, w);
    redis.fate(n).Done? && Stores.ChallengeLive(met.stores, TextOf(raw), met.now)
  }

  /** The HGETALL was answered, and the record of that moment passes. */
  ghost predicate Accepts(redis: Redis, n: nat, s: State, ts: seq<Turn>, o: Assertion.Oracle, site: Site, p: Posted,
                          raw: bytes)
    requires |ts| >= 2
  {
    redis.fate(n + 1).Done? && Succeeds(o, site, p, raw, RecordAt(s, ts, p.id, site.rateWindow))
  }

  ghost function RecordAt(s: State, ts: seq<Turn>, cid: string, w: int): Rc<Credential>
    requires |ts| >= 2
  {
    Read(Stores.RecordOf(MomentOf(s, ts, 1, w).stores, cid), cid)
  }

  /** The claims minted after a successful verify. */
  ghost function ClaimsFor(site: Site, p: Posted, c: Credential, clock: int): Claims {
    Claims(ISSUER, site.loc.rpId, c.userId, p.id, clock, clock + site.loc.jwtTtl)
  }

  datatype Response = Response(status: int, body: string, cookie: Option<string>)

  const UNAUTHORIZED := 401

  /** verify_fail, src/ngx_http_auth_webauthn_module.c:1286. */
  const REJECTED := Response(UNAUTHORIZED, REJECTED_TEXT, None)

  const FAILED := Response(INTERNAL_SERVER_ERROR, "", None)

  /** A token as the session cookie, and who it is for. */
  function Granted(site: Site, c: Claims, token: string): Response {
    Response(OK, SuccessText(c.sub, c.exp),
             Some(CookieText(site.cookieName, token, site.cookieSameSite, site.cookiePath, site.cookieSecure,
                             site.cookieDomain, site.loc.jwtTtl)))
  }

  /** What the client of a session reads: the user and the expiry in the body,
      whatever characters the user id holds, and in the header the token and
      every attribute configured, if and only if none of them holds a separator. */
  lemma GrantedMeans(site: Site, c: Claims, token: string)
    requires IsTime(c.exp)
    ensures Granted(site, c, token).status == 200
    ensures JsonText.ReadObject(Granted(site, c, token).body)
         == Some([JsonText.Member("ok", JsonText.JBool(true)), JsonText.Member("user_id", JsonText.JString(c.sub)),
                  JsonText.Member("exp", JsonText.JNumber(c.exp))])
    ensures Granted(site, c, token).cookie.Some?
    ensures Cookie.ReadCookie(Granted(site, c, token).cookie.value)
            == Cookie.CookieAttributes(site.cookieName, token, site.cookieSameSite, site.cookiePath, site.cookieSecure,
                                       site.cookieDomain, site.loc.jwtTtl)
       <==> && '=' !in site.cookieName && ';' !in site.cookieName && ';' !in token
            && ';' !in site.cookiePath && ';' !in site.cookieDomain
  {
    hide JsonText.ReadObject, SuccessText, Cookie.ReadCookie, CookieText, Cookie.CookieAttributes;
    Responses.SuccessReadsBack(c.sub, c.exp);
    Cookie.CookieReadsBack(site.cookieName, token, site.cookieSameSite, site.cookiePath, site.cookieSecure,
                           site.cookieDomain, site.loc.jwtTtl);
  }

  /** A session comes of the four turns, and only of them; three are a signer
      that failed, and everything less is one and the same rejection. */
  ghost predicate Session(claims: Option<Claims>, resp: Response, s: State, ts: seq<Turn>, site: Site, p: Posted,
                          clock: int, signer: Signer)
  {
    if |ts| == 4 then
      var r := RecordAt(s, ts, p.id, site.rateWindow);
      && r.Ok? && claims == Some(ClaimsFor(site, p, r.value, clock))
      && TokenOf(signer, claims.value).Some? && resp == Granted(site, claims.value, TokenOf(signer, claims.value).value)
      && MintedLast(After(s, ts, site.rateWindow).log, claims)
    else claims == None && resp == if |ts| == 3 then FAILED else REJECTED
  }

  /** The times a location's tokens carry are within time_t. */
  predicate Timely(site: Site, clock: int) {
    IsTime(clock) && IsTime(site.loc.jwtTtl) && IsTime(clock + site.loc.jwtTtl)
  }

  ghost predicate MintedLast(log: seq<Log.Entry>, claims: Option<Claims>) {
    && claims.Some? && log != []
    && log[|log| - 1].fact.Minted? && log[|log| - 1].fact.claims == claims.value
  }

  /** In one line: a session is minted if and only if the challenge has the
      right length and was live at an answered GETDEL, the record passed at an
      answered HGETALL, and the signer works. What became of the counter
      update does not matter. Whatever else stands in the way is answered
      alike, so that no response tells a missing credential from a spent
      challenge, a bad signature or a failing Redis. */
  lemma SessionExactly(redis: Redis, n: nat, s: State, ts: seq<Turn>, o: Assertion.Oracle, site: Site, p: Posted,
                       raw: bytes, clock: int, signer: Signer, pid: nat, claims: Option<Claims>,
                       resp: Response)
    requires VerifyTurns(redis, n, s, ts, o, site, p, raw, clock, signer, pid)
             && Session(claims, resp, s, ts, site, p, clock, signer)
    ensures claims.Some? <==>
              && |raw| == CHALLENGE_LEN
              && |ts| >= 1 && Finds(redis, n, s, ts, raw, site.rateWindow)
              && |ts| >= 2 && Accepts(redis, n, s, ts, o, site, p, raw)
              && Signs(s, ts, site, p, clock, signer)
    ensures !(&& |raw| == CHALLENGE_LEN
              && |ts| >= 1 && Finds(redis, n, s, ts, raw, site.rateWindow)
              && |ts| >= 2 && Accepts(redis, n, s, ts, o, site, p, raw))
            ==> resp == REJECTED
    ensures claims.Some? ==>
              claims == Some(ClaimsFor(site, p, RecordAt(s, ts, p.id, site.rateWindow).value, clock))
  {
    hide Finds, Accepts, RecordAt, OwnTurns, MintedLast, RequestOf, ClaimsFor, TokenOf, Granted;
  }

  /** What a location's settings and the posted octets have to do with it: the
      record passes if and only if the assertion conforms to the location, for
      the challenge consumed and the counter stored, and the record's key and
      algorithm bear out its signature. */
  lemma SucceedsExactly(o: Assertion.Oracle, site: Site, p: Posted, raw: bytes, c: Credential)
    ensures Succeeds(o, site, p, raw, Ok(c))
       <==> && Assertion.Conforms(o, p.assertion, c.signCount, site.loc.rpId, raw, site.origins, site.requireUv,
                                  site.loc.clone)
            && Assertion.SignatureIs(o, p.assertion, c.publicKey, c.alg, true)
  {
    hide Assertion.Conforms, Assertion.SignatureIs, Assertion.Presentable, Assertion.Signed, Acceptable, RequestOf;
    VerdictIsAcceptable(o, site, p, raw, c);
    Assertion.ConformsExactly(o, p.assertion, c.signCount, PolicyOf(site, raw));
    Assertion.SignatureExactly(o, p.assertion, c.publicKey, c.alg);
  }

  /** What a session means: it is minted if and only if the challenge was live
      when it was consumed, the record was usable when it was read, the octets
      posted conform to this location for that challenge and that counter, the
      record's key signed them, and the signer works. */
  lemma SessionMeans(redis: Redis, n: nat, s: State, ts: seq<Turn>, o: Assertion.Oracle, site: Site, p: Posted,
                     raw: bytes, clock: int, signer: Signer, pid: nat, claims: Option<Claims>, resp: Response)
    requires VerifyTurns(redis, n, s, ts, o, site, p, raw, clock, signer, pid)
             && Session(claims, resp, s, ts, site, p, clock, signer)
    ensures claims.Some? <==>
              && |raw| == CHALLENGE_LEN && |ts| >= 1 && Finds(redis, n, s, ts, raw, site.rateWindow)
              && |ts| >= 2 && redis.fate(n + 1).Done? && RecordAt(s, ts, p.id, site.rateWindow).Ok?
              && var c := RecordAt(s, ts, p.id, site.rateWindow).value;
                 && Assertion.Conforms(o, p.assertion, c.signCount, site.loc.rpId, raw, site.origins, site.requireUv,
                                       site.loc.clone)
                 && Assertion.SignatureIs(o, p.assertion, c.publicKey, c.alg, true)
                 && Signs(s, ts, site, p, clock, signer)
  {
    hide VerifyTurns, Session, Finds, RecordAt, Signs, Assertion.Conforms, Assertion.SignatureIs, Succeeds;
    SessionExactly(redis, n, s, ts, o, site, p, raw, clock, signer, pid, claims, resp);
    if |ts| >= 2 && RecordAt(s, ts, p.id, site.rateWindow).Ok? {
      SucceedsExactly(o, site, p, raw, RecordAt(s, ts, p.id, site.rateWindow).value);
    }
    UnreadFails(o, site, p, raw);
  }

  lemma UnreadFails(o: Assertion.Oracle, site: Site, p: Posted, raw: bytes)
    ensures !Succeeds(o, site, p, raw, Declined) && !Succeeds(o, site, p, raw, Error)
  {
  }

  /** A verify that starts in a reachable state is part of a run: the process's
      steps in that run are its turns, and the session is the run's last token.
      So every theorem about runs is about these handlers, however they are
      interleaved. */
  lemma SessionInRun(start: int, events: seq<Event>, redis: Redis, n: nat, ts: seq<Turn>, o: Assertion.Oracle,
                     site: Site, p: Posted, raw: bytes, clock: int, signer: Signer, pid: nat, claims: Option<Claims>,
                     resp: Response)
    requires var s := Run(start, events, site.rateWindow);
             VerifyTurns(redis, n, s, ts, o, site, p, raw, clock, signer, pid)
             && Session(claims, resp, s, ts, site, p, clock, signer)
    ensures var whole := events + Flat(ts);
            && After(Run(start, events, site.rateWindow), ts, site.rateWindow) == Run(start, whole, site.rateWindow)
            && StepsOf(Flat(ts), pid) == OwnSteps(ts)
            && (claims.Some? ==> MintedLast(Run(start, whole, site.rateWindow).log, claims))
  {
    hide Run, After, Finds, Accepts, RecordAt, MintedLast, RequestOf, ClaimsFor, Flat, Inv;
    HandlerInRun(start, events, ts, pid, site.rateWindow);
  }

  /** src/ngx_http_auth_webauthn_module.c:1364, with anything happening between
      its commands. A body that is no verify request, or names no decodable
      challenge, sends nothing; any other makes the turns of a verify, and a
      session comes of it if and only if they run to the end: the challenge
      was live when it was consumed, the record passed when it was read, both
      commands were answered and the signer works. `body` is None if it could
      not be read or is no JSON. */
  method VerifyDone(redis: Redis, site: Site, o: Assertion.Oracle, body: Option<Json>, clock: int, signer: Signer,
                    ghost s: State, ghost pid: nat)
    returns (resp: Response, ghost claims: Option<Claims>, ghost ts: seq<Turn>)
    requires Follows(site.prefix, redis, s) && pid !in s.procs && Timely(site, clock)
    modifies redis
    ensures Follows(site.prefix, redis, After(s, ts, site.rateWindow))
    ensures forall p, raw ::
              Posts(o.decode, body, p) && Named(o.decode, o.parse(p.assertion.clientDataJson)) == Some(raw) ==>
              && VerifyTurns(redis, old(redis.sent), s, ts, o, site, p, raw, clock, signer, pid)
              && Session(claims, resp, s, ts, site, p, clock, signer)
              && redis.sent == old(redis.sent) + if |ts| == 4 then 3 else |ts|
    ensures (forall p :: Posts(o.decode, body, p) ==> Named(o.decode, o.parse(p.assertion.clientDataJson)) == None) ==>
              && resp == REJECTED && claims == None && ts == []
              && redis.sent == old(redis.sent) && redis.db == old(redis.db)
  {
    hide Represents, Play, Posts, Named, VerifyTurns, Session;
    resp, claims, ts := REJECTED, None, [];
    AfterNothing(s, site.rateWindow);
    var posted := ParsePosted(o.decode, body);
    if posted.None? {
      return;
    }
    var p := posted.value;
    forall q | Posts(o.decode, body, q) ensures q == p { PostedOnce(o.decode, body, p, q); }
    var challenge := ExtractChallenge(o.decode, o.parse(p.assertion.clientDataJson));
    if challenge.None? {
      return;
    }
    var raw := challenge.value;
    resp, claims, ts := VerifyNamed(redis, site, o, p, raw, clock, signer, s, pid);
  }

  /** The token, the cookie and the body of a verify that passed,
      src/ngx_http_auth_webauthn_module.c:1534. */
  method Grant(site: Site, p: Posted, c: Credential, clock: int, signer: Signer)
    returns (granted: bool, resp: Response)
    requires Timely(site, clock)
    ensures var claims := ClaimsFor(site, p, c, clock);
            var token := TokenOf(signer, claims);
            && (granted <==> token.Some?)
            && resp == if granted then Granted(site, claims, token.value) else FAILED
  {
    hide ClaimsText, CookieText, SuccessText, Base64url.Encode, IsTime;
    if signer.jti.None? {
      return false, FAILED;
    }
    var jti := Base64urlText(signer.jti.value);
    var claims := WriteClaims(site.loc.rpId, c.userId, p.id, clock, site.loc.jwtTtl, jti);
    var jwt := signer.sign(claims);
    if jwt.None? {
      return false, FAILED;
    }
    var cookie := WriteCookie(site.cookieName, jwt.value, site.cookieSameSite, site.cookiePath, site.cookieSecure,
                              site.cookieDomain, site.loc.jwtTtl);
    var body := WriteSuccess(c.userId, clock + site.loc.jwtTtl);
    granted, resp := true, Response(OK, body, Some(cookie));
  }

  /** assertion_verify decides what the protocol's local check decides. */
  lemma VerdictIsAcceptable(o: Assertion.Oracle, site: Site, p: Posted, raw: bytes, c: Credential)
    ensures var a, policy := p.assertion, PolicyOf(site, raw);
            (Acceptable(site.loc, RequestOf(o, site, p, raw), c)
             <==> && Assertion.Presentable(o, a, c.signCount, policy)
                  && Assertion.Signed(o, c.publicKey, c.alg, Assertion.SignedData(o, a), a.signature))
    ensures Acceptable(site.loc, RequestOf(o, site, p, raw), c) ==> |p.assertion.authenticatorData| >= 37
  {
    hide Assertion.Presentable, Assertion.Signed, Assertion.Vouches, Assertion.CheckCounter;
    var a, policy := p.assertion, PolicyOf(site, raw);
    Assertion.VerdictFactors(o, a, c.publicKey, c.alg, c.signCount, policy);
    VouchedIsLong(o, a, policy, c.publicKey, c.alg);
  }

  lemma VouchedIsLong(o: Assertion.Oracle, a: Assertion.Assertion, p: Assertion.Policy, key: string, alg: int)
    ensures Assertion.Vouches(o, a, p, key, alg) ==> |a.authenticatorData| >= 37
  {
  }

  lemma RequestParts(o: Assertion.Oracle, site: Site, p: Posted, raw: bytes)
    ensures var req := RequestOf(o, site, p, raw);
            && req.cid == p.id && req.nonce == TextOf(raw)
            && (|p.assertion.authenticatorData| >= 37 ==> req.count == Assertion.ReportedCount(p.assertion))
  {
  }

  lemma FirstMoment(s: State, ts: seq<Turn>, w: int)
    requires |ts| >= 1
    ensures MomentOf(s, ts, 0, w) == Moment(s, ts[0], w)
  {
    AfterNothing(s, w);
    assert ts[..0] == [];
  }

  lemma AfterConsume(s: State, ts: seq<Turn>, pid: nat, loc: Location, req: Request, w: int)
    requires |ts| == 1 && ts[0].own == Verify(pid, loc, req, Done) && OwnTurns(ts, pid)
    requires pid !in s.procs && |req.nonce| == CHALLENGE_LEN
    requires var met := Moment(s, ts[0], w); Stores.ChallengeLive(met.stores, req.nonce, met.now)
    ensures HasConsumed(After(s, ts, w), pid, loc, req)
  {
    hide Play;
    AfterNothing(s, w);
    AfterSnoc(s, [], ts[0], w);
    assert [] + [ts[0]] == ts;
    OthersLeave(s, ts[0].others, pid, w);
  }

  /** HGETALL and assertion_verify: the accepted record and its new count. */
  method LookupTurn(redis: Redis, site: Site, o: Assertion.Oracle, p: Posted, raw: bytes, ghost s: State,
                    ghost pid: nat)
    returns (found: Option<Credential>, count: nat, ghost t: Turn)
    requires Follows(site.prefix, redis, s) && HasConsumed(s, pid, site.loc, RequestOf(o, site, p, raw))
    modifies redis
    ensures Follows(site.prefix, redis, Taken(s, t, site.rateWindow))
    ensures Foreign(t.others, pid) && t.own == Lookup(pid, redis.fate(old(redis.sent)).Done?)
    ensures redis.sent == old(redis.sent) + 1
    ensures var r := Read(Stores.RecordOf(Moment(s, t, site.rateWindow).stores, p.id), p.id);
            && (found.Some? <==> redis.fate(old(redis.sent)).Done? && Succeeds(o, site, p, raw, r))
            && (found.Some? ==> r == Ok(found.value))
    ensures found.Some? ==>
              && count == RequestOf(o, site, p, raw).count
              && var s' := Taken(s, t, site.rateWindow);
                 pid in s'.procs && s'.procs[pid].AwaitsSave? && s'.procs[pid].loc == site.loc
                 && s'.procs[pid].req == RequestOf(o, site, p, raw) && s'.procs[pid].record == found.value
  {
    hide Represents, Play, Read, RequestOf, Acceptable, Assertion.Presentable, Assertion.Signed;
    hide TickStep, IssueStep, VerifyStep, SaveStep, MintStep, GateStep, PutStep, PutIndexStep, HitStep;
    RequestParts(o, site, p, raw);
    found, count := None, 0;
    ghost var answered := redis.fate(redis.sent).Done?;
    var got;
    ghost var others;
    got, others := CredentialGet(redis, site.prefix, p.id, s, Some(pid), site.rateWindow);
    OthersLeave(s, others, pid, site.rateWindow);
    t := Turn(others, Lookup(pid, answered));
    if !got.Ok? {
      return;
    }
    var cred := got.value;
    var rv := Assertion.Verify(o, p.assertion, cred.publicKey, cred.alg, cred.signCount, PolicyOf(site, raw));
    VerdictIsAcceptable(o, site, p, raw, cred);
    if !rv.Ok? {
      return;
    }
    found, count := Some(cred), rv.value;
  }

  /** The counter update. */
  method SaveTurn(redis: Redis, site: Site, id: string, count: nat, clock: int, ghost s: State, ghost pid: nat)
    returns (ghost t: Turn)
    requires Follows(site.prefix, redis, s) && pid in s.procs && s.procs[pid].AwaitsSave?
    requires s.procs[pid].req.cid == id && s.procs[pid].req.count == count
    modifies redis
    ensures Follows(site.prefix, redis, Taken(s, t, site.rateWindow))
    ensures Foreign(t.others, pid) && t.own == Save(pid, clock, redis.fate(old(redis.sent)))
    ensures redis.sent == old(redis.sent) + 1
    ensures var s' := Taken(s, t, site.rateWindow);
            && pid in s'.procs
            && s'.procs[pid] == AwaitsMint(s.procs[pid].loc, s.procs[pid].req, s.procs[pid].record,
                                           s.procs[pid].accept, clock)
  {
    hide Represents, Play, Merge, CounterPairs;
    hide TickStep, IssueStep, VerifyStep, LookupStep, MintStep, GateStep, PutStep, PutIndexStep, HitStep;
    ghost var fate := redis.fate(redis.sent);
    var ok;
    ghost var others;
    ok, others := UpdateCounter(redis, site.prefix, id, count, clock, s, Some(pid), site.rateWindow);
    OthersLeave(s, others, pid, site.rateWindow);
    t := Turn(others, Save(pid, clock, fate));
  }

  lemma MintTurn(s: State, pid: nat, w: int) returns (t: Turn)
    requires pid in s.procs && s.procs[pid].AwaitsMint?
    ensures Foreign(t.others, pid) && t.own == Mint(pid)
    ensures var s' := Taken(s, t, w);
            var AwaitsMint(loc, req, c, a, clock) := s.procs[pid];
            && s'.stores == s.stores && s'.now == s.now
            && MintedLast(s'.log, Some(Claims(ISSUER, loc.rpId, c.userId, req.cid, clock, clock + loc.jwtTtl)))
  {
    AfterNothing(s, w);
    t := Turn([], Mint(pid));
  }

  /** From the consumption of the challenge on. */
  method VerifyNamed(redis: Redis, site: Site, o: Assertion.Oracle, p: Posted, raw: bytes, clock: int, signer: Signer,
                     ghost s: State, ghost pid: nat)
    returns (resp: Response, ghost claims: Option<Claims>, ghost ts: seq<Turn>)
    requires Follows(site.prefix, redis, s) && pid !in s.procs && Timely(site, clock)
    modifies redis
    ensures Follows(site.prefix, redis, After(s, ts, site.rateWindow))
    ensures VerifyTurns(redis, old(redis.sent), s, ts, o, site, p, raw, clock, signer, pid)
    ensures Session(claims, resp, s, ts, site, p, clock, signer)
    ensures redis.sent == old(redis.sent) + if |ts| == 4 then 3 else |ts|
  {
    hide *;
    resp, claims := REJECTED, None;
    ghost var n, req, w := redis.sent, RequestOf(o, site, p, raw), site.rateWindow;
    RequestParts(o, site, p, raw);
    var rc;
    rc, ts := ChallengeConsume(redis, site.prefix, TextOf(raw), s, pid, site.loc, req, w);
    ConsumeStage(redis, n, s, ts, rc, o, site, p, raw, clock, signer, pid);
    if !rc.Ok? {
      return;
    }
    AfterConsume(s, ts, pid, site.loc, req, w);
    resp, claims, ts := VerifyOn(redis, site, o, p, raw, clock, signer, s, ts, n, pid);
  }

  /** What follows a successful consumption, the turns so far being `done`. */
  method VerifyOn(redis: Redis, site: Site, o: Assertion.Oracle, p: Posted, raw: bytes, clock: int, signer: Signer,
                  ghost s: State, ghost done: seq<Turn>, ghost n: nat, ghost pid: nat)
    returns (resp: Response, ghost claims: Option<Claims>, ghost ts: seq<Turn>)
    requires Timely(site, clock)
    requires Follows(site.prefix, redis, After(s, done, site.rateWindow))
    requires Reached(redis, n, s, done, o, site, p, raw, clock, pid) && |done| == 1 && redis.sent == n + 1
    requires HasConsumed(After(s, done, site.rateWindow), pid, site.loc, RequestOf(o, site, p, raw))
    modifies redis
    ensures Follows(site.prefix, redis, After(s, ts, site.rateWindow))
    ensures VerifyTurns(redis, n, s, ts, o, site, p, raw, clock, signer, pid)
    ensures Session(claims, resp, s, ts, site, p, clock, signer)
    ensures |ts| >= 2 && redis.sent == n + if |ts| == 4 then 3 else |ts|
  {
    hide *;
    resp, claims, ts := REJECTED, None, done;
    ghost var w := site.rateWindow;
    ghost var t;
    var found, count;
    RequestParts(o, site, p, raw);
    found, count, t := LookupTurn(redis, site, o, p, raw, After(s, ts, w), pid);
    LookupStage(redis, n, s, ts, t, found, o, site, p, raw, clock, signer, pid);
    AfterSnoc(s, ts, t, w);
    ts := ts + [t];
    if found.None? {
      return;
    }
    t := SaveTurn(redis, site, p.id, count, clock, After(s, ts, w), pid);
    SaveStage(redis, n, s, ts, t, found.value, o, site, p, raw, clock, pid);
    AfterSnoc(s, ts, t, w);
    ts := ts + [t];
    ghost var c := ClaimsFor(site, p, found.value, clock);
    var granted;
    granted, resp := Grant(site, p, found.value, clock, signer);
    if !granted {
      NoTokenStage(redis, n, s, ts, found.value, o, site, p, raw, clock, signer, pid);
      return;
    }
    claims := Some(c);
    t := MintTurn(After(s, ts, w), pid, w);
    MintStage(redis, n, s, ts, t, found.value, c, resp, o, site, p, raw, clock, signer, pid);
    AfterSnoc(s, ts, t, w);
    SameStores(site.prefix, redis, After(s, ts, w), After(s, ts + [t], w));
    ts := ts + [t];
  }

  ghost predicate HasConsumed(s: State, pid: nat, loc: Location, req: Request) {
    pid in s.procs && s.procs[pid].AwaitsLookup? && s.procs[pid].loc == loc && s.procs[pid].req == req
  }

  lemma SameStores(prefix: string, redis: Redis, s: State, s': State)
    requires Follows(prefix, redis, s) && s'.stores == s.stores && s'.now == s.now
    ensures Follows(prefix, redis, s')
  {
  }

  // The stages of a verify, for the method above

  /** The turns so far, of a verify that goes on. */
  ghost predicate Reached(redis: Redis, n: nat, s: State, ts: seq<Turn>, o: Assertion.Oracle, site: Site, p: Posted,
                          raw: bytes, clock: int, pid: nat)
  {
    && OwnTurns(ts, pid) && |raw| == CHALLENGE_LEN && |ts| >= 1
    && ts[0].own == Verify(pid, site.loc, RequestOf(o, site, p, raw), redis.fate(n))
    && Finds(redis, n, s, ts, raw, site.rateWindow)
    && (|ts| >= 2 ==> ts[1].own == Lookup(pid, redis.fate(n + 1).Done?) && Accepts(redis, n, s, ts, o, site, p, raw))
    && (|ts| >= 3 ==> ts[2].own == Save(pid, clock, redis.fate(n + 2)))
  }

  lemma ConsumeStage(redis: Redis, n: nat, s: State, ts: seq<Turn>, rc: Rc<()>, o: Assertion.Oracle, site: Site,
                     p: Posted, raw: bytes, clock: int, signer: Signer, pid: nat)
    requires OwnTurns(ts, pid)
    requires |raw| != CHALLENGE_LEN ==> rc.Declined? && ts == []
    requires |raw| == CHALLENGE_LEN ==>
               && |ts| == 1 && ts[0].own == Verify(pid, site.loc, RequestOf(o, site, p, raw), redis.fate(n))
               && var met := Moment(s, ts[0], site.rateWindow);
                  rc.Ok? <==> redis.fate(n).Done? && Stores.ChallengeLive(met.stores, TextOf(raw), met.now)
    ensures rc.Ok? ==> Reached(redis, n, s, ts, o, site, p, raw, clock, pid)
    ensures !rc.Ok? ==> VerifyTurns(redis, n, s, ts, o, site, p, raw, clock, signer, pid)
                        && Session(None, REJECTED, s, ts, site, p, clock, signer)
  {
    hide Moment, After, RequestOf;
    if |ts| == 1 {
      FirstMoment(s, ts, site.rateWindow);
    }
  }

  lemma LookupStage(redis: Redis, n: nat, s: State, ts: seq<Turn>, t: Turn, found: Option<Credential>,
                    o: Assertion.Oracle, site: Site, p: Posted, raw: bytes, clock: int, signer: Signer, pid: nat)
    requires Reached(redis, n, s, ts, o, site, p, raw, clock, pid) && |ts| == 1
    requires Foreign(t.others, pid) && t.own == Lookup(pid, redis.fate(n + 1).Done?)
    requires var met := Moment(After(s, ts, site.rateWindow), t, site.rateWindow);
             var r := Read(Stores.RecordOf(met.stores, p.id), p.id);
             && (found.Some? <==> redis.fate(n + 1).Done? && Succeeds(o, site, p, raw, r))
             && (found.Some? ==> r == Ok(found.value))
    ensures found.Some? ==>
              && Reached(redis, n, s, ts + [t], o, site, p, raw, clock, pid)
              && RecordAt(s, ts + [t], p.id, site.rateWindow) == Ok(found.value)
    ensures found.None? ==>
              && VerifyTurns(redis, n, s, ts + [t], o, site, p, raw, clock, signer, pid)
              && Session(None, REJECTED, s, ts + [t], site, p, clock, signer)
  {
    hide Moment, MomentOf, After, RequestOf, Succeeds, Read, Foreign, OwnTurns;
    AfterSnoc(s, ts, t, site.rateWindow);
    OwnAdd(ts, t, pid);
  }

  lemma SaveStage(redis: Redis, n: nat, s: State, ts: seq<Turn>, t: Turn, c: Credential,
                  o: Assertion.Oracle, site: Site, p: Posted, raw: bytes, clock: int, pid: nat)
    requires Reached(redis, n, s, ts, o, site, p, raw, clock, pid) && |ts| == 2
    requires Foreign(t.others, pid) && t.own == Save(pid, clock, redis.fate(n + 2))
    requires RecordAt(s, ts, p.id, site.rateWindow) == Ok(c)
    ensures Reached(redis, n, s, ts + [t], o, site, p, raw, clock, pid)
    ensures RecordAt(s, ts + [t], p.id, site.rateWindow) == Ok(c)
  {
    hide Moment, MomentOf, After, RequestOf, Succeeds, Read, Foreign, OwnTurns;
    AfterSnoc(s, ts, t, site.rateWindow);
    OwnAdd(ts, t, pid);
  }

  lemma NoTokenStage(redis: Redis, n: nat, s: State, ts: seq<Turn>, c: Credential, o: Assertion.Oracle, site: Site,
                     p: Posted, raw: bytes, clock: int, signer: Signer, pid: nat)
    requires Reached(redis, n, s, ts, o, site, p, raw, clock, pid) && |ts| == 3
    requires RecordAt(s, ts, p.id, site.rateWindow) == Ok(c)
    requires TokenOf(signer, ClaimsFor(site, p, c, clock)).None?
    ensures VerifyTurns(redis, n, s, ts, o, site, p, raw, clock, signer, pid)
    ensures Session(None, FAILED, s, ts, site, p, clock, signer)
  {
    hide Moment, MomentOf, After, RequestOf, Succeeds, Read, Foreign, OwnTurns, TokenOf, ClaimsFor, RecordAt, Finds;
  }

  lemma MintStage(redis: Redis, n: nat, s: State, ts: seq<Turn>, t: Turn, c: Credential, claims: Claims,
                  resp: Response, o: Assertion.Oracle, site: Site, p: Posted, raw: bytes, clock: int, signer: Signer,
                  pid: nat)
    requires Reached(redis, n, s, ts, o, site, p, raw, clock, pid) && |ts| == 3
    requires Foreign(t.others, pid) && t.own == Mint(pid)
    requires RecordAt(s, ts, p.id, site.rateWindow) == Ok(c) && claims == ClaimsFor(site, p, c, clock)
    requires TokenOf(signer, claims).Some? && resp == Granted(site, claims, TokenOf(signer, claims).value)
    requires MintedLast(Taken(After(s, ts, site.rateWindow), t, site.rateWindow).log,
                        Some(Claims(ISSUER, site.loc.rpId, c.userId, p.id, clock, clock + site.loc.jwtTtl)))
    ensures VerifyTurns(redis, n, s, ts + [t], o, site, p, raw, clock, signer, pid)
    ensures Session(Some(claims), resp, s, ts + [t], site, p, clock, signer)
  {
    hide Moment, MomentOf, After, RequestOf, Succeeds, Read, Foreign, OwnTurns, Taken, MintedLast, TokenOf, Granted;
    AfterSnoc(s, ts, t, site.rateWindow);
    OwnAdd(ts, t, pid);
  }

  lemma OwnAdd(ts: seq<Turn>, t: Turn, pid: nat)
    requires OwnTurns(ts, pid) && Foreign(t.others, pid) && Of(t.own, pid)
    ensures OwnTurns(ts + [t], pid)
  {
    hide Of, Foreign;
  }
}
