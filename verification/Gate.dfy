/** The claim policy of the access handler, on the text of the token that the
    verify handler wrote. */
module Gate {
  import Base64url
  import Credential
  import opened Formats
  import opened JsonText
  import opened Log
  import opened Prelude
  import opened Protocol
  import Stores
  import opened Traces

  datatype Verdict =
    | Authenticated(user: Option<string>, cid: Option<string>)
    | Invalid
    | Expired

  function Claim(payload: seq<Member>, name: string): Option<JsonValue> {
    if payload == [] then None
    else if payload[0].name == name then Some(payload[0].value)
    else Claim(payload[1..], name)
  }

  function StringClaim(payload: seq<Member>, name: string): Option<string> {
    match Claim(payload, name)
    case Some(JString(s)) => Some(s)
    case _ => None
  }

  function NumberClaim(payload: seq<Member>, name: string): Option<int> {
    match Claim(payload, name)
    case Some(JNumber(n)) => Some(n)
    case _ => None
  }

  predicate ForParty(payload: seq<Member>, rpId: string) {
    StringClaim(payload, "aud") == Some(rpId) && StringClaim(payload, "iss") == Some(ISSUER)
  }

  predicate InTime(payload: seq<Member>, now: int) {
    NumberClaim(payload, "exp").Some? && now < NumberClaim(payload, "exp").value
  }

  /** src/ngx_http_auth_webauthn_module.c:1836, after the signature. */
  method Access(payload: seq<Member>, rpId: string, now: int) returns (v: Verdict)
    ensures v.Authenticated? <==> ForParty(payload, rpId) && InTime(payload, now)
    ensures v.Authenticated? ==>
              v.user == StringClaim(payload, "sub") && v.cid == StringClaim(payload, "cid")
    ensures v.Invalid? <==> !ForParty(payload, rpId)
  {
    var aud := StringClaim(payload, "aud");
    if aud.None? || aud.value != rpId {
      return Invalid;
    }
    var iss := StringClaim(payload, "iss");
    if iss.None? || iss.value != "nginx-webauthn" {
      return Invalid;
    }
    var exp := NumberClaim(payload, "exp");
    if exp.None? || exp.value <= now {
      return Verdict.Expired;
    }
    v := Authenticated(StringClaim(payload, "sub"), StringClaim(payload, "cid"));
  }

  /** Claims as the verify handler mints them. */
  predicate Timely(c: Claims) {
    c.iss == ISSUER && IsTime(c.iat) && IsTime(c.exp)
  }

  /** The token's text reads as the members it was meant to have. */
  predicate ReadsAsMinted(c: Claims, jti: bytes) {
    ReadObject(TokenText(c, jti)) == Some(ClaimsMembers(c.aud, c.sub, c.cid, c.iat, c.exp, Base64url.Encode(jti)))
  }

  lemma EncodedIsPlain(jti: bytes)
    ensures Plain(Base64url.Encode(jti))
  {
    hide Base64url.Encode;
    var s := Base64url.Encode(jti);
    Base64url.EncodeIsStripped(jti);
    assert Base64url.InAlphabet(s);
  }

  lemma Names()
    ensures "iss" != "aud" && "iss" != "sub" && "iss" != "cid" && "iss" != "exp"
    ensures "aud" != "sub" && "aud" != "cid" && "aud" != "exp" && "sub" != "cid" && "sub" != "exp" && "cid" != "exp"
    ensures "iat" != "iss" && "iat" != "aud" && "iat" != "sub" && "iat" != "cid" && "iat" != "exp"
  {
    assert "iss"[0] == 'i' && "aud"[0] == 'a' && "sub"[0] == 's' && "cid"[0] == 'c' && "exp"[0] == 'e';
    assert "iat"[0] == 'i' && "iat"[1] == 'a' && "iss"[1] == 's';
  }

  /** A token's text reads as minted if and only if the relying party's id and
      the credential id, which are written without escaping, are plain; then it
      says what was minted, claim by claim. */
  lemma TokenReads(c: Claims, jti: bytes)
    requires Timely(c)
    ensures ReadsAsMinted(c, jti) <==> Plain(c.aud) && Plain(c.cid)
    ensures ReadsAsMinted(c, jti) ==>
              var payload := ReadObject(TokenText(c, jti)).value;
              && StringClaim(payload, "iss") == Some(ISSUER) && StringClaim(payload, "aud") == Some(c.aud)
              && StringClaim(payload, "sub") == Some(c.sub) && StringClaim(payload, "cid") == Some(c.cid)
              && NumberClaim(payload, "exp") == Some(c.exp)
  {
    hide ReadObject, ClaimsText, Base64url.Encode, Plain, IsTime;
    EncodedIsPlain(jti);
    ClaimsReadBack(c.aud, c.sub, c.cid, c.iat, c.exp, Base64url.Encode(jti));
    var p := ClaimsMembers(c.aud, c.sub, c.cid, c.iat, c.exp, Base64url.Encode(jti));
    Names();
    ClaimAmong(p, "iss");
    ClaimAmong(p, "aud");
    ClaimAmong(p, "sub");
    ClaimAmong(p, "cid");
    ClaimAmong(p, "exp");
    hide Claim;
  }

  lemma ClaimAmong(p: seq<Member>, name: string)
    requires |p| >= 6
    ensures Claim(p, name)
         == if p[0].name == name then Some(p[0].value) else if p[1].name == name then Some(p[1].value)
            else if p[2].name == name then Some(p[2].value) else if p[3].name == name then Some(p[3].value)
            else if p[4].name == name then Some(p[4].value) else if p[5].name == name then Some(p[5].value)
            else Claim(p[6..], name)
  {
    hide Claim;
    ClaimAt(p, 0, name);
    ClaimAt(p, 1, name);
    ClaimAt(p, 2, name);
    ClaimAt(p, 3, name);
    ClaimAt(p, 4, name);
    ClaimAt(p, 5, name);
    assert p[0..] == p;
  }

  lemma ClaimAt(p: seq<Member>, i: nat, name: string)
    requires i < |p|
    ensures Claim(p[i..], name) == if p[i].name == name then Some(p[i].value) else Claim(p[i + 1..], name)
  {
  }

  /** The protocol's gate step is the handler's decision on the token's text,
      and the user it notes is the one the text names, whatever characters the
      user id holds, for every token that reads as minted: all but those whose
      relying-party or credential id needs escaping. */
  lemma GateStepIsAccess(s: State, rpId: string, token: nat, clock: int, jti: bytes)
    requires token < |s.log| && s.log[token].fact.Minted? && Timely(s.log[token].fact.claims)
    ensures var c := s.log[token].fact.claims; ReadsAsMinted(c, jti) <==> Plain(c.aud) && Plain(c.cid)
    ensures var c := s.log[token].fact.claims;
            var admitted := Entry(s.now, Admitted(token, rpId, c.sub, clock));
            ReadsAsMinted(c, jti) ==>
              TextAgrees(c, jti, rpId, clock, GateStep(s, rpId, token, clock).log == s.log + [admitted])
  {
    hide ReadObject, TokenText, Claim, Plain, ClaimsMembers;
    TokenReads(s.log[token].fact.claims, jti);
    var e := Entry(s.now, Admitted(token, rpId, s.log[token].fact.claims.sub, clock));
    assert |s.log + [e]| == |s.log| + 1;
  }

  /** The token's text parses, names the user, and passes exactly if admitted. */
  ghost predicate TextAgrees(c: Claims, jti: bytes, rpId: string, clock: int, admitted: bool) {
    && ReadObject(TokenText(c, jti)).Some?
    && var payload := ReadObject(TokenText(c, jti)).value;
       && StringClaim(payload, "sub") == Some(c.sub)
       && (ForParty(payload, rpId) && InTime(payload, clock) <==> admitted)
  }

  // Over whole runs

  /** Events of a deployment whose relying-party ids and registered credential
      ids need no escaping, and whose clocks stay within int64 for a token's
      life of at most `life`. */
  ghost predicate Tame(e: Event, life: nat) {
    match e
    case Verify(_, loc, _, _) => Plain(loc.rpId) && 0 <= loc.jwtTtl <= life
    case Save(_, clock, _) => INT64_MIN <= clock <= INT64_MAX - life
    case Put(_, c, _) => Plain(c.credentialId)
    case _ => true
  }

  ghost predicate TameLocation(loc: Location, life: nat) {
    Plain(loc.rpId) && 0 <= loc.jwtTtl <= life
  }

  ghost predicate TamePhase(phase: Phase, life: nat) {
    match phase
    case AwaitsLookup(loc, _, _) => TameLocation(loc, life)
    case AwaitsSave(loc, _, _, _) => TameLocation(loc, life)
    case AwaitsMint(loc, _, _, _, clock) => TameLocation(loc, life) && INT64_MIN <= clock <= INT64_MAX - life
    case _ => true
  }

  ghost predicate TameFact(fact: Fact) {
    match fact
    case Registered(c) => Plain(c.credentialId)
    case Minted(_, claims) => claims.iss == ISSUER && Plain(claims.aud) && IsTime(claims.iat) && IsTime(claims.exp)
    case _ => true
  }

  ghost predicate TameState(s: State, life: nat) {
    && (forall pid :: pid in s.procs ==> TamePhase(s.procs[pid], life))
    && (forall i :: 0 <= i < |s.log| ==> TameFact(s.log[i].fact))
  }

  lemma TameStep(s: State, e: Event, life: nat, window: int)
    requires TameState(s, life) && Tame(e, life)
    ensures TameState(Step(s, e, window), life)
  {
    hide Plain, Acceptable, Credential.Read, Credential.Merge, Credential.PutPairs, Credential.CounterPairs;
    hide Stores.Expire, Stores.Expiring, Stores.CountHit, Stores.RecordOf, Stores.SetIndex, Credential.WellFormed;
  }

  lemma {:induction false} TameRun(start: int, events: seq<Event>, life: nat, window: int)
    requires forall i :: 0 <= i < |events| ==> Tame(events[i], life)
    ensures TameState(Run(start, events, window), life)
  {
    hide Step, Tame;
    if events != [] {
      TameRun(start, events[..|events| - 1], life, window);
      TameStep(Run(start, events[..|events| - 1], window), events[|events| - 1], life, window);
    }
  }

  /** In every such run, the text of the token behind any admitted request
      parses, passes the gate's checks, and names the admitted user; so with
      Traces.Provenance, the user a gate reads is the one a key was registered
      for, whatever characters the user id holds. */
  lemma AdmittedTextNamesUser(start: int, events: seq<Event>, life: nat, window: int, g: nat, jti: bytes)
    requires forall i :: 0 <= i < |events| ==> Tame(events[i], life)
    requires var log := LogOf(start, events, window); g < |log| && log[g].fact.Admitted?
    ensures var log := LogOf(start, events, window);
            && log[g].fact.mint < g && log[log[g].fact.mint].fact.Minted?
            && var text := TokenText(log[log[g].fact.mint].fact.claims, jti);
               && ReadObject(text).Some?
               && ForParty(ReadObject(text).value, log[g].fact.rpId)
               && InTime(ReadObject(text).value, log[g].fact.clock)
               && StringClaim(ReadObject(text).value, "sub") == Some(log[g].fact.user)
  {
    hide Run, History, TameState, ReadObject, TokenText, Claim, Acceptable, InForce, Supplies, ClaimsMembers;
    var s, log := Run(start, events, window), LogOf(start, events, window);
    TameRun(start, events, life, window);
    Provenance(start, events, window, g);
    var t :| Explains(log, g, t);
    TameFacts(s, life, t.mint);
    TameFacts(s, life, t.registration);
    RegistrationOf(log, t.registration, t.accept, log[t.accept].fact.req.cid);
    TokenReads(log[t.mint].fact.claims, jti);
  }

  lemma TameFacts(s: State, life: nat, i: nat)
    requires TameState(s, life) && i < |s.log|
    ensures TameFact(s.log[i].fact)
  {
  }

  lemma RegistrationOf(log: seq<Entry>, r: nat, k: nat, cid: string)
    requires InForce(log, r, k, cid)
    ensures r < |log| && log[r].fact.Registered? && log[r].fact.record.credentialId == cid
  {
  }
}
