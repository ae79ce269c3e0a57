/** The history of a protocol run, what it says about the stores, and when an
    entry is justified by the entries before it. */
module Log {
  import Assertion
  import opened Credential
  import opened Prelude
  import RateLimit

  /** The settings of an nginx location that the protocol depends on. */
  datatype Location = Location(rpId: string, clone: Assertion.ClonePolicy, jwtTtl: int)

  /** A parsed verify request: the credential id it names, the challenge in its
      clientDataJSON, the counter in its authenticator data, and under which
      stored key and algorithm the rest of the assertion is valid. */
  datatype Request = Request(cid: string, nonce: string, count: uint32, vouches: (string, int) -> bool)

  datatype Claims = Claims(iss: string, aud: string, sub: string, cid: string, iat: int, exp: int)

  /** Numbers that name another entry are positions in the log. */
  datatype Fact =
    | Issued(nonce: string, ttl: int)
    | Consumed(pid: nat, nonce: string)
    | Wasted(nonce: string)
    | Expired(nonces: set<string>)
    | Accepted(pid: nat, consume: nat, loc: Location, req: Request, record: Credential)
    | Saved(accept: nat, cid: string, count: nat, usedAt: int)
    | Registered(record: Credential)
    | Deleted(cid: string)
    | Minted(accept: nat, claims: Claims)
    | Admitted(mint: nat, rpId: string, user: string, clock: int)
    | Counted(ip: string, count: nat)

  datatype Entry = Entry(at: int, fact: Fact)

  /** What the local check decides about a record. */
  ghost predicate Acceptable(loc: Location, req: Request, c: Credential) {
    req.vouches(c.publicKey, c.alg) && Assertion.CheckCounter(loc.clone, req.count, c.signCount)
  }

  // What the log says about the stores

  /** Whether a fact ends the life of a challenge. */
  ghost predicate Closes(fact: Fact, nonce: string) {
    || (fact.Consumed? && fact.nonce == nonce)
    || (fact.Wasted? && fact.nonce == nonce)
    || (fact.Expired? && nonce in fact.nonces)
  }

  ghost predicate Opens(fact: Fact, nonce: string) {
    fact.Issued? && fact.nonce == nonce
  }

  /** The entry that issued the live challenge, if there is one. */
  ghost function Open(log: seq<Entry>, nonce: string): (r: Option<nat>)
    ensures r.Some? ==> r.value < |log| && Opens(log[r.value].fact, nonce)
  {
    if log == [] then None
    else
      var last := |log| - 1;
      if Opens(log[last].fact, nonce) then Some(last)
      else if Closes(log[last].fact, nonce) then None
      else Open(log[..last], nonce)
  }

  ghost function Expiry(log: seq<Entry>, i: nat): int
    requires i < |log| && log[i].fact.Issued?
  {
    log[i].at + log[i].fact.ttl
  }

  /** The hash a record holds after the registrations, counter updates and
      deletions of the log. */
  ghost function RecordFrom(log: seq<Entry>, cid: string): Hash {
    if log == [] then map[]
    else Recorded(RecordFrom(log[..|log| - 1], cid), log[|log| - 1].fact, cid)
  }

  ghost function Recorded(h: Hash, fact: Fact, cid: string): Hash {
    match fact
    case Registered(c) => if c.credentialId == cid then Merge(h, PutPairs(c)) else h
    case Saved(_, id, count, usedAt) => if id == cid then Merge(h, CounterPairs(count, usedAt)) else h
    case Deleted(id) => if id == cid then map[] else h
    case _ => h
  }

  ghost function HitTimes(log: seq<Entry>, ip: string): seq<int> {
    if log == [] then []
    else
      var last := |log| - 1;
      HitTimes(log[..last], ip)
      + if log[last].fact.Counted? && log[last].fact.ip == ip then [log[last].at] else []
  }

  // Justification

  ghost predicate AcceptedAt(log: seq<Entry>, a: nat) {
    a < |log| && log[a].fact.Accepted?
  }

  ghost predicate ConsumeUsed(log: seq<Entry>, k: nat) {
    exists i :: 0 <= i < |log| && log[i].fact.Accepted? && log[i].fact.consume == k
  }

  ghost predicate SaveUsed(log: seq<Entry>, a: nat) {
    exists i :: 0 <= i < |log| && log[i].fact.Saved? && log[i].fact.accept == a
  }

  ghost predicate MintUsed(log: seq<Entry>, a: nat) {
    exists i :: 0 <= i < |log| && log[i].fact.Minted? && log[i].fact.accept == a
  }

  ghost predicate OpenUntil(past: seq<Entry>, nonce: string, at: int) {
    Open(past, nonce).Some? && at < Expiry(past, Open(past, nonce).value)
  }

  ghost predicate OpenPast(past: seq<Entry>, nonce: string, at: int) {
    Open(past, nonce).Some? && at >= Expiry(past, Open(past, nonce).value)
  }

  /** What must already be in the log for an entry to be added. */
  ghost predicate Justified(past: seq<Entry>, e: Entry, window: int) {
    && (forall i :: 0 <= i < |past| ==> past[i].at <= e.at)
    && match e.fact
       case Issued(_, ttl) => 1 <= ttl <= UINT32_MAX
       case Consumed(_, nonce) => OpenUntil(past, nonce, e.at)
       case Wasted(nonce) => OpenUntil(past, nonce, e.at)
       case Expired(nonces) => forall n :: n in nonces ==> OpenPast(past, n, e.at)
       case Accepted(pid, k, loc, req, c) =>
         && k < |past| && past[k].fact == Consumed(pid, req.nonce) && !ConsumeUsed(past, k)
         && Read(RecordFrom(past, req.cid), req.cid) == Ok(c)
         && Acceptable(loc, req, c)
       case Saved(a, cid, count, _) =>
         && AcceptedAt(past, a) && !SaveUsed(past, a)
         && cid == past[a].fact.req.cid && count == past[a].fact.req.count
       case Registered(c) => WellFormed(c)
       case Deleted(_) => true
       case Minted(a, claims) =>
         && AcceptedAt(past, a) && !MintUsed(past, a)
         && claims.aud == past[a].fact.loc.rpId
         && claims.sub == past[a].fact.record.userId
         && claims.cid == past[a].fact.req.cid
         && claims.exp == claims.iat + past[a].fact.loc.jwtTtl
       case Admitted(m, rpId, user, clock) =>
         && m < |past| && past[m].fact.Minted?
         && past[m].fact.claims.aud == rpId && past[m].fact.claims.sub == user
         && clock < past[m].fact.claims.exp
       case Counted(ip, count) =>
         count == RateLimit.Run(RateLimit.Absent, HitTimes(past, ip) + [e.at], window).count
  }

  ghost predicate History(log: seq<Entry>, window: int) {
    forall i :: 0 <= i < |log| ==> Justified(log[..i], log[i], window)
  }

  lemma HistorySnoc(log: seq<Entry>, e: Entry, window: int)
    requires History(log, window) && Justified(log, e, window)
    ensures History(log + [e], window)
  {
    hide Justified;
    var longer := log + [e];
    forall i | 0 <= i < |longer|
      ensures Justified(longer[..i], longer[i], window)
    {
      assert longer[..i] == log[..i];
      assert log[..|log|] == log;
    }
  }

  lemma {:induction false} HistoryPrefix(log: seq<Entry>, n: nat, window: int)
    requires History(log, window) && n <= |log|
    ensures History(log[..n], window)
  {
    hide Justified;
    forall i | 0 <= i < n
      ensures Justified(log[..n][..i], log[..n][i], window)
    {
      assert log[..n][..i] == log[..i];
    }
  }

  lemma OpenSnoc(log: seq<Entry>, e: Entry, nonce: string)
    ensures Open(log + [e], nonce)
         == if Opens(e.fact, nonce) then Some(|log|) else if Closes(e.fact, nonce) then None else Open(log, nonce)
  {
    assert (log + [e])[..|log|] == log;
  }

  lemma RecordSnoc(log: seq<Entry>, e: Entry, cid: string)
    ensures RecordFrom(log + [e], cid) == Recorded(RecordFrom(log, cid), e.fact, cid)
  {
    hide Recorded;
    assert (log + [e])[..|log|] == log;
  }

  lemma HitsSnoc(log: seq<Entry>, e: Entry, ip: string)
    ensures HitTimes(log + [e], ip)
         == HitTimes(log, ip) + if e.fact.Counted? && e.fact.ip == ip then [e.at] else []
  {
    assert (log + [e])[..|log|] == log;
  }
}
