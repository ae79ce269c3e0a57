/** What holds of every run of the protocol, with any number of nodes, any
    interleaving, and commands that fail or lose their reply. */
module Traces {
  import Assertion
  import opened Credential
  import opened Decimal
  import opened Log
  import opened Prelude
  import opened Protocol
  import RateLimit
  import Stores

  ghost function LogOf(start: int, events: seq<Event>, window: int): seq<Entry> {
    Run(start, events, window).log
  }

  lemma RunHistory(start: int, events: seq<Event>, window: int)
    ensures History(LogOf(start, events, window), window)
  {
    hide Run, History;
    RunKeeps(start, events, window);
  }

  lemma LogHistory(log: seq<Entry>, i: nat, window: int)
    requires History(log, window) && i < |log|
    ensures Justified(log[..i], log[i], window)
  {
    hide Justified;
  }

  // Challenges

  /** The fates of the challenges issued under one nonce. */
  datatype Tally = Tally(issued: nat, consumed: nat, lost: nat, expired: nat, replaced: nat)

  ghost function TallyOf(log: seq<Entry>, nonce: string): Tally {
    if log == [] then Tally(0, 0, 0, 0, 0)
    else
      var past := log[..|log| - 1];
      var t := TallyOf(past, nonce);
      match log[|log| - 1].fact
      case Issued(n, _) =>
        if n == nonce
        then t.(issued := t.issued + 1, replaced := t.replaced + if Open(past, nonce).Some? then 1 else 0)
        else t
      case Consumed(_, n) => if n == nonce then t.(consumed := t.consumed + 1) else t
      case Wasted(n) => if n == nonce then t.(lost := t.lost + 1) else t
      case Expired(ns) => if nonce in ns then t.(expired := t.expired + 1) else t
      case _ => t
  }

  lemma {:induction false} Balance(log: seq<Entry>, nonce: string, window: int)
    requires History(log, window)
    ensures var t := TallyOf(log, nonce);
            t.issued == t.consumed + t.lost + t.expired + t.replaced + if Open(log, nonce).Some? then 1 else 0
  {
    hide RecordFrom, HitTimes, RateLimit.Run, Read;
    if log != [] {
      var n := |log| - 1;
      HistoryPrefix(log, n, window);
      Balance(log[..n], nonce, window);
      LogHistory(log, n, window);
    }
  }

  /** Challenge conservation: every issue under a nonce is consumed by one
      verify, lost with a reply, expired, overwritten, or still live in Redis. */
  lemma ChallengesConserved(start: int, events: seq<Event>, window: int, nonce: string)
    ensures var s := Run(start, events, window);
            var t := TallyOf(s.log, nonce);
            && t.issued == t.consumed + t.lost + t.expired + t.replaced + (if nonce in s.stores.chal then 1 else 0)
            && t.consumed <= t.issued
  {
    hide Run, History, TallyOf, Open;
    RunKeeps(start, events, window);
    var s := Run(start, events, window);
    assert ChallengeMatches(s, nonce);
    Balance(s.log, nonce, window);
  }

  /** Entry i issued the challenge that is live before entry k: nothing between
      them issues, consumes or expires that nonce. */
  ghost predicate Supplies(log: seq<Entry>, i: nat, k: nat, nonce: string) {
    && i < k <= |log| && Opens(log[i].fact, nonce)
    && forall j :: i < j < k ==> !Opens(log[j].fact, nonce) && !Closes(log[j].fact, nonce)
  }

  lemma {:induction false} OpenSupplies(log: seq<Entry>, k: nat, nonce: string)
    requires k <= |log|
    ensures var o := Open(log[..k], nonce); o.Some? ==> Supplies(log, o.value, k, nonce)
  {
    if k > 0 {
      assert log[..k][..k - 1] == log[..k - 1];
      OpenSupplies(log, k - 1, nonce);
    }
  }

  /** A consumption uses a challenge issued less than its time to live before. */
  lemma ConsumedInTime(start: int, events: seq<Event>, window: int, k: nat)
    requires var log := LogOf(start, events, window);
             k < |log| && (log[k].fact.Consumed? || log[k].fact.Wasted?)
    ensures var log := LogOf(start, events, window);
            exists i: nat ::
              && Supplies(log, i, k, log[k].fact.nonce)
              && log[i].at <= log[k].at < log[i].at + log[i].fact.ttl
  {
    hide Run, Open;
    var log := LogOf(start, events, window);
    RunHistory(start, events, window);
    LogHistory(log, k, window);
    var nonce := log[k].fact.nonce;
    OpenSupplies(log, k, nonce);
    var i := Open(log[..k], nonce).value;
    assert log[..k][i] == log[i];
  }

  /** Nobody reissued the nonce of issue i before entry k, nor was it consumed. */
  ghost predicate Untaken(log: seq<Entry>, i: nat, k: nat, nonce: string) {
    && i < k <= |log| && Opens(log[i].fact, nonce)
    && forall j :: i < j < k ==> !Opens(log[j].fact, nonce) && (Closes(log[j].fact, nonce) ==> log[j].fact.Expired?)
  }

  /** Nothing expires before its time: an untaken challenge that is young enough
      is the open one. */
  lemma {:induction false} UntakenIsOpen(log: seq<Entry>, i: nat, k: nat, nonce: string, now: int, window: int)
    requires History(log, window) && Untaken(log, i, k, nonce)
    requires (forall j :: 0 <= j < k ==> log[j].at <= now) && now < Expiry(log, i)
    ensures Open(log[..k], nonce) == Some(i)
  {
    hide History;
    var past, e := log[..k - 1], log[k - 1];
    assert log[..k] == past + [e];
    OpenSnoc(past, e, nonce);
    if k > i + 1 {
      UntakenIsOpen(log, i, k - 1, nonce, now, window);
      LogHistory(log, k - 1, window);
      assert Expiry(past, i) == Expiry(log, i);
    }
  }

  /** In every run, a challenge is live if and only if it was issued, less than
      its time to live ago, and neither consumed nor reissued since. */
  lemma LiveExactly(start: int, events: seq<Event>, window: int, nonce: string)
    ensures var s := Run(start, events, window);
            Stores.ChallengeLive(s.stores, nonce, s.now)
            <==> exists i: nat :: Untaken(s.log, i, |s.log|, nonce) && s.log[i].at <= s.now < Expiry(s.log, i)
  {
    hide Run, Open, History;
    var s := Run(start, events, window);
    RunKeeps(start, events, window);
    assert ChallengeMatches(s, nonce);
    assert s.log[..|s.log|] == s.log;
    if Stores.ChallengeLive(s.stores, nonce, s.now) {
      OpenSupplies(s.log, |s.log|, nonce);
      assert Untaken(s.log, Open(s.log, nonce).value, |s.log|, nonce);
    }
    forall i: nat | Untaken(s.log, i, |s.log|, nonce) && s.now < Expiry(s.log, i)
      ensures Stores.ChallengeLive(s.stores, nonce, s.now)
    {
      UntakenIsOpen(s.log, i, |s.log|, nonce, s.now, window);
    }
  }

  // Single use

  /** Token m was minted by the verify that consumed the challenge of issue i. */
  ghost predicate MintedFrom(log: seq<Entry>, i: nat, m: nat) {
    && m < |log| && log[m].fact.Minted? && AcceptedAt(log, log[m].fact.accept)
    && var Accepted(pid, k, _, req, _) := log[log[m].fact.accept].fact;
       k < |log| && log[k].fact == Consumed(pid, req.nonce) && Supplies(log, i, k, req.nonce)
  }

  lemma HistoryMintedFrom(log: seq<Entry>, m: nat, window: int) returns (i: nat)
    requires History(log, window) && m < |log| && log[m].fact.Minted?
    ensures MintedFrom(log, i, m)
  {
    hide History, RecordFrom, Read, Open, HitTimes, RateLimit.Run, Acceptable;
    LogHistory(log, m, window);
    var a := log[m].fact.accept;
    LogHistory(log, a, window);
    var k := log[a].fact.consume;
    LogHistory(log, k, window);
    OpenSupplies(log, k, log[a].fact.req.nonce);
    i := Open(log[..k], log[a].fact.req.nonce).value;
  }

  /** Two tokens never come from one consumption. */
  lemma ConsumesApart(log: seq<Entry>, m: nat, n: nat, window: int)
    requires History(log, window) && m < n < |log| && log[m].fact.Minted? && log[n].fact.Minted?
    requires AcceptedAt(log, log[m].fact.accept) && AcceptedAt(log, log[n].fact.accept)
    ensures log[log[m].fact.accept].fact.consume != log[log[n].fact.accept].fact.consume
  {
    hide History, RecordFrom, Read, Open, HitTimes, RateLimit.Run, Acceptable;
    LogHistory(log, n, window);
    var a, b := log[m].fact.accept, log[n].fact.accept;
    assert log[..n][m] == log[m];
    assert a != b;
    LogHistory(log, a, window);
    LogHistory(log, b, window);
    if a < b {
      assert log[..b][a] == log[a];
    } else {
      assert log[..a][b] == log[b];
    }
  }

  /** Single use: every token comes from an issue, and different tokens from
      different issues, so a challenge mints at most one token however many
      nodes race for it. */
  lemma OneTokenPerIssue(start: int, events: seq<Event>, window: int, m: nat)
    requires var log := LogOf(start, events, window); m < |log| && log[m].fact.Minted?
    ensures var log := LogOf(start, events, window);
            && (exists i: nat :: MintedFrom(log, i, m))
            && forall i: nat, n: nat :: MintedFrom(log, i, m) && MintedFrom(log, i, n) ==> m == n
  {
    hide Run, History;
    var log := LogOf(start, events, window);
    RunHistory(start, events, window);
    var j := HistoryMintedFrom(log, m, window);
    forall i: nat, n: nat | MintedFrom(log, i, m) && MintedFrom(log, i, n)
      ensures m == n
    {
      if m < n {
        ConsumesApart(log, m, n, window);
      } else if n < m {
        ConsumesApart(log, n, m, window);
      }
    }
  }

  // Records

  /** The registration that a stored record goes back to. */
  ghost function LastRegistration(log: seq<Entry>, cid: string): (r: Option<nat>)
    ensures r.Some? ==> r.value < |log| && Registers(log[r.value].fact, cid)
  {
    if log == [] then None
    else
      var last := |log| - 1;
      if Registers(log[last].fact, cid) then Some(last)
      else if Deletes(log[last].fact, cid) then None
      else LastRegistration(log[..last], cid)
  }

  ghost predicate Registers(fact: Fact, cid: string) {
    fact.Registered? && fact.record.credentialId == cid
  }

  ghost predicate Deletes(fact: Fact, cid: string) {
    fact.Deleted? && fact.cid == cid
  }

  /** Entry r is the registration in force before entry k. */
  ghost predicate InForce(log: seq<Entry>, r: nat, k: nat, cid: string) {
    && r < k <= |log| && Registers(log[r].fact, cid)
    && forall j :: r < j < k ==> !Registers(log[j].fact, cid) && !Deletes(log[j].fact, cid)
  }

  lemma {:induction false} LastIsInForce(log: seq<Entry>, k: nat, cid: string)
    requires k <= |log|
    ensures var r := LastRegistration(log[..k], cid); r.Some? ==> InForce(log, r.value, k, cid)
  {
    if k > 0 {
      assert log[..k][..k - 1] == log[..k - 1];
      LastIsInForce(log, k - 1, cid);
    }
  }

  /** The counter last written to a record. */
  ghost function StoredCount(log: seq<Entry>, cid: string): nat {
    if log == [] then 0
    else
      match log[|log| - 1].fact
      case Registered(c) => if c.credentialId == cid then c.signCount else StoredCount(log[..|log| - 1], cid)
      case Saved(_, id, count, _) => if id == cid then count else StoredCount(log[..|log| - 1], cid)
      case _ => StoredCount(log[..|log| - 1], cid)
  }

  /** A hash that carries the identity of record c. */
  ghost predicate Carries(h: Hash, c: Credential, count: nat) {
    && USER_ID in h && h[USER_ID] == c.userId
    && PUBLIC_KEY in h && h[PUBLIC_KEY] == c.publicKey
    && ALG in h && h[ALG] == Print(c.alg)
    && SIGN_COUNT in h && h[SIGN_COUNT] == Print(count)
  }

  lemma CarriesAfterPut(h: Hash, c: Credential)
    ensures Carries(Merge(h, PutPairs(c)), c, c.signCount)
  {
    hide Merge, PutPairs, USER_ID, PUBLIC_KEY, ALG, SIGN_COUNT, CREATED_AT, LAST_USED_AT, AAGUID, TRANSPORTS, Print;
    FieldsDistinct();
    PutHash(h, c);
  }

  lemma CarriesAfterSave(h: Hash, c: Credential, before: nat, count: nat, usedAt: int)
    requires Carries(h, c, before)
    ensures Carries(Merge(h, CounterPairs(count, usedAt)), c, count)
  {
    hide Merge, CounterPairs, USER_ID, PUBLIC_KEY, ALG, SIGN_COUNT, LAST_USED_AT, Print;
    FieldsDistinct();
    CounterHash(h, count, usedAt);
  }

  /** What a record read from such a hash says. */
  lemma CarriedIsRead(h: Hash, c: Credential, count: nat, cid: string)
    requires Carries(h, c, count) && WellFormed(c) && count <= UINT32_MAX && Read(h, cid).Ok?
    ensures var r := Read(h, cid).value;
            r.userId == c.userId && r.publicKey == c.publicKey && r.alg == c.alg && r.signCount == count
  {
    hide USER_ID, PUBLIC_KEY, ALG, SIGN_COUNT, CREATED_AT, LAST_USED_AT, AAGUID, TRANSPORTS, Print, ParseInt64;
    ParsePrint(c.alg);
    ParsePrint(count);
  }

  /** Without a registration in force the hash is at most what counter updates
      leave behind; with one it carries that registration's identity and the
      last counter written. */
  lemma {:induction false} StoredRecord(log: seq<Entry>, cid: string, window: int)
    requires History(log, window)
    ensures var h, r := RecordFrom(log, cid), LastRegistration(log, cid);
            && (r.None? ==> Remnant(h))
            && (r.Some? ==> Carries(h, log[r.value].fact.record, StoredCount(log, cid))
                            && WellFormed(log[r.value].fact.record))
            && StoredCount(log, cid) <= UINT32_MAX
  {
    hide Merge, PutPairs, CounterPairs, Carries, Remnant, Read, Open, HitTimes, RateLimit.Run, WellFormed;
    if log == [] {
      RemnantOfNothing();
    } else {
      var n := |log| - 1;
      HistoryPrefix(log, n, window);
      StoredRecord(log[..n], cid, window);
      LogHistory(log, n, window);
      StoredStep(log[..n], log[n], cid, window);
      assert log == log[..n] + [log[n]];
    }
  }

  lemma RemnantOfNothing()
    ensures Remnant(map[])
  {
  }

  lemma StoredStep(past: seq<Entry>, e: Entry, cid: string, window: int)
    requires Justified(past, e, window)
    requires var h, r := RecordFrom(past, cid), LastRegistration(past, cid);
             && (r.None? ==> Remnant(h))
             && (r.Some? ==> Carries(h, past[r.value].fact.record, StoredCount(past, cid))
                             && WellFormed(past[r.value].fact.record))
             && StoredCount(past, cid) <= UINT32_MAX
    ensures var log := past + [e];
            var h, r := RecordFrom(log, cid), LastRegistration(log, cid);
            && (r.None? ==> Remnant(h))
            && (r.Some? ==> Carries(h, log[r.value].fact.record, StoredCount(log, cid))
                            && WellFormed(log[r.value].fact.record))
            && StoredCount(log, cid) <= UINT32_MAX
  {
    hide Merge, PutPairs, CounterPairs, Carries, Remnant, Read, Open, HitTimes, RateLimit.Run, RecordFrom;
    assert (past + [e])[..|past|] == past;
    RecordSnoc(past, e, cid);
    var h := RecordFrom(past, cid);
    match e.fact {
      case Registered(c) =>
        CarriesAfterPut(h, c);
      case Saved(_, id, count, usedAt) =>
        if LastRegistration(past, cid).Some? {
          CarriesAfterSave(h, past[LastRegistration(past, cid).value].fact.record, StoredCount(past, cid),
                           count, usedAt);
        } else {
          UpdateKeepsRemnant(h, count, usedAt);
        }
      case Deleted(id) =>
        RemnantOfNothing();
      case _ =>
    }
  }

  /** An accepted verify read the identity of the registration in force, and
      the counter last written. */
  lemma AcceptedRecord(log: seq<Entry>, a: nat, window: int)
    requires History(log, window) && a < |log| && log[a].fact.Accepted?
    ensures var f := log[a].fact;
            var r := LastRegistration(log[..a], f.req.cid);
            && r.Some? && InForce(log, r.value, a, f.req.cid)
            && (var c := log[r.value].fact.record;
                c.userId == f.record.userId && c.publicKey == f.record.publicKey && c.alg == f.record.alg)
            && f.record.signCount == StoredCount(log[..a], f.req.cid)
  {
    hide Carries, Remnant, Read, Open, HitTimes, RateLimit.Run, RecordFrom, LastRegistration, StoredCount, History;
    var f := log[a].fact;
    var cid := f.req.cid;
    var h, r := RecordFrom(log[..a], cid), LastRegistration(log[..a], cid);
    LogHistory(log, a, window);
    HistoryPrefix(log, a, window);
    StoredRecord(log[..a], cid, window);
    LastIsInForce(log, a, cid);
    if r.None? {
      RemnantIsUnusable(h, cid);
      assert false;
    }
    CarriedIsRead(h, log[r.value].fact.record, StoredCount(log[..a], cid), cid);
  }

  // Provenance

  /** The entries behind an admitted request. */
  datatype Trail = Trail(registration: nat, issue: nat, consume: nat, accept: nat, mint: nat)

  ghost predicate Explains(log: seq<Entry>, g: nat, t: Trail) {
    && t.issue < t.consume < t.accept < t.mint < g < |log| && t.registration < t.accept
    && log[g].fact.Admitted? && log[t.mint].fact.Minted? && log[t.accept].fact.Accepted?
    && var Admitted(mint, rpId, user, clock) := log[g].fact;
       var Minted(accept, claims) := log[t.mint].fact;
       var Accepted(pid, consume, loc, req, record) := log[t.accept].fact;
       // the token presented, the verify that minted it, the challenge that verify consumed
       && mint == t.mint && accept == t.accept && consume == t.consume
       // the gate's clock against the mint's, the same relying party, user and credential
       && clock < claims.exp && claims.exp == claims.iat + loc.jwtTtl
       && claims.aud == rpId && loc.rpId == rpId
       && claims.sub == user && record.userId == user && claims.cid == req.cid
       // the check passed on the record then stored, registered to that user under that key
       && Acceptable(loc, req, record)
       && InForce(log, t.registration, t.accept, req.cid)
       && log[t.registration].fact.record.userId == user
       && log[t.registration].fact.record.publicKey == record.publicKey
       && log[t.registration].fact.record.alg == record.alg
       // the same process consumed the challenge, in time
       && log[t.consume].fact == Consumed(pid, req.nonce)
       && Supplies(log, t.issue, t.consume, req.nonce)
       && log[t.consume].at < log[t.issue].at + log[t.issue].fact.ttl
  }

  lemma HistoryExplains(log: seq<Entry>, g: nat, window: int)
    requires History(log, window) && g < |log| && log[g].fact.Admitted?
    ensures exists t :: Explains(log, g, t)
  {
    hide History, Read, Open, HitTimes, RateLimit.Run, RecordFrom, LastRegistration, StoredCount, Acceptable;
    LogHistory(log, g, window);
    var m := log[g].fact.mint;
    LogHistory(log, m, window);
    var a := log[m].fact.accept;
    LogHistory(log, a, window);
    AcceptedRecord(log, a, window);
    var k := log[a].fact.consume;
    LogHistory(log, k, window);
    var nonce := log[a].fact.req.nonce;
    OpenSupplies(log, k, nonce);
    var t := Trail(LastRegistration(log[..a], log[a].fact.req.cid).value, Open(log[..k], nonce).value, k, a, m);
    assert log[..k][t.issue] == log[t.issue];
    assert Explains(log, g, t);
  }

  /** End-to-end provenance: whoever the gate lets in as a user was verified,
      less than the token's life before, for the same relying party, with a key
      registered for that user and not revoked since, answering a challenge
      that had not expired. */
  lemma Provenance(start: int, events: seq<Event>, window: int, g: nat)
    requires var log := LogOf(start, events, window); g < |log| && log[g].fact.Admitted?
    ensures exists t :: Explains(LogOf(start, events, window), g, t)
  {
    hide Run, History, Explains;
    RunHistory(start, events, window);
    HistoryExplains(LogOf(start, events, window), g, window);
  }

  // Revocation

  lemma {:induction false} RevokedHasNone(log: seq<Entry>, d: nat, n: nat, cid: string)
    requires d < n <= |log| && Deletes(log[d].fact, cid)
    requires forall j :: d < j < n ==> !Registers(log[j].fact, cid)
    ensures LastRegistration(log[..n], cid) == None
  {
    assert log[..n][..n - 1] == log[..n - 1];
    if n > d + 1 {
      RevokedHasNone(log, d, n - 1, cid);
    }
  }

  /** Revocation survives races: after a DEL and until the next registration
      the stored hash holds at most what counter updates write, even if a
      verify in flight recreated it ... */
  lemma RevokedStaysRemnant(start: int, events: seq<Event>, window: int, d: nat, cid: string)
    requires var log := LogOf(start, events, window);
             && d < |log| && Deletes(log[d].fact, cid)
             && forall j :: d < j < |log| ==> !Registers(log[j].fact, cid)
    ensures Remnant(Stores.RecordOf(Run(start, events, window).stores, cid))
  {
    hide Run, History, Remnant, RecordFrom, LastRegistration, Carries;
    var s := Run(start, events, window);
    RunKeeps(start, events, window);
    assert Stores.RecordOf(s.stores, cid) == RecordFrom(s.log, cid);
    RevokedHasNone(s.log, d, |s.log|, cid);
    assert s.log[..|s.log|] == s.log;
    StoredRecord(s.log, cid, window);
  }

  /** ... so no verify that looks it up in that span is accepted. */
  lemma RevokedIsRejected(start: int, events: seq<Event>, window: int, d: nat, a: nat, cid: string)
    requires var log := LogOf(start, events, window);
             && d < a < |log| && Deletes(log[d].fact, cid)
             && log[a].fact.Accepted? && log[a].fact.req.cid == cid
    ensures var log := LogOf(start, events, window);
            exists r :: d < r < a && Registers(log[r].fact, cid)
  {
    hide Run, History, LastRegistration, StoredCount;
    var log := LogOf(start, events, window);
    RunHistory(start, events, window);
    AcceptedRecord(log, a, window);
    if forall j :: d < j < a ==> !Registers(log[j].fact, cid) {
      RevokedHasNone(log, d, a, cid);
      assert false;
    }
  }

  /** Revocation also ends the supply of sessions: a token for the credential
      can still be minted after the DEL, but only by a verify whose lookup came
      before it; with that token's life, so do the sessions. */
  lemma NoSessionStartsAfterRevocation(start: int, events: seq<Event>, window: int, d: nat, m: nat)
    requires var log := LogOf(start, events, window);
             && d < m < |log| && log[m].fact.Minted? && Deletes(log[d].fact, log[m].fact.claims.cid)
             && forall j :: d < j < m ==> !Registers(log[j].fact, log[m].fact.claims.cid)
    ensures var log := LogOf(start, events, window);
            AcceptedAt(log, log[m].fact.accept) && log[m].fact.accept < d
  {
    hide Run, History, Read, RecordFrom, Open, Acceptable;
    var log := LogOf(start, events, window);
    RunHistory(start, events, window);
    LogHistory(log, m, window);
    var a := log[m].fact.accept;
    assert log[..m][a] == log[a];
    if d < a {
      RevokedIsRejected(start, events, window, d, a, log[m].fact.claims.cid);
    }
  }

  // Counters

  /** The order a strict policy keeps between two counters. */
  predicate Advances(before: nat, after: nat) {
    after > before || (after == 0 && before == 0)
  }

  /** With any overlap: an accepted count is ahead of the value its own lookup
      read, which is the value last written. */
  lemma AcceptedAdvances(start: int, events: seq<Event>, window: int, a: nat)
    requires var log := LogOf(start, events, window);
             a < |log| && log[a].fact.Accepted? && log[a].fact.loc.clone.Strict?
    ensures var log := LogOf(start, events, window);
            Advances(StoredCount(log[..a], log[a].fact.req.cid), log[a].fact.req.count)
  {
    hide Run, History, Read, LastRegistration, StoredCount;
    var log := LogOf(start, events, window);
    RunHistory(start, events, window);
    LogHistory(log, a, window);
    AcceptedRecord(log, a, window);
  }

  ghost predicate Concerns(fact: Fact, cid: string) {
    || (fact.Accepted? && fact.req.cid == cid)
    || (fact.Saved? && fact.cid == cid)
    || Registers(fact, cid)
    || Deletes(fact, cid)
  }

  ghost function Previous(log: seq<Entry>, cid: string): (p: Option<nat>)
    ensures p.Some? ==> p.value < |log| && Concerns(log[p.value].fact, cid)
  {
    if log == [] then None
    else if Concerns(log[|log| - 1].fact, cid) then Some(|log| - 1)
    else Previous(log[..|log| - 1], cid)
  }

  /** From entry r on, verifies of the credential do not overlap and their
      counter updates take effect: acceptance and update alternate. */
  ghost predicate Serialized(log: seq<Entry>, cid: string, r: nat) {
    forall b :: r < b < |log| && Concerns(log[b].fact, cid) ==> InTurn(log, cid, b)
  }

  ghost predicate InTurn(log: seq<Entry>, cid: string, b: nat)
    requires b < |log|
  {
    var p := Previous(log[..b], cid);
    && (log[b].fact.Saved? ==> p == Some(log[b].fact.accept))
    && (p.Some? && log[p.value].fact.Accepted? ==> log[b].fact.Saved?)
  }

  /** A registered credential used under strict policies only, and neither
      deleted nor registered again. */
  ghost predicate Undisturbed(log: seq<Entry>, cid: string, r: nat) {
    && r < |log| && Registers(log[r].fact, cid)
    && forall j :: r < j < |log| ==>
         && !Registers(log[j].fact, cid) && !Deletes(log[j].fact, cid)
         && (log[j].fact.Accepted? && log[j].fact.req.cid == cid ==> log[j].fact.loc.clone.Strict?)
  }

  /** The counter an entry about a credential shows. */
  ghost function Shown(fact: Fact): nat {
    match fact
    case Registered(c) => c.signCount
    case Accepted(_, _, _, req, _) => req.count
    case Saved(_, _, count, _) => count
    case _ => 0
  }

  ghost predicate Quiet(log: seq<Entry>, cid: string, from: int, to: int)
    requires 0 <= from && to <= |log|
  {
    forall x :: from <= x < to ==> !(log[x].fact.Accepted? && log[x].fact.req.cid == cid)
  }

  /** Under the two conditions the last entry about the credential is not
      before r, and unless it is an acceptance it shows the stored counter. */
  lemma {:induction false} Settled(log: seq<Entry>, cid: string, r: nat, n: nat, window: int)
    requires History(log, window) && Undisturbed(log, cid, r) && Serialized(log, cid, r) && r < n <= |log|
    ensures var p := Previous(log[..n], cid);
            && p.Some? && p.value >= r
            && (!log[p.value].fact.Accepted? ==> StoredCount(log[..n], cid) == Shown(log[p.value].fact))
  {
    hide History, Read, Open, HitTimes, RateLimit.Run, RecordFrom, Acceptable;
    var b := n - 1;
    assert log[..n][..b] == log[..b];
    if b > r {
      Settled(log, cid, r, b, window);
    }
  }

  /** From any entry j about the credential on, the counter shown last is that
      of j while nothing is accepted, and ahead of it afterwards. */
  lemma {:induction false} Climbs(log: seq<Entry>, cid: string, r: nat, j: nat, n: nat, window: int)
    requires History(log, window) && Undisturbed(log, cid, r) && Serialized(log, cid, r)
    requires r <= j < n <= |log| && Concerns(log[j].fact, cid)
    ensures var p := Previous(log[..n], cid);
            && p.Some? && p.value >= r
            && var last := Shown(log[p.value].fact);
               if Quiet(log, cid, j + 1, n) then Shown(log[j].fact) == last
               else Advances(Shown(log[j].fact), last)
  {
    hide History, Undisturbed, Serialized, InTurn, Quiet, StoredCount;
    var b := n - 1;
    assert log[..n][..b] == log[..b];
    Settled(log, cid, r, n, window);
    QuietSnoc(log, cid, j + 1, b);
    if b > j {
      Climbs(log, cid, r, j, b, window);
      if Concerns(log[b].fact, cid) {
        TurnOf(log, cid, r, b);
        Settled(log, cid, r, b, window);
        ClimbStep(log, cid, r, b, window);
      }
    }
  }

  lemma QuietSnoc(log: seq<Entry>, cid: string, from: nat, b: nat)
    requires b < |log| && from <= b + 1
    ensures Quiet(log, cid, from, b + 1)
       <==> b < from || (Quiet(log, cid, from, b) && !(log[b].fact.Accepted? && log[b].fact.req.cid == cid))
  {
  }

  lemma TurnOf(log: seq<Entry>, cid: string, r: nat, b: nat)
    requires Undisturbed(log, cid, r) && Serialized(log, cid, r) && r < b < |log| && Concerns(log[b].fact, cid)
    ensures InTurn(log, cid, b) && (log[b].fact.Saved? || (log[b].fact.Accepted? && log[b].fact.req.cid == cid))
  {
  }

  /** One entry in turn: an update repeats the counter before it, an
      acceptance goes ahead of it. */
  lemma ClimbStep(log: seq<Entry>, cid: string, r: nat, b: nat, window: int)
    requires History(log, window) && Undisturbed(log, cid, r)
    requires r < b < |log| && Concerns(log[b].fact, cid) && InTurn(log, cid, b)
    requires var p := Previous(log[..b], cid);
             && p.Some? && p.value >= r
             && (!log[p.value].fact.Accepted? ==> StoredCount(log[..b], cid) == Shown(log[p.value].fact))
    ensures var before := Shown(log[Previous(log[..b], cid).value].fact);
            if log[b].fact.Saved? then Shown(log[b].fact) == before else Advances(before, Shown(log[b].fact))
  {
    hide History, Read, Open, HitTimes, RateLimit.Run, RecordFrom, LastRegistration, StoredCount, Previous;
    LogHistory(log, b, window);
    if log[b].fact.Accepted? {
      AcceptedRecord(log, b, window);
    }
  }

  /** The exact condition. At an accepted strict verify, every count the check
      would have accepted goes ahead of an earlier accepted one if and only if
      the counter stored at the lookup has not fallen behind that one, however
      verifies overlap and whichever updates took effect. */
  lemma CheckKeepsOrder(start: int, events: seq<Event>, window: int, i: nat, a: nat)
    requires var log := LogOf(start, events, window);
             && i < a < |log| && log[i].fact.Accepted? && log[a].fact.Accepted?
             && log[i].fact.req.cid == log[a].fact.req.cid && log[a].fact.loc.clone.Strict?
    ensures var log := LogOf(start, events, window);
            var earlier := log[i].fact.req.count;
            (forall count: uint32 :: Passes(log[a].fact, count) ==> Advances(earlier, count))
            <==> StoredCount(log[..a], log[a].fact.req.cid) >= earlier
    ensures var log := LogOf(start, events, window);
            StoredCount(log[..a], log[a].fact.req.cid) >= log[i].fact.req.count ==>
              Advances(log[i].fact.req.count, log[a].fact.req.count)
  {
    hide Run, History, Read, LastRegistration, StoredCount, RecordFrom, Acceptable;
    var log := LogOf(start, events, window);
    RunHistory(start, events, window);
    AcceptedRecord(log, a, window);
    AcceptedAdvances(start, events, window, a);
    var f, earlier := log[a].fact, log[i].fact.req.count;
    var stored := f.record.signCount;
    if stored < earlier {
      var next: uint32 := stored + 1;
      assert Passes(f, next) && !Advances(earlier, next);
    }
  }

  /** The counter check at an accepted verify, for any reported count. */
  ghost predicate Passes(fact: Fact, count: uint32)
    requires fact.Accepted?
  {
    Assertion.CheckCounter(fact.loc.clone, count, fact.record.signCount)
  }

  /** Serialized verifies keep what is stored from falling behind. */
  lemma SerializedKeepsStored(log: seq<Entry>, cid: string, r: nat, i: nat, a: nat, window: int)
    requires History(log, window) && Undisturbed(log, cid, r) && Serialized(log, cid, r)
    requires r <= i < a < |log| && Concerns(log[i].fact, cid) && log[a].fact.Accepted? && log[a].fact.req.cid == cid
    ensures StoredCount(log[..a], cid) >= Shown(log[i].fact)
  {
    hide History, Undisturbed, Serialized, StoredCount, Quiet, Previous;
    Climbs(log, cid, r, i, a, window);
    Settled(log, cid, r, a, window);
    TurnOf(log, cid, r, a);
  }

  /** Serialized verifies under a strict policy: accepted counts are a run of
      zeros followed by a strictly increasing sequence, all ahead of the
      registered value. */
  lemma CountersClimb(start: int, events: seq<Event>, window: int, cid: string, r: nat, i: nat, j: nat)
    requires var log := LogOf(start, events, window);
             && Undisturbed(log, cid, r) && Serialized(log, cid, r) && r < i < j < |log|
             && log[i].fact.Accepted? && log[i].fact.req.cid == cid
             && log[j].fact.Accepted? && log[j].fact.req.cid == cid
    ensures var log := LogOf(start, events, window);
            && Advances(log[r].fact.record.signCount, log[i].fact.req.count)
            && Advances(log[i].fact.req.count, log[j].fact.req.count)
  {
    hide Run, History, Undisturbed, Serialized, StoredCount;
    var log := LogOf(start, events, window);
    RunHistory(start, events, window);
    OpenUndisturbed(log, cid, r);
    SerializedKeepsStored(log, cid, r, r, i, window);
    AcceptedAdvances(start, events, window, i);
    SerializedKeepsStored(log, cid, r, i, j, window);
    CheckKeepsOrder(start, events, window, i, j);
  }

  lemma OpenUndisturbed(log: seq<Entry>, cid: string, r: nat)
    requires Undisturbed(log, cid, r)
    ensures r < |log| && Registers(log[r].fact, cid)
    ensures forall j :: r < j < |log| && log[j].fact.Accepted? && log[j].fact.req.cid == cid
              ==> log[j].fact.loc.clone.Strict?
  {
  }

  /** Between verifies, what Redis stores is the count accepted last, or the
      registered one while nothing has been accepted. */
  lemma StoredIsLastAccepted(start: int, events: seq<Event>, window: int, cid: string, r: nat, a: nat)
    requires var log := LogOf(start, events, window);
             && Undisturbed(log, cid, r) && Serialized(log, cid, r) && r <= a < |log|
             && (a == r || (log[a].fact.Accepted? && log[a].fact.req.cid == cid))
             && Quiet(log, cid, a + 1, |log|)
             && Previous(log, cid).Some? && !log[Previous(log, cid).value].fact.Accepted?
    ensures var s := Run(start, events, window);
            Field(Stores.RecordOf(s.stores, cid), SIGN_COUNT) == Print(Shown(s.log[a].fact))
  {
    hide Run, History, Undisturbed, Serialized, RecordFrom, Previous, LastRegistration, StoredCount, Remnant;
    hide USER_ID, PUBLIC_KEY, ALG, SIGN_COUNT, Print;
    var s := Run(start, events, window);
    var log := s.log;
    RunKeeps(start, events, window);
    assert Registers(log[r].fact, cid) by { OpenUndisturbed(log, cid, r); }
    assert log[..|log|] == log;
    Climbs(log, cid, r, a, |log|, window);
    Settled(log, cid, r, |log|, window);
    assert Stores.RecordOf(s.stores, cid) == RecordFrom(log, cid);
    StoredRecord(log, cid, window);
    StillRegistered(log, cid, r, |log|);
  }

  lemma {:induction false} StillRegistered(log: seq<Entry>, cid: string, r: nat, n: nat)
    requires Undisturbed(log, cid, r) && r < n <= |log|
    ensures LastRegistration(log[..n], cid) == Some(r)
  {
    assert log[..n][..n - 1] == log[..n - 1];
    if n > r + 1 {
      StillRegistered(log, cid, r, n - 1);
    }
  }

  // Quotas

  /** How many requests of a client the quota admits in [from, to). */
  ghost function AdmittedHits(log: seq<Entry>, ip: string, max: nat, from: int, to: int): nat {
    if log == [] then 0
    else
      var e := log[|log| - 1];
      AdmittedHits(log[..|log| - 1], ip, max, from, to)
      + if e.fact.Counted? && e.fact.ip == ip && e.fact.count <= max && from <= e.at < to then 1 else 0
  }

  lemma {:induction false} HitsBelow(log: seq<Entry>, ip: string, now: int)
    requires forall i :: 0 <= i < |log| ==> log[i].at <= now
    ensures forall i :: 0 <= i < |HitTimes(log, ip)| ==> HitTimes(log, ip)[i] <= now
  {
    if log != [] {
      HitsBelow(log[..|log| - 1], ip, now);
    }
  }

  lemma {:induction false} HitsSorted(log: seq<Entry>, ip: string, window: int)
    requires History(log, window)
    ensures RateLimit.Sorted(HitTimes(log, ip))
  {
    hide RateLimit.Run, RecordFrom, Open, Read;
    if log != [] {
      var n := |log| - 1;
      HistoryPrefix(log, n, window);
      HitsSorted(log[..n], ip, window);
      LogHistory(log, n, window);
      HitsBelow(log[..n], ip, log[n].at);
    }
  }

  /** The hits of one client in the log are a run of its counter. */
  lemma {:induction false} HitsAreARun(log: seq<Entry>, ip: string, max: nat, window: int, from: int, to: int)
    requires History(log, window)
    ensures AdmittedHits(log, ip, max, from, to)
         == RateLimit.AdmittedIn(RateLimit.Absent, HitTimes(log, ip), max, window, from, to)
  {
    hide RateLimit.Run, RecordFrom, Open, Read, History;
    if log != [] {
      var n := |log| - 1;
      HistoryPrefix(log, n, window);
      HitsAreARun(log[..n], ip, max, window, from, to);
      LogHistory(log, n, window);
      var past := HitTimes(log[..n], ip);
      if log[n].fact.Counted? && log[n].fact.ip == ip {
        assert HitTimes(log, ip) == past + [log[n].at];
        assert (past + [log[n].at])[..|past|] == past;
      } else {
        assert HitTimes(log, ip) == past;
      }
    }
  }

  /** In every run, whatever the other clients and nodes do, at most 2 * max - 1
      of a client's counted requests are within the quota in any interval as
      long as the window. */
  lemma QuotaHolds(start: int, events: seq<Event>, window: int, ip: string, max: nat, from: int)
    requires max >= 1 && window >= 1
    ensures AdmittedHits(LogOf(start, events, window), ip, max, from, from + window) <= 2 * max - 1
  {
    hide Run, History, AdmittedHits, HitTimes, RateLimit.AdmittedIn;
    var log := LogOf(start, events, window);
    RunHistory(start, events, window);
    HitsSorted(log, ip, window);
    HitsAreARun(log, ip, max, window, from, from + window);
    RateLimit.WindowBound(RateLimit.Absent, HitTimes(log, ip), max, window, from);
  }

  /** Whether a client's hit was within its quota: it adds one to what the quota
      admits at that instant. */
  ghost predicate Admits(before: State, after: State, ip: string, max: nat) {
    AdmittedHits(after.log, ip, max, before.now, before.now + 1)
    == AdmittedHits(before.log, ip, max, before.now, before.now + 1) + 1
  }

  lemma AdmittedSnoc(log: seq<Entry>, e: Entry, ip: string, max: nat, from: int, to: int)
    ensures AdmittedHits(log + [e], ip, max, from, to)
         == AdmittedHits(log, ip, max, from, to)
            + if e.fact.Counted? && e.fact.ip == ip && e.fact.count <= max && from <= e.at < to then 1 else 0
  {
    assert (log + [e])[..|log|] == log;
  }

  /** An answered run of the script, as its caller sees it: the count reported
      is at most the maximum exactly if the hit is admitted, and then it is in
      every interval around the instant. */
  lemma HitAdmits(s: State, ip: string, max: nat, window: int)
    ensures var after := Step(s, Hit(ip, Done), window);
            var count := Stores.CounterOf(after.stores, ip).count;
            && (Admits(s, after, ip, max) <==> count <= max)
            && forall from, to :: from <= s.now < to ==>
                 AdmittedHits(after.log, ip, max, from, to)
                 == AdmittedHits(s.log, ip, max, from, to) + if Admits(s, after, ip, max) then 1 else 0
  {
    hide RateLimit.Hit, AdmittedHits;
    var after := Step(s, Hit(ip, Done), window);
    var e := after.log[|s.log|];
    forall from, to
      ensures AdmittedHits(after.log, ip, max, from, to)
           == AdmittedHits(s.log, ip, max, from, to)
              + if e.fact.Counted? && e.fact.ip == ip && e.fact.count <= max && from <= e.at < to then 1 else 0
    {
      AdmittedSnoc(s.log, e, ip, max, from, to);
    }
  }

  /** The calls of a run that the limiter answered and let in, inside [from, to). */
  ghost function LetIns(start: int, events: seq<Event>, window: int, ip: string, max: nat, from: int, to: int): nat {
    if events == [] then 0
    else
      var n := |events| - 1;
      var before := Run(start, events[..n], window);
      LetIns(start, events[..n], window, ip, max, from, to)
      + if events[n] == Hit(ip, Done) && from <= before.now < to && Admits(before, Run(start, events, window), ip, max)
        then 1 else 0
  }

  lemma {:induction false} LetInsAreAdmitted(start: int, events: seq<Event>, window: int, ip: string, max: nat,
                                             from: int, to: int)
    ensures LetIns(start, events, window, ip, max, from, to)
         <= AdmittedHits(LogOf(start, events, window), ip, max, from, to)
  {
    hide Step, AdmittedHits, Admits, Initial;
    if events == [] {
      NothingAdmitted(start, ip, max, from, to);
    } else {
      var n := |events| - 1;
      var before := Run(start, events[..n], window);
      LetInsAreAdmitted(start, events[..n], window, ip, max, from, to);
      StepExtends(before, events[n], window);
      var after := Step(before, events[n], window);
      if after.log != before.log {
        AdmittedSnoc(before.log, after.log[|before.log|], ip, max, from, to);
      }
      HitAdmits(before, ip, max, window);
    }
  }

  lemma NothingAdmitted(start: int, ip: string, max: nat, from: int, to: int)
    ensures AdmittedHits(Initial(start).log, ip, max, from, to) == 0
  {
  }

  /** A step appends one entry to the log or none. */
  lemma StepExtends(s: State, e: Event, window: int)
    ensures var log := Step(s, e, window).log;
            log == s.log || (|log| == |s.log| + 1 && log == s.log + [log[|s.log|]])
  {
    hide Read, Merge, CounterPairs, PutPairs, WellFormed, Acceptable, RateLimit.Hit;
  }

  /** In every run, whatever the other clients and nodes do, the limiter lets a
      client in at most 2 * max - 1 times in any interval as long as the window,
      of the calls that Redis answered. */
  lemma LimiterHolds(start: int, events: seq<Event>, window: int, ip: string, max: nat, from: int)
    requires max >= 1 && window >= 1
    ensures LetIns(start, events, window, ip, max, from, from + window) <= 2 * max - 1
  {
    hide LetIns, AdmittedHits, Run;
    LetInsAreAdmitted(start, events, window, ip, max, from, from + window);
    QuotaHolds(start, events, window, ip, max, from);
  }
}
