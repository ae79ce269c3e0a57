/** The handlers and the credential layer as they run against Redis: keys are
    built octet by octet, commands go out one at a time, and each one is a step
    of the protocol on the stores that the flat database represents. Before
    every command the other processes act. */
module Handlers {
  import opened Buffer
  import opened Credential
  import opened KeySpace
  import opened Log
  import opened Prelude
  import opened Protocol
  import RateLimit
  import opened Redis
  import opened Schedule
  import Stores
  import opened Traces

  // Key builders

  method Concatenated(prefix: string, mid: string, name: string, suffix: string) returns (key: string)
    ensures key == prefix + mid + name + suffix
  {
    hide Buffer.Valid;
    var out := new Buffer<char>(|prefix| + |mid| + |name| + |suffix|);
    out.Append(prefix);
    out.Append(mid);
    out.Append(name);
    out.Append(suffix);
    key := out.Text();
  }

  /** src/ngx_auth_webauthn_challenge.c:17. */
  method ChallengeKey(prefix: string, raw: string) returns (key: string)
    ensures key == ChalKey(prefix, raw)
  {
    key := Concatenated(prefix, "chal:", raw, "");
  }

  /** src/ngx_auth_webauthn_credential.c:32. */
  method RecordKey(prefix: string, cid: string) returns (key: string)
    ensures key == CredKey(prefix, cid)
  {
    key := Concatenated(prefix, "cred:", cid, "");
  }

  /** src/ngx_auth_webauthn_credential.c:56. */
  method UserKey(prefix: string, uid: string) returns (key: string)
    ensures key == IndexKey(prefix, uid)
  {
    key := Concatenated(prefix, "user:", uid, ":creds");
  }

  /** src/ngx_http_auth_webauthn_module.c:1120. */
  method QuotaKey(prefix: string, ip: string) returns (key: string)
    ensures key == RateKey(prefix, ip)
  {
    key := Concatenated(prefix, "ratelimit:challenge:", ip, "");
  }

  /** Redis holds what the protocol state says it holds. */
  ghost predicate Follows(prefix: string, redis: Redis, s: State)
    reads redis`db, redis`now
  {
    Represents(prefix, redis.db, s.stores) && redis.now == s.now
  }

  ghost predicate Others(events: seq<Event>, self: Option<nat>) {
    self.Some? ==> Foreign(events, self.value)
  }

  /** What happens while a handler is not looking. Callers know the contract
      only: any events of other processes and any passing of time. The body is
      one environment that keeps it. */
  method OthersAct(redis: Redis, prefix: string, ghost s: State, ghost self: Option<nat>, ghost w: int)
    returns (ghost events: seq<Event>)
    requires Follows(prefix, redis, s)
    modifies redis`db, redis`now
    ensures Follows(prefix, redis, Play(s, events, w)) && Others(events, self)
  {
    hide Represents, ChalKey, CredKey, Play, Read;
    events := [];
    AfterNothing(s, w);
    var steps: int := *;
    for i := 0 to if steps < 0 then 0 else steps
      invariant Follows(prefix, redis, Play(s, events, w)) && Others(events, self)
    {
      ghost var now := Play(s, events, w);
      ghost var e;
      if * {
        var seconds: nat := *;
        ExpiryRefines(prefix, redis.db, now.stores, redis.now + seconds);
        redis.now := redis.now + seconds;
        redis.db := Purged(redis.db, redis.now);
        e := [Tick(seconds)];
      } else if * {
        var nonce: string, ttl: nat := *, *;
        if 0 < ttl <= UINT32_MAX {
          IssueRefines(prefix, redis.db, now.stores, nonce, ttl, redis.now);
          redis.db := SetEx(redis.db, ChalKey(prefix, nonce), "1", ttl, redis.now);
        }
        e := [Issue(nonce, ttl, Done)];
      } else {
        var cid: string := *;
        ghost var pid := FreshPid(now.procs.Keys + if self.Some? then {self.value} else {});
        var key := CredKey(prefix, cid);
        ReadRefines(prefix, redis.db, now.stores, cid, redis.now);
        DropRefines(prefix, redis.db, now.stores, cid);
        if Read(HashAt(redis.db, key, redis.now), cid).Ok? {
          redis.db := Del(redis.db, key);
        }
        e := [Revoke(pid, cid, true), Delete(pid, Lost)];
        RevocationPlayed(now, pid, cid, w);
      }
      PlayAppend(s, events, e, w);
      PlayedOnce(now, e, w);
      events := events + e;
    }
  }

  lemma PlayedOnce(s: State, e: seq<Event>, w: int)
    ensures |e| == 1 ==> Play(s, e, w) == Step(s, e[0], w)
  {
    hide Step;
    if |e| == 1 {
      AfterNothing(s, w);
      PlaySnoc(s, [], e[0], w);
      assert [] + [e[0]] == e;
    }
  }

  lemma RevocationPlayed(s: State, pid: nat, cid: string, w: int)
    requires pid !in s.procs
    ensures var s' := Play(s, [Revoke(pid, cid, true), Delete(pid, Lost)], w);
            && s'.now == s.now
            && s'.stores == if Read(Stores.RecordOf(s.stores, cid), cid).Ok? then Stores.DropRecord(s.stores, cid)
                            else s.stores
  {
    hide Read;
    AfterNothing(s, w);
    PlaySnoc(s, [], Revoke(pid, cid, true), w);
    PlaySnoc(s, [Revoke(pid, cid, true)], Delete(pid, Lost), w);
    assert [] + [Revoke(pid, cid, true)] == [Revoke(pid, cid, true)];
    assert [Revoke(pid, cid, true)] + [Delete(pid, Lost)] == [Revoke(pid, cid, true), Delete(pid, Lost)];
  }

  // Challenges

  /** src/ngx_auth_webauthn_challenge.c:40; `random` is what RAND_bytes drew. */
  method ChallengeIssue(redis: Redis, prefix: string, ttl: int, random: string, ghost s: State, ghost w: int)
    returns (r: Rc<string>, ghost ts: seq<Turn>)
    requires Follows(prefix, redis, s)
    modifies redis
    ensures Follows(prefix, redis, After(s, ts, w))
    ensures ttl <= 0 || ttl > UINT32_MAX ==> r == Error && ts == [] && redis.sent == old(redis.sent)
    ensures 0 < ttl <= UINT32_MAX ==>
              var fate := redis.fate(old(redis.sent));
              && |ts| == 1 && ts[0].own == Issue(random, ttl, fate) && redis.sent == old(redis.sent) + 1
              && r == if fate.Done? then Ok(random) else Error
  {
    hide Represents, ChalKey, Play;
    ts := [];
    AfterNothing(s, w);
    if ttl <= 0 || ttl > UINT32_MAX {
      return Error, [];
    }
    ghost var others := OthersAct(redis, prefix, s, None, w);
    ghost var s1 := Play(s, others, w);
    var key := ChallengeKey(prefix, random);
    IssueRefines(prefix, redis.db, s1.stores, random, ttl, redis.now);
    ghost var fate := redis.fate(redis.sent);
    var ok := redis.SetExpiring(key, "1", ttl);
    r := if ok then Ok(random) else Error;
    ts := OneTurn(s, others, Issue(random, ttl, fate), w);
  }

  lemma OneTurn(s: State, others: seq<Event>, own: Event, w: int) returns (ts: seq<Turn>)
    ensures ts == [Turn(others, own)] && After(s, ts, w) == Step(Play(s, others, w), own, w)
  {
    hide Step, Play;
    ts := [] + [Turn(others, own)];
    AfterNothing(s, w);
    AfterSnoc(s, [], Turn(others, own), w);
  }

  /** src/ngx_auth_webauthn_challenge.c:83. */
  method ChallengeConsume(redis: Redis, prefix: string, raw: string, ghost s: State,
                          ghost pid: nat, ghost loc: Location, ghost req: Request, ghost w: int)
    returns (r: Rc<()>, ghost ts: seq<Turn>)
    requires Follows(prefix, redis, s) && pid !in s.procs && req.nonce == raw
    modifies redis
    ensures Follows(prefix, redis, After(s, ts, w)) && OwnTurns(ts, pid)
    ensures |raw| != CHALLENGE_LEN ==> r == Declined && ts == [] && redis.sent == old(redis.sent)
    ensures |raw| == CHALLENGE_LEN ==>
              var fate := redis.fate(old(redis.sent));
              && |ts| == 1 && ts[0].own == Verify(pid, loc, req, fate) && redis.sent == old(redis.sent) + 1
              && var met := Moment(s, ts[0], w);
                 r == if !fate.Done? then Error
                      else if Stores.ChallengeLive(met.stores, raw, met.now) then Ok(()) else Declined
  {
    hide Represents, ChalKey, Play;
    ts := [];
    AfterNothing(s, w);
    if |raw| != CHALLENGE_LEN {
      return Declined, [];
    }
    ghost var others := OthersAct(redis, prefix, s, Some(pid), w);
    OthersLeave(s, others, pid, w);
    var key := ChallengeKey(prefix, raw);
    ConsumeRefines(prefix, redis.db, Play(s, others, w).stores, raw, redis.now);
    ghost var fate := redis.fate(redis.sent);
    var ok, found := redis.GetAndDelete(key);
    ts := OneTurn(s, others, Verify(pid, loc, req, fate), w);
    if !ok {
      return Error, ts;
    }
    r := if found then Ok(()) else Declined;
  }

  // Credentials

  /** src/ngx_auth_webauthn_credential.c:145. */
  method CredentialGet(redis: Redis, prefix: string, cid: string, ghost s: State, ghost self: Option<nat>, ghost w: int)
    returns (r: Rc<Credential>, ghost others: seq<Event>)
    requires Follows(prefix, redis, s)
    modifies redis
    ensures Follows(prefix, redis, Play(s, others, w)) && Others(others, self)
    ensures redis.sent == old(redis.sent) + 1
    ensures r == if redis.fate(old(redis.sent)).Done? then Read(Stores.RecordOf(Play(s, others, w).stores, cid), cid)
                 else Error
  {
    hide Represents, CredKey, Read, Play;
    others := OthersAct(redis, prefix, s, self, w);
    var key := RecordKey(prefix, cid);
    ReadRefines(prefix, redis.db, Play(s, others, w).stores, cid, redis.now);
    var ok, pairs := redis.AllFields(key);
    if !ok {
      return Error, others;
    }
    r := Get(pairs, cid);
  }

  /** src/ngx_auth_webauthn_credential.c:267. */
  method CredentialPut(redis: Redis, prefix: string, c: Credential, ghost s: State, ghost pid: nat, ghost w: int)
    returns (r: Rc<()>, ghost ts: seq<Turn>)
    requires Follows(prefix, redis, s) && pid !in s.procs
    requires c.credentialId != "" && c.userId != "" ==> WellFormed(c)
    modifies redis
    ensures Follows(prefix, redis, After(s, ts, w)) && OwnTurns(ts, pid)
    ensures c.credentialId == "" || c.userId == "" ==> r == Error && ts == [] && redis.sent == old(redis.sent)
    ensures c.credentialId != "" && c.userId != "" ==>
              var first, second := redis.fate(old(redis.sent)), redis.fate(old(redis.sent) + 1);
              && |ts| == (if first.Done? then 2 else 1) && redis.sent == old(redis.sent) + |ts|
              && ts[0].own == Put(pid, c, first)
              && (first.Done? ==> ts[1].own == PutIndex(pid, second))
              && r == if first.Done? && second.Done? then Ok(()) else Error
  {
    hide Represents, CredKey, IndexKey, PutPairs, Play, Merge;
    ts := [];
    AfterNothing(s, w);
    if |c.credentialId| == 0 || |c.userId| == 0 {
      return Error, [];
    }
    ghost var others := OthersAct(redis, prefix, s, Some(pid), w);
    OthersLeave(s, others, pid, w);
    ghost var s1 := Play(s, others, w);
    var key := RecordKey(prefix, c.credentialId);
    var pairs := BuildPairs(c);
    PutsSomething(c);
    ReadRefines(prefix, redis.db, s1.stores, c.credentialId, redis.now);
    WriteRefines(prefix, redis.db, s1.stores, c.credentialId, pairs, redis.now);
    ghost var fate := redis.fate(redis.sent);
    var ok := redis.SetFields(key, pairs);
    ts := OneTurn(s, others, Put(pid, c, fate), w);
    PutEffect(s1, pid, c, fate, w);
    if !ok {
      return Error, ts;
    }
    ghost var t;
    ok, t := ListCredential(redis, prefix, c.userId, c.credentialId, After(s, ts, w), pid, w);
    AfterSnoc(s, ts, t, w);
    ts := ts + [t];
    r := if ok then Ok(()) else Error;
  }

  lemma PutsSomething(c: Credential)
    ensures PutPairs(c) != []
  {
  }

  lemma PutEffect(s: State, pid: nat, c: Credential, outcome: Outcome, w: int)
    requires pid !in s.procs && WellFormed(c)
    ensures var s' := Step(s, Put(pid, c, outcome), w);
            && s'.now == s.now
            && s'.stores == (if outcome.Failed? then s.stores
                             else Stores.WriteRecord(s.stores, c.credentialId, PutPairs(c)))
            && (outcome.Done? ==> pid in s'.procs && s'.procs[pid] == AwaitsIndex(c.credentialId, c.userId))
  {
    hide Merge, PutPairs, WellFormed;
  }

  /** The SADD that ends a registration. */
  method ListCredential(redis: Redis, prefix: string, uid: string, cid: string, ghost s: State, ghost pid: nat,
                        ghost w: int)
    returns (ok: bool, ghost t: Turn)
    requires Follows(prefix, redis, s) && pid in s.procs && s.procs[pid] == AwaitsIndex(cid, uid)
    modifies redis
    ensures Foreign(t.others, pid) && t.own == PutIndex(pid, redis.fate(old(redis.sent)))
    ensures redis.sent == old(redis.sent) + 1 && ok == redis.fate(old(redis.sent)).Done?
    ensures Follows(prefix, redis, Taken(s, t, w))
  {
    hide Represents, IndexKey, Play;
    ghost var others := OthersAct(redis, prefix, s, Some(pid), w);
    OthersLeave(s, others, pid, w);
    ghost var s1 := Play(s, others, w);
    var userKey := UserKey(prefix, uid);
    IndexRefines(prefix, redis.db, s1.stores, uid, Stores.IndexOf(s1.stores, uid) + {cid}, redis.now);
    t := Turn(others, PutIndex(pid, redis.fate(redis.sent)));
    ok := redis.AddMember(userKey, cid);
  }

  /** src/ngx_auth_webauthn_credential.c:378. */
  method UpdateCounter(redis: Redis, prefix: string, cid: string, count: nat, usedAt: int, ghost s: State,
                       ghost self: Option<nat>, ghost w: int)
    returns (ok: bool, ghost others: seq<Event>)
    requires Follows(prefix, redis, s)
    modifies redis
    ensures Others(others, self)
    ensures redis.sent == old(redis.sent) + 1 && ok == redis.fate(old(redis.sent)).Done?
    ensures var met := Play(s, others, w);
            && redis.now == met.now
            && Represents(prefix, redis.db,
                          if redis.fate(old(redis.sent)).Failed? then met.stores
                          else Stores.WriteRecord(met.stores, cid, CounterPairs(count, usedAt)))
  {
    hide Represents, CredKey, Merge, Play;
    others := OthersAct(redis, prefix, s, self, w);
    ghost var s1 := Play(s, others, w);
    var key := RecordKey(prefix, cid);
    var pairs := CounterPairs(count, usedAt);
    ReadRefines(prefix, redis.db, s1.stores, cid, redis.now);
    WriteRefines(prefix, redis.db, s1.stores, cid, pairs, redis.now);
    ok := redis.SetFields(key, pairs);
  }

  /** src/ngx_auth_webauthn_credential.c:419. A record that cannot be read is
      not deleted. */
  method CredentialDelete(redis: Redis, prefix: string, cid: string, ghost s: State, ghost pid: nat, ghost w: int)
    returns (r: Rc<()>, ghost ts: seq<Turn>)
    requires Follows(prefix, redis, s) && pid !in s.procs
    modifies redis
    ensures Follows(prefix, redis, After(s, ts, w)) && OwnTurns(ts, pid)
    ensures |ts| >= 1 && redis.sent == old(redis.sent) + |ts|
    ensures var n := old(redis.sent);
            var first, second, third := redis.fate(n), redis.fate(n + 1), redis.fate(n + 2);
            var found := Read(Stores.RecordOf(Moment(s, ts[0], w).stores, cid), cid);
            && ts[0].own == Revoke(pid, cid, first.Done?)
            && (!first.Done? ==> |ts| == 1 && r == Error)
            && (first.Done? && !found.Ok? ==> |ts| == 1 && r == Declined)
            && (first.Done? && found.Ok? ==>
                  && |ts| == (if second.Done? && found.value.userId != "" then 3 else 2)
                  && ts[1].own == Delete(pid, second)
                  && (|ts| == 3 ==> ts[2].own == Unindex(pid, third))
                  && r == if second.Done? && (|ts| == 3 ==> third.Done?) then Ok(()) else Error)
  {
    hide Represents, CredKey, IndexKey, Play, Read;
    hide TickStep, IssueStep, VerifyStep, LookupStep, SaveStep, MintStep, GateStep, PutStep, PutIndexStep, HitStep;
    var got;
    ghost var others;
    ghost var n := redis.sent;
    got, others := CredentialGet(redis, prefix, cid, s, Some(pid), w);
    OthersLeave(s, others, pid, w);
    ts := OneTurn(s, others, Revoke(pid, cid, redis.fate(n).Done?), w);
    if !got.Ok? {
      r := if got.Declined? then Declined else Error;
      return r, ts;
    }
    var cred := got.value;
    var ok;
    ghost var t;
    ok, t := DropCredential(redis, prefix, cid, cred.userId, After(s, ts, w), pid, w);
    AfterSnoc(s, ts, t, w);
    ts := ts + [t];
    if !ok {
      return Error, ts;
    }
    if |cred.userId| > 0 {
      ok, t := DropFromIndex(redis, prefix, cred.userId, cid, After(s, ts, w), pid, w);
      AfterSnoc(s, ts, t, w);
      ts := ts + [t];
      if !ok {
        return Error, ts;
      }
    }
    r := Ok(());
  }

  /** The DEL of a deletion. */
  method DropCredential(redis: Redis, prefix: string, cid: string, uid: string, ghost s: State, ghost pid: nat,
                        ghost w: int)
    returns (ok: bool, ghost t: Turn)
    requires Follows(prefix, redis, s) && pid in s.procs && s.procs[pid] == AwaitsDelete(cid, uid)
    modifies redis
    ensures Foreign(t.others, pid) && t.own == Delete(pid, redis.fate(old(redis.sent)))
    ensures redis.sent == old(redis.sent) + 1 && ok == redis.fate(old(redis.sent)).Done?
    ensures Follows(prefix, redis, Taken(s, t, w))
    ensures ok && uid != "" ==> pid in Taken(s, t, w).procs && Taken(s, t, w).procs[pid] == AwaitsUnindex(cid, uid)
  {
    hide Represents, CredKey, Play;
    ghost var others := OthersAct(redis, prefix, s, Some(pid), w);
    OthersLeave(s, others, pid, w);
    ghost var s1 := Play(s, others, w);
    var key := RecordKey(prefix, cid);
    DropRefines(prefix, redis.db, s1.stores, cid);
    t := Turn(others, Delete(pid, redis.fate(redis.sent)));
    ok := redis.Delete(key);
  }

  /** The SREM that ends a deletion. */
  method DropFromIndex(redis: Redis, prefix: string, uid: string, cid: string, ghost s: State, ghost pid: nat,
                       ghost w: int)
    returns (ok: bool, ghost t: Turn)
    requires Follows(prefix, redis, s) && pid in s.procs && s.procs[pid] == AwaitsUnindex(cid, uid)
    modifies redis
    ensures Foreign(t.others, pid) && t.own == Unindex(pid, redis.fate(old(redis.sent)))
    ensures redis.sent == old(redis.sent) + 1 && ok == redis.fate(old(redis.sent)).Done?
    ensures Follows(prefix, redis, Taken(s, t, w))
  {
    hide Represents, IndexKey, Play;
    ghost var others := OthersAct(redis, prefix, s, Some(pid), w);
    OthersLeave(s, others, pid, w);
    ghost var s1 := Play(s, others, w);
    var userKey := UserKey(prefix, uid);
    IndexRefines(prefix, redis.db, s1.stores, uid, Stores.IndexOf(s1.stores, uid) - {cid}, redis.now);
    t := Turn(others, Unindex(pid, redis.fate(redis.sent)));
    ok := redis.RemoveMember(userKey, cid);
  }

  // The quota

  /** src/ngx_http_auth_webauthn_module.c:1106. An answered call lets the client
      in if and only if its hit is one the quota admits; every failure does. */
  method QuotaAllows(redis: Redis, prefix: string, ip: string, max: nat, seconds: nat, ghost s: State)
    returns (r: Rc<()>, ghost ts: seq<Turn>)
    requires Follows(prefix, redis, s)
    modifies redis
    ensures Follows(prefix, redis, After(s, ts, seconds))
    ensures max == 0 ==> r == Ok(()) && ts == [] && redis.sent == old(redis.sent)
    ensures max > 0 ==>
              var fate := redis.fate(old(redis.sent));
              && |ts| == 1 && ts[0].own == Hit(ip, fate) && redis.sent == old(redis.sent) + 1
              && r == if fate.Done? && !Admits(Moment(s, ts[0], seconds), After(s, ts, seconds), ip, max)
                      then Declined else Ok(())
  {
    hide Represents, RateKey, Play, RateLimit.Hit, Admits;
    ts := [];
    AfterNothing(s, seconds);
    if max == 0 {
      return Ok(()), [];
    }
    ghost var others := OthersAct(redis, prefix, s, None, seconds);
    ghost var s1 := Play(s, others, seconds);
    var key := QuotaKey(prefix, ip);
    HitRefines(prefix, redis.db, s1.stores, ip, seconds, redis.now);
    ghost var fate := redis.fate(redis.sent);
    HitAdmits(s1, ip, max, seconds);
    var ok, count := redis.Increment(key, seconds);
    ts := OneTurn(s, others, Hit(ip, fate), seconds);
    if !ok {
      return Ok(()), ts;
    }
    r := if count > max then Declined else Ok(());
  }

  /** A call of the limiter from a reachable state is one more call of the run,
      let in exactly if QuotaAllows says so. */
  lemma CallInRun(start: int, events: seq<Event>, t: Turn, w: int, ip: string, max: nat, from: int, to: int)
    requires t.own == Hit(ip, Done)
    ensures var s := Run(start, events, w);
            var whole := events + t.others + [t.own];
            && Taken(s, t, w) == Run(start, whole, w)
            && LetIns(start, whole, w, ip, max, from, to)
            == LetIns(start, events + t.others, w, ip, max, from, to)
               + if from <= Moment(s, t, w).now < to && Admits(Moment(s, t, w), Taken(s, t, w), ip, max) then 1 else 0
  {
    hide Step, Play, Admits, Run, LetIns;
    var others, whole := events + t.others, events + t.others + [t.own];
    RunIsPlayed(start, events, w);
    RunIsPlayed(start, others, w);
    RunIsPlayed(start, whole, w);
    PlayAppend(Initial(start), events, t.others, w);
    PlaySnoc(Initial(start), others, t.own, w);
    assert whole[..|whole| - 1] == others;
    LastCall(start, whole, w, ip, max, from, to);
  }

  lemma LastCall(start: int, events: seq<Event>, w: int, ip: string, max: nat, from: int, to: int)
    requires events != [] && events[|events| - 1] == Hit(ip, Done)
    ensures LetIns(start, events, w, ip, max, from, to)
         == LetIns(start, events[..|events| - 1], w, ip, max, from, to)
            + if && from <= Run(start, events[..|events| - 1], w).now < to
                 && Admits(Run(start, events[..|events| - 1], w), Run(start, events, w), ip, max) then 1 else 0
  {
    hide Run, Admits;
  }
}
