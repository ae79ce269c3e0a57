/** The login protocol: any number of nodes and admin tools over one Redis,
    each handler a sequence of atomic commands that interleave freely. An event
    is one command, one decision of the gate, or the passing of time. */
module Protocol {
  import opened Credential
  import opened Log
  import opened Prelude
  import RateLimit
  import Stores

  datatype Event =
    | Tick(seconds: nat)
    | Issue(nonce: string, ttl: int, outcome: Outcome)
    | Verify(pid: nat, loc: Location, req: Request, outcome: Outcome)
    | Lookup(pid: nat, answered: bool)
    | Save(pid: nat, clock: int, outcome: Outcome)
    | Mint(pid: nat)
    | Gate(rpId: string, token: nat, clock: int)
    | Put(pid: nat, record: Credential, outcome: Outcome)
    | PutIndex(pid: nat, outcome: Outcome)
    | Revoke(pid: nat, cid: string, answered: bool)
    | Delete(pid: nat, outcome: Outcome)
    | Unindex(pid: nat, outcome: Outcome)
    | Hit(ip: string, outcome: Outcome)

  /** Where a handler stands between two of its commands, with its local
      variables. `consume` and `accept` are positions in the log. */
  datatype Phase =
    | AwaitsLookup(loc: Location, req: Request, consume: nat)
    | AwaitsSave(loc: Location, req: Request, record: Credential, accept: nat)
    | AwaitsMint(loc: Location, req: Request, record: Credential, accept: nat, clock: int)
    | AwaitsIndex(cid: string, uid: string)
    | AwaitsDelete(cid: string, uid: string)
    | AwaitsUnindex(cid: string, uid: string)

  /** `log` is the history of what happened. No step depends on it, except that
      a token is the entry that minted it. */
  datatype State = State(now: int, stores: Stores.Stores, procs: map<nat, Phase>, log: seq<Entry>)

  const CHALLENGE_LEN := 32
  const ISSUER := "nginx-webauthn"

  ghost function Note(s: State, fact: Fact): State {
    s.(log := s.log + [Entry(s.now, fact)])
  }

  ghost function Gone(s: State, pid: nat): State {
    s.(procs := s.procs - {pid})
  }

  ghost function Goto(s: State, pid: nat, phase: Phase): State {
    s.(procs := s.procs[pid := phase])
  }

  ghost function With(s: State, stores: Stores.Stores): State {
    s.(stores := stores)
  }

  // The steps

  ghost function TickStep(s: State, seconds: nat): State {
    var now := s.now + seconds;
    Note(State(now, Stores.Expire(s.stores, now), s.procs, s.log), Expired(Stores.Expiring(s.stores, now)))
  }

  /** challenge_issue: SET EX. */
  ghost function IssueStep(s: State, nonce: string, ttl: int, outcome: Outcome): State {
    if ttl <= 0 || ttl > UINT32_MAX || outcome.Failed? then s
    else Note(With(s, Stores.Issue(s.stores, nonce, s.now + ttl)), Issued(nonce, ttl))
  }

  /** challenge_consume: GETDEL. */
  ghost function VerifyStep(s: State, pid: nat, loc: Location, req: Request, outcome: Outcome): State {
    if pid in s.procs || |req.nonce| != CHALLENGE_LEN || outcome.Failed? then s
    else
      var after := With(s, Stores.Consume(s.stores, req.nonce));
      if !Stores.ChallengeLive(s.stores, req.nonce, s.now) then after
      else if outcome.Lost? then Note(after, Wasted(req.nonce))
      else Note(Goto(after, pid, AwaitsLookup(loc, req, |s.log|)), Consumed(pid, req.nonce))
  }

  /** credential_get and assertion_verify: HGETALL and the local check. */
  ghost function LookupStep(s: State, pid: nat, answered: bool): State {
    if pid !in s.procs || !s.procs[pid].AwaitsLookup? then s
    else
      var AwaitsLookup(loc, req, consume) := s.procs[pid];
      var r := Read(Stores.RecordOf(s.stores, req.cid), req.cid);
      if !answered || !r.Ok? || !Acceptable(loc, req, r.value) then Gone(s, pid)
      else Note(Goto(s, pid, AwaitsSave(loc, req, r.value, |s.log|)), Accepted(pid, consume, loc, req, r.value))
  }

  /** credential_update_counter: HSET, without looking at what is stored. The
      handler goes on whether it succeeds or not. */
  ghost function SaveStep(s: State, pid: nat, clock: int, outcome: Outcome): State {
    if pid !in s.procs || !s.procs[pid].AwaitsSave? then s
    else
      var AwaitsSave(loc, req, record, a) := s.procs[pid];
      var next := Goto(s, pid, AwaitsMint(loc, req, record, a, clock));
      if outcome.Failed? then next
      else Note(With(next, Stores.WriteRecord(s.stores, req.cid, CounterPairs(req.count, clock))),
                Saved(a, req.cid, req.count, clock))
  }

  ghost function MintStep(s: State, pid: nat): State {
    if pid !in s.procs || !s.procs[pid].AwaitsMint? then s
    else
      var AwaitsMint(loc, req, record, a, clock) := s.procs[pid];
      Note(Gone(s, pid),
           Minted(a, Claims(ISSUER, loc.rpId, record.userId, req.cid, clock, clock + loc.jwtTtl)))
  }

  /** The access handler. A signature verifies only on a minted token. */
  ghost function GateStep(s: State, rpId: string, token: nat, clock: int): State {
    if token >= |s.log| || !s.log[token].fact.Minted? then s
    else
      var claims := s.log[token].fact.claims;
      if claims.aud != rpId || claims.iss != ISSUER || claims.exp <= clock then s
      else Note(s, Admitted(token, rpId, claims.sub, clock))
  }

  /** credential_put: HSET, then SADD. */
  ghost function PutStep(s: State, pid: nat, c: Credential, outcome: Outcome): State {
    if pid in s.procs || !WellFormed(c) || outcome.Failed? then s
    else
      var after := Note(With(s, Stores.WriteRecord(s.stores, c.credentialId, PutPairs(c))), Registered(c));
      if outcome.Lost? then after else Goto(after, pid, AwaitsIndex(c.credentialId, c.userId))
  }

  ghost function PutIndexStep(s: State, pid: nat, outcome: Outcome): State {
    if pid !in s.procs || !s.procs[pid].AwaitsIndex? then s
    else
      var AwaitsIndex(cid, uid) := s.procs[pid];
      Gone(if outcome.Failed? then s else With(s, Stores.AddToIndex(s.stores, uid, cid)), pid)
  }

  /** credential_delete: HGETALL, DEL, SREM. */
  ghost function RevokeStep(s: State, pid: nat, cid: string, answered: bool): State {
    var r := Read(Stores.RecordOf(s.stores, cid), cid);
    if pid in s.procs || !answered || !r.Ok? then s
    else Goto(s, pid, AwaitsDelete(cid, r.value.userId))
  }

  ghost function DeleteStep(s: State, pid: nat, outcome: Outcome): State {
    if pid !in s.procs || !s.procs[pid].AwaitsDelete? then s
    else if outcome.Failed? then Gone(s, pid)
    else
      var AwaitsDelete(cid, uid) := s.procs[pid];
      var after := Note(With(s, Stores.DropRecord(s.stores, cid)), Deleted(cid));
      if outcome.Lost? || uid == "" then Gone(after, pid) else Goto(after, pid, AwaitsUnindex(cid, uid))
  }

  ghost function UnindexStep(s: State, pid: nat, outcome: Outcome): State {
    if pid !in s.procs || !s.procs[pid].AwaitsUnindex? then s
    else
      var AwaitsUnindex(cid, uid) := s.procs[pid];
      Gone(if outcome.Failed? then s else With(s, Stores.RemoveFromIndex(s.stores, uid, cid)), pid)
  }

  /** The rate limiter's script. */
  ghost function HitStep(s: State, ip: string, window: int, outcome: Outcome): State {
    if outcome.Failed? then s
    else
      var after := With(s, Stores.CountHit(s.stores, ip, window, s.now));
      Note(after, Counted(ip, Stores.CounterOf(after.stores, ip).count))
  }

  ghost function Step(s: State, e: Event, window: int): State {
    match e
    case Tick(seconds) => TickStep(s, seconds)
    case Issue(nonce, ttl, outcome) => IssueStep(s, nonce, ttl, outcome)
    case Verify(pid, loc, req, outcome) => VerifyStep(s, pid, loc, req, outcome)
    case Lookup(pid, answered) => LookupStep(s, pid, answered)
    case Save(pid, clock, outcome) => SaveStep(s, pid, clock, outcome)
    case Mint(pid) => MintStep(s, pid)
    case Gate(rpId, token, clock) => GateStep(s, rpId, token, clock)
    case Put(pid, c, outcome) => PutStep(s, pid, c, outcome)
    case PutIndex(pid, outcome) => PutIndexStep(s, pid, outcome)
    case Revoke(pid, cid, answered) => RevokeStep(s, pid, cid, answered)
    case Delete(pid, outcome) => DeleteStep(s, pid, outcome)
    case Unindex(pid, outcome) => UnindexStep(s, pid, outcome)
    case Hit(ip, outcome) => HitStep(s, ip, window, outcome)
  }

  ghost function Initial(now: int): State {
    State(now, Stores.EMPTY, map[], [])
  }

  ghost function Run(start: int, events: seq<Event>, window: int): State {
    if events == [] then Initial(start)
    else Step(Run(start, events[..|events| - 1], window), events[|events| - 1], window)
  }

  /** Events one after the other. */
  ghost function Play(s: State, events: seq<Event>, window: int): State {
    if events == [] then s
    else Step(Play(s, events[..|events| - 1], window), events[|events| - 1], window)
  }

  lemma PlaySnoc(s: State, events: seq<Event>, e: Event, window: int)
    ensures Play(s, events + [e], window) == Step(Play(s, events, window), e, window)
  {
    hide Step;
    assert (events + [e])[..|events|] == events;
  }

  // The invariant: the state is what the log says, and every entry of the log
  // is justified by the entries before it

  ghost predicate ChallengesMatch(s: State) {
    forall n :: ChallengeMatches(s, n)
  }

  ghost predicate ChallengeMatches(s: State, n: string) {
    && (n in s.stores.chal <==> Open(s.log, n).Some?)
    && (n in s.stores.chal ==> s.stores.chal[n] == Expiry(s.log, Open(s.log, n).value) > s.now)
  }

  ghost predicate RecordsMatch(s: State) {
    forall cid {:trigger RecordFrom(s.log, cid)} :: Stores.RecordOf(s.stores, cid) == RecordFrom(s.log, cid)
  }

  ghost predicate CountersMatch(s: State, window: int) {
    forall ip {:trigger HitTimes(s.log, ip)} ::
      Stores.CounterOf(s.stores, ip) == RateLimit.Run(RateLimit.Absent, HitTimes(s.log, ip), window)
  }

  ghost predicate AcceptedBy(log: seq<Entry>, pid: nat, loc: Location, req: Request, c: Credential, a: nat) {
    AcceptedAt(log, a) && log[a].fact == Accepted(pid, log[a].fact.consume, loc, req, c)
  }

  ghost predicate PhaseFits(log: seq<Entry>, pid: nat, phase: Phase) {
    match phase
    case AwaitsLookup(loc, req, k) =>
      k < |log| && log[k].fact == Consumed(pid, req.nonce) && !ConsumeUsed(log, k)
    case AwaitsSave(loc, req, c, a) =>
      AcceptedBy(log, pid, loc, req, c, a) && !SaveUsed(log, a) && !MintUsed(log, a)
    case AwaitsMint(loc, req, c, a, _) =>
      AcceptedBy(log, pid, loc, req, c, a) && !MintUsed(log, a)
    case _ => true
  }

  ghost predicate PhasesFit(s: State) {
    forall pid :: pid in s.procs ==> PhaseFits(s.log, pid, s.procs[pid])
  }

  ghost predicate Past(s: State) {
    forall i :: 0 <= i < |s.log| ==> s.log[i].at <= s.now
  }

  ghost predicate Inv(s: State, window: int) {
    && ChallengesMatch(s)
    && RecordsMatch(s)
    && CountersMatch(s, window)
    && PhasesFit(s)
    && Past(s)
    && History(s.log, window)
  }

  /** Every run keeps the invariant, whatever the interleaving. */
  lemma {:induction false} RunKeeps(start: int, events: seq<Event>, window: int)
    ensures Inv(Run(start, events, window), window)
  {
    hide Inv, Step, Initial;
    if events == [] {
      InitialHolds(start, window);
    } else {
      RunKeeps(start, events[..|events| - 1], window);
      StepKeeps(Run(start, events[..|events| - 1], window), events[|events| - 1], window);
    }
  }

  lemma InitialHolds(start: int, window: int)
    ensures Inv(Initial(start), window)
  {
  }

  // How appending an entry leaves each part of the invariant alone

  ghost predicate TouchesChallenges(fact: Fact) {
    fact.Issued? || fact.Consumed? || fact.Wasted? || fact.Expired?
  }

  ghost predicate TouchesRecords(fact: Fact) {
    fact.Registered? || fact.Saved? || fact.Deleted?
  }

  /** The entry only uses up what process pid holds. */
  ghost predicate Mine(log: seq<Entry>, pid: nat, fact: Fact) {
    && (fact.Accepted? ==> fact.pid == pid && fact.consume < |log| && log[fact.consume].fact.Consumed?
                           && log[fact.consume].fact.pid == pid)
    && (fact.Saved? ==> AcceptedAt(log, fact.accept) && log[fact.accept].fact.pid == pid)
    && (fact.Minted? ==> AcceptedAt(log, fact.accept) && log[fact.accept].fact.pid == pid)
  }

  lemma LogGrows(s: State, s': State, e: Entry, window: int)
    requires Past(s) && History(s.log, window) && s'.log == s.log + [e] && e.at == s'.now
    requires s.now <= s'.now && Justified(s.log, e, window)
    ensures Past(s') && History(s'.log, window)
  {
    hide Justified;
    HistorySnoc(s.log, e, window);
  }

  lemma ChallengesStay(s: State, s': State, e: Entry)
    requires ChallengesMatch(s) && s'.log == s.log + [e] && s'.now == s.now
    requires s'.stores.chal == s.stores.chal && !TouchesChallenges(e.fact)
    ensures ChallengesMatch(s')
  {
    forall n ensures ChallengeMatches(s', n) {
      assert ChallengeMatches(s, n);
      OpenSnoc(s.log, e, n);
    }
  }

  lemma RecordsStay(s: State, s': State, e: Entry)
    requires RecordsMatch(s) && s'.log == s.log + [e]
    requires s'.stores.recs == s.stores.recs && !TouchesRecords(e.fact)
    ensures RecordsMatch(s')
  {
    forall cid ensures Stores.RecordOf(s'.stores, cid) == RecordFrom(s'.log, cid) {
      assert Stores.RecordOf(s.stores, cid) == RecordFrom(s.log, cid);
      RecordSnoc(s.log, e, cid);
    }
  }

  lemma CountersStay(s: State, s': State, e: Entry, window: int)
    requires CountersMatch(s, window) && s'.log == s.log + [e]
    requires s'.stores.rate == s.stores.rate && !e.fact.Counted?
    ensures CountersMatch(s', window)
  {
    hide RateLimit.Run;
    forall ip ensures Stores.CounterOf(s'.stores, ip) == RateLimit.Run(RateLimit.Absent, HitTimes(s'.log, ip), window) {
      assert Stores.CounterOf(s.stores, ip) == RateLimit.Run(RateLimit.Absent, HitTimes(s.log, ip), window);
      HitsSnoc(s.log, e, ip);
      assert HitTimes(s'.log, ip) == HitTimes(s.log, ip);
    }
  }

  /** Processes other than pid are where they were. */
  lemma PhasesStay(s: State, s': State, e: Entry, pid: nat)
    requires PhasesFit(s) && s'.log == s.log + [e] && Mine(s.log, pid, e.fact)
    requires s'.procs - {pid} == s.procs - {pid}
    requires pid in s'.procs ==> PhaseFits(s'.log, pid, s'.procs[pid])
    ensures PhasesFit(s')
  {
    forall q | q in s'.procs
      ensures PhaseFits(s'.log, q, s'.procs[q])
    {
      if q != pid {
        assert q in s'.procs - {pid} && (s'.procs - {pid})[q] == (s.procs - {pid})[q];
        PhaseStays(s.log, e, q, s.procs[q]);
      }
    }
  }

  lemma PhaseStays(log: seq<Entry>, e: Entry, q: nat, phase: Phase)
    requires PhaseFits(log, q, phase)
    requires e.fact.Accepted? && phase.AwaitsLookup? ==> e.fact.consume != phase.consume
    requires e.fact.Saved? && phase.AwaitsSave? ==> e.fact.accept != phase.accept
    requires e.fact.Minted? && (phase.AwaitsSave? || phase.AwaitsMint?) ==> e.fact.accept != phase.accept
    ensures PhaseFits(log + [e], q, phase)
  {
  }

  /** A step that only moves one process, or writes only an index. */
  lemma MoveKeeps(s: State, s': State, pid: nat, window: int)
    requires Inv(s, window) && s'.log == s.log && s'.now == s.now
    requires s'.stores.(index := map[]) == s.stores.(index := map[])
    requires s'.procs - {pid} == s.procs - {pid}
    requires pid in s'.procs ==> PhaseFits(s.log, pid, s'.procs[pid])
    ensures Inv(s', window)
  {
    hide Open, RecordFrom, HitTimes, RateLimit.Run, PhaseFits, History;
    forall q | q in s'.procs
      ensures PhaseFits(s'.log, q, s'.procs[q])
    {
      if q != pid {
        assert q in s'.procs - {pid} && (s'.procs - {pid})[q] == (s.procs - {pid})[q];
      }
    }
    forall n ensures ChallengeMatches(s', n) { assert ChallengeMatches(s, n); }
    forall cid ensures Stores.RecordOf(s'.stores, cid) == RecordFrom(s'.log, cid) {
      assert Stores.RecordOf(s.stores, cid) == RecordFrom(s.log, cid);
    }
    assert CountersMatch(s', window);
  }

  /** A step of process pid that notes something and writes nothing. */
  lemma NoteKeeps(s: State, s': State, e: Entry, pid: nat, window: int)
    requires Inv(s, window) && s'.log == s.log + [e] && e.at == s.now == s'.now && s'.stores == s.stores
    requires !TouchesChallenges(e.fact) && !TouchesRecords(e.fact) && !e.fact.Counted?
    requires Justified(s.log, e, window) && Mine(s.log, pid, e.fact)
    requires s'.procs - {pid} == s.procs - {pid}
    requires pid in s'.procs ==> PhaseFits(s'.log, pid, s'.procs[pid])
    ensures Inv(s', window)
  {
    hide ChallengesMatch, RecordsMatch, CountersMatch, PhasesFit, History, Justified, Mine, PhaseFits, Past;
    LogGrows(s, s', e, window);
    ChallengesStay(s, s', e);
    RecordsStay(s, s', e);
    CountersStay(s, s', e, window);
    PhasesStay(s, s', e, pid);
  }

  /** A step of process pid that writes one record, as it notes. */
  lemma WriteKeeps(s: State, s': State, e: Entry, pid: nat, cid: string, window: int)
    requires Inv(s, window) && s'.log == s.log + [e] && e.at == s.now == s'.now
    requires s'.stores == s.stores.(recs := s'.stores.recs) && s'.stores.recs - {cid} == s.stores.recs - {cid}
    requires TouchesRecords(e.fact)
    requires Stores.RecordOf(s'.stores, cid) == Recorded(Stores.RecordOf(s.stores, cid), e.fact, cid)
    requires forall id :: id != cid ==> Recorded(RecordFrom(s.log, id), e.fact, id) == RecordFrom(s.log, id)
    requires Justified(s.log, e, window) && Mine(s.log, pid, e.fact)
    requires s'.procs - {pid} == s.procs - {pid}
    requires pid in s'.procs ==> PhaseFits(s'.log, pid, s'.procs[pid])
    ensures Inv(s', window)
  {
    hide ChallengesMatch, RecordsMatch, CountersMatch, PhasesFit, History, Justified, Mine, PhaseFits, Past, Recorded;
    LogGrows(s, s', e, window);
    ChallengesStay(s, s', e);
    RecordChange(s, s', e, cid);
    CountersStay(s, s', e, window);
    PhasesStay(s, s', e, pid);
  }

  // One lemma per step

  lemma TickKeeps(s: State, seconds: nat, window: int)
    requires Inv(s, window)
    ensures Inv(TickStep(s, seconds), window)
  {
    hide Open, RecordFrom, HitTimes, RateLimit.Run, Read;
    var s' := TickStep(s, seconds);
    var expired := Stores.Expiring(s.stores, s'.now);
    var e := Entry(s'.now, Expired(expired));
    forall n | n in expired ensures OpenPast(s.log, n, s'.now) { assert ChallengeMatches(s, n); }
    LogGrows(s, s', e, window);
    RecordsStay(s, s', e);
    CountersStay(s, s', e, window);
    forall pid | pid in s'.procs ensures PhaseFits(s'.log, pid, s'.procs[pid]) {
      PhaseStays(s.log, e, pid, s.procs[pid]);
    }
    forall n ensures ChallengeMatches(s', n) {
      assert ChallengeMatches(s, n);
      OpenSnoc(s.log, e, n);
    }
  }

  lemma IssueKeeps(s: State, nonce: string, ttl: int, outcome: Outcome, window: int)
    requires Inv(s, window)
    ensures Inv(IssueStep(s, nonce, ttl, outcome), window)
  {
    hide Open, RecordFrom, HitTimes, RateLimit.Run, Read;
    var s' := IssueStep(s, nonce, ttl, outcome);
    var e := Entry(s.now, Issued(nonce, ttl));
    if s' != s {
      LogGrows(s, s', e, window);
      RecordsStay(s, s', e);
      CountersStay(s, s', e, window);
      forall pid | pid in s'.procs ensures PhaseFits(s'.log, pid, s'.procs[pid]) {
        PhaseStays(s.log, e, pid, s.procs[pid]);
      }
      forall n ensures ChallengeMatches(s', n) {
        assert ChallengeMatches(s, n);
        OpenSnoc(s.log, e, n);
      }
    }
  }

  /** A consumption, answered or not, closes the challenge it found. */
  lemma ConsumeCloses(s: State, s': State, e: Entry, nonce: string)
    requires ChallengesMatch(s) && Stores.ChallengeLive(s.stores, nonce, s.now)
    requires s'.log == s.log + [e] && s'.now == s.now && s'.stores == Stores.Consume(s.stores, nonce)
    requires e.at == s.now && Closes(e.fact, nonce) && !e.fact.Expired?
    ensures ChallengesMatch(s') && OpenUntil(s.log, nonce, s.now)
  {
    hide Open;
    assert ChallengeMatches(s, nonce);
    forall n ensures ChallengeMatches(s', n) {
      assert ChallengeMatches(s, n);
      OpenSnoc(s.log, e, n);
    }
  }

  lemma VerifyKeeps(s: State, pid: nat, loc: Location, req: Request, outcome: Outcome, window: int)
    requires Inv(s, window)
    ensures Inv(VerifyStep(s, pid, loc, req, outcome), window)
  {
    hide Open, RecordFrom, HitTimes, RateLimit.Run, Read;
    var s' := VerifyStep(s, pid, loc, req, outcome);
    var n := req.nonce;
    if pid in s.procs || |n| != CHALLENGE_LEN || outcome.Failed? {
      return;
    }
    assert ChallengeMatches(s, n);
    if !Stores.ChallengeLive(s.stores, n, s.now) {
      assert s'.stores.chal == s.stores.chal;
      assert s' == s;
    } else {
      var e := Entry(s.now, if outcome.Lost? then Wasted(n) else Consumed(pid, n));
      ConsumeCloses(s, s', e, n);
      LogGrows(s, s', e, window);
      RecordsStay(s, s', e);
      CountersStay(s, s', e, window);
      FreshPosition(s);
      PhasesStay(s, s', e, pid);
    }
  }

  /** Nothing refers to a position the log has not reached. */
  lemma FreshPosition(s: State)
    requires exists window :: History(s.log, window)
    ensures !ConsumeUsed(s.log, |s.log|) && !SaveUsed(s.log, |s.log|) && !MintUsed(s.log, |s.log|)
  {
    var window :| History(s.log, window);
    forall i | 0 <= i < |s.log|
      ensures s.log[i].fact.Accepted? ==> s.log[i].fact.consume < |s.log|
      ensures s.log[i].fact.Saved? ==> s.log[i].fact.accept < |s.log|
      ensures s.log[i].fact.Minted? ==> s.log[i].fact.accept < |s.log|
    {
      assert Justified(s.log[..i], s.log[i], window);
    }
  }

  lemma LookupKeeps(s: State, pid: nat, answered: bool, window: int)
    requires Inv(s, window)
    ensures Inv(LookupStep(s, pid, answered), window)
  {
    hide Open, RecordFrom, HitTimes, RateLimit.Run, Read;
    hide ChallengesMatch, CountersMatch, Acceptable;
    var s' := LookupStep(s, pid, answered);
    if s' != s {
      var AwaitsLookup(loc, req, k) := s.procs[pid];
      if s'.log == s.log {
        MoveKeeps(s, s', pid, window);
      } else {
        assert Stores.RecordOf(s.stores, req.cid) == RecordFrom(s.log, req.cid);
        var e := Entry(s.now, Accepted(pid, k, loc, req, Read(RecordFrom(s.log, req.cid), req.cid).value));
        FreshPosition(s);
        NoteKeeps(s, s', e, pid, window);
      }
    }
  }

  lemma SaveKeeps(s: State, pid: nat, clock: int, outcome: Outcome, window: int)
    requires Inv(s, window)
    ensures Inv(SaveStep(s, pid, clock, outcome), window)
  {
    hide Open, RecordFrom, HitTimes, RateLimit.Run, Read, Merge, CounterPairs;
    hide ChallengesMatch, RecordsMatch, CountersMatch, History, Acceptable;
    var s' := SaveStep(s, pid, clock, outcome);
    if s' != s && outcome.Failed? {
      MoveKeeps(s, s', pid, window);
    } else if s' != s {
      var a := s.procs[pid].accept;
      var req := s.procs[pid].req;
      var e := Entry(s.now, Saved(a, req.cid, req.count, clock));
      WriteKeeps(s, s', e, pid, req.cid, window);
    }
  }

  /** A write to one record is the write the log notes. */
  lemma RecordChange(s: State, s': State, e: Entry, cid: string)
    requires RecordsMatch(s) && s'.log == s.log + [e]
    requires s'.stores.recs - {cid} == s.stores.recs - {cid}
    requires Stores.RecordOf(s'.stores, cid) == Recorded(Stores.RecordOf(s.stores, cid), e.fact, cid)
    requires forall id :: id != cid ==> Recorded(RecordFrom(s.log, id), e.fact, id) == RecordFrom(s.log, id)
    ensures RecordsMatch(s')
  {
    hide RecordFrom, Recorded;
    forall id ensures Stores.RecordOf(s'.stores, id) == RecordFrom(s'.log, id) {
      assert Stores.RecordOf(s.stores, id) == RecordFrom(s.log, id);
      RecordSnoc(s.log, e, id);
      if id != cid {
        assert id in s'.stores.recs <==> id in s'.stores.recs - {cid};
        assert id in s.stores.recs <==> id in s.stores.recs - {cid};
        assert id in s.stores.recs ==> s'.stores.recs[id] == (s'.stores.recs - {cid})[id];
        assert id in s.stores.recs ==> s.stores.recs[id] == (s.stores.recs - {cid})[id];
      }
    }
  }

  lemma MintKeeps(s: State, pid: nat, window: int)
    requires Inv(s, window)
    ensures Inv(MintStep(s, pid), window)
  {
    hide Open, RecordFrom, HitTimes, RateLimit.Run, Read;
    hide ChallengesMatch, RecordsMatch, CountersMatch, History, Acceptable;
    var s' := MintStep(s, pid);
    if s' != s {
      var e := s'.log[|s.log|];
      NoteKeeps(s, s', e, pid, window);
    }
  }

  lemma GateKeeps(s: State, rpId: string, token: nat, clock: int, window: int)
    requires Inv(s, window)
    ensures Inv(GateStep(s, rpId, token, clock), window)
  {
    hide Open, RecordFrom, HitTimes, RateLimit.Run, Read;
    var s' := GateStep(s, rpId, token, clock);
    if s' != s {
      var e := s'.log[|s.log|];
      LogGrows(s, s', e, window);
      ChallengesStay(s, s', e);
      RecordsStay(s, s', e);
      CountersStay(s, s', e, window);
      forall pid | pid in s'.procs ensures PhaseFits(s'.log, pid, s'.procs[pid]) {
        PhaseStays(s.log, e, pid, s.procs[pid]);
      }
    }
  }

  lemma PutKeeps(s: State, pid: nat, c: Credential, outcome: Outcome, window: int)
    requires Inv(s, window)
    ensures Inv(PutStep(s, pid, c, outcome), window)
  {
    hide Open, RecordFrom, HitTimes, RateLimit.Run, Read, Merge, PutPairs, WellFormed;
    hide ChallengesMatch, RecordsMatch, CountersMatch, History;
    var s' := PutStep(s, pid, c, outcome);
    if !(pid in s.procs || !WellFormed(c) || outcome.Failed?) {
      var e := Entry(s.now, Registered(c));
      WriteKeeps(s, s', e, pid, c.credentialId, window);
    }
  }

  lemma DeleteKeeps(s: State, pid: nat, outcome: Outcome, window: int)
    requires Inv(s, window)
    ensures Inv(DeleteStep(s, pid, outcome), window)
  {
    hide Open, RecordFrom, HitTimes, RateLimit.Run, Read, Merge;
    hide ChallengesMatch, RecordsMatch, CountersMatch, History;
    var s' := DeleteStep(s, pid, outcome);
    if s' != s && outcome.Failed? {
      MoveKeeps(s, s', pid, window);
    } else if s' != s {
      var cid := s.procs[pid].cid;
      var e := Entry(s.now, Deleted(cid));
      WriteKeeps(s, s', e, pid, cid, window);
    }
  }

  lemma HitKeeps(s: State, ip: string, outcome: Outcome, window: int)
    requires Inv(s, window)
    ensures Inv(HitStep(s, ip, window, outcome), window)
  {
    hide Open, RecordFrom, HitTimes, RateLimit.Run, RateLimit.Hit, Read;
    var s' := HitStep(s, ip, window, outcome);
    if !outcome.Failed? {
      var e := s'.log[|s.log|];
      var times := HitTimes(s.log, ip);
      assert Stores.CounterOf(s.stores, ip) == RateLimit.Run(RateLimit.Absent, times, window);
      HitSnoc(times, s.now, window);
      LogGrows(s, s', e, window);
      ChallengesStay(s, s', e);
      RecordsStay(s, s', e);
      forall i
        ensures Stores.CounterOf(s'.stores, i) == RateLimit.Run(RateLimit.Absent, HitTimes(s'.log, i), window)
      {
        assert Stores.CounterOf(s.stores, i) == RateLimit.Run(RateLimit.Absent, HitTimes(s.log, i), window);
        HitsSnoc(s.log, e, i);
        assert i != ip ==> HitTimes(s'.log, i) == HitTimes(s.log, i);
      }
      forall pid | pid in s'.procs ensures PhaseFits(s'.log, pid, s'.procs[pid]) {
        PhaseStays(s.log, e, pid, s.procs[pid]);
      }
    }
  }

  lemma HitSnoc(times: seq<int>, now: int, window: int)
    ensures RateLimit.Run(RateLimit.Absent, times + [now], window)
         == RateLimit.Hit(RateLimit.Run(RateLimit.Absent, times, window), window, now)
  {
    hide RateLimit.Hit;
    assert (times + [now])[..|times|] == times;
  }

  lemma PutIndexKeeps(s: State, pid: nat, outcome: Outcome, window: int)
    requires Inv(s, window)
    ensures Inv(PutIndexStep(s, pid, outcome), window)
  {
    hide Inv;
    if PutIndexStep(s, pid, outcome) != s {
      MoveKeeps(s, PutIndexStep(s, pid, outcome), pid, window);
    }
  }

  lemma RevokeKeeps(s: State, pid: nat, cid: string, answered: bool, window: int)
    requires Inv(s, window)
    ensures Inv(RevokeStep(s, pid, cid, answered), window)
  {
    hide Inv, Read;
    if RevokeStep(s, pid, cid, answered) != s {
      MoveKeeps(s, RevokeStep(s, pid, cid, answered), pid, window);
    }
  }

  lemma UnindexKeeps(s: State, pid: nat, outcome: Outcome, window: int)
    requires Inv(s, window)
    ensures Inv(UnindexStep(s, pid, outcome), window)
  {
    hide Inv;
    if UnindexStep(s, pid, outcome) != s {
      MoveKeeps(s, UnindexStep(s, pid, outcome), pid, window);
    }
  }

  lemma StepKeeps(s: State, e: Event, window: int)
    requires Inv(s, window)
    ensures Inv(Step(s, e, window), window)
  {
    hide Inv, TickStep, IssueStep, VerifyStep, LookupStep, SaveStep, MintStep, GateStep, PutStep, PutIndexStep;
    hide RevokeStep, DeleteStep, UnindexStep, HitStep;
    match e
    case Tick(seconds) => TickKeeps(s, seconds, window);
    case Issue(nonce, ttl, outcome) => IssueKeeps(s, nonce, ttl, outcome, window);
    case Verify(pid, loc, req, outcome) => VerifyKeeps(s, pid, loc, req, outcome, window);
    case Lookup(pid, answered) => LookupKeeps(s, pid, answered, window);
    case Save(pid, clock, outcome) => SaveKeeps(s, pid, clock, outcome, window);
    case Mint(pid) => MintKeeps(s, pid, window);
    case Gate(rpId, token, clock) => GateKeeps(s, rpId, token, clock, window);
    case Put(pid, c, outcome) => PutKeeps(s, pid, c, outcome, window);
    case PutIndex(pid, outcome) => PutIndexKeeps(s, pid, outcome, window);
    case Revoke(pid, cid, answered) => RevokeKeeps(s, pid, cid, answered, window);
    case Delete(pid, outcome) => DeleteKeeps(s, pid, outcome, window);
    case Unindex(pid, outcome) => UnindexKeeps(s, pid, outcome, window);
    case Hit(ip, outcome) => HitKeeps(s, ip, outcome, window);
  }
}
