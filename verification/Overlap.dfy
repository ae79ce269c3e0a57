/** How the order of sign counters is lost: by two verifies of one credential
    that overlap, reading the credential and writing the counter being separate
    commands, or by an update that does not take effect. */
module Overlap {
  import Assertion
  import opened Credential
  import opened Decimal
  import opened Log
  import opened Prelude
  import opened Protocol
  import Stores
  import opened Traces

  function Nonce(c: char): (s: string)
    ensures |s| == CHALLENGE_LEN
  {
    seq(CHALLENGE_LEN, _ => c)
  }

  ghost function Asks(c: Credential, nonce: string, count: uint32): Request {
    Request(c.credentialId, nonce, count, (key, alg) => true)
  }

  /** One registration, two challenges, and two verifies both of whose lookups
      come before either update. */
  ghost function Racing(c: Credential, loc: Location, first: uint32, second: uint32): seq<Event> {
    [Put(0, c, Done), Issue(Nonce('a'), 60, Done), Issue(Nonce('b'), 60, Done),
     Verify(1, loc, Asks(c, Nonce('a'), first), Done), Verify(2, loc, Asks(c, Nonce('b'), second), Done),
     Lookup(1, true), Lookup(2, true), Save(1, 0, Done), Save(2, 0, Done)]
  }

  lemma RunSnoc(start: int, events: seq<Event>, n: nat, window: int)
    requires n < |events|
    ensures Run(start, events[..n + 1], window) == Step(Run(start, events[..n], window), events[n], window)
  {
    hide Step;
    assert events[..n + 1][..n] == events[..n];
  }

  lemma Usable(c: Credential)
    requires WellFormed(c) && c.publicKey != "" && c.alg != 0
    ensures Read(Merge(map[], PutPairs(c)), c.credentialId) == Ok(c)
  {
    hide Merge, PutPairs, Read;
    PutGetRoundTrip(map[], c);
  }

  /** Registration and issues: the record and two live challenges. */
  lemma Opening(start: int, c: Credential, loc: Location, first: uint32, second: uint32, window: int)
    requires WellFormed(c)
    ensures var s := Run(start, Racing(c, loc, first, second)[..3], window);
            && s.now == start && 1 !in s.procs && 2 !in s.procs && |s.log| == 3
            && s.stores.recs == map[c.credentialId := Merge(map[], PutPairs(c))]
            && s.stores.chal == map[Nonce('a') := start + 60, Nonce('b') := start + 60]
            && Nonce('a') != Nonce('b')
  {
    hide Merge, PutPairs, WellFormed;
    hide TickStep, VerifyStep, LookupStep, SaveStep, MintStep, GateStep, PutIndexStep;
    hide RevokeStep, DeleteStep, UnindexStep, HitStep;
    var events := Racing(c, loc, first, second);
    assert Nonce('a')[0] != Nonce('b')[0];
    assert events[..0] == [];
    RunSnoc(start, events, 0, window);
    RunSnoc(start, events, 1, window);
    RunSnoc(start, events, 2, window);
  }

  /** Both challenges are consumed. */
  lemma Consumptions(start: int, c: Credential, loc: Location, first: uint32, second: uint32, window: int)
    requires WellFormed(c)
    ensures var s := Run(start, Racing(c, loc, first, second)[..5], window);
            && 1 in s.procs && s.procs[1] == AwaitsLookup(loc, Asks(c, Nonce('a'), first), 3)
            && 2 in s.procs && s.procs[2] == AwaitsLookup(loc, Asks(c, Nonce('b'), second), 4)
            && |s.log| == 5 && s.stores.recs == map[c.credentialId := Merge(map[], PutPairs(c))]
  {
    hide Merge, PutPairs, WellFormed;
    hide TickStep, IssueStep, LookupStep, SaveStep, MintStep, GateStep, PutStep;
    hide PutIndexStep, RevokeStep, DeleteStep, UnindexStep, HitStep;
    var events := Racing(c, loc, first, second);
    Opening(start, c, loc, first, second, window);
    RunSnoc(start, events, 3, window);
    RunSnoc(start, events, 4, window);
  }

  /** Both lookups see the registered counter. */
  lemma Lookups(start: int, c: Credential, loc: Location, first: uint32, second: uint32, window: int)
    requires WellFormed(c) && c.publicKey != "" && c.alg != 0
    requires Advances(c.signCount, first) && Advances(c.signCount, second)
    ensures var s := Run(start, Racing(c, loc, first, second)[..7], window);
            var r1, r2 := Asks(c, Nonce('a'), first), Asks(c, Nonce('b'), second);
            && 1 in s.procs && s.procs[1] == AwaitsSave(loc, r1, c, 5)
            && 2 in s.procs && s.procs[2] == AwaitsSave(loc, r2, c, 6)
            && |s.log| == 7 && s.log[5].fact == Accepted(1, 3, loc, r1, c)
            && s.log[6].fact == Accepted(2, 4, loc, r2, c)
            && s.stores.recs == map[c.credentialId := Merge(map[], PutPairs(c))]
  {
    hide Merge, PutPairs, WellFormed, Read;
    hide TickStep, IssueStep, VerifyStep, SaveStep, MintStep, GateStep, PutStep;
    hide PutIndexStep, RevokeStep, DeleteStep, UnindexStep, HitStep;
    var events := Racing(c, loc, first, second);
    Consumptions(start, c, loc, first, second, window);
    Usable(c);
    RunSnoc(start, events, 5, window);
    RunSnoc(start, events, 6, window);
  }

  /** For any two counts ahead of the registered one, in either order, both
      verifies are accepted and both updates take effect, so the counter that
      stays in Redis is the slower verify's: it can fall, and accepted counts
      can repeat, under a strict policy. */
  lemma RacesLoseTheOrder(start: int, c: Credential, loc: Location, first: uint32, second: uint32, window: int)
    requires WellFormed(c) && c.publicKey != "" && c.alg != 0
    requires Advances(c.signCount, first) && Advances(c.signCount, second)
    ensures var s := Run(start, Racing(c, loc, first, second), window);
            && |s.log| == 9
            && s.log[5].fact == Accepted(1, 3, loc, Asks(c, Nonce('a'), first), c)
            && s.log[6].fact == Accepted(2, 4, loc, Asks(c, Nonce('b'), second), c)
            && s.log[7].fact == Saved(5, c.credentialId, first, 0)
            && s.log[8].fact == Saved(6, c.credentialId, second, 0)
            && Number(Stores.RecordOf(s.stores, c.credentialId), SIGN_COUNT) == second
  {
    hide Merge, PutPairs, WellFormed, Read, CounterPairs, Print, ParseInt64;
    hide SIGN_COUNT, LAST_USED_AT;
    hide TickStep, IssueStep, VerifyStep, LookupStep, MintStep, GateStep, PutStep;
    hide PutIndexStep, RevokeStep, DeleteStep, UnindexStep, HitStep;
    var events := Racing(c, loc, first, second);
    Lookups(start, c, loc, first, second, window);
    RunSnoc(start, events, 7, window);
    RunSnoc(start, events, 8, window);
    assert events[..9] == events;
    FieldsDistinct();
    CounterHash(Merge(Merge(map[], PutPairs(c)), CounterPairs(first, 0)), second, 0);
    ParsePrint(second);
  }

  /** The concrete case: an accepted 7 is followed by an accepted 5, which
      Redis then keeps. */
  lemma CounterFalls()
    ensures exists start, events, window ::
              var s := Run(start, events, window);
              && |s.log| == 9 && s.log[5].fact.Accepted? && s.log[6].fact.Accepted?
              && s.log[5].fact.req.cid == s.log[6].fact.req.cid
              && s.log[5].fact.loc.clone.Strict? && s.log[6].fact.loc.clone.Strict?
              && s.log[5].fact.req.count == 7 && s.log[6].fact.req.count == 5
              && Number(Stores.RecordOf(s.stores, s.log[5].fact.req.cid), SIGN_COUNT) == 5
  {
    hide Run, Racing;
    var c := Credential("id", "user", "key", -7, 0, 0, 0, None, "");
    var loc := Location("rp", Assertion.Strict, 3600);
    RacesLoseTheOrder(0, c, loc, 7, 5, 1);
    var s := Run(0, Racing(c, loc, 7, 5), 1);
    assert s.log[5].fact.req.cid == s.log[6].fact.req.cid;
  }

  // No overlap, but an update that does not take effect

  /** Two verifies one after the other; the first one's update fails. */
  ghost function Forgetting(c: Credential, loc: Location, first: uint32, second: uint32): seq<Event> {
    [Put(0, c, Done), Issue(Nonce('a'), 60, Done), Verify(1, loc, Asks(c, Nonce('a'), first), Done),
     Lookup(1, true), Save(1, 0, Failed), Mint(1),
     Issue(Nonce('b'), 60, Done), Verify(2, loc, Asks(c, Nonce('b'), second), Done), Lookup(2, true)]
  }

  lemma FirstAccepted(start: int, c: Credential, loc: Location, first: uint32, second: uint32, window: int)
    requires WellFormed(c) && c.publicKey != "" && c.alg != 0 && Advances(c.signCount, first)
    ensures var s := Run(start, Forgetting(c, loc, first, second)[..4], window);
            var r := Asks(c, Nonce('a'), first);
            && s.now == start && 1 in s.procs && 2 !in s.procs && s.procs[1] == AwaitsSave(loc, r, c, 3)
            && |s.log| == 4 && s.log[3].fact == Accepted(1, 2, loc, r, c)
            && s.stores.recs == map[c.credentialId := Merge(map[], PutPairs(c))]
            && s.stores.chal == map[]
  {
    hide Merge, PutPairs, WellFormed, Read;
    hide TickStep, SaveStep, MintStep, GateStep, PutIndexStep, RevokeStep, DeleteStep, UnindexStep, HitStep;
    var events := Forgetting(c, loc, first, second);
    Usable(c);
    assert events[..0] == [];
    RunSnoc(start, events, 0, window);
    RunSnoc(start, events, 1, window);
    RunSnoc(start, events, 2, window);
    RunSnoc(start, events, 3, window);
  }

  /** The first verify runs to its end. */
  lemma FirstEnds(start: int, c: Credential, loc: Location, first: uint32, second: uint32, window: int)
    requires WellFormed(c) && c.publicKey != "" && c.alg != 0 && Advances(c.signCount, first)
    ensures var s := Run(start, Forgetting(c, loc, first, second)[..6], window);
            && s.now == start && 1 !in s.procs && 2 !in s.procs
            && |s.log| == 5 && s.log[3].fact == Accepted(1, 2, loc, Asks(c, Nonce('a'), first), c)
            && s.log[4].fact.Minted? && s.log[4].fact.accept == 3
            && s.stores.recs == map[c.credentialId := Merge(map[], PutPairs(c))]
            && s.stores.chal == map[]
  {
    hide Merge, PutPairs, WellFormed, Read;
    hide TickStep, IssueStep, VerifyStep, LookupStep, GateStep, PutStep, PutIndexStep;
    hide RevokeStep, DeleteStep, UnindexStep, HitStep;
    var events := Forgetting(c, loc, first, second);
    FirstAccepted(start, c, loc, first, second, window);
    RunSnoc(start, events, 4, window);
    RunSnoc(start, events, 5, window);
  }

  /** Without any overlap, one update that fails is enough: the second verify
      starts after the first has minted its token, and any count ahead of the
      registered one is accepted again, be it behind the first. */
  lemma FailedUpdateLosesTheOrder(start: int, c: Credential, loc: Location, first: uint32, second: uint32, window: int)
    requires WellFormed(c) && c.publicKey != "" && c.alg != 0
    requires Advances(c.signCount, first) && Advances(c.signCount, second)
    ensures var s := Run(start, Forgetting(c, loc, first, second), window);
            && |s.log| == 8
            && s.log[3].fact == Accepted(1, 2, loc, Asks(c, Nonce('a'), first), c)
            && s.log[4].fact.Minted? && s.log[4].fact.accept == 3
            && s.log[7].fact == Accepted(2, 6, loc, Asks(c, Nonce('b'), second), c)
  {
    hide Merge, PutPairs, WellFormed, Read;
    hide TickStep, SaveStep, MintStep, GateStep, PutStep, PutIndexStep;
    hide RevokeStep, DeleteStep, UnindexStep, HitStep;
    var events := Forgetting(c, loc, first, second);
    FirstEnds(start, c, loc, first, second, window);
    Usable(c);
    RunSnoc(start, events, 6, window);
    RunSnoc(start, events, 7, window);
    RunSnoc(start, events, 8, window);
    assert events[..9] == events;
  }
}
