/** Agreement of the user indexes with the records: at the boundaries of whole
    operations without failures, and what is left of it in any interleaving. */
module Index {
  import opened Credential
  import opened Decimal
  import Log
  import opened Prelude
  import opened Protocol
  import opened Stores

  datatype Op =
    | Register(c: Credential)
    | Update(cid: string, count: uint32, usedAt: int64)
    | Remove(cid: string)

  function Registered(s: Stores, c: Credential): Stores {
    if c.credentialId == "" || c.userId == "" then s
    else AddToIndex(WriteRecord(s, c.credentialId, PutPairs(c)), c.userId, c.credentialId)
  }

  function Removed(s: Stores, cid: string): Stores {
    var r := Read(RecordOf(s, cid), cid);
    if !r.Ok? then s
    else if r.value.userId == "" then DropRecord(s, cid)
    else RemoveFromIndex(DropRecord(s, cid), r.value.userId, cid)
  }

  function Apply(s: Stores, op: Op): Stores {
    match op
    case Register(c) => Registered(s, c)
    case Update(cid, count, usedAt) => WriteRecord(s, cid, CounterPairs(count, usedAt))
    case Remove(cid) => Removed(s, cid)
  }

  function RunOps(ops: seq<Op>): Stores {
    if ops == [] then EMPTY else Apply(RunOps(ops[..|ops| - 1]), ops[|ops| - 1])
  }

  /** The operations are the protocol's steps without interleaving. */
  lemma RegisterIsSteps(s: State, pid: nat, c: Credential, window: int)
    requires pid !in s.procs && WellFormed(c)
    ensures Play(s, [Put(pid, c, Done), PutIndex(pid, Done)], window).stores == Registered(s.stores, c)
  {
    hide Merge, PutPairs;
    PlayTwo(s, Put(pid, c, Done), PutIndex(pid, Done), window);
  }

  lemma RemoveIsSteps(s: State, pid: nat, cid: string, window: int)
    requires pid !in s.procs && Read(RecordOf(s.stores, cid), cid).Ok?
    ensures var uid := Read(RecordOf(s.stores, cid), cid).value.userId;
            var es := [Revoke(pid, cid, true), Delete(pid, Done)];
            && (uid == "" ==> Play(s, es, window).stores == Removed(s.stores, cid))
            && (uid != "" ==> Play(s, es + [Unindex(pid, Done)], window).stores == Removed(s.stores, cid))
  {
    hide Read;
    var first, second, third := Revoke(pid, cid, true), Delete(pid, Done), Unindex(pid, Done);
    PlayTwo(s, Revoke(pid, cid, true), Delete(pid, Done), window);
    PlaySnoc(s, [Revoke(pid, cid, true), Delete(pid, Done)], Unindex(pid, Done), window);
    var uid := Read(RecordOf(s.stores, cid), cid).value.userId;
    var s1 := Step(s, first, window);
    assert s1 == Goto(s, pid, AwaitsDelete(cid, uid));
    var s2 := Step(s1, second, window);
    assert s2.stores == DropRecord(s.stores, cid);
    if uid != "" {
      assert pid in s2.procs && s2.procs[pid] == AwaitsUnindex(cid, uid);
      assert Step(s2, third, window).stores == RemoveFromIndex(s2.stores, uid, cid);
    }
  }

  lemma PlayTwo(s: State, first: Event, second: Event, window: int)
    ensures Play(s, [first, second], window) == Step(Step(s, first, window), second, window)
  {
    hide Step;
    PlaySnoc(s, [], first, window);
    PlaySnoc(s, [first], second, window);
    assert [] + [first] == [first] && [first] + [second] == [first, second];
    assert Play(s, [], window) == s;
  }

  predicate Names(s: Stores, cid: string, uid: string) {
    USER_ID in RecordOf(s, cid) && RecordOf(s, cid)[USER_ID] == uid
  }

  /** Only registered records have a key, and they name a user who lists them. */
  ghost predicate Listed(s: Stores) {
    forall cid :: ListedAt(s, cid)
  }

  ghost predicate ListedAt(s: Stores, cid: string) {
    var h := RecordOf(s, cid);
    PUBLIC_KEY in h ==> USER_ID in h && h[USER_ID] != "" && cid in IndexOf(s, h[USER_ID])
  }

  /** Every index is exactly the set of ids whose record names its user. */
  ghost predicate Exact(s: Stores) {
    forall cid, uid :: ExactAt(s, cid, uid)
  }

  ghost predicate ExactAt(s: Stores, cid: string, uid: string) {
    && (cid in IndexOf(s, uid) <==> Names(s, cid, uid))
    && (Names(s, cid, uid) ==> uid != "")
  }

  // What each operation does to the fields that matter

  lemma HashAfterPut(h: Hash, c: Credential)
    ensures var h' := Merge(h, PutPairs(c));
            && USER_ID in h' && h'[USER_ID] == c.userId && PUBLIC_KEY in h'
  {
    hide Merge, PutPairs, USER_ID, PUBLIC_KEY, ALG, SIGN_COUNT, CREATED_AT, LAST_USED_AT, AAGUID, TRANSPORTS, Print;
    FieldsDistinct();
    PutHash(h, c);
  }

  lemma HashAfterUpdate(h: Hash, count: nat, usedAt: int)
    ensures var h' := Merge(h, CounterPairs(count, usedAt));
            && (USER_ID in h' <==> USER_ID in h) && (USER_ID in h ==> h'[USER_ID] == h[USER_ID])
            && (PUBLIC_KEY in h' <==> PUBLIC_KEY in h)
  {
    hide Merge, CounterPairs, USER_ID, PUBLIC_KEY, SIGN_COUNT, LAST_USED_AT, Print;
    FieldsDistinct();
    CounterHash(h, count, usedAt);
  }

  lemma UserOfRead(h: Hash, cid: string)
    requires Read(h, cid).Ok?
    ensures Read(h, cid).value.userId == Field(h, USER_ID) && PUBLIC_KEY in h
  {
  }

  /** Frames of an operation on one credential. */
  lemma Elsewhere(s: Stores, op: Op, cid: string, uid: string)
    requires cid != match op case Register(c) => c.credentialId case Update(id, _, _) => id case Remove(id) => id
    ensures RecordOf(Apply(s, op), cid) == RecordOf(s, cid)
    ensures cid in IndexOf(Apply(s, op), uid) <==> cid in IndexOf(s, uid)
  {
    hide Merge, Read;
  }

  // Preservation

  lemma RegisterEffect(s: Stores, c: Credential, uid: string)
    requires c.credentialId != "" && c.userId != ""
    ensures var s' := Registered(s, c);
            var cid := c.credentialId;
            && RecordOf(s', cid) == Merge(RecordOf(s, cid), PutPairs(c))
            && (cid in IndexOf(s', uid) <==> cid in IndexOf(s, uid) || uid == c.userId)
  {
    hide Merge, PutPairs;
  }

  lemma RemoveEffect(s: Stores, cid: string, uid: string)
    requires Read(RecordOf(s, cid), cid).Ok?
    ensures var s' := Removed(s, cid);
            var user := Read(RecordOf(s, cid), cid).value.userId;
            && RecordOf(s', cid) == map[]
            && (cid in IndexOf(s', uid) <==> cid in IndexOf(s, uid) && (uid != user || user == ""))
  {
    hide Read;
  }

  lemma ListedKept(s: Stores, op: Op)
    requires Listed(s)
    ensures Listed(Apply(s, op))
  {
    hide Merge, PutPairs, CounterPairs, Read, USER_ID, PUBLIC_KEY, RecordOf, IndexOf, Registered, Removed, WriteRecord;
    var s' := Apply(s, op);
    forall cid ensures ListedAt(s', cid) {
      assert ListedAt(s, cid);
      ListedKeptAt(s, op, cid);
    }
  }

  lemma ListedKeptAt(s: Stores, op: Op, cid: string)
    requires ListedAt(s, cid)
    ensures ListedAt(Apply(s, op), cid)
  {
    hide Merge, PutPairs, CounterPairs, Read, USER_ID, PUBLIC_KEY;
    var h := RecordOf(s, cid);
    match op {
      case Register(c) =>
        if c.credentialId == cid && cid != "" && c.userId != "" {
          hide Registered;
          RegisterEffect(s, c, c.userId);
          HashAfterPut(h, c);
        } else if c.credentialId != cid && USER_ID in h {
          Elsewhere(s, op, cid, h[USER_ID]);
        } else if c.credentialId != cid {
          Elsewhere(s, op, cid, "");
        }
      case Update(id, count, usedAt) =>
        HashAfterUpdate(h, count, usedAt);
      case Remove(id) =>
        if id == cid && Read(h, cid).Ok? {
          hide Removed;
          RemoveEffect(s, cid, "");
        } else if id != cid && USER_ID in h {
          Elsewhere(s, op, cid, h[USER_ID]);
        } else if id != cid {
          Elsewhere(s, op, cid, "");
        }
    }
  }

  /** In every run, whatever is registered under whom: a usable record is
      listed in its own user's index. */
  lemma {:induction false} UsableIsListed(ops: seq<Op>, cid: string)
    ensures Listed(RunOps(ops))
    ensures var s := RunOps(ops);
            Read(RecordOf(s, cid), cid).Ok? ==>
              var uid := Read(RecordOf(s, cid), cid).value.userId;
              uid != "" && cid in IndexOf(s, uid)
  {
    hide Apply, Read;
    if ops != [] {
      UsableIsListed(ops[..|ops| - 1], cid);
      ListedKept(RunOps(ops[..|ops| - 1]), ops[|ops| - 1]);
    }
    var s := RunOps(ops);
    if Read(RecordOf(s, cid), cid).Ok? {
      UserOfRead(RecordOf(s, cid), cid);
      assert ListedAt(s, cid);
    }
  }

  /** A registration that keeps the agreement: the id is not, at this moment,
      recorded under somebody else. */
  predicate SameOwner(s: Stores, c: Credential) {
    USER_ID !in RecordOf(s, c.credentialId) || RecordOf(s, c.credentialId)[USER_ID] == c.userId
  }

  /** Exact agreement survives a registration if and only if the id is not
      recorded under somebody else: HSET moves the record to the new user, and
      nothing takes it out of the old user's index. */
  lemma RegisterKeepsExact(s: Stores, c: Credential)
    requires Exact(s) && c.credentialId != "" && c.userId != ""
    ensures Exact(Registered(s, c)) <==> SameOwner(s, c)
  {
    hide Merge, PutPairs, Read, USER_ID, PUBLIC_KEY, Registered, RecordOf, IndexOf;
    var s', cid := Registered(s, c), c.credentialId;
    HashAfterPut(RecordOf(s, cid), c);
    forall id, uid
      ensures id != cid || SameOwner(s, c) ==> ExactAt(s', id, uid)
    {
      assert ExactAt(s, id, uid);
      RegisterEffect(s, c, uid);
      if id != cid {
        Elsewhere(s, Register(c), id, uid);
      }
    }
    if !SameOwner(s, c) {
      var former := RecordOf(s, cid)[USER_ID];
      assert ExactAt(s, cid, former);
      RegisterEffect(s, c, former);
      assert !ExactAt(s', cid, former);
    }
  }

  /** Counter updates and removals keep it always. */
  lemma OthersKeepExact(s: Stores, op: Op)
    requires Exact(s) && !op.Register?
    ensures Exact(Apply(s, op))
  {
    hide Apply;
    forall cid, uid ensures ExactAt(Apply(s, op), cid, uid) {
      assert ExactAt(s, cid, uid);
      OthersKeepExactAt(s, op, cid, uid);
    }
  }

  lemma OthersKeepExactAt(s: Stores, op: Op, cid: string, uid: string)
    requires ExactAt(s, cid, uid) && !op.Register?
    ensures ExactAt(Apply(s, op), cid, uid)
  {
    hide Merge, CounterPairs, Read, USER_ID, PUBLIC_KEY;
    var h := RecordOf(s, cid);
    match op {
      case Update(id, count, usedAt) =>
        HashAfterUpdate(h, count, usedAt);
      case Remove(id) =>
        if id != cid {
          Elsewhere(s, op, cid, uid);
        } else if Read(h, cid).Ok? {
          hide Removed;
          RemoveEffect(s, cid, uid);
          UserOfRead(h, cid);
        }
    }
  }

  predicate BothRegister(a: Op, b: Op) {
    a.Register? && b.Register? && a.c.credentialId == b.c.credentialId
  }

  /** No credential id is registered under two users. */
  predicate OneOwner(ops: seq<Op>) {
    forall i, j :: 0 <= i < |ops| && 0 <= j < |ops| && BothRegister(ops[i], ops[j])
      ==> ops[i].c.userId == ops[j].c.userId
  }

  ghost predicate NamesComeFrom(s: Stores, ops: seq<Op>) {
    forall cid :: USER_ID in RecordOf(s, cid) ==>
      exists i :: 0 <= i < |ops| && ops[i].Register? && ops[i].c.credentialId == cid
        && ops[i].c.userId == RecordOf(s, cid)[USER_ID]
  }

  lemma NamesComeFromRun(s: Stores, ops: seq<Op>, op: Op)
    requires NamesComeFrom(s, ops)
    ensures NamesComeFrom(Apply(s, op), ops + [op])
  {
    hide Merge, PutPairs, CounterPairs, Read, USER_ID, PUBLIC_KEY, Apply;
    var s', more := Apply(s, op), ops + [op];
    forall cid | USER_ID in RecordOf(s', cid)
      ensures exists i :: 0 <= i < |more| && more[i].Register? && more[i].c.credentialId == cid
                && more[i].c.userId == RecordOf(s', cid)[USER_ID]
    {
      NameAfter(s, op, cid);
      if USER_ID in RecordOf(s, cid) && RecordOf(s, cid)[USER_ID] == RecordOf(s', cid)[USER_ID] {
        var i :| 0 <= i < |ops| && ops[i].Register? && ops[i].c.credentialId == cid
                 && ops[i].c.userId == RecordOf(s, cid)[USER_ID];
        assert more[i] == ops[i];
      } else {
        assert more[|ops|] == op;
      }
    }
  }

  lemma NameAfter(s: Stores, op: Op, cid: string)
    requires USER_ID in RecordOf(Apply(s, op), cid)
    ensures var h' := RecordOf(Apply(s, op), cid);
            || (USER_ID in RecordOf(s, cid) && RecordOf(s, cid)[USER_ID] == h'[USER_ID])
            || (op.Register? && op.c.credentialId == cid && op.c.userId == h'[USER_ID])
  {
    hide Merge, PutPairs, CounterPairs, Read, USER_ID, PUBLIC_KEY;
    match op {
      case Register(c) => HashAfterPut(RecordOf(s, cid), c);
      case Update(id, count, usedAt) => HashAfterUpdate(RecordOf(s, cid), count, usedAt);
      case Remove(id) =>
    }
  }

  /** In every run in which no id is registered under two users, every index
      is exactly the set of ids whose record names its user. */
  lemma {:induction false} IndexIsExact(ops: seq<Op>)
    requires OneOwner(ops)
    ensures Exact(RunOps(ops)) && NamesComeFrom(RunOps(ops), ops)
  {
    hide Apply, Registered, USER_ID, Exact, NamesComeFrom;
    if ops == [] {
      NothingIsExact();
    } else {
      var n := |ops| - 1;
      var s, op := RunOps(ops[..n]), ops[n];
      IndexIsExact(ops[..n]);
      NamesComeFromRun(s, ops[..n], op);
      assert ops == ops[..n] + [op];
      if !op.Register? {
        OthersKeepExact(s, op);
      } else {
        OwnerStays(s, ops, n);
        RegisterOrNot(s, op.c);
      }
    }
  }

  lemma NothingIsExact()
    ensures Exact(EMPTY) && NamesComeFrom(EMPTY, [])
  {
  }

  lemma OwnerStays(s: Stores, ops: seq<Op>, n: nat)
    requires OneOwner(ops) && n < |ops| && ops[n].Register? && NamesComeFrom(s, ops[..n])
    ensures SameOwner(s, ops[n].c)
  {
  }

  lemma RegisterOrNot(s: Stores, c: Credential)
    requires Exact(s) && SameOwner(s, c)
    ensures Exact(Apply(s, Register(c)))
  {
    hide Exact, SameOwner;
    if c.credentialId != "" && c.userId != "" {
      RegisterKeepsExact(s, c);
    }
  }

  /** Every registration carries a key and an algorithm. */
  predicate Complete(ops: seq<Op>) {
    forall i :: 0 <= i < |ops| && ops[i].Register? ==> CompleteRecord(ops[i].c)
  }

  predicate CompleteRecord(c: Credential) {
    WellFormed(c) && c.publicKey != "" && c.alg != 0
  }

  ghost predicate NamedIsUsable(s: Stores) {
    forall cid :: USER_ID in RecordOf(s, cid) ==> Read(RecordOf(s, cid), cid).Ok?
  }

  lemma NamedStaysUsable(s: Stores, op: Op)
    requires NamedIsUsable(s) && (op.Register? ==> CompleteRecord(op.c))
    ensures NamedIsUsable(Apply(s, op))
  {
    hide Merge, PutPairs, CounterPairs, Read, USER_ID, Registered, Removed, RecordOf;
    var s' := Apply(s, op);
    forall cid | USER_ID in RecordOf(s', cid)
      ensures Read(RecordOf(s', cid), cid).Ok?
    {
      UsableAfter(s, op, cid);
    }
  }

  lemma UsableAfter(s: Stores, op: Op, cid: string)
    requires USER_ID in RecordOf(s, cid) ==> Read(RecordOf(s, cid), cid).Ok?
    requires op.Register? ==> CompleteRecord(op.c)
    ensures USER_ID in RecordOf(Apply(s, op), cid) ==> Read(RecordOf(Apply(s, op), cid), cid).Ok?
  {
    hide Merge, PutPairs, CounterPairs, Read, USER_ID;
    var h := RecordOf(s, cid);
    match op {
      case Register(c) =>
        if c.credentialId == cid {
          GetAfterPut(h, c);
        }
      case Update(id, count, usedAt) =>
        HashAfterUpdate(h, count, usedAt);
        GetAfterUpdate(h, cid, count, usedAt);
      case Remove(id) =>
    }
  }

  lemma {:induction false} RunIsUsable(ops: seq<Op>)
    requires Complete(ops)
    ensures NamedIsUsable(RunOps(ops))
  {
    hide Apply, NamedIsUsable;
    if ops == [] {
      NothingIsUsable();
    } else {
      RunIsUsable(ops[..|ops| - 1]);
      NamedStaysUsable(RunOps(ops[..|ops| - 1]), ops[|ops| - 1]);
    }
  }

  lemma NothingIsUsable()
    ensures NamedIsUsable(EMPTY)
  {
  }

  /** With one owner per id and complete registrations, each user's index is
      exactly the set of ids under which a usable record of that user is found:
      nothing a management tool lists is missing, stale or unusable. */
  lemma IndexIsUsableIds(ops: seq<Op>, cid: string, uid: string)
    requires OneOwner(ops) && Complete(ops)
    ensures var s := RunOps(ops);
            var r := Read(RecordOf(s, cid), cid);
            cid in IndexOf(s, uid) <==> r.Ok? && r.value.userId == uid
  {
    hide Read, RunOps;
    IndexIsExact(ops);
    RunIsUsable(ops);
    UsableIsListed(ops, cid);
    var s := RunOps(ops);
    assert ExactAt(s, cid, uid);
    if Read(RecordOf(s, cid), cid).Ok? {
      UserOfRead(RecordOf(s, cid), cid);
    }
  }

  // Any interleaving

  /** Some registration put this id under this user. */
  ghost predicate Enrolled(log: seq<Log.Entry>, cid: string, uid: string) {
    exists i :: 0 <= i < |log| && log[i].fact.Registered?
      && log[i].fact.record.credentialId == cid && log[i].fact.record.userId == uid
  }

  lemma EnrolledStays(log: seq<Log.Entry>, more: seq<Log.Entry>, cid: string, uid: string)
    requires Enrolled(log, cid, uid)
    ensures Enrolled(log + more, cid, uid)
  {
    var i :| 0 <= i < |log| && log[i].fact.Registered?
             && log[i].fact.record.credentialId == cid && log[i].fact.record.userId == uid;
    assert (log + more)[i] == log[i];
  }

  /** What is indexed, or about to be, was registered. */
  ghost predicate Accounted(s: State) {
    && (forall uid, cid {:trigger cid in IndexOf(s.stores, uid)} ::
          cid in IndexOf(s.stores, uid) ==> Enrolled(s.log, cid, uid))
    && forall pid :: pid in s.procs && s.procs[pid].AwaitsIndex? ==>
         Enrolled(s.log, s.procs[pid].cid, s.procs[pid].uid)
  }

  /** A step that adds nothing to an index and awaits nothing new. */
  lemma AccountedStays(s: State, s': State, more: seq<Log.Entry>)
    requires Accounted(s) && s'.log == s.log + more
    requires forall uid :: IndexOf(s'.stores, uid) <= IndexOf(s.stores, uid)
    requires forall pid :: pid in s'.procs && s'.procs[pid].AwaitsIndex? ==>
               pid in s.procs && s'.procs[pid] == s.procs[pid]
    ensures Accounted(s')
  {
    hide Enrolled;
    forall uid, cid | cid in IndexOf(s'.stores, uid) ensures Enrolled(s'.log, cid, uid) {
      assert cid in IndexOf(s.stores, uid);
      EnrolledStays(s.log, more, cid, uid);
    }
    forall pid | pid in s'.procs && s'.procs[pid].AwaitsIndex?
      ensures Enrolled(s'.log, s'.procs[pid].cid, s'.procs[pid].uid)
    {
      EnrolledStays(s.log, more, s.procs[pid].cid, s.procs[pid].uid);
    }
  }

  lemma AccountedStep(s: State, e: Event, window: int)
    requires Accounted(s)
    ensures Accounted(Step(s, e, window))
  {
    var s' := Step(s, e, window);
    if e.Put? {
      AccountedPut(s, e.pid, e.record, e.outcome);
    } else if e.PutIndex? {
      AccountedPutIndex(s, e.pid, e.outcome);
    } else {
      OtherSteps(s, e, window);
      AccountedStays(s, s', s'.log[|s.log|..]);
    }
  }

  /** Only PutIndex adds to an index. */
  lemma OtherSteps(s: State, e: Event, window: int)
    requires !e.Put? && !e.PutIndex?
    ensures var s' := Step(s, e, window);
            && |s'.log| >= |s.log| && s'.log[..|s.log|] == s.log
            && s'.log == s.log + s'.log[|s.log|..]
            && (forall uid :: IndexOf(s'.stores, uid) <= IndexOf(s.stores, uid))
            && (forall pid :: pid in s'.procs && s'.procs[pid].AwaitsIndex? ==>
                  pid in s.procs && s'.procs[pid] == s.procs[pid])
  {
    hide Read, Merge, CounterPairs, RecordOf, CounterOf, Expiring;
  }

  lemma AccountedPut(s: State, pid: nat, c: Credential, outcome: Outcome)
    requires Accounted(s)
    ensures Accounted(PutStep(s, pid, c, outcome))
  {
    hide Merge, PutPairs, WellFormed, Enrolled;
    var s' := PutStep(s, pid, c, outcome);
    if !(pid in s.procs || !WellFormed(c) || outcome.Failed?) {
      var e := Log.Entry(s.now, Log.Registered(c));
      JustEnrolled(s.log, e, c);
      forall uid, cid | cid in IndexOf(s'.stores, uid) ensures Enrolled(s'.log, cid, uid) {
        assert cid in IndexOf(s.stores, uid);
        EnrolledStays(s.log, [e], cid, uid);
      }
      forall q | q in s'.procs && s'.procs[q].AwaitsIndex?
        ensures Enrolled(s'.log, s'.procs[q].cid, s'.procs[q].uid)
      {
        if q in s.procs {
          EnrolledStays(s.log, [e], s.procs[q].cid, s.procs[q].uid);
        }
      }
    }
  }

  lemma JustEnrolled(log: seq<Log.Entry>, e: Log.Entry, c: Credential)
    requires e.fact == Log.Registered(c)
    ensures Enrolled(log + [e], c.credentialId, c.userId)
  {
    assert (log + [e])[|log|] == e;
  }

  lemma AccountedPutIndex(s: State, pid: nat, outcome: Outcome)
    requires Accounted(s)
    ensures Accounted(PutIndexStep(s, pid, outcome))
  {
    hide Enrolled;
    var s' := PutIndexStep(s, pid, outcome);
    if s' != s {
      var AwaitsIndex(c, u) := s.procs[pid];
      forall uid, cid | cid in IndexOf(s'.stores, uid) ensures Enrolled(s'.log, cid, uid) {
        assert cid in IndexOf(s.stores, uid) || (cid == c && uid == u);
      }
    }
  }

  lemma {:induction false} RunIsAccounted(start: int, events: seq<Event>, window: int)
    ensures Accounted(Run(start, events, window))
  {
    hide Step, Accounted;
    if events == [] {
      NothingAccounted(start);
    } else {
      RunIsAccounted(start, events[..|events| - 1], window);
      AccountedStep(Run(start, events[..|events| - 1], window), events[|events| - 1], window);
    }
  }

  lemma NothingAccounted(start: int)
    ensures Accounted(Initial(start))
  {
  }

  /** In every run, interleaved and failing as it may be, an index lists only
      ids that were registered for its user: it can be stale, never foreign. */
  lemma IndexedWasRegistered(start: int, events: seq<Event>, window: int, cid: string, uid: string)
    requires cid in IndexOf(Run(start, events, window).stores, uid)
    ensures Enrolled(Run(start, events, window).log, cid, uid)
  {
    hide Run, Enrolled;
    RunIsAccounted(start, events, window);
  }
}
