/** One flat Redis key space under a prefix stands for the four stores: every
    key builder is injective, no two of them share a key, and each command on a
    built key does to the flat database what it does to its own store. */
module KeySpace {
  import opened Credential
  import opened Prelude
  import opened RateLimit
  import opened Redis
  import opened Stores

  function ChalKey(prefix: string, raw: string): string {
    prefix + "chal:" + raw
  }

  function CredKey(prefix: string, cid: string): string {
    prefix + "cred:" + cid
  }

  function IndexKey(prefix: string, uid: string): string {
    prefix + "user:" + uid + ":creds"
  }

  function RateKey(prefix: string, ip: string): string {
    prefix + "ratelimit:challenge:" + ip
  }

  lemma ChalKeyParts(prefix: string, raw: string)
    ensures var k := ChalKey(prefix, raw);
            |k| >= |prefix| + 5 && k[|prefix|] == 'c' && k[|prefix| + 1] == 'h' && k[|prefix| + 5..] == raw
  {
  }

  lemma CredKeyParts(prefix: string, cid: string)
    ensures var k := CredKey(prefix, cid);
            |k| >= |prefix| + 5 && k[|prefix|] == 'c' && k[|prefix| + 1] == 'r' && k[|prefix| + 5..] == cid
  {
  }

  lemma IndexKeyParts(prefix: string, uid: string)
    ensures var k := IndexKey(prefix, uid);
            |k| == |prefix| + 11 + |uid| && k[|prefix|] == 'u' && k[|prefix| + 5..|k| - 6] == uid
  {
  }

  lemma RateKeyParts(prefix: string, ip: string)
    ensures var k := RateKey(prefix, ip);
            |k| >= |prefix| + 20 && k[|prefix|] == 'r' && k[|prefix| + 20..] == ip
  {
  }

  /** Injective, and pairwise disjoint, for all byte strings. */
  lemma KeysApart(prefix: string)
    ensures forall x, y {:trigger ChalKey(prefix, x), ChalKey(prefix, y)} ::
              ChalKey(prefix, x) == ChalKey(prefix, y) ==> x == y
    ensures forall x, y {:trigger CredKey(prefix, x), CredKey(prefix, y)} ::
              CredKey(prefix, x) == CredKey(prefix, y) ==> x == y
    ensures forall x, y {:trigger IndexKey(prefix, x), IndexKey(prefix, y)} ::
              IndexKey(prefix, x) == IndexKey(prefix, y) ==> x == y
    ensures forall x, y {:trigger RateKey(prefix, x), RateKey(prefix, y)} ::
              RateKey(prefix, x) == RateKey(prefix, y) ==> x == y
    ensures forall x, y {:trigger ChalKey(prefix, x), CredKey(prefix, y)} :: ChalKey(prefix, x) != CredKey(prefix, y)
    ensures forall x, y {:trigger ChalKey(prefix, x), IndexKey(prefix, y)} :: ChalKey(prefix, x) != IndexKey(prefix, y)
    ensures forall x, y {:trigger ChalKey(prefix, x), RateKey(prefix, y)} :: ChalKey(prefix, x) != RateKey(prefix, y)
    ensures forall x, y {:trigger CredKey(prefix, x), IndexKey(prefix, y)} :: CredKey(prefix, x) != IndexKey(prefix, y)
    ensures forall x, y {:trigger CredKey(prefix, x), RateKey(prefix, y)} :: CredKey(prefix, x) != RateKey(prefix, y)
    ensures forall x, y {:trigger IndexKey(prefix, x), RateKey(prefix, y)} :: IndexKey(prefix, x) != RateKey(prefix, y)
  {
    hide ChalKey, CredKey, IndexKey, RateKey;
    forall x { ChalKeyParts(prefix, x); }
    forall x { CredKeyParts(prefix, x); }
    forall x { IndexKeyParts(prefix, x); }
    forall x { RateKeyParts(prefix, x); }
  }

  ghost predicate ChalAt(prefix: string, db: Db, chal: map<string, int>, raw: string) {
    && (ChalKey(prefix, raw) in db <==> raw in chal)
    && (raw in chal ==> db[ChalKey(prefix, raw)] == Entry(Text("1"), Some(chal[raw])))
  }

  ghost predicate CredAt(prefix: string, db: Db, recs: map<string, Hash>, cid: string) {
    && (CredKey(prefix, cid) in db <==> cid in recs)
    && (cid in recs ==> db[CredKey(prefix, cid)] == Entry(Hash(recs[cid]), None))
  }

  ghost predicate IndexAt(prefix: string, db: Db, index: map<string, set<string>>, uid: string) {
    && (IndexKey(prefix, uid) in db <==> uid in index)
    && (uid in index ==> db[IndexKey(prefix, uid)] == Entry(Members(index[uid]), None) && index[uid] != {})
  }

  ghost predicate RateAt(prefix: string, db: Db, rate: map<string, Counter>, ip: string) {
    && (RateKey(prefix, ip) in db <==> ip in rate)
    && (ip in rate ==>
          rate[ip].Counting? && db[RateKey(prefix, ip)] == Entry(Count(rate[ip].count), rate[ip].expiry))
  }

  /** The flat database represents the four stores. Keys outside the four
      shapes are unconstrained. */
  ghost predicate Represents(prefix: string, db: Db, s: Stores) {
    && (forall raw :: ChalAt(prefix, db, s.chal, raw))
    && (forall cid :: CredAt(prefix, db, s.recs, cid))
    && (forall uid :: IndexAt(prefix, db, s.index, uid))
    && (forall ip :: RateAt(prefix, db, s.rate, ip))
  }

  /** Two databases that differ at one key at most. */
  ghost predicate DifferAt(db: Db, db': Db, key: string) {
    forall k :: k != key ==> (k in db <==> k in db') && (k in db ==> db[k] == db'[k])
  }

  lemma FrameChal(prefix: string, db: Db, db': Db, s: Stores, key: string)
    requires Represents(prefix, db, s) && DifferAt(db, db', key)
    requires forall raw {:trigger ChalKey(prefix, raw)} :: ChalKey(prefix, raw) != key
    ensures forall raw :: ChalAt(prefix, db', s.chal, raw)
  {
    forall raw ensures ChalAt(prefix, db', s.chal, raw) { assert ChalAt(prefix, db, s.chal, raw); }
  }

  lemma FrameCred(prefix: string, db: Db, db': Db, s: Stores, key: string)
    requires Represents(prefix, db, s) && DifferAt(db, db', key)
    requires forall cid {:trigger CredKey(prefix, cid)} :: CredKey(prefix, cid) != key
    ensures forall cid :: CredAt(prefix, db', s.recs, cid)
  {
    forall cid ensures CredAt(prefix, db', s.recs, cid) { assert CredAt(prefix, db, s.recs, cid); }
  }

  lemma FrameIndex(prefix: string, db: Db, db': Db, s: Stores, key: string)
    requires Represents(prefix, db, s) && DifferAt(db, db', key)
    requires forall uid {:trigger IndexKey(prefix, uid)} :: IndexKey(prefix, uid) != key
    ensures forall uid :: IndexAt(prefix, db', s.index, uid)
  {
    forall uid ensures IndexAt(prefix, db', s.index, uid) { assert IndexAt(prefix, db, s.index, uid); }
  }

  lemma FrameRate(prefix: string, db: Db, db': Db, s: Stores, key: string)
    requires Represents(prefix, db, s) && DifferAt(db, db', key)
    requires forall ip {:trigger RateKey(prefix, ip)} :: RateKey(prefix, ip) != key
    ensures forall ip :: RateAt(prefix, db', s.rate, ip)
  {
    forall ip ensures RateAt(prefix, db', s.rate, ip) { assert RateAt(prefix, db, s.rate, ip); }
  }

  /** A change at one challenge key is a change of that challenge alone. */
  lemma ChalChange(prefix: string, db: Db, db': Db, s: Stores, s': Stores, raw: string)
    requires Represents(prefix, db, s) && DifferAt(db, db', ChalKey(prefix, raw))
    requires s' == s.(chal := s'.chal) && s'.chal - {raw} == s.chal - {raw}
    requires ChalAt(prefix, db', s'.chal, raw)
    ensures Represents(prefix, db', s')
  {
    hide ChalKey, CredKey, IndexKey, RateKey;
    KeysApart(prefix);
    var key := ChalKey(prefix, raw);
    FrameCred(prefix, db, db', s, key);
    FrameIndex(prefix, db, db', s, key);
    FrameRate(prefix, db, db', s, key);
    forall r ensures ChalAt(prefix, db', s'.chal, r) {
      if r != raw {
        assert ChalAt(prefix, db, s.chal, r);
        assert r in s'.chal - {raw} <==> r in s.chal - {raw};
      }
    }
  }

  lemma CredChange(prefix: string, db: Db, db': Db, s: Stores, s': Stores, cid: string)
    requires Represents(prefix, db, s) && DifferAt(db, db', CredKey(prefix, cid))
    requires s' == s.(recs := s'.recs) && s'.recs - {cid} == s.recs - {cid}
    requires CredAt(prefix, db', s'.recs, cid)
    ensures Represents(prefix, db', s')
  {
    hide ChalKey, CredKey, IndexKey, RateKey;
    KeysApart(prefix);
    var key := CredKey(prefix, cid);
    FrameChal(prefix, db, db', s, key);
    FrameIndex(prefix, db, db', s, key);
    FrameRate(prefix, db, db', s, key);
    forall c ensures CredAt(prefix, db', s'.recs, c) {
      if c != cid {
        assert CredAt(prefix, db, s.recs, c);
        assert c in s'.recs - {cid} <==> c in s.recs - {cid};
      }
    }
  }

  lemma IndexChange(prefix: string, db: Db, db': Db, s: Stores, s': Stores, uid: string)
    requires Represents(prefix, db, s) && DifferAt(db, db', IndexKey(prefix, uid))
    requires s' == s.(index := s'.index) && s'.index - {uid} == s.index - {uid}
    requires IndexAt(prefix, db', s'.index, uid)
    ensures Represents(prefix, db', s')
  {
    hide ChalKey, CredKey, IndexKey, RateKey;
    KeysApart(prefix);
    var key := IndexKey(prefix, uid);
    FrameChal(prefix, db, db', s, key);
    FrameCred(prefix, db, db', s, key);
    FrameRate(prefix, db, db', s, key);
    forall u ensures IndexAt(prefix, db', s'.index, u) {
      if u != uid {
        assert IndexAt(prefix, db, s.index, u);
        assert u in s'.index - {uid} <==> u in s.index - {uid};
      }
    }
  }

  lemma RateChange(prefix: string, db: Db, db': Db, s: Stores, s': Stores, ip: string)
    requires Represents(prefix, db, s) && DifferAt(db, db', RateKey(prefix, ip))
    requires s' == s.(rate := s'.rate) && s'.rate - {ip} == s.rate - {ip}
    requires RateAt(prefix, db', s'.rate, ip)
    ensures Represents(prefix, db', s')
  {
    hide ChalKey, CredKey, IndexKey, RateKey;
    KeysApart(prefix);
    var key := RateKey(prefix, ip);
    FrameChal(prefix, db, db', s, key);
    FrameCred(prefix, db, db', s, key);
    FrameIndex(prefix, db, db', s, key);
    forall i ensures RateAt(prefix, db', s'.rate, i) {
      if i != ip {
        assert RateAt(prefix, db, s.rate, i);
        assert i in s'.rate - {ip} <==> i in s.rate - {ip};
      }
    }
  }

  // Each command on a built key, against the store it is meant for

  lemma IssueRefines(prefix: string, db: Db, s: Stores, raw: string, ttl: nat, now: int)
    requires Represents(prefix, db, s)
    ensures Represents(prefix, SetEx(db, ChalKey(prefix, raw), "1", ttl, now), Issue(s, raw, now + ttl))
  {
    hide ChalKey, Represents;
    ChalChange(prefix, db, SetEx(db, ChalKey(prefix, raw), "1", ttl, now), s, Issue(s, raw, now + ttl), raw);
  }

  /** Expiry drops the challenges that have run out and nothing else. */
  lemma ExpiryRefines(prefix: string, db: Db, s: Stores, now: int)
    requires Represents(prefix, db, s)
    ensures Represents(prefix, Purged(db, now), Expire(s, now))
  {
    hide ChalKey, CredKey, IndexKey, RateKey;
    var db', s' := Purged(db, now), Expire(s, now);
    forall raw ensures ChalAt(prefix, db', s'.chal, raw) { assert ChalAt(prefix, db, s.chal, raw); }
    forall cid ensures CredAt(prefix, db', s'.recs, cid) { assert CredAt(prefix, db, s.recs, cid); }
    forall uid ensures IndexAt(prefix, db', s'.index, uid) { assert IndexAt(prefix, db, s.index, uid); }
    forall ip ensures RateAt(prefix, db', s'.rate, ip) { assert RateAt(prefix, db, s.rate, ip); }
  }

  lemma ConsumeRefines(prefix: string, db: Db, s: Stores, raw: string, now: int)
    requires Represents(prefix, db, s)
    ensures GetDelFinds(db, ChalKey(prefix, raw), now) <==> ChallengeLive(s, raw, now)
    ensures Represents(prefix, GetDel(db, ChalKey(prefix, raw), now), Consume(s, raw))
  {
    hide ChalKey;
    assert ChalAt(prefix, db, s.chal, raw);
    ChalChange(prefix, db, GetDel(db, ChalKey(prefix, raw), now), s, Consume(s, raw), raw);
  }

  lemma ReadRefines(prefix: string, db: Db, s: Stores, cid: string, now: int)
    requires Represents(prefix, db, s)
    ensures HoldsHash(db, CredKey(prefix, cid), now)
    ensures HashAt(db, CredKey(prefix, cid), now) == RecordOf(s, cid)
  {
    hide CredKey;
    assert CredAt(prefix, db, s.recs, cid);
  }

  lemma WriteRefines(prefix: string, db: Db, s: Stores, cid: string, pairs: seq<Pair>, now: int)
    requires Represents(prefix, db, s)
    ensures Represents(prefix, HSet(db, CredKey(prefix, cid), pairs, now), WriteRecord(s, cid, pairs))
  {
    hide CredKey, Merge;
    assert CredAt(prefix, db, s.recs, cid);
    CredChange(prefix, db, HSet(db, CredKey(prefix, cid), pairs, now), s, WriteRecord(s, cid, pairs), cid);
  }

  lemma DropRefines(prefix: string, db: Db, s: Stores, cid: string)
    requires Represents(prefix, db, s)
    ensures Represents(prefix, Del(db, CredKey(prefix, cid)), DropRecord(s, cid))
  {
    hide CredKey;
    CredChange(prefix, db, Del(db, CredKey(prefix, cid)), s, DropRecord(s, cid), cid);
  }

  lemma IndexRefines(prefix: string, db: Db, s: Stores, uid: string, m: set<string>, now: int)
    requires Represents(prefix, db, s)
    ensures HoldsSet(db, IndexKey(prefix, uid), now)
    ensures SetAt(db, IndexKey(prefix, uid), now) == IndexOf(s, uid)
    ensures Represents(prefix, PutSet(db, IndexKey(prefix, uid), m, now), SetIndex(s, uid, m))
  {
    hide IndexKey;
    assert IndexAt(prefix, db, s.index, uid);
    IndexChange(prefix, db, PutSet(db, IndexKey(prefix, uid), m, now), s, SetIndex(s, uid, m), uid);
  }

  lemma HitRefines(prefix: string, db: Db, s: Stores, ip: string, window: int, now: int)
    requires Represents(prefix, db, s)
    ensures HoldsCount(db, RateKey(prefix, ip), now)
    ensures CounterAt(db, RateKey(prefix, ip)) == CounterOf(s, ip)
    ensures Represents(prefix, IncrExpire(db, RateKey(prefix, ip), window, now), CountHit(s, ip, window, now))
  {
    hide RateKey;
    assert RateAt(prefix, db, s.rate, ip);
    RateChange(prefix, db, IncrExpire(db, RateKey(prefix, ip), window, now), s, CountHit(s, ip, window, now), ip);
  }
}
