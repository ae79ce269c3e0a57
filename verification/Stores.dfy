/** The four stores the module keeps in Redis, as maps of their own, and what
    each Redis command does to them. */
module Stores {
  import opened Credential
  import opened RateLimit

  /** Challenges by nonce with their expiry, records by credential id, index
      sets by user id (never empty), quota counters by client address. */
  datatype Stores = Stores(
    chal: map<string, int>,
    recs: map<string, Hash>,
    index: map<string, set<string>>,
    rate: map<string, Counter>)

  const EMPTY := Stores(map[], map[], map[], map[])

  function RecordOf(s: Stores, cid: string): Hash {
    if cid in s.recs then s.recs[cid] else map[]
  }

  function IndexOf(s: Stores, uid: string): set<string> {
    if uid in s.index then s.index[uid] else {}
  }

  function CounterOf(s: Stores, ip: string): Counter {
    if ip in s.rate then s.rate[ip] else Absent
  }

  /** SET EX. */
  function Issue(s: Stores, nonce: string, expiry: int): Stores {
    s.(chal := s.chal[nonce := expiry])
  }

  predicate ChallengeLive(s: Stores, nonce: string, now: int) {
    nonce in s.chal && now < s.chal[nonce]
  }

  /** Challenges whose time has come are gone. */
  function Expire(s: Stores, now: int): Stores {
    s.(chal := s.chal - Expiring(s, now))
  }

  function Expiring(s: Stores, now: int): set<string> {
    set n | n in s.chal && s.chal[n] <= now
  }

  /** GETDEL. */
  function Consume(s: Stores, nonce: string): Stores {
    s.(chal := s.chal - {nonce})
  }

  /** HSET on a record. */
  function WriteRecord(s: Stores, cid: string, pairs: seq<Pair>): Stores {
    s.(recs := s.recs[cid := Merge(RecordOf(s, cid), pairs)])
  }

  /** DEL on a record. */
  function DropRecord(s: Stores, cid: string): Stores {
    s.(recs := s.recs - {cid})
  }

  function SetIndex(s: Stores, uid: string, m: set<string>): Stores {
    s.(index := if m == {} then s.index - {uid} else s.index[uid := m])
  }

  /** SADD. */
  function AddToIndex(s: Stores, uid: string, cid: string): Stores {
    SetIndex(s, uid, IndexOf(s, uid) + {cid})
  }

  /** SREM. */
  function RemoveFromIndex(s: Stores, uid: string, cid: string): Stores {
    SetIndex(s, uid, IndexOf(s, uid) - {cid})
  }

  /** The INCR/EXPIRE script. */
  function CountHit(s: Stores, ip: string, window: int, now: int): Stores {
    s.(rate := s.rate[ip := Hit(CounterOf(s, ip), window, now)])
  }
}
