/** The shared Redis database as the commands of src/ngx_auth_webauthn_redis.c
    use it. Each command is one atomic function of the database and the clock;
    the class adds the connection, which may fail before a command takes effect
    or lose the reply after it did. */
module Redis {
  import opened Credential
  import opened Prelude
  import opened RateLimit

  datatype Value =
    | Text(s: string)
    | Count(n: nat)
    | Hash(h: Hash)
    | Members(m: set<string>)

  /** A key without expiry lives for ever; one with expiry e until e, exclusive. */
  datatype Entry = Entry(value: Value, expiry: Option<int>)

  type Db = map<string, Entry>

  predicate Alive(db: Db, key: string, now: int) {
    key in db && (db[key].expiry.Some? ==> now < db[key].expiry.value)
  }

  // Commands

  function SetEx(db: Db, key: string, s: string, seconds: nat, now: int): Db {
    db[key := Entry(Text(s), Some(now + seconds))]
  }

  predicate GetDelFinds(db: Db, key: string, now: int) {
    Alive(db, key, now) && db[key].value.Text?
  }

  function GetDel(db: Db, key: string, now: int): Db {
    if GetDelFinds(db, key, now) || !Alive(db, key, now) then db - {key} else db
  }

  predicate HoldsHash(db: Db, key: string, now: int) {
    Alive(db, key, now) ==> db[key].value.Hash?
  }

  /** What HGETALL sees: the empty hash for a missing key. */
  function HashAt(db: Db, key: string, now: int): Hash {
    if Alive(db, key, now) && db[key].value.Hash? then db[key].value.h else map[]
  }

  function HSet(db: Db, key: string, pairs: seq<Pair>, now: int): Db {
    db[key := Entry(Hash(Merge(HashAt(db, key, now), pairs)),
                    if Alive(db, key, now) then db[key].expiry else None)]
  }

  function Del(db: Db, key: string): Db {
    db - {key}
  }

  predicate HoldsSet(db: Db, key: string, now: int) {
    Alive(db, key, now) ==> db[key].value.Members?
  }

  function SetAt(db: Db, key: string, now: int): set<string> {
    if Alive(db, key, now) && db[key].value.Members? then db[key].value.m else {}
  }

  /** A set that becomes empty is removed with its key. */
  function PutSet(db: Db, key: string, m: set<string>, now: int): Db {
    if m == {} then db - {key}
    else db[key := Entry(Members(m), if Alive(db, key, now) then db[key].expiry else None)]
  }

  /** A sequence that names every element of a set once. */
  predicate Lists(members: seq<string>, s: set<string>) {
    && (forall i :: 0 <= i < |members| ==> members[i] in s)
    && (forall m :: m in s ==> m in members)
    && forall i, j :: 0 <= i < j < |members| ==> members[i] != members[j]
  }

  predicate HoldsCount(db: Db, key: string, now: int) {
    Alive(db, key, now) ==> db[key].value.Count?
  }

  function CounterAt(db: Db, key: string): Counter {
    if key in db && db[key].value.Count? then Counting(db[key].value.n, db[key].expiry) else Absent
  }

  /** The INCR/TTL/EXPIRE script. */
  function IncrExpire(db: Db, key: string, seconds: int, now: int): Db {
    var c := Hit(CounterAt(db, key), seconds, now);
    db[key := Entry(Count(c.count), c.expiry)]
  }

  /** Redis dropping the strings that have expired. */
  function Purged(db: Db, now: int): Db {
    map k | k in db && !(db[k].value.Text? && db[k].expiry.Some? && db[k].expiry.value <= now) :: db[k]
  }

  // Requests and replies as argument arrays

  function Flattened(pairs: seq<Pair>): seq<string> {
    if pairs == [] then []
    else Flattened(pairs[..|pairs| - 1]) + [pairs[|pairs| - 1].name, pairs[|pairs| - 1].value]
  }

  lemma {:induction false} FlattenedLength(pairs: seq<Pair>)
    ensures |Flattened(pairs)| == 2 * |pairs|
  {
    if pairs != [] {
      FlattenedLength(pairs[..|pairs| - 1]);
    }
  }

  lemma {:induction false} FlattenedAt(pairs: seq<Pair>, i: nat)
    requires i < |pairs|
    ensures |Flattened(pairs)| == 2 * |pairs|
    ensures Flattened(pairs)[2 * i] == pairs[i].name && Flattened(pairs)[2 * i + 1] == pairs[i].value
    decreases |pairs|
  {
    FlattenedLength(pairs);
    FlattenedLength(pairs[..|pairs| - 1]);
    if i < |pairs| - 1 {
      FlattenedAt(pairs[..|pairs| - 1], i);
    }
  }

  /** The argument array of HSET, src/ngx_auth_webauthn_redis.c:229. */
  method HSetArguments(key: string, pairs: seq<Pair>) returns (argv: seq<string>)
    ensures argv == ["HSET", key] + Flattened(pairs)
  {
    argv := ["HSET", key];
    assert pairs[..0] == [];
    for p := 0 to |pairs|
      invariant argv == ["HSET", key] + Flattened(pairs[..p])
    {
      assert pairs[..p + 1][..p] == pairs[..p];
      argv := argv + [pairs[p].name];
      argv := argv + [pairs[p].value];
    }
    assert pairs[..|pairs|] == pairs;
  }

  /** Regrouping an HGETALL reply, src/ngx_auth_webauthn_redis.c:311. The reply
      of a server is the flattened listing of a hash; both directions agree. */
  method Regroup(reply: seq<string>) returns (pairs: seq<Pair>)
    ensures |pairs| == |reply| / 2
    ensures forall listing :: Flattened(listing) == reply ==> pairs == listing
  {
    var n := |reply| / 2;
    pairs := [];
    for i := 0 to n
      invariant |pairs| == i
      invariant forall j :: 0 <= j < i ==> pairs[j] == Pair(reply[2 * j], reply[2 * j + 1])
    {
      pairs := pairs + [Pair(reply[i * 2], reply[i * 2 + 1])];
    }
    forall listing | Flattened(listing) == reply
      ensures pairs == listing
    {
      FlattenedLength(listing);
      forall j | 0 <= j < |listing|
        ensures pairs[j] == listing[j]
      {
        FlattenedAt(listing, j);
      }
    }
  }

  /** A server's view of HSET: field and value arguments assigned in turn. */
  function Assigned(h: Hash, fields: seq<string>): Hash
    decreases |fields|
  {
    if |fields| < 2 then h
    else Assigned(h[fields[0] := fields[1]], fields[2..])
  }

  lemma {:induction false} AssignedAppend(h: Hash, fields: seq<string>, name: string, value: string)
    requires |fields| % 2 == 0
    ensures Assigned(h, fields + [name, value]) == Assigned(h, fields)[name := value]
    decreases |fields|
  {
    if fields == [] {
      assert Assigned(h[name := value], [name, value][2..]) == h[name := value];
      assert fields + [name, value] == [name, value];
    } else {
      assert (fields + [name, value])[2..] == fields[2..] + [name, value];
      AssignedAppend(h[fields[0] := fields[1]], fields[2..], name, value);
    }
  }

  /** What the argument array makes the server do is Merge. */
  lemma {:induction false} ArgumentsMean(h: Hash, pairs: seq<Pair>)
    ensures Assigned(h, Flattened(pairs)) == Merge(h, pairs)
  {
    if pairs != [] {
      var n := |pairs| - 1;
      ArgumentsMean(h, pairs[..n]);
      FlattenedLength(pairs[..n]);
      AssignedAppend(h, Flattened(pairs[..n]), pairs[n].name, pairs[n].value);
    }
  }

  // The connection

  /** A server and the connection to it. `fate` decides what becomes of each
      exchange, whatever the caller does; `sent` counts them. Other clients
      change db, and time passes, between exchanges. */
  class Redis {
    const fate: nat -> Outcome
    var db: Db
    var now: int
    var sent: nat

    constructor (fate: nat -> Outcome, db: Db, now: int)
      ensures this.fate == fate && this.db == db && this.now == now && sent == 0
    {
      this.fate, this.db, this.now, sent := fate, db, now, 0;
    }

    /** One exchange with the server that asks for the database `after`. */
    method Exchange(after: Db) returns (ok: bool)
      modifies this`db, this`sent
      ensures sent == old(sent) + 1
      ensures ok == fate(old(sent)).Done?
      ensures db == if fate(old(sent)).Failed? then old(db) else after
    {
      var outcome := fate(sent);
      sent := sent + 1;
      if !outcome.Failed? {
        db := after;
      }
      ok := outcome.Done?;
    }

    method SetExpiring(key: string, s: string, seconds: nat) returns (ok: bool)
      modifies this`db, this`sent
      ensures sent == old(sent) + 1 && ok == fate(old(sent)).Done?
      ensures db == if fate(old(sent)).Failed? then old(db) else SetEx(old(db), key, s, seconds, now)
    {
      ok := Exchange(SetEx(db, key, s, seconds, now));
    }

    method GetAndDelete(key: string) returns (ok: bool, found: bool)
      modifies this`db, this`sent
      ensures sent == old(sent) + 1 && ok == fate(old(sent)).Done?
      ensures db == if fate(old(sent)).Failed? then old(db) else GetDel(old(db), key, now)
      ensures found <==> ok && GetDelFinds(old(db), key, now)
    {
      var present := GetDelFinds(db, key, now);
      ok := Exchange(GetDel(db, key, now));
      found := ok && present;
    }

    method SetFields(key: string, pairs: seq<Pair>) returns (ok: bool)
      requires HoldsHash(db, key, now)
      modifies this`db, this`sent
      ensures pairs == [] ==> ok && sent == old(sent) && db == old(db)
      ensures pairs != [] ==>
                && sent == old(sent) + 1 && ok == fate(old(sent)).Done?
                && db == if fate(old(sent)).Failed? then old(db) else HSet(old(db), key, pairs, now)
    {
      if |pairs| == 0 {
        return true;
      }
      var argv := HSetArguments(key, pairs);
      assert argv[2..] == Flattened(pairs);
      ArgumentsMean(HashAt(db, key, now), pairs);
      var after := db[key := Entry(Hash(Assigned(HashAt(db, key, now), argv[2..])),
                                   if Alive(db, key, now) then db[key].expiry else None)];
      ok := Exchange(after);
    }

    /** HGETALL: the hash, listed in an order of the server's choosing. */
    method AllFields(key: string) returns (ok: bool, pairs: seq<Pair>)
      modifies this`db, this`sent
      ensures sent == old(sent) + 1 && ok == fate(old(sent)).Done? && db == old(db)
      ensures ok ==> DistinctNames(pairs) && Merge(map[], pairs) == HashAt(db, key, now)
    {
      ok := Exchange(db);
      var listing := Listing(HashAt(db, key, now));
      var reply := Reply(listing);
      pairs := Regroup(reply);
    }

    /** SMEMBERS: each member once, in an order of the server's choosing. */
    method AllMembers(key: string) returns (ok: bool, members: seq<string>)
      modifies this`db, this`sent
      ensures sent == old(sent) + 1 && ok == fate(old(sent)).Done? && db == old(db)
      ensures ok ==> Lists(members, SetAt(db, key, now))
    {
      ok := Exchange(db);
      members := [];
      var left := SetAt(db, key, now);
      while left != {}
        invariant left <= SetAt(db, key, now)
        invariant Lists(members, SetAt(db, key, now) - left)
        decreases left
      {
        var m :| m in left;
        assert SetAt(db, key, now) - (left - {m}) == SetAt(db, key, now) - left + {m};
        members := members + [m];
        left := left - {m};
      }
    }

    method Delete(key: string) returns (ok: bool)
      modifies this`db, this`sent
      ensures sent == old(sent) + 1 && ok == fate(old(sent)).Done?
      ensures db == if fate(old(sent)).Failed? then old(db) else Del(old(db), key)
    {
      ok := Exchange(Del(db, key));
    }

    method AddMember(key: string, member: string) returns (ok: bool)
      requires HoldsSet(db, key, now)
      modifies this`db, this`sent
      ensures sent == old(sent) + 1 && ok == fate(old(sent)).Done?
      ensures db == if fate(old(sent)).Failed? then old(db)
                    else PutSet(old(db), key, SetAt(old(db), key, now) + {member}, now)
    {
      ok := Exchange(PutSet(db, key, SetAt(db, key, now) + {member}, now));
    }

    method RemoveMember(key: string, member: string) returns (ok: bool)
      requires HoldsSet(db, key, now)
      modifies this`db, this`sent
      ensures sent == old(sent) + 1 && ok == fate(old(sent)).Done?
      ensures db == if fate(old(sent)).Failed? then old(db)
                    else PutSet(old(db), key, SetAt(old(db), key, now) - {member}, now)
    {
      ok := Exchange(PutSet(db, key, SetAt(db, key, now) - {member}, now));
    }

    method Increment(key: string, seconds: int) returns (ok: bool, value: nat)
      requires HoldsCount(db, key, now)
      modifies this`db, this`sent
      ensures sent == old(sent) + 1 && ok == fate(old(sent)).Done?
      ensures db == if fate(old(sent)).Failed? then old(db) else IncrExpire(old(db), key, seconds, now)
      ensures ok ==> value == db[key].value.n
    {
      var after := IncrExpire(db, key, seconds, now);
      ok := Exchange(after);
      value := if ok then after[key].value.n else 0;
    }
  }

  /** The server enumerating a hash. */
  method Listing(h: Hash) returns (pairs: seq<Pair>)
    ensures DistinctNames(pairs) && Merge(map[], pairs) == h
  {
    pairs := [];
    var left := h.Keys;
    while left != {}
      invariant left <= h.Keys && DistinctNames(pairs)
      invariant Merge(map[], pairs) == map k | k in h && k !in left :: h[k]
      decreases left
    {
      var k :| k in left;
      ghost var before := pairs;
      MergedKeys(pairs);
      MergeSnoc(map[], pairs, Pair(k, h[k]));
      pairs := pairs + [Pair(k, h[k])];
      assert forall i :: 0 <= i < |before| ==> before[i].name in Merge(map[], before);
      left := left - {k};
    }
  }

  method Reply(listing: seq<Pair>) returns (reply: seq<string>)
    ensures reply == Flattened(listing)
  {
    var argv := HSetArguments("", listing);
    reply := argv[2..];
  }
}
