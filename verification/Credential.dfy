/** The credential record of src/ngx_auth_webauthn_credential.c: which hash
    fields it writes, and what it reads back from a hash. */
module Credential {
  import opened Buffer
  import opened Decimal
  import opened Prelude

  datatype Credential = Credential(
    credentialId: string,
    userId: string,
    publicKey: string,
    alg: int,
    signCount: nat,
    createdAt: int,
    lastUsedAt: int,
    aaguid: Option<string>,
    transports: string)

  type Hash = map<string, string>

  datatype Pair = Pair(name: string, value: string)

  const USER_ID := "user_id"
  const PUBLIC_KEY := "public_key"
  const ALG := "alg"
  const SIGN_COUNT := "sign_count"
  const CREATED_AT := "created_at"
  const LAST_USED_AT := "last_used_at"
  const AAGUID := "aaguid"
  const TRANSPORTS := "transports"

  const MAX_PAIRS := 8

  lemma FieldsDistinct()
    ensures USER_ID != PUBLIC_KEY && USER_ID != ALG && USER_ID != SIGN_COUNT && USER_ID != CREATED_AT
    ensures USER_ID != LAST_USED_AT && USER_ID != AAGUID && USER_ID != TRANSPORTS
    ensures PUBLIC_KEY != ALG && PUBLIC_KEY != SIGN_COUNT && PUBLIC_KEY != CREATED_AT
    ensures PUBLIC_KEY != LAST_USED_AT && PUBLIC_KEY != AAGUID && PUBLIC_KEY != TRANSPORTS
    ensures ALG != SIGN_COUNT && ALG != CREATED_AT && ALG != LAST_USED_AT && ALG != AAGUID && ALG != TRANSPORTS
    ensures SIGN_COUNT != CREATED_AT && SIGN_COUNT != LAST_USED_AT && SIGN_COUNT != AAGUID
    ensures SIGN_COUNT != TRANSPORTS && CREATED_AT != LAST_USED_AT && CREATED_AT != AAGUID
    ensures CREATED_AT != TRANSPORTS && LAST_USED_AT != AAGUID && LAST_USED_AT != TRANSPORTS
    ensures AAGUID != TRANSPORTS
  {
    assert PUBLIC_KEY[0] == 'p' && SIGN_COUNT[0] == 's' && CREATED_AT[0] == 'c' && TRANSPORTS[0] == 't';
    assert |USER_ID| == 7 && |ALG| == 3 && |LAST_USED_AT| == 12 && |AAGUID| == 6;
    assert |PUBLIC_KEY| == 10 && |SIGN_COUNT| == 10 && |CREATED_AT| == 10 && |TRANSPORTS| == 10;
  }

  // Writing

  /** HSET's effect: the pairs assigned in turn. */
  function Merge(h: Hash, pairs: seq<Pair>): Hash {
    if pairs == [] then h
    else Merge(h, pairs[..|pairs| - 1])[pairs[|pairs| - 1].name := pairs[|pairs| - 1].value]
  }

  lemma MergeSnoc(h: Hash, pairs: seq<Pair>, p: Pair)
    ensures Merge(h, pairs + [p]) == Merge(h, pairs)[p.name := p.value]
    ensures Merge(h, []) == h
  {
    assert (pairs + [p])[..|pairs|] == pairs;
  }

  /** The six pairs credential_put always writes. */
  function CorePairs(c: Credential): seq<Pair> {
    [Pair(USER_ID, c.userId), Pair(PUBLIC_KEY, c.publicKey), Pair(ALG, Print(c.alg)),
     Pair(SIGN_COUNT, Print(c.signCount)), Pair(CREATED_AT, Print(c.createdAt)),
     Pair(LAST_USED_AT, Print(c.lastUsedAt))]
  }

  function PutPairs(c: Credential): seq<Pair> {
    CorePairs(c)
    + (if c.transports != "" then [Pair(TRANSPORTS, c.transports)] else [])
    + (if c.aaguid.Some? then [Pair(AAGUID, c.aaguid.value)] else [])
  }

  function CounterPairs(count: nat, usedAt: int): seq<Pair> {
    [Pair(SIGN_COUNT, Print(count)), Pair(LAST_USED_AT, Print(usedAt))]
  }

  /** The pair array of credential_put; eight slots are enough. */
  method BuildPairs(c: Credential) returns (pairs: seq<Pair>)
    ensures pairs == PutPairs(c)
  {
    hide USER_ID, PUBLIC_KEY, ALG, SIGN_COUNT, CREATED_AT, LAST_USED_AT, AAGUID, TRANSPORTS, Print;
    hide Buffer.Valid;
    var slots := new Buffer<Pair>(MAX_PAIRS);
    slots.Put(Pair(USER_ID, c.userId));
    slots.Put(Pair(PUBLIC_KEY, c.publicKey));
    slots.Put(Pair(ALG, Print(c.alg)));
    slots.Put(Pair(SIGN_COUNT, Print(c.signCount)));
    slots.Put(Pair(CREATED_AT, Print(c.createdAt)));
    slots.Put(Pair(LAST_USED_AT, Print(c.lastUsedAt)));
    assert slots.contents == CorePairs(c);
    if |c.transports| > 0 {
      slots.Put(Pair(TRANSPORTS, c.transports));
    }
    if c.aaguid.Some? {
      slots.Put(Pair(AAGUID, c.aaguid.value));
    }
    pairs := slots.Text();
  }

  // Reading

  function Field(h: Hash, name: string): string {
    if name in h then h[name] else ""
  }

  /** A number field, 0 when absent or unreadable. */
  function Number(h: Hash, name: string): int {
    if name in h && ParseInt64(h[name]).Some? then ParseInt64(h[name]).value else 0
  }

  predicate InRange(text: string, low: int, high: int) {
    ParseInt64(text).Some? && low <= ParseInt64(text).value <= high
  }

  /** A field value that makes credential_get give up. */
  predicate Spoils(name: string, value: string) {
    || (name == ALG && !InRange(value, INT32_MIN, INT32_MAX))
    || (name == SIGN_COUNT && !InRange(value, 0, UINT32_MAX))
  }

  predicate Spoilt(h: Hash) {
    (ALG in h && Spoils(ALG, h[ALG])) || (SIGN_COUNT in h && Spoils(SIGN_COUNT, h[SIGN_COUNT]))
  }

  /** The struct credential_get fills, field by field. */
  function Filled(h: Hash, cid: string): Credential {
    Credential(cid, Field(h, USER_ID), Field(h, PUBLIC_KEY), Number(h, ALG),
               if Number(h, SIGN_COUNT) >= 0 then Number(h, SIGN_COUNT) else 0,
               Number(h, CREATED_AT), Number(h, LAST_USED_AT),
               if AAGUID in h && |h[AAGUID]| == AAGUID_LEN then Some(h[AAGUID]) else None,
               Field(h, TRANSPORTS))
  }

  /** What a hash means as a record, independent of any listing order. */
  function Read(h: Hash, cid: string): (r: Rc<Credential>)
    ensures !r.Error?
  {
    if h == map[] || Spoilt(h) then Declined
    else
      var c := Filled(h, cid);
      if c.publicKey == "" || c.alg == 0 then Declined else Ok(c)
  }

  predicate DistinctNames(pairs: seq<Pair>) {
    forall i, j :: 0 <= i < j < |pairs| ==> pairs[i].name != pairs[j].name
  }

  lemma {:induction false} MergedKeys(pairs: seq<Pair>)
    ensures forall k :: k in Merge(map[], pairs) <==> exists i :: 0 <= i < |pairs| && pairs[i].name == k
  {
    if pairs != [] {
      var n := |pairs| - 1;
      MergedKeys(pairs[..n]);
      forall k
        ensures k in Merge(map[], pairs) <==> exists i :: 0 <= i < |pairs| && pairs[i].name == k
      {
        var earlier := exists i :: 0 <= i < n && pairs[..n][i].name == k;
        assert earlier <==> exists i :: 0 <= i < n && pairs[i].name == k;
        assert k in Merge(map[], pairs) <==> earlier || pairs[n].name == k;
      }
    }
  }

  lemma {:induction false} MergedLookup(pairs: seq<Pair>, k: string, v: string)
    requires DistinctNames(pairs)
    ensures (k in Merge(map[], pairs) && Merge(map[], pairs)[k] == v) <==> Pair(k, v) in pairs
  {
    if pairs != [] {
      var n := |pairs| - 1;
      MergedLookup(pairs[..n], k, v);
      MergedKeys(pairs[..n]);
      assert pairs == pairs[..n] + [pairs[n]];
    }
  }

  /** The order HGETALL lists a hash in does not matter. */
  lemma ListingOrder(ps: seq<Pair>, qs: seq<Pair>)
    requires DistinctNames(ps) && DistinctNames(qs) && multiset(ps) == multiset(qs)
    ensures Merge(map[], ps) == Merge(map[], qs)
  {
    var g, h := Merge(map[], ps), Merge(map[], qs);
    forall k
      ensures k in g ==> k in h && h[k] == g[k]
      ensures k in h ==> k in g
    {
      var v := if k in g then g[k] else Field(h, k);
      MergedLookup(ps, k, v);
      MergedLookup(qs, k, v);
      assert Pair(k, v) in multiset(ps) <==> Pair(k, v) in multiset(qs);
    }
  }

  lemma FreshName(pairs: seq<Pair>, i: nat)
    requires DistinctNames(pairs) && i < |pairs|
    ensures pairs[i].name !in Merge(map[], pairs[..i])
  {
    MergedKeys(pairs[..i]);
  }

  /** One round of the loop: a field not seen before, of each kind. */
  lemma FillStep(h: Hash, name: string, value: string, cid: string)
    requires name !in h && !Spoilt(h)
    ensures Spoilt(h[name := value]) <==> Spoils(name, value)
    ensures var c, c' := Filled(h, cid), Filled(h[name := value], cid);
            && (name == USER_ID ==> c' == c.(userId := value))
            && (name == PUBLIC_KEY ==> c' == c.(publicKey := value))
            && (name == ALG && !Spoils(name, value) ==> c' == c.(alg := ParseInt64(value).value))
            && (name == SIGN_COUNT && !Spoils(name, value) ==> c' == c.(signCount := ParseInt64(value).value))
            && (name == CREATED_AT ==>
                  c' == if ParseInt64(value).Some? then c.(createdAt := ParseInt64(value).value) else c)
            && (name == LAST_USED_AT ==>
                  c' == if ParseInt64(value).Some? then c.(lastUsedAt := ParseInt64(value).value) else c)
            && (name == AAGUID ==> c' == if |value| == AAGUID_LEN then c.(aaguid := Some(value)) else c)
            && (name == TRANSPORTS ==> c' == c.(transports := value))
            && (name !in {USER_ID, PUBLIC_KEY, ALG, SIGN_COUNT, CREATED_AT, LAST_USED_AT, AAGUID, TRANSPORTS}
                ==> c' == c)
  {
    hide ParseInt64, USER_ID, PUBLIC_KEY, ALG, SIGN_COUNT, CREATED_AT, LAST_USED_AT, AAGUID, TRANSPORTS;
    FieldsDistinct();
  }

  /** The loop of credential_get over the pairs HGETALL listed, in whatever
      order. Two listings of one hash therefore give one result. */
  method Get(pairs: seq<Pair>, cid: string) returns (r: Rc<Credential>)
    requires DistinctNames(pairs)
    ensures r == Read(Merge(map[], pairs), cid)
  {
    hide ParseInt64, USER_ID, PUBLIC_KEY, ALG, SIGN_COUNT, CREATED_AT, LAST_USED_AT, AAGUID, TRANSPORTS;
    hide Filled, Merge, Spoilt;
    FieldsDistinct();
    EmptyFill(cid);
    var out := Credential(cid, "", "", 0, 0, 0, 0, None, "");
    if |pairs| == 0 {
      return Declined;
    }
    assert pairs[..0] == [];
    for i := 0 to |pairs|
      invariant !Spoilt(Merge(map[], pairs[..i]))
      invariant out == Filled(Merge(map[], pairs[..i]), cid)
    {
      var n, val := pairs[i].name, pairs[i].value;
      ghost var h := Merge(map[], pairs[..i]);
      FreshName(pairs, i);
      assert pairs[..i + 1] == pairs[..i] + [pairs[i]];
      MergeSnoc(map[], pairs[..i], pairs[i]);
      FillStep(h, n, val, cid);
      if n == USER_ID {
        out := out.(userId := val);
      } else if n == PUBLIC_KEY {
        out := out.(publicKey := val);
      } else if n == ALG {
        var v := Atoi64(val);
        if v.None? || v.value < INT32_MIN || v.value > INT32_MAX {
          SpoiltStays(pairs, i + 1);
          return Declined;
        }
        out := out.(alg := v.value);
      } else if n == SIGN_COUNT {
        var v := Atoi64(val);
        if v.None? || v.value < 0 || v.value > UINT32_MAX {
          SpoiltStays(pairs, i + 1);
          return Declined;
        }
        out := out.(signCount := v.value);
      } else if n == CREATED_AT {
        var v := Atoi64(val);
        if v.Some? {
          out := out.(createdAt := v.value);
        }
      } else if n == LAST_USED_AT {
        var v := Atoi64(val);
        if v.Some? {
          out := out.(lastUsedAt := v.value);
        }
      } else if n == AAGUID {
        if |val| == AAGUID_LEN {
          out := out.(aaguid := Some(val));
        }
      } else if n == TRANSPORTS {
        out := out.(transports := val);
      }
    }
    assert pairs[..|pairs|] == pairs;
    MergedKeys(pairs);
    assert pairs[0].name in Merge(map[], pairs);
    r := if |out.publicKey| == 0 || out.alg == 0 then Declined else Ok(out);
  }

  lemma EmptyFill(cid: string)
    ensures Filled(map[], cid) == Credential(cid, "", "", 0, 0, 0, 0, None, "")
    ensures !Spoilt(map[]) && Merge(map[], []) == map[]
  {
  }

  lemma {:induction false} SpoiltStays(pairs: seq<Pair>, n: nat)
    requires DistinctNames(pairs) && n <= |pairs| && Spoilt(Merge(map[], pairs[..n]))
    ensures Spoilt(Merge(map[], pairs))
    decreases |pairs|
  {
    hide ParseInt64, ALG, SIGN_COUNT, Merge;
    if n < |pairs| {
      var m := |pairs| - 1;
      assert pairs[..m][..n] == pairs[..n];
      SpoiltStays(pairs[..m], n);
      FreshName(pairs, m);
      assert pairs == pairs[..m] + [pairs[m]];
      MergeSnoc(map[], pairs[..m], pairs[m]);
    } else {
      assert pairs[..n] == pairs;
    }
  }

  // What put, update and get promise together

  /** Field ranges of the C struct; ids are not empty where put demands it. */
  predicate WellFormed(c: Credential) {
    && c.credentialId != "" && c.userId != ""
    && INT32_MIN <= c.alg <= INT32_MAX && c.signCount <= UINT32_MAX
    && INT64_MIN <= c.createdAt <= INT64_MAX && INT64_MIN <= c.lastUsedAt <= INT64_MAX
    && (c.aaguid.Some? ==> |c.aaguid.value| == AAGUID_LEN)
  }

  /** The hash after put, as field assignments. */
  lemma PutHash(h: Hash, c: Credential)
    ensures var core := h[USER_ID := c.userId][PUBLIC_KEY := c.publicKey][ALG := Print(c.alg)]
                        [SIGN_COUNT := Print(c.signCount)][CREATED_AT := Print(c.createdAt)]
                        [LAST_USED_AT := Print(c.lastUsedAt)];
            var more := if c.transports != "" then core[TRANSPORTS := c.transports] else core;
            Merge(h, PutPairs(c)) == if c.aaguid.Some? then more[AAGUID := c.aaguid.value] else more
  {
    hide USER_ID, PUBLIC_KEY, ALG, SIGN_COUNT, CREATED_AT, LAST_USED_AT, AAGUID, TRANSPORTS, Print;
    var p := CorePairs(c);
    MergeSnoc(h, [], p[0]);
    MergeSnoc(h, p[..1], p[1]);
    MergeSnoc(h, p[..2], p[2]);
    MergeSnoc(h, p[..3], p[3]);
    MergeSnoc(h, p[..4], p[4]);
    MergeSnoc(h, p[..5], p[5]);
    assert [] + [p[0]] == p[..1] && p[..1] + [p[1]] == p[..2] && p[..2] + [p[2]] == p[..3];
    assert p[..3] + [p[3]] == p[..4] && p[..4] + [p[4]] == p[..5] && p[..5] + [p[5]] == p;
    MergeSnoc(h, p, Pair(TRANSPORTS, c.transports));
    var q := if c.transports != "" then p + [Pair(TRANSPORTS, c.transports)] else p;
    if c.aaguid.Some? {
      MergeSnoc(h, q, Pair(AAGUID, c.aaguid.value));
      assert PutPairs(c) == q + [Pair(AAGUID, c.aaguid.value)];
    } else {
      assert PutPairs(c) == q;
    }
  }

  /** What get returns after put over whatever the hash held: the new record,
      except that HSET merges, so transports and aaguid it left out keep their
      stored values. */
  function Registered(h: Hash, c: Credential): Credential {
    c.(transports := if c.transports != "" then c.transports else Field(h, TRANSPORTS),
       aaguid := if c.aaguid.Some? then c.aaguid
                 else if AAGUID in h && |h[AAGUID]| == AAGUID_LEN then Some(h[AAGUID]) else None)
  }

  lemma GetAfterPut(h: Hash, c: Credential)
    requires WellFormed(c)
    ensures Read(Merge(h, PutPairs(c)), c.credentialId)
         == if c.publicKey == "" || c.alg == 0 then Declined else Ok(Registered(h, c))
  {
    hide USER_ID, PUBLIC_KEY, ALG, SIGN_COUNT, CREATED_AT, LAST_USED_AT, AAGUID, TRANSPORTS, Print, ParseInt64;
    hide Merge, PutPairs;
    FieldsDistinct();
    PutHash(h, c);
    ParsePrint(c.alg);
    ParsePrint(c.signCount);
    ParsePrint(c.createdAt);
    ParsePrint(c.lastUsedAt);
    assert USER_ID in Merge(h, PutPairs(c));
  }

  /** put then get is the identity exactly when nothing left out is already
      stored, in particular on a fresh key. */
  lemma PutGetRoundTrip(h: Hash, c: Credential)
    requires WellFormed(c) && c.publicKey != "" && c.alg != 0
    ensures Read(Merge(h, PutPairs(c)), c.credentialId) == Ok(c)
       <==> && (c.transports != "" || Field(h, TRANSPORTS) == "")
            && (c.aaguid.Some? || AAGUID !in h || |h[AAGUID]| != AAGUID_LEN)
  {
    hide Merge, PutPairs, TRANSPORTS, AAGUID;
    GetAfterPut(h, c);
  }

  lemma CounterHash(h: Hash, count: nat, usedAt: int)
    ensures Merge(h, CounterPairs(count, usedAt))
         == h[SIGN_COUNT := Print(count)][LAST_USED_AT := Print(usedAt)]
  {
    hide SIGN_COUNT, LAST_USED_AT, Print;
    var p := CounterPairs(count, usedAt);
    MergeSnoc(h, [], p[0]);
    MergeSnoc(h, p[..1], p[1]);
    assert [] + [p[0]] == p[..1] && p[..1] + [p[1]] == p;
  }

  /** A counter update changes the two fields it names and nothing else: a
      usable record stays usable, and a hash without key or algorithm cannot
      become one. */
  lemma GetAfterUpdate(h: Hash, cid: string, count: nat, usedAt: int)
    requires count <= UINT32_MAX && INT64_MIN <= usedAt <= INT64_MAX
    ensures var after := Read(Merge(h, CounterPairs(count, usedAt)), cid);
            && (Read(h, cid).Ok? ==>
                  after == Ok(Read(h, cid).value.(signCount := count, lastUsedAt := usedAt)))
            && (PUBLIC_KEY !in h || ALG !in h ==> after.Declined?)
  {
    hide USER_ID, PUBLIC_KEY, ALG, SIGN_COUNT, CREATED_AT, LAST_USED_AT, AAGUID, TRANSPORTS, Print, ParseInt64;
    hide Merge, CounterPairs;
    FieldsDistinct();
    CounterHash(h, count, usedAt);
    ParsePrint(count);
    ParsePrint(usedAt);
  }

  /** What an update leaves behind after a revocation. */
  predicate Remnant(h: Hash) {
    h.Keys <= {SIGN_COUNT, LAST_USED_AT}
  }

  lemma RemnantIsUnusable(h: Hash, cid: string)
    requires Remnant(h)
    ensures Read(h, cid).Declined?
  {
    hide USER_ID, PUBLIC_KEY, ALG, SIGN_COUNT, CREATED_AT, LAST_USED_AT, AAGUID, TRANSPORTS;
    FieldsDistinct();
    assert PUBLIC_KEY !in h;
  }

  lemma UpdateKeepsRemnant(h: Hash, count: nat, usedAt: int)
    requires Remnant(h)
    ensures Remnant(Merge(h, CounterPairs(count, usedAt)))
  {
    hide SIGN_COUNT, LAST_USED_AT;
    CounterHash(h, count, usedAt);
  }

  /** A record is usable if and only if it has a key and a non-zero 32-bit
      algorithm, and its counter, if there is one, is an unsigned 32-bit number;
      then it says what the hash says. */
  lemma UsableExactly(h: Hash, cid: string)
    ensures Read(h, cid).Ok? <==>
              && "public_key" in h && h["public_key"] != ""
              && "alg" in h && ParseInt64(h["alg"]).Some?
              && -0x8000_0000 <= ParseInt64(h["alg"]).value <= 0x7fff_ffff && ParseInt64(h["alg"]).value != 0
              && ("sign_count" in h ==>
                    ParseInt64(h["sign_count"]).Some? && 0 <= ParseInt64(h["sign_count"]).value <= 0xffff_ffff)
    ensures Read(h, cid).Ok? ==>
              var c := Read(h, cid).value;
              && c.credentialId == cid && c.publicKey == h["public_key"] && c.alg == ParseInt64(h["alg"]).value
              && c.userId == (if "user_id" in h then h["user_id"] else "")
              && c.signCount == if "sign_count" in h then ParseInt64(h["sign_count"]).value else 0
  {
    hide ParseInt64;
  }
}
