/** The JSON that clients and libraries get, read back: the challenge body with
    its list of credentials, the success and failure bodies, the key document
    of an HMAC key. */
module Responses {
  import opened Decimal
  import opened Formats
  import opened JsonText
  import opened Prelude

  // Challenge body

  /** One allowed credential. */
  function EntryValue(id: string): JsonValue {
    JObject([Member("type", JString("public-key")), Member("id", JString(id))])
  }

  function Entries(ids: seq<string>): (items: seq<JsonValue>)
    ensures |items| == |ids| && forall i :: 0 <= i < |ids| ==> items[i] == EntryValue(ids[i])
  {
    seq(|ids|, i requires 0 <= i < |ids| => EntryValue(ids[i]))
  }

  /** What the challenge body is meant to say. */
  function ChallengeMembers(challenge: string, rpId: string, ttl: int, uv: string, ids: seq<string>): seq<Member> {
    [Member("challenge", JString(challenge)), Member("rpId", JString(rpId)), Member("timeout", JNumber(ttl * 1000)),
     Member("userVerification", JString(uv)), Member("allowCredentials", JArray(Entries(ids)))]
  }

  predicate AllPlain(ids: seq<string>) {
    forall i :: 0 <= i < |ids| ==> Plain(ids[i])
  }

  lemma EntryParts(id: string, text: string)
    ensures CredentialEntry(id) + text
         == "{" + (StringMember("type", "public-key") + ("," + (StringMember("id", id) + ("}" + text))))
  {
    assert ENTRY_OPEN == "{" + ("\"" + "type" + "\":\"" + "public-key" + "\"") + "," + ("\"" + "id" + "\":\"");
    assert END == "\"" + "}";
    EntryJoins("{", "\"" + "type" + "\":\"" + "public-key" + "\"", ",", "\"" + "id" + "\":\"", id, "\"", "}", text);
  }

  lemma EntryJoins(a: string, b: string, c: string, d: string, id: string, q: string, e: string, text: string)
    ensures (a + b + c + d) + id + (q + e) + text == a + (b + (c + (d + id + q + (e + text))))
  {
  }

  /** An entry reads as one, up to its end, if and only if its id is plain. */
  lemma EntryReads(id: string, text: string, rest: string)
    requires Follows("}" + text)
    ensures ReadValue(CredentialEntry(id) + text) == Some((EntryValue(id), rest)) <==> Plain(id) && rest == text
  {
    hide ReadMembers, ReadString, ReadValue, Plain, Follows, CredentialEntry, StringMember;
    EntryPlain();
    EntryParts(id, text);
    var t2, m2 := StringMember("id", id) + ("}" + text), [Member("id", JString(id))];
    assert m2 == m2 + [] && ("}" + text)[1..] == text && ("}" + text)[0] == '}';
    RawMemberIsRead("id", id, "}" + text, [], rest);
    StringComes("id", id, "}" + text);
    var t1, m1 := StringMember("type", "public-key") + ("," + t2), [Member("type", JString("public-key"))] + m2;
    RawMemberIsRead("type", "public-key", "," + t2, m2, rest);
    StringComes("type", "public-key", "," + t2);
    assert EntryValue(id) == JObject(m1);
    ObjectReads(t1, m1, rest);
  }

  lemma EntryPlain()
    ensures Plain("id") && Plain("type") && Plain("public-key")
  {
  }

  /** The list from its first entry on. */
  function Joined(ids: seq<string>): string
    requires ids != []
  {
    CredentialEntry(ids[0]) + if |ids| == 1 then "" else "," + Joined(ids[1..])
  }

  lemma {:induction false} JoinedSnoc(ids: seq<string>, id: string)
    requires ids != []
    ensures Joined(ids + [id]) == Joined(ids) + "," + CredentialEntry(id)
    decreases |ids|
  {
    hide CredentialEntry;
    var longer := ids + [id];
    if |ids| == 1 {
      assert longer[1..] == [id];
    } else {
      assert longer[1..] == ids[1..] + [id];
      JoinedSnoc(ids[1..], id);
    }
  }

  lemma {:induction false} ListIsJoined(ids: seq<string>)
    requires ids != []
    ensures CredentialList(ids) == Joined(ids)
    decreases |ids|
  {
    hide CredentialEntry;
    var n := |ids| - 1;
    if n > 0 {
      ListIsJoined(ids[..n]);
      JoinedSnoc(ids[..n], ids[n]);
      assert ids == ids[..n] + [ids[n]];
    }
  }

  /** What may follow an entry: another one, or the end of list and object. */
  lemma EntryFollows(id: string, more: string)
    ensures Follows("}" + ("," + (CredentialEntry(id) + more)))
    ensures Follows("}" + "]}")
  {
    var s := "}" + ("," + (CredentialEntry(id) + more));
    assert s[0] == '}' && s[1] == ',' && s[2] == '{' && s[3] == '"';
    CalmAt(s, 3);
    var e := "}" + "]}";
    assert e[0] == '}' && e[1] == ']' && e[2] == '}';
    CalmAt(e, 3);
  }

  lemma CalmAt(s: string, n: nat)
    requires 1 <= n <= 3 && n <= |s| && Plain(s[..n]) && (n == |s| || s[n] == '"')
    ensures Follows(s)
  {
    assert forall i :: 0 <= i < n ==> s[..n][i] == s[i];
    CalmIs(s, n);
  }

  lemma {:induction false} CalmIs(s: string, n: nat)
    requires n <= |s| && (forall i :: 0 <= i < n ==> s[i] != '"') && (n == |s| || s[n] == '"')
    ensures Calm(s) == n
    decreases n
  {
    if n > 0 {
      CalmIs(s[1..], n - 1);
    }
  }

  /** The entries read as the ids in order, up to the end, if and only if all of
      them are plain. */
  lemma {:induction false} EntriesRead(ids: seq<string>, rest: string)
    requires ids != []
    ensures ReadsItems(Joined(ids) + "]}", Entries(ids), rest) <==> AllPlain(ids) && rest == "}"
    decreases |ids|
  {
    hide ReadValue, ReadItems, ReadMembers, Plain, Follows, CredentialEntry, EntryValue;
    var id, others := ids[0], ids[1..];
    var after := if |ids| == 1 then "]}" else "," + (Joined(others) + "]}");
    var s := Joined(ids) + "]}";
    assert s == CredentialEntry(id) + after;
    if |ids| == 1 {
      EntryFollows(id, "");
    } else {
      NextEntry(others);
    }
    EntryReads(id, after, after);
    assert Entries(ids) == [EntryValue(id)] + Entries(others);
    if Plain(id) {
      ItemReads(s, EntryValue(id), after, Entries(others), rest);
      if |ids| > 1 {
        EntriesRead(others, rest);
        assert after[1..] == Joined(others) + "]}";
      } else {
        assert after[1..] == "}" && Entries(others) == [];
      }
      PlainFirst(ids);
    } else if ReadsItems(s, Entries(ids), rest) {
      FirstItem(s, Entries(ids), rest);
      EntryReads(id, after, ReadValue(s).value.1);
    }
  }

  lemma NextEntry(others: seq<string>)
    requires others != []
    ensures Follows("}" + ("," + (Joined(others) + "]}")))
  {
    hide CredentialEntry, Follows;
    var more := if |others| == 1 then "]}" else "," + Joined(others[1..]) + "]}";
    assert Joined(others) + "]}" == CredentialEntry(others[0]) + more;
    EntryFollows(others[0], more);
  }

  lemma PlainFirst(ids: seq<string>)
    requires ids != []
    ensures AllPlain(ids) <==> Plain(ids[0]) && AllPlain(ids[1..])
  {
    hide Plain;
    assert forall i :: 0 < i < |ids| ==> ids[i] == ids[1..][i - 1];
    assert forall i :: 0 <= i < |ids[1..]| ==> ids[1..][i] == ids[i + 1];
  }

  /** The array as a whole. */
  lemma ListReads(ids: seq<string>, rest: string)
    ensures ReadValue("[" + CredentialList(ids) + "]" + "}") == Some((JArray(Entries(ids)), rest))
       <==> AllPlain(ids) && rest == "}"
  {
    hide ReadItems, ReadMembers, Plain, CredentialEntry, EntryValue;
    if ids == [] {
      assert "[" + CredentialList(ids) + "]" + "}" == "[]}";
      assert "[]}"[2..] == "}" && "[]}"[..2] == "[]" && Entries(ids) == [];
    } else {
      hide ReadValue;
      ListIsJoined(ids);
      var t := Joined(ids) + "]}";
      assert "[" + CredentialList(ids) + "]" + "}" == "[" + t;
      FirstBrace(ids);
      ArrayReads(t, Entries(ids), rest);
      EntriesRead(ids, rest);
    }
  }

  lemma FirstBrace(ids: seq<string>)
    requires ids != []
    ensures var t := Joined(ids) + "]}"; t[0] == '{'
  {
    assert CredentialEntry(ids[0])[0] == '{';
  }

  /** The last member. */
  lemma ListMemberReads(ids: seq<string>)
    ensures var text := "\"" + "allowCredentials" + "\":" + ("[" + CredentialList(ids) + "]" + "}");
            Reads(text, [Member("allowCredentials", JArray(Entries(ids)))], "") <==> AllPlain(ids)
  {
    hide ReadValue, ReadMembers, ReadString, Plain, CredentialList, Entries;
    var name, value := "allowCredentials", JArray(Entries(ids));
    ChallengeNamesPlain();
    var list := "[" + CredentialList(ids) + "]";
    var more := list + "}";
    ListReads(ids, "}");
    if AllPlain(ids) {
      MemberReads(name, list, value, "}", [], "");
      assert "\"" + name + "\":" + list + "}" == "\"" + name + "\":" + more;
      assert [Member(name, value)] + [] == [Member(name, value)] && "}"[1..] == "";
    } else if Reads("\"" + name + "\":" + more, [Member(name, value)], "") {
      FirstValue(name, more, [Member(name, value)], "");
      ListReads(ids, ReadValue(more).value.1);
    }
  }

  lemma ChallengeNamesPlain()
    ensures Plain("challenge") && Plain("rpId") && Plain("timeout")
    ensures Plain("userVerification") && Plain("allowCredentials")
  {
  }

  lemma ChallengeHeadParts()
    ensures CHALLENGE_OPEN == "{" + ("\"" + "challenge" + "\":\"")
    ensures RP_ID_PART == "\"" + "," + ("\"" + "rpId" + "\":\"")
    ensures TIMEOUT_PART == "\"" + "," + ("\"" + "timeout" + "\":")
  {
  }

  lemma ChallengeTailParts()
    ensures UV_PART == "," + ("\"" + "userVerification" + "\":\"")
    ensures LIST_PART == "\"" + "," + ("\"" + "allowCredentials" + "\":") + "["
  {
  }

  lemma ChallengeJoins(o: string, n1: string, v1: string, q: string, c: string, n2: string, v2: string, n3: string,
                       v3: string, n4: string, v4: string, n5: string, b: string, list: string, e: string, f: string)
    ensures (o + n1) + v1 + (q + c + n2) + v2 + (q + c + n3) + v3 + (c + n4) + v4 + (q + c + n5 + b) + list + e + f
         == o + (n1 + v1 + q + (c + (n2 + v2 + q + (c + (n3 + v3 + (c + (n4 + v4 + q
            + (c + (n5 + (b + list + e + f))))))))))
  {
  }

  lemma ChallengeNested(challenge: string, rpId: string, ttl: int, uv: string, ids: seq<string>, t5: string)
    requires t5 == "\"" + "allowCredentials" + "\":" + ("[" + CredentialList(ids) + "]" + "}")
    ensures ChallengeText(challenge, rpId, ttl, uv, ids)
         == "{" + (StringMember("challenge", challenge) + ("," + (StringMember("rpId", rpId)
            + ("," + (NumberMember("timeout", ttl * 1000) + ("," + (StringMember("userVerification", uv)
            + ("," + t5))))))))
  {
    hide CredentialList, Print, CHALLENGE_OPEN, RP_ID_PART, TIMEOUT_PART, UV_PART, LIST_PART;
    ChallengeHeadParts();
    ChallengeTailParts();
    ChallengeJoins("{", "\"" + "challenge" + "\":\"", challenge, "\"", ",", "\"" + "rpId" + "\":\"", rpId,
                   "\"" + "timeout" + "\":", Print(ttl * 1000), "\"" + "userVerification" + "\":\"", uv,
                   "\"" + "allowCredentials" + "\":", "[", CredentialList(ids), "]", "}");
  }

  /** The challenge body reads as what it is meant to say, every member in its
      place and the credentials in order, if and only if the strings written
      without escaping are plain. */
  lemma ChallengeReadsBack(challenge: string, rpId: string, ttl: int, uv: string, ids: seq<string>)
    requires 0 < ttl <= UINT32_MAX
    ensures ReadObject(ChallengeText(challenge, rpId, ttl, uv, ids))
            == Some(ChallengeMembers(challenge, rpId, ttl, uv, ids))
       <==> Plain(challenge) && Plain(rpId) && Plain(uv) && AllPlain(ids)
  {
    hide ReadMembers, ReadString, Print, StringMember, NumberMember, ReadValue, Plain, Follows, ReadObject;
    hide CredentialList, Entries, AllPlain, ChallengeText;
    ChallengeNamesPlain();
    var t5 := "\"" + "allowCredentials" + "\":" + ("[" + CredentialList(ids) + "]" + "}");
    var m5 := [Member("allowCredentials", JArray(Entries(ids)))];
    ListMemberReads(ids);
    MemberComes(t5);
    var t4, m4 := StringMember("userVerification", uv) + ("," + t5), [Member("userVerification", JString(uv))] + m5;
    RawMemberIsRead("userVerification", uv, "," + t5, m5, "");
    StringComes("userVerification", uv, "," + t5);
    var t3, m3 := NumberMember("timeout", ttl * 1000) + ("," + t4), [Member("timeout", JNumber(ttl * 1000))] + m4;
    NumberMemberReads("timeout", ttl * 1000, "," + t4, m4, "");
    NumberComes("timeout", ttl * 1000, "," + t4);
    var t2, m2 := StringMember("rpId", rpId) + ("," + t3), [Member("rpId", JString(rpId))] + m3;
    RawMemberIsRead("rpId", rpId, "," + t3, m3, "");
    StringComes("rpId", rpId, "," + t3);
    var t1, m1 := StringMember("challenge", challenge) + ("," + t2), [Member("challenge", JString(challenge))] + m2;
    RawMemberIsRead("challenge", challenge, "," + t2, m2, "");
    StringComes("challenge", challenge, "," + t2);
    ChallengeNested(challenge, rpId, ttl, uv, ids, t5);
    assert m1 == ChallengeMembers(challenge, rpId, ttl, uv, ids);
    ObjectReads(t1, m1, "");
  }

  lemma NumberComes(name: string, n: int, more: string)
    ensures var t := NumberMember(name, n) + more;
            t[0] == '"' && Follows("," + t) && EndsMember("," + t) && ("," + t)[1..] == t
  {
    hide Print;
    var t := NumberMember(name, n) + more;
    assert t[0] == '"';
    MemberComes(t);
  }

  // Success and failure

  /** `"ok":true` or `"ok":false`, first in an object. */
  lemma OkReads(ok: bool, t: string, members: seq<Member>)
    requires t != [] && t[0] == '"' && members != []
    ensures Reads("\"" + "ok" + "\":" + (if ok then "true" else "false") + ("," + t),
                  [Member("ok", JBool(ok))] + members, "")
       <==> Reads(t, members, "")
  {
    hide ReadMembers, ReadString;
    var word := if ok then "true" else "false";
    var s := word + ("," + t);
    assert s[..|word|] == word && s[|word|..] == "," + t && ("," + t)[1..] == t;
    assert s[0] == word[0];
    assert ok || !StartsWith(s, "true");
    MemberReads("ok", word, JBool(ok), "," + t, members, "");
  }

  /** The success body names the user, whatever characters the user id holds. */
  lemma SuccessReadsBack(user: string, exp: int)
    requires IsTime(exp)
    ensures ReadObject(SuccessText(user, exp))
         == Some([Member("ok", JBool(true)), Member("user_id", JString(user)), Member("exp", JNumber(exp))])
  {
    hide ReadMembers, ReadString, Escape, Print, ReadValue, ReadObject, StringMember, NumberMember, SuccessText;
    SuccessNames();
    var t3, m3 := NumberMember("exp", exp) + "}", [Member("exp", JNumber(exp))];
    assert m3 == m3 + [] && "}"[1..] == "";
    NumberMemberReads("exp", exp, "}", [], "");
    NumberComes("exp", exp, "}");
    var t2, m2 := StringMember("user_id", Escape(user)) + ("," + t3), [Member("user_id", JString(user))] + m3;
    ReadEscaped(user, "," + t3);
    StringMemberReads("user_id", user, Escape(user), "," + t3, m3, "");
    StringComes("user_id", Escape(user), "," + t3);
    OkReads(true, t2, m2);
    var t1, m1 := "\"" + "ok" + "\":" + "true" + ("," + t2), [Member("ok", JBool(true))] + m2;
    SuccessNested(user, exp);
    assert m1 == [Member("ok", JBool(true)), Member("user_id", JString(user)), Member("exp", JNumber(exp))];
    assert t1[0] == '"';
    ObjectReads(t1, m1, "");
  }

  lemma SuccessNames()
    ensures Plain("user_id") && Plain("exp") && Plain("error") && Plain("E_ASSERTION")
  {
  }

  lemma SuccessParts()
    ensures OK_USER == "{" + ("\"" + "ok" + "\":" + "true") + "," + ("\"" + "user_id" + "\":\"")
    ensures OK_EXP == "\"" + "," + ("\"" + "exp" + "\":")
  {
  }

  lemma SuccessJoins(o: string, a: string, c: string, n: string, v: string, q: string, m: string, w: string, e: string)
    ensures (o + a + c + n) + v + (q + c + m) + w + e == o + (a + (c + (n + v + q + (c + (m + w + e)))))
  {
  }

  lemma SuccessNested(user: string, exp: int)
    ensures SuccessText(user, exp)
         == "{" + ("\"" + "ok" + "\":" + "true"
            + ("," + (StringMember("user_id", Escape(user)) + ("," + (NumberMember("exp", exp) + "}")))))
  {
    hide Escape, Print, OK_USER, OK_EXP;
    SuccessParts();
    SuccessJoins("{", "\"" + "ok" + "\":" + "true", ",", "\"" + "user_id" + "\":\"", Escape(user), "\"",
                 "\"" + "exp" + "\":", Print(exp), "}");
  }

  /** The rejection body says nothing but that. */
  lemma RejectionReadsBack()
    ensures ReadObject(REJECTED_TEXT) == Some([Member("ok", JBool(false)), Member("error", JString("E_ASSERTION"))])
  {
    hide ReadMembers, ReadString, ReadValue, ReadObject, StringMember, REJECTED_TEXT, Plain, Follows;
    SuccessNames();
    BraceComes();
    var t2, m2 := StringMember("error", "E_ASSERTION") + "}", [Member("error", JString("E_ASSERTION"))];
    assert m2 == m2 + [] && "}"[1..] == "";
    RawMemberIsRead("error", "E_ASSERTION", "}", [], "");
    StringComes("error", "E_ASSERTION", "}");
    OkReads(false, t2, m2);
    var t1, m1 := "\"" + "ok" + "\":" + "false" + ("," + t2), [Member("ok", JBool(false))] + m2;
    RejectionParts();
    assert m1 == [Member("ok", JBool(false)), Member("error", JString("E_ASSERTION"))];
    assert t1[0] == '"';
    ObjectReads(t1, m1, "");
  }

  lemma RejectionParts()
    ensures REJECTED_TEXT
         == "{" + ("\"" + "ok" + "\":" + "false" + ("," + (StringMember("error", "E_ASSERTION") + "}")))
  {
  }

  // HMAC key document

  /** One symmetric key. */
  function HmacKey(k: string, alg: string): JsonValue {
    JObject([Member("kty", JString("oct")), Member("k", JString(k)), Member("alg", JString(alg))])
  }

  /** The key document holds one symmetric key, and reads as the key and the
      algorithm it was made of if and only if both are plain. */
  lemma HmacKeyReadsBack(k: string, alg: string)
    ensures ReadObject(KEY_OPEN + k + KEY_ALG + alg + KEY_CLOSE)
            == Some([Member("keys", JArray([HmacKey(k, alg)]))])
       <==> Plain(k) && Plain(alg)
  {
    hide ReadMembers, ReadString, ReadValue, ReadObject, ReadItems, StringMember, Plain, Follows, HmacKey;
    var more := "[" + KeyObject(k, alg) + "]" + "}";
    var t, m := "\"" + "keys" + "\":" + more, [Member("keys", JArray([HmacKey(k, alg)]))];
    KeyNested(k, alg);
    KeyNames();
    ObjectReads(t, m, "");
    KeyArrayReads(k, alg, "}");
    if Plain(k) && Plain(alg) {
      MemberReads("keys", "[" + KeyObject(k, alg) + "]", JArray([HmacKey(k, alg)]), "}", [], "");
      assert "\"" + "keys" + "\":" + ("[" + KeyObject(k, alg) + "]") + "}" == t;
      assert m == m + [] && "}"[1..] == "";
    } else if Reads(t, m, "") {
      FirstValue("keys", more, m, "");
      KeyArrayReads(k, alg, ReadValue(more).value.1);
    }
  }

  function KeyObject(k: string, alg: string): string {
    "{" + (StringMember("kty", "oct") + ("," + (StringMember("k", k) + ("," + (StringMember("alg", alg) + "}")))))
  }

  lemma KeyArrayReads(k: string, alg: string, rest: string)
    ensures ReadValue("[" + KeyObject(k, alg) + "]" + "}") == Some((JArray([HmacKey(k, alg)]), rest))
       <==> Plain(k) && Plain(alg) && rest == "}"
  {
    hide ReadMembers, ReadString, ReadValue, ReadItems, Plain, Follows, KeyObject, HmacKey;
    var s := KeyObject(k, alg) + "]}";
    assert "[" + KeyObject(k, alg) + "]" + "}" == "[" + s;
    KeyStarts(k, alg);
    ArrayReads(s, [HmacKey(k, alg)], rest);
    KeyObjectReads(k, alg, "]}");
    if Plain(k) && Plain(alg) {
      ItemReads(s, HmacKey(k, alg), "]}", [], rest);
      assert [HmacKey(k, alg)] + [] == [HmacKey(k, alg)] && "]}"[1..] == "}";
    } else if ReadsItems(s, [HmacKey(k, alg)], rest) {
      FirstItem(s, [HmacKey(k, alg)], rest);
      KeyObjectReads(k, alg, ReadValue(s).value.1);
    }
  }

  lemma KeyStarts(k: string, alg: string)
    ensures (KeyObject(k, alg) + "]}")[0] == '{'
  {
    hide StringMember;
  }

  lemma KeyObjectReads(k: string, alg: string, rest: string)
    ensures ReadValue(KeyObject(k, alg) + "]}") == Some((HmacKey(k, alg), rest))
       <==> Plain(k) && Plain(alg) && rest == "]}"
  {
    hide ReadMembers, ReadString, ReadValue, Plain, Follows, StringMember;
    KeyNames();
    BracketComes();
    var t3, m3 := StringMember("alg", alg) + ("}" + "]}"), [Member("alg", JString(alg))];
    assert m3 == m3 + [] && ("}" + "]}")[1..] == "]}" && ("}" + "]}")[0] == '}';
    RawMemberIsRead("alg", alg, "}" + "]}", [], rest);
    StringComes("alg", alg, "}" + "]}");
    var t2, m2 := StringMember("k", k) + ("," + t3), [Member("k", JString(k))] + m3;
    RawMemberIsRead("k", k, "," + t3, m3, rest);
    StringComes("k", k, "," + t3);
    var t1, m1 := StringMember("kty", "oct") + ("," + t2), [Member("kty", JString("oct"))] + m2;
    RawMemberIsRead("kty", "oct", "," + t2, m2, rest);
    StringComes("kty", "oct", "," + t2);
    assert HmacKey(k, alg) == JObject(m1);
    KeyJoins(StringMember("kty", "oct"), StringMember("k", k), StringMember("alg", alg));
    assert KeyObject(k, alg) + "]}" == "{" + t1;
    ObjectReads(t1, m1, rest);
  }

  lemma KeyJoins(a: string, b: string, c: string)
    ensures "{" + (a + ("," + (b + ("," + (c + "}"))))) + "]}"
         == "{" + (a + ("," + (b + ("," + (c + ("}" + "]}"))))))
  {
  }

  lemma BracketComes()
    ensures Follows("}" + "]}")
  {
    EntryFollows("", "");
  }

  lemma KeyNames()
    ensures Plain("keys") && Plain("kty") && Plain("oct") && Plain("k") && Plain("alg")
  {
  }

  lemma KeyParts()
    ensures KEY_OPEN == "{" + ("\"" + "keys" + "\":") + "[" + "{" + ("\"" + "kty" + "\":\"" + "oct" + "\"") + ","
                        + ("\"" + "k" + "\":\"")
    ensures KEY_ALG == "\"" + "," + ("\"" + "alg" + "\":\"")
    ensures KEY_CLOSE == "\"" + "}" + "]" + "}"
  {
  }

  lemma KeyNested(k: string, alg: string)
    ensures KEY_OPEN + k + KEY_ALG + alg + KEY_CLOSE
         == "{" + ("\"" + "keys" + "\":" + ("[" + KeyObject(k, alg) + "]" + "}"))
  {
    hide KEY_OPEN, KEY_ALG, KEY_CLOSE;
    KeyParts();
    KeyDocumentJoins("{", "\"" + "keys" + "\":", "[", "\"" + "kty" + "\":\"" + "oct" + "\"", ",",
                     "\"" + "k" + "\":\"", k, "\"", "\"" + "alg" + "\":\"", alg, "}", "]");
  }

  lemma KeyDocumentJoins(o: string, n: string, b: string, a: string, c: string, m: string, k: string, q: string,
                         l: string, alg: string, e: string, f: string)
    ensures (o + n + b + o + a + c + m) + k + (q + c + l) + alg + (q + e + f + e)
         == o + (n + (b + (o + (a + (c + (m + k + q + (c + (l + alg + q + e)))))) + f + e))
  {
  }
}
