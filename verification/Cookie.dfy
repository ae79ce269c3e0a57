/** The Set-Cookie header read back, along section 5.2 of RFC 6265: pieces
    between semicolons, each a name and a value around its first '='. */
module Cookie {
  import opened Decimal
  import opened Formats
  import opened Prelude

  datatype Attribute = Attribute(name: string, value: string)

  /** How many times a char occurs. */
  function Occurs(c: char, s: string): nat {
    if s == [] then 0 else (if s[0] == c then 1 else 0) + Occurs(c, s[1..])
  }

  /** The length of what comes before the first c, or of all. */
  function Before(c: char, s: string): (n: nat)
    ensures n <= |s| && (forall i :: 0 <= i < n ==> s[i] != c) && (n < |s| ==> s[n] == c)
  {
    if s == [] || s[0] == c then 0 else 1 + Before(c, s[1..])
  }

  function Pieces(s: string): (ps: seq<string>)
    ensures |ps| >= 1
    decreases |s|
  {
    var n := Before(';', s);
    if n == |s| then [s] else [s[..n]] + Pieces(s[n + 1..])
  }

  function NameValue(piece: string): Attribute {
    var n := Before('=', piece);
    if n == |piece| then Attribute(piece, "") else Attribute(piece[..n], piece[n + 1..])
  }

  /** Pieces after the first start with a space. */
  function Unspaced(piece: string): string {
    if piece != [] && piece[0] == ' ' then piece[1..] else piece
  }

  function ReadOthers(ps: seq<string>): (attributes: seq<Attribute>)
    ensures |attributes| == |ps| && forall i :: 0 <= i < |ps| ==> attributes[i] == NameValue(Unspaced(ps[i]))
  {
    seq(|ps|, i requires 0 <= i < |ps| => NameValue(Unspaced(ps[i])))
  }

  function ReadCookie(text: string): (attributes: seq<Attribute>)
    ensures |attributes| == |Pieces(text)|
  {
    var ps := Pieces(text);
    [NameValue(ps[0])] + ReadOthers(ps[1..])
  }

  // Joining and splitting

  function Join(ps: seq<string>): string
    requires ps != []
  {
    if |ps| == 1 then ps[0] else ps[0] + ";" + Join(ps[1..])
  }

  lemma {:induction false} JoinAppend(ps: seq<string>, qs: seq<string>)
    requires ps != [] && qs != []
    ensures Join(ps + qs) == Join(ps) + ";" + Join(qs)
    decreases |ps|
  {
    assert (ps + qs)[0] == ps[0] && (ps + qs)[1..] == ps[1..] + qs;
    if |ps| > 1 {
      JoinAppend(ps[1..], qs);
    } else {
      assert ps[1..] + qs == qs;
    }
  }

  lemma {:induction false} OccursAppend(c: char, s: string, t: string)
    ensures Occurs(c, s + t) == Occurs(c, s) + Occurs(c, t)
  {
    if s == [] {
      assert s + t == t;
    } else {
      assert (s + t)[1..] == s[1..] + t;
      OccursAppend(c, s[1..], t);
    }
  }

  lemma {:induction false} NoneOccurs(c: char, s: string)
    ensures Occurs(c, s) == 0 <==> c !in s
  {
    if s != [] {
      NoneOccurs(c, s[1..]);
      assert s == [s[0]] + s[1..];
    }
  }

  lemma {:induction false} PiecesCount(s: string)
    ensures |Pieces(s)| == 1 + Occurs(';', s)
    decreases |s|
  {
    var n := Before(';', s);
    NoneOccurs(';', s[..n]);
    OccursAppend(';', s[..n], s[n..]);
    assert s[..n] + s[n..] == s;
    if n < |s| {
      assert s[n..][1..] == s[n + 1..];
      PiecesCount(s[n + 1..]);
    }
  }

  predicate Clean(ps: seq<string>) {
    forall i :: 0 <= i < |ps| ==> ';' !in ps[i]
  }

  lemma CleanFirst(ps: seq<string>)
    requires ps != []
    ensures Clean(ps) <==> ';' !in ps[0] && Clean(ps[1..])
  {
    assert forall i :: 0 < i < |ps| ==> ps[i] == ps[1..][i - 1];
    assert forall i :: 0 <= i < |ps[1..]| ==> ps[1..][i] == ps[i + 1];
  }

  /** A join has a semicolon between its parts, and more exactly if a part does. */
  lemma {:induction false} JoinOccurs(ps: seq<string>)
    requires ps != []
    ensures Occurs(';', Join(ps)) >= |ps| - 1
    ensures Occurs(';', Join(ps)) == |ps| - 1 <==> Clean(ps)
    decreases |ps|
  {
    hide Clean;
    CleanFirst(ps);
    NoneOccurs(';', ps[0]);
    if |ps| > 1 {
      JoinOccurs(ps[1..]);
      OccursAppend(';', ps[0], ";");
      OccursAppend(';', ps[0] + ";", Join(ps[1..]));
      OneOccurs();
    } else {
      assert Clean(ps[1..]) by { NothingIsClean(); }
      assert ps[1..] == [];
    }
  }

  lemma OneOccurs()
    ensures Occurs(';', ";") == 1
  {
    assert ";"[1..] == "";
  }

  lemma NothingIsClean()
    ensures Clean([])
  {
  }

  lemma {:induction false} BeforeIs(c: char, s: string, n: nat)
    requires n <= |s| && (forall i :: 0 <= i < n ==> s[i] != c) && (n == |s| || s[n] == c)
    ensures Before(c, s) == n
    decreases n
  {
    if n > 0 {
      BeforeIs(c, s[1..], n - 1);
    }
  }

  /** Clean parts are what a join splits into. */
  lemma {:induction false} PiecesOfJoin(ps: seq<string>)
    requires ps != [] && Clean(ps)
    ensures Pieces(Join(ps)) == ps
    decreases |ps|
  {
    hide Before;
    var s := Join(ps);
    assert ';' !in ps[0];
    if |ps| == 1 {
      BeforeIs(';', s, |s|);
    } else {
      CleanFirst(ps);
      BeforeIs(';', s, |ps[0]|);
      assert s[|ps[0]| + 1..] == Join(ps[1..]) && s[..|ps[0]|] == ps[0];
      PiecesOfJoin(ps[1..]);
    }
  }

  /** A join splits into as many pieces as it has parts exactly if they are
      clean. */
  lemma JoinPieces(ps: seq<string>)
    requires ps != []
    ensures |Pieces(Join(ps))| == |ps| <==> Clean(ps)
    ensures Clean(ps) ==> Pieces(Join(ps)) == ps
  {
    hide Pieces, Join, Clean;
    PiecesCount(Join(ps));
    JoinOccurs(ps);
    if Clean(ps) {
      PiecesOfJoin(ps);
    }
  }

  lemma NameValueReads(name: string, value: string)
    ensures NameValue(name + "=" + value) == Attribute(name, value) <==> '=' !in name
  {
    hide Before;
    var s := name + "=" + value;
    if '=' !in name {
      BeforeIs('=', s, |name|);
      assert s[..|name|] == name && s[|name| + 1..] == value;
    } else {
      var i :| 0 <= i < |name| && name[i] == '=';
      assert s[i] == '=';
    }
  }

  lemma FlagReads(name: string)
    requires '=' !in name
    ensures NameValue(name) == Attribute(name, "")
  {
    hide Before;
    BeforeIs('=', name, |name|);
  }

  // The session cookie

  function CookieParts(name: string, jwt: string, sameSite: SameSite, path: string, secure: bool, domain: string,
                       ttl: int): (ps: seq<string>)
    ensures |ps| >= 5
  {
    [name + "=" + jwt, " HttpOnly", " SameSite=" + SameSiteName(sameSite), " Path=" + path]
    + (if secure then [" Secure"] else [])
    + (if domain != "" then [" Domain=" + domain] else [])
    + [" Max-Age=" + Print(ttl)]
  }

  /** What the cookie is meant to say. */
  function CookieAttributes(name: string, jwt: string, sameSite: SameSite, path: string, secure: bool, domain: string,
                            ttl: int): seq<Attribute>
  {
    [Attribute(name, jwt), Attribute("HttpOnly", ""),
     Attribute("SameSite", if sameSite.Strict? then "Strict" else if sameSite.Lax? then "Lax" else "None"),
     Attribute("Path", path)]
    + (if secure then [Attribute("Secure", "")] else [])
    + (if domain != "" then [Attribute("Domain", domain)] else [])
    + [Attribute("Max-Age", Print(ttl))]
  }

  lemma PartsJoin(name: string, jwt: string, sameSite: SameSite, path: string, secure: bool, domain: string, ttl: int)
    ensures Join(CookieParts(name, jwt, sameSite, path, secure, domain, ttl))
         == CookieText(name, jwt, sameSite, path, secure, domain, ttl)
  {
    hide SameSiteName, Print, Join;
    AttributeTexts();
    var head := [name + "=" + jwt, " HttpOnly", " SameSite=" + SameSiteName(sameSite), " Path=" + path];
    var extra1 := if secure then [" Secure"] else [];
    var extra2 := if domain != "" then [" Domain=" + domain] else [];
    var last := [" Max-Age=" + Print(ttl)];
    JoinFour(head[0], head[1], head[2], head[3]);
    JoinOne(" Secure");
    JoinOne(" Domain=" + domain);
    JoinOne(" Max-Age=" + Print(ttl));
    var fixed := CookieFixed(name, jwt, sameSite, path);
    FixedIsHead(name, jwt, sameSite, path);
    if secure {
      JoinAppend(head, extra1);
    } else {
      assert head + extra1 == head;
    }
    if domain != "" {
      JoinAppend(head + extra1, extra2);
    } else {
      assert head + extra1 + extra2 == head + extra1;
    }
    JoinAppend(head + extra1 + extra2, last);
    CookieJoins(fixed, if secure then "; Secure" else "", domain, Print(ttl));
  }

  lemma AttributeTexts()
    ensures SAME_SITE_ATTR == ";" + " HttpOnly" + ";" + " SameSite=" && PATH_ATTR == ";" + " Path="
    ensures SECURE_ATTR == ";" + " Secure" && DOMAIN_ATTR == ";" + " Domain=" && MAX_AGE_ATTR == ";" + " Max-Age="
    ensures SECURE_ATTR == "; Secure"
  {
  }

  lemma JoinOne(a: string)
    ensures Join([a]) == a
  {
  }

  lemma JoinFour(a: string, b: string, c: string, d: string)
    ensures Join([a, b, c, d]) == a + ";" + (b + ";" + (c + ";" + d))
  {
    assert [a, b, c, d][1..] == [b, c, d] && [b, c, d][1..] == [c, d] && [c, d][1..] == [d];
    assert Join([d]) == d;
    assert Join([c, d]) == c + ";" + d;
    assert Join([b, c, d]) == b + ";" + (c + ";" + d);
  }

  lemma FixedIsHead(name: string, jwt: string, sameSite: SameSite, path: string)
    ensures CookieFixed(name, jwt, sameSite, path)
         == name + "=" + jwt + ";" + (" HttpOnly" + ";" + (" SameSite=" + SameSiteName(sameSite) + ";"
            + (" Path=" + path)))
  {
    hide SameSiteName, SAME_SITE_ATTR, PATH_ATTR;
    AttributeTexts();
    FixedJoins(name, "=", jwt, ";", " HttpOnly", " SameSite=", SameSiteName(sameSite), " Path=", path);
  }

  lemma FixedJoins(n: string, e: string, j: string, c: string, h: string, s: string, v: string, p: string, path: string)
    ensures n + e + j + (c + h + c + s) + v + (c + p) + path == n + e + j + c + (h + c + (s + v + c + (p + path)))
  {
  }

  lemma CookieJoins(fixed: string, secure: string, domain: string, ttl: string)
    ensures fixed + secure + (";" + " Domain=" + domain) + (";" + " Max-Age=") + ttl
         == fixed + secure + ";" + (" Domain=" + domain) + ";" + (" Max-Age=" + ttl)
    ensures fixed + secure + "" + (";" + " Max-Age=") + ttl == fixed + secure + ";" + (" Max-Age=" + ttl)
    ensures fixed + (";" + " Secure") == fixed + ";" + " Secure" && fixed + "" == fixed
  {
  }

  /** Names and values are free of what separates them. */
  predicate Separable(name: string, jwt: string, path: string, domain: string) {
    '=' !in name && ';' !in name && ';' !in jwt && ';' !in path && ';' !in domain
  }

  lemma CleanAppend(ps: seq<string>, qs: seq<string>)
    ensures Clean(ps + qs) <==> Clean(ps) && Clean(qs)
  {
    var all := ps + qs;
    assert forall i :: 0 <= i < |ps| ==> all[i] == ps[i];
    assert forall i :: 0 <= i < |qs| ==> all[|ps| + i] == qs[i];
    assert forall i :: |ps| <= i < |all| ==> all[i] == qs[i - |ps|];
  }

  lemma CleanOne(p: string)
    ensures Clean([p]) <==> ';' !in p
    ensures Clean([])
  {
    assert [p][0] == p;
  }

  lemma CleanFour(a: string, b: string, c: string, d: string)
    ensures Clean([a, b, c, d]) <==> ';' !in a && ';' !in b && ';' !in c && ';' !in d
  {
    var ps := [a, b, c, d];
    assert ps[0] == a && ps[1] == b && ps[2] == c && ps[3] == d;
  }

  lemma PartsClean(name: string, jwt: string, sameSite: SameSite, path: string, secure: bool, domain: string, ttl: int)
    ensures Clean(CookieParts(name, jwt, sameSite, path, secure, domain, ttl))
       <==> ';' !in name && ';' !in jwt && ';' !in path && ';' !in domain
  {
    hide Print, Clean;
    NumberIsClean(ttl);
    InSum(name + "=", jwt);
    InSum(name, "=");
    InSum(" SameSite=", SameSiteName(sameSite));
    InSum(" Path=", path);
    InSum(" Domain=", domain);
    InSum(" Max-Age=", Print(ttl));
    assert ';' !in SameSiteName(sameSite) && ';' !in " HttpOnly" && ';' !in " Secure" && ';' !in "=";
    assert ';' !in " SameSite=" && ';' !in " Path=" && ';' !in " Domain=" && ';' !in " Max-Age=";
    hide SameSiteName;
    var head := [name + "=" + jwt, " HttpOnly", " SameSite=" + SameSiteName(sameSite), " Path=" + path];
    var extra1 := if secure then [" Secure"] else [];
    var extra2 := if domain != "" then [" Domain=" + domain] else [];
    CleanFour(head[0], head[1], head[2], head[3]);
    CleanOne(" Secure");
    CleanOne(" Domain=" + domain);
    CleanOne(" Max-Age=" + Print(ttl));
    CleanAppend(head, extra1);
    CleanAppend(head + extra1, extra2);
    CleanAppend(head + extra1 + extra2, [" Max-Age=" + Print(ttl)]);
  }

  lemma InSum(a: string, b: string)
    ensures ';' in a + b <==> ';' in a || ';' in b
  {
  }

  lemma {:induction false} NumberIsClean(n: int)
    ensures ';' !in Print(n)
  {
    DigitsAreClean(if n < 0 then -n else n);
  }

  lemma {:induction false} DigitsAreClean(n: nat)
    ensures ';' !in Digits(n)
  {
    if n >= 10 {
      DigitsAreClean(n / 10);
    }
  }

  /** The cookie reads back as its name and token and its attributes, all of
      them, if and only if the configured strings and the token are free of
      separators. */
  lemma CookieReadsBack(name: string, jwt: string, sameSite: SameSite, path: string, secure: bool, domain: string,
                        ttl: int)
    ensures ReadCookie(CookieText(name, jwt, sameSite, path, secure, domain, ttl))
            == CookieAttributes(name, jwt, sameSite, path, secure, domain, ttl)
       <==> Separable(name, jwt, path, domain)
  {
    hide CookieText, Pieces, Join, Clean, Print, SameSiteName, NameValue, Unspaced, ReadOthers;
    hide CookieParts, CookieAttributes;
    var ps := CookieParts(name, jwt, sameSite, path, secure, domain, ttl);
    var attributes := CookieAttributes(name, jwt, sameSite, path, secure, domain, ttl);
    PartsJoin(name, jwt, sameSite, path, secure, domain, ttl);
    PartsClean(name, jwt, sameSite, path, secure, domain, ttl);
    JoinPieces(ps);
    NameValueReads(name, jwt);
    OthersRead(name, jwt, sameSite, path, secure, domain, ttl);
    var read := [NameValue(ps[0])] + ReadOthers(ps[1..]);
    assert read[0] == NameValue(ps[0]) && attributes[0] == Attribute(name, jwt);
    assert |attributes| == |ps|;
  }

  lemma OthersAppend(ps: seq<string>, qs: seq<string>)
    ensures ReadOthers(ps + qs) == ReadOthers(ps) + ReadOthers(qs)
  {
    hide NameValue, Unspaced;
  }

  lemma OthersRead(name: string, jwt: string, sameSite: SameSite, path: string, secure: bool, domain: string, ttl: int)
    ensures var ps := CookieParts(name, jwt, sameSite, path, secure, domain, ttl);
            && ps[0] == name + "=" + jwt
            && CookieAttributes(name, jwt, sameSite, path, secure, domain, ttl)
            == [Attribute(name, jwt)] + ReadOthers(ps[1..])
  {
    hide NameValue, Print, Unspaced, ReadOthers, SameSiteName;
    var ps := CookieParts(name, jwt, sameSite, path, secure, domain, ttl);
    var three := [" HttpOnly", " SameSite=" + SameSiteName(sameSite), " Path=" + path];
    var extra1 := if secure then [" Secure"] else [];
    var extra2 := if domain != "" then [" Domain=" + domain] else [];
    var last := [" Max-Age=" + Print(ttl)];
    assert ps[1..] == three + extra1 + extra2 + last;
    AllRead(three, extra1, extra2, last);
    ThreeRead(sameSite, path);
    OptionsRead(secure, domain, Print(ttl));
    FirstAndOthers(Attribute(name, jwt), ReadOthers(three), ReadOthers(extra1), ReadOthers(extra2), ReadOthers(last));
  }

  lemma AllRead(a: seq<string>, b: seq<string>, c: seq<string>, d: seq<string>)
    ensures ReadOthers(a + b + c + d) == ReadOthers(a) + ReadOthers(b) + ReadOthers(c) + ReadOthers(d)
  {
    hide ReadOthers;
    OthersAppend(a, b);
    OthersAppend(a + b, c);
    OthersAppend(a + b + c, d);
  }

  lemma FirstAndOthers(first: Attribute, a: seq<Attribute>, b: seq<Attribute>, c: seq<Attribute>, d: seq<Attribute>)
    ensures [first] + (a + b + c + d) == [first] + a + b + c + d
  {
  }

  lemma OptionsRead(secure: bool, domain: string, ttl: string)
    ensures ReadOthers(if secure then [" Secure"] else []) == if secure then [Attribute("Secure", "")] else []
    ensures ReadOthers(if domain != "" then [" Domain=" + domain] else [])
         == if domain != "" then [Attribute("Domain", domain)] else []
    ensures ReadOthers([" Max-Age=" + ttl]) == [Attribute("Max-Age", ttl)]
  {
    hide ReadOthers;
    FlagPiece("Secure");
    ValuePiece("Domain", domain);
    ValuePiece("Max-Age", ttl);
    NothingRead();
    assert " " + "Secure" == " Secure" && " " + ("Domain" + "=" + domain) == " Domain=" + domain;
    assert " " + ("Max-Age" + "=" + ttl) == " Max-Age=" + ttl;
  }

  lemma NothingRead()
    ensures ReadOthers([]) == []
  {
  }

  lemma ThreeRead(sameSite: SameSite, path: string)
    ensures ReadOthers([" HttpOnly", " SameSite=" + SameSiteName(sameSite), " Path=" + path])
         == [Attribute("HttpOnly", ""),
             Attribute("SameSite", if sameSite.Strict? then "Strict" else if sameSite.Lax? then "Lax" else "None"),
             Attribute("Path", path)]
  {
    hide NameValue, Unspaced, ReadOthers;
    var v := SameSiteName(sameSite);
    assert v == if sameSite.Strict? then "Strict" else if sameSite.Lax? then "Lax" else "None";
    hide SameSiteName;
    FlagPiece("HttpOnly");
    ValuePiece("SameSite", v);
    ValuePiece("Path", path);
    assert " " + "HttpOnly" == " HttpOnly" && " " + ("SameSite" + "=" + v) == " SameSite=" + v;
    assert " " + ("Path" + "=" + path) == " Path=" + path;
    var a, b, c := " HttpOnly", " SameSite=" + v, " Path=" + path;
    OthersAppend([a], [b]);
    OthersAppend([a] + [b], [c]);
    assert [a, b, c] == [a] + [b] + [c];
  }

  lemma FlagPiece(name: string)
    requires '=' !in name
    ensures ReadOthers([" " + name]) == [Attribute(name, "")]
  {
    FlagReads(name);
    Unspace(name);
    hide NameValue, Unspaced;
  }

  lemma ValuePiece(name: string, value: string)
    requires '=' !in name
    ensures ReadOthers([" " + (name + "=" + value)]) == [Attribute(name, value)]
  {
    NameValueReads(name, value);
    Unspace(name + "=" + value);
    hide NameValue, Unspaced;
  }

  lemma Unspace(s: string)
    ensures Unspaced(" " + s) == s
  {
    assert (" " + s)[1..] == s;
  }
}
