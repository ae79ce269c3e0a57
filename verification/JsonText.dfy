/** JSON text the module writes: ngx_http_auth_webauthn_json_escape and the
    session claims, read back by the string and object grammar of RFC 8259. */
module JsonText {
  import opened Buffer
  import opened Decimal
  import opened Prelude

  const HEX := "0123456789abcdef"

  /** The escape of one char, case by case as the switch has it. */
  function EscapeChar(c: char): (e: string)
    ensures 1 <= |e| <= 6
  {
    if c == '"' then ['\\', '"']
    else if c == '\\' then ['\\', '\\']
    else if c == '\n' then ['\\', 'n']
    else if c == '\r' then ['\\', 'r']
    else if c == '\t' then ['\\', 't']
    else if c < ' ' then ['\\', 'u', '0', '0', HEX[c as int / 16], HEX[c as int % 16]]
    else [c]
  }

  function Escape(s: string): (e: string)
    ensures |s| <= |e| <= 6 * |s|
  {
    if s == [] then [] else EscapeChar(s[0]) + Escape(s[1..])
  }

  lemma {:induction false} EscapeAppend(s: string, t: string)
    ensures Escape(s + t) == Escape(s) + Escape(t)
    decreases |s|
  {
    hide EscapeChar;
    if s == [] {
      assert s + t == t;
    } else {
      EscapeAppend(s[1..], t);
      assert (s + t)[1..] == s[1..] + t;
      assert EscapeChar(s[0]) + (Escape(s[1..]) + Escape(t)) == EscapeChar(s[0]) + Escape(s[1..]) + Escape(t);
    }
  }

  lemma EscapeSnoc(s: string, i: nat)
    requires i < |s|
    ensures Escape(s[..i + 1]) == Escape(s[..i]) + EscapeChar(s[i])
    ensures Escape("") == ""
  {
    assert s[..i + 1] == s[..i] + [s[i]];
    EscapeAppend(s[..i], [s[i]]);
    assert [s[i]][1..] == [];
  }

  /** src/ngx_http_auth_webauthn_module.c:1020, into six octets per input octet. */
  method JsonEscape(src: string) returns (out: string)
    ensures out == Escape(src)
  {
    hide Escape;
    if |src| == 0 {
      return "";
    }
    var p := new Buffer<char>(|src| * 6);
    for i := 0 to |src|
      invariant p.Valid() && fresh(p) && fresh(p.data) && p.Capacity() == |src| * 6
      invariant p.contents == Escape(src[..i])
    {
      var c := src[i];
      ghost var done := p.contents;
      if c == '"' {
        p.Append(['\\', '"']);
      } else if c == '\\' {
        p.Append(['\\', '\\']);
      } else if c == '\n' {
        p.Append(['\\', 'n']);
      } else if c == '\r' {
        p.Append(['\\', 'r']);
      } else if c == '\t' {
        p.Append(['\\', 't']);
      } else if c < ' ' {
        p.Append(['\\', 'u', '0', '0', HEX[c as int / 16], HEX[c as int % 16]]);
      } else {
        p.Put(c);
      }
      assert p.contents == done + EscapeChar(c);
      EscapeSnoc(src, i);
    }
    assert src[..|src|] == src;
    out := p.Text();
  }

  // Reading, section 7 of RFC 8259

  function HexValue(c: char): (v: int)
    ensures -1 <= v < 16
  {
    if '0' <= c <= '9' then c as int - '0' as int
    else if 'a' <= c <= 'f' then c as int - 'a' as int + 10
    else if 'A' <= c <= 'F' then c as int - 'A' as int + 10
    else -1
  }

  /** The single octet a `\uXXXX` escape denotes, when it denotes one. */
  function UnicodeEscape(a: char, b: char, c: char, d: char): Option<char> {
    if HexValue(a) == 0 && HexValue(b) == 0 && 0 <= HexValue(c) < 8 && HexValue(d) >= 0
    then Some((HexValue(c) * 16 + HexValue(d)) as char)
    else None
  }

  /** One char of a string literal and how many chars spell it. */
  function ReadChar(s: string): (r: Option<(char, nat)>)
    ensures r.Some? ==> 1 <= r.value.1 <= |s|
  {
    if s == [] || s[0] < ' ' || s[0] == '"' then None
    else if s[0] != '\\' then Some((s[0], 1))
    else if |s| < 2 then None
    else if s[1] == '"' || s[1] == '\\' || s[1] == '/' then Some((s[1], 2))
    else if s[1] == 'n' then Some(('\n', 2))
    else if s[1] == 'r' then Some(('\r', 2))
    else if s[1] == 't' then Some(('\t', 2))
    else if s[1] == 'b' then Some((8 as char, 2))
    else if s[1] == 'f' then Some((12 as char, 2))
    else if s[1] == 'u' && |s| >= 6 && UnicodeEscape(s[2], s[3], s[4], s[5]).Some?
    then Some((UnicodeEscape(s[2], s[3], s[4], s[5]).value, 6))
    else None
  }

  /** A string literal from just after its opening quote, and what follows the
      closing one. */
  function ReadString(s: string): (r: Option<(string, string)>)
    ensures r.Some? ==> |r.value.1| < |s|
    decreases |s|
  {
    if s != [] && s[0] == '"' then Some(([], s[1..]))
    else
      var c := ReadChar(s);
      if c.None? then None
      else
        var others := ReadString(s[c.value.1..]);
        if others.None? then None
        else Some(([c.value.0] + others.value.0, others.value.1))
  }

  lemma ReadEscapedChar(c: char, rest: string)
    ensures ReadChar(EscapeChar(c) + rest) == Some((c, |EscapeChar(c)|))
    ensures EscapeChar(c)[0] != '"'
  {
    var s := EscapeChar(c) + rest;
    if c < ' ' && c != '\n' && c != '\r' && c != '\t' {
      HexDigits(c as int / 16);
      HexDigits(c as int % 16);
      assert s[2] == '0' && s[3] == '0' && s[4] == HEX[c as int / 16] && s[5] == HEX[c as int % 16];
    }
  }

  lemma HexDigits(v: int)
    requires 0 <= v < 16
    ensures HexValue(HEX[v]) == v
  {
  }

  /** An escaped value between quotes is read back whole, and the reader resumes
      right after the closing quote: nothing in the value can end it early. */
  lemma {:induction false} ReadEscaped(x: string, rest: string)
    ensures ReadString(Escape(x) + "\"" + rest) == Some((x, rest))
    decreases |x|
  {
    hide ReadChar, EscapeChar;
    if x == [] {
      assert Escape(x) + "\"" + rest == "\"" + rest;
      assert ("\"" + rest)[1..] == rest;
    } else {
      var e, more := EscapeChar(x[0]), Escape(x[1..]) + "\"" + rest;
      assert Escape(x) + "\"" + rest == e + more;
      ReadEscapedChar(x[0], more);
      assert (e + more)[|e|..] == more;
      ReadEscaped(x[1..], rest);
      assert [x[0]] + x[1..] == x;
    }
  }

  /** So escaping is injective. */
  lemma EscapeInjective(x: string, y: string)
    requires Escape(x) == Escape(y)
    ensures x == y
  {
    ReadEscaped(x, "");
    ReadEscaped(y, "");
  }

  /** Escaped text holds no control octet. */
  lemma {:induction false} EscapeHasNoControl(x: string, i: nat)
    requires i < |Escape(x)|
    ensures Escape(x)[i] >= ' '
    decreases |x|
  {
    var n := |EscapeChar(x[0])|;
    if i < n {
      EscapeCharHasNoControl(x[0], i);
    } else {
      EscapeHasNoControl(x[1..], i - n);
    }
  }

  lemma EscapeCharHasNoControl(c: char, i: nat)
    requires i < |EscapeChar(c)|
    ensures EscapeChar(c)[i] >= ' '
  {
    if c < ' ' {
      HexDigits(c as int / 16);
      HexDigits(c as int % 16);
    }
  }

  // Text written without escaping

  predicate Plain(x: string) {
    forall i :: 0 <= i < |x| ==> x[i] >= ' ' && x[i] != '"' && x[i] != '\\'
  }

  lemma {:induction false} ReadPlain(x: string, rest: string)
    requires Plain(x)
    ensures ReadString(x + "\"" + rest) == Some((x, rest))
    decreases |x|
  {
    var s := x + "\"" + rest;
    if x == [] {
      assert s[1..] == rest;
    } else {
      assert s[1..] == x[1..] + "\"" + rest;
      ReadPlain(x[1..], rest);
      assert [x[0]] + x[1..] == x;
    }
  }

  /** Reading never yields more chars than it consumes, and as many only when
      nothing was escaped. */
  lemma {:induction false} ReadStringShrinks(s: string)
    requires ReadString(s).Some?
    ensures var (v, r) := ReadString(s).value;
            && |v| + 1 + |r| <= |s|
            && (|v| + 1 + |r| == |s| ==> Plain(v))
    decreases |s|
  {
    if s[0] != '"' {
      ReadStringShrinks(s[ReadChar(s).value.1..]);
    }
  }

  /** The unescaped members (aud, cid, jti, rpId, key ids) are read back exactly
      when they hold no quote, no backslash and no control octet. */
  lemma RawMemberReads(x: string, rest: string)
    ensures ReadString(x + "\"" + rest) == Some((x, rest)) <==> Plain(x)
  {
    if Plain(x) {
      ReadPlain(x, rest);
    } else if ReadString(x + "\"" + rest) == Some((x, rest)) {
      ReadStringShrinks(x + "\"" + rest);
    }
  }

  /** How many chars come before the next quote, or the end. */
  function Calm(text: string): (n: nat)
    ensures n <= |text|
  {
    if text == [] || text[0] == '"' then 0 else 1 + Calm(text[1..])
  }

  /** Text that may follow a string: it does not go on with a quote, and up to
      the next quote it holds nothing that would matter inside a string. */
  predicate Follows(text: string) {
    text != [] && text[0] != '"' && Plain(text[..Calm(text)])
  }

  lemma {:induction false} ReadCalm(text: string)
    requires Plain(text[..Calm(text)])
    ensures ReadString(text)
         == if Calm(text) == |text| then None else Some((text[..Calm(text)], text[Calm(text) + 1..]))
    decreases |text|
  {
    if text != [] && text[0] != '"' {
      var rest := text[1..];
      assert text[..Calm(text)][1..] == rest[..Calm(rest)];
      assert text[..Calm(text)][0] == text[0];
      ReadCalm(rest);
      assert [text[0]] + rest[..Calm(rest)] == text[..Calm(text)];
    }
  }

  /** What reading an unescaped value can give: the value itself, when it is
      plain; something shorter; or, where a final backslash swallows the closing
      quote, something that does not end in a backslash. */
  lemma {:induction false} RawValue(x: string, text: string)
    requires Follows(text) && ReadString(x + "\"" + text).Some?
    ensures var v := ReadString(x + "\"" + text).value.0;
            || (v == x && Plain(x))
            || |v| < |x|
            || (x != [] && x[|x| - 1] == '\\' && v != [] && v[|v| - 1] != '\\')
    decreases |x|
  {
    hide UnicodeEscape, Follows;
    var s := x + "\"" + text;
    if x != [] && x[0] != '"' {
      var n := ReadChar(s).value.1;
      SpellsInside(x, text);
      if n <= |x| {
        assert s[n..] == x[n..] + "\"" + text;
        RawValue(x[n..], text);
      } else {
        assert s[2..] == text;
        SwallowedQuote(text);
      }
    }
  }

  /** Only `\"` reaches past the end of an unescaped value, by one char. */
  lemma SpellsInside(x: string, text: string)
    requires x != [] && ReadChar(x + "\"" + text).Some?
    ensures var n := ReadChar(x + "\"" + text).value.1;
            n <= |x| || (n == 2 && x == "\\")
  {
    var s := x + "\"" + text;
    assert s[|x|] == '"';
    if ReadChar(s).value.1 == 6 && |x| < 6 {
      assert false;
    }
  }

  /** After a swallowed quote the value goes on up to the next one, or never
      ends. */
  lemma SwallowedQuote(text: string)
    requires Follows(text)
    ensures ReadString(text).Some? ==>
              var v := ReadString(text).value.0; v != [] && v[|v| - 1] != '\\'
  {
    ReadCalm(text);
  }

  /** So the value read is the value written if and only if that is plain. */
  lemma RawValueReads(x: string, text: string)
    requires Follows(text)
    ensures ReadString(x + "\"" + text).Some? && ReadString(x + "\"" + text).value.0 == x <==> Plain(x)
  {
    hide Follows;
    if Plain(x) {
      ReadPlain(x, text);
    } else if ReadString(x + "\"" + text).Some? {
      RawValue(x, text);
    }
  }

  // Values

  datatype JsonValue =
    | JString(s: string)
    | JNumber(n: int)
    | JBool(b: bool)
    | JObject(members: seq<Member>)
    | JArray(items: seq<JsonValue>)

  datatype Member = Member(name: string, value: JsonValue)

  /** How many leading chars can belong to an integer. */
  function NumberLength(s: string): (n: nat)
    ensures n <= |s|
  {
    if s != [] && (IsDigit(s[0]) || s[0] == '-') then 1 + NumberLength(s[1..]) else 0
  }

  predicate StartsWith(s: string, word: string) {
    |word| <= |s| && s[..|word|] == word
  }

  /** A value without insignificant whitespace, and what follows it. */
  function ReadValue(s: string): (r: Option<(JsonValue, string)>)
    ensures r.Some? ==> |r.value.1| < |s|
    decreases |s|, 0
  {
    if s == [] then None
    else if s[0] == '"' then
      var v := ReadString(s[1..]);
      if v.None? then None else Some((JString(v.value.0), v.value.1))
    else if s[0] == '{' then
      if StartsWith(s, "{}") then Some((JObject([]), s[2..]))
      else
        var m := ReadMembers(s[1..]);
        if m.None? then None else Some((JObject(m.value.0), m.value.1))
    else if s[0] == '[' then
      if StartsWith(s, "[]") then Some((JArray([]), s[2..]))
      else
        var m := ReadItems(s[1..]);
        if m.None? then None else Some((JArray(m.value.0), m.value.1))
    else if StartsWith(s, "true") then Some((JBool(true), s[4..]))
    else if StartsWith(s, "false") then Some((JBool(false), s[5..]))
    else
      var n := NumberLength(s);
      if IsDecimal(s[..n]) then Some((JNumber(DecimalValue(s[..n])), s[n..])) else None
  }

  /** Members of an object, from just after the brace or comma, up to the
      closing brace. */
  function ReadMembers(s: string): (r: Option<(seq<Member>, string)>)
    ensures r.Some? ==> |r.value.1| < |s|
    decreases |s|, 1
  {
    if s == [] || s[0] != '"' then None
    else
      var name := ReadString(s[1..]);
      if name.None? || name.value.1 == [] || name.value.1[0] != ':' then None
      else
        var value := ReadValue(name.value.1[1..]);
        if value.None? || value.value.1 == [] then None
        else
          var member := Member(name.value.0, value.value.0);
          var next := value.value.1;
          if next[0] == '}' then Some(([member], next[1..]))
          else if next[0] != ',' then None
          else
            var others := ReadMembers(next[1..]);
            if others.None? then None
            else Some(([member] + others.value.0, others.value.1))
  }

  /** Items of an array, likewise up to the closing bracket. */
  function ReadItems(s: string): (r: Option<(seq<JsonValue>, string)>)
    ensures r.Some? ==> |r.value.1| < |s|
    decreases |s|, 1
  {
    var value := ReadValue(s);
    if value.None? || value.value.1 == [] then None
    else
      var next := value.value.1;
      if next[0] == ']' then Some(([value.value.0], next[1..]))
      else if next[0] != ',' then None
      else
        var others := ReadItems(next[1..]);
        if others.None? then None
        else Some(([value.value.0] + others.value.0, others.value.1))
  }

  function ReadObject(s: string): Option<seq<Member>> {
    match ReadValue(s)
    case Some((JObject(members), rest)) => if rest == [] then Some(members) else None
    case _ => None
  }

  // Members as they are written

  function StringMember(name: string, text: string): string {
    "\"" + name + "\":\"" + text + "\""
  }

  function NumberMember(name: string, n: int): string {
    "\"" + name + "\":" + Print(n)
  }

  /** The text of a member list, brace included, reads as these members. */
  ghost predicate Reads(text: string, members: seq<Member>, rest: string) {
    ReadMembers(text) == Some((members, rest))
  }

  ghost predicate ReadsItems(text: string, items: seq<JsonValue>, rest: string) {
    ReadItems(text) == Some((items, rest))
  }

  /** An object is its members. */
  lemma ObjectReads(text: string, members: seq<Member>, rest: string)
    requires text != [] && text[0] == '"'
    ensures ReadValue("{" + text) == Some((JObject(members), rest)) <==> Reads(text, members, rest)
    ensures rest == "" ==> (ReadObject("{" + text) == Some(members) <==> Reads(text, members, rest))
  {
    hide ReadMembers;
    assert ("{" + text)[1..] == text && ("{" + text)[1] == '"';
  }

  /** An array is its items. */
  lemma ArrayReads(text: string, items: seq<JsonValue>, rest: string)
    requires text != [] && text[0] != ']'
    ensures ReadValue("[" + text) == Some((JArray(items), rest)) <==> ReadsItems(text, items, rest)
  {
    hide ReadItems;
    assert ("[" + text)[1..] == text && ("[" + text)[1] == text[0];
  }

  lemma NameReads(name: string, more: string)
    requires Plain(name)
    ensures var s := "\"" + name + "\":" + more;
            s[0] == '"' && ReadString(s[1..]) == Some((name, ":" + more)) && (":" + more)[1..] == more
  {
    var s := "\"" + name + "\":" + more;
    assert s[1..] == name + "\"" + (":" + more);
    ReadPlain(name, ":" + more);
  }

  /** What ends a member: the end of the object or a comma. */
  predicate EndsMember(text: string) {
    text != [] && (text[0] == '}' || text[0] == ',')
  }

  /** Whether what follows a member reads as the other members. */
  ghost predicate ReadsOn(text: string, members: seq<Member>, rest: string)
    requires text != []
  {
    if text[0] == '}' then members == [] && rest == text[1..] else members != [] && Reads(text[1..], members, rest)
  }

  /** A member whose value text reads as `value`, first in a list: the whole
      reads if and only if the rest does. */
  lemma MemberReads(name: string, valueText: string, value: JsonValue, text: string, members: seq<Member>, rest: string)
    requires Plain(name) && EndsMember(text) && ReadValue(valueText + text) == Some((value, text))
    ensures Reads("\"" + name + "\":" + valueText + text, [Member(name, value)] + members, rest)
       <==> ReadsOn(text, members, rest)
  {
    hide ReadString, ReadValue;
    var s, m := "\"" + name + "\":" + valueText + text, Member(name, value);
    assert s == "\"" + name + "\":" + (valueText + text);
    NameReads(name, valueText + text);
    assert [m] + [] == [m];
    forall others: seq<Member> ensures [m] + others == [m] + members <==> others == members {
      assert ([m] + others)[1..] == others && ([m] + members)[1..] == members;
    }
    SomeMembers(text[1..]);
  }

  lemma SomeMembers(text: string)
    ensures ReadMembers(text).Some? ==> ReadMembers(text).value.0 != []
  {
  }

  lemma StringMemberReads(name: string, value: string, written: string, text: string, members: seq<Member>,
                          rest: string)
    requires Plain(name) && EndsMember(text)
    requires ReadString(written + "\"" + text) == Some((value, text))
    ensures Reads(StringMember(name, written) + text, [Member(name, JString(value))] + members, rest)
       <==> ReadsOn(text, members, rest)
  {
    hide ReadString, ReadMembers;
    var valueText := "\"" + written + "\"";
    assert (valueText + text)[1..] == written + "\"" + text;
    MemberReads(name, valueText, JString(value), text, members, rest);
    assert StringMember(name, written) + text == "\"" + name + "\":" + valueText + text;
  }

  /** A member written without escaping: it and the rest read as they should if
      and only if it is plain and the rest does. */
  lemma RawMemberIsRead(name: string, x: string, text: string, members: seq<Member>, rest: string)
    requires Plain(name) && EndsMember(text) && Follows(text)
    ensures Reads(StringMember(name, x) + text, [Member(name, JString(x))] + members, rest)
       <==> Plain(x) && ReadsOn(text, members, rest)
  {
    hide ReadString, ReadMembers, Plain, Follows;
    RawValueReads(x, text);
    if Plain(x) {
      ReadPlain(x, text);
      StringMemberReads(name, x, x, text, members, rest);
    } else if Reads(StringMember(name, x) + text, [Member(name, JString(x))] + members, rest) {
      var more := "\"" + x + "\"" + text;
      assert StringMember(name, x) + text == "\"" + name + "\":" + more;
      assert more[1..] == x + "\"" + text;
      FirstValue(name, more, [Member(name, JString(x))] + members, rest);
    }
  }

  /** The first member read has the value read after its name. */
  lemma FirstValue(name: string, more: string, members: seq<Member>, rest: string)
    requires Plain(name) && Reads("\"" + name + "\":" + more, members, rest) && members != []
    ensures ReadValue(more).Some? && members[0].value == ReadValue(more).value.0
  {
    hide ReadString, ReadValue, Plain;
    NameReads(name, more);
  }

  lemma {:induction false} NumberLengthOf(digits: string, text: string)
    requires forall i :: 0 <= i < |digits| ==> IsDigit(digits[i]) || digits[i] == '-'
    requires text != [] && !IsDigit(text[0]) && text[0] != '-'
    ensures NumberLength(digits + text) == |digits|
  {
    if digits != [] {
      assert (digits + text)[1..] == digits[1..] + text;
      NumberLengthOf(digits[1..], text);
    } else {
      assert digits + text == text;
    }
  }

  lemma NumberReads(n: int, text: string)
    requires INT64_MIN <= n <= INT64_MAX && EndsMember(text)
    ensures ReadValue(Print(n) + text) == Some((JNumber(n), text))
  {
    hide ReadString, ReadMembers, ReadItems, NumberLength, Print;
    ParsePrint(n);
    NumberLengthOf(Print(n), text);
    var s := Print(n) + text;
    assert s[..|Print(n)|] == Print(n) && s[|Print(n)|..] == text;
    assert s[0] == Print(n)[0];
  }

  lemma NumberMemberReads(name: string, n: int, text: string, members: seq<Member>, rest: string)
    requires INT64_MIN <= n <= INT64_MAX && Plain(name) && EndsMember(text)
    ensures Reads(NumberMember(name, n) + text, [Member(name, JNumber(n))] + members, rest)
       <==> ReadsOn(text, members, rest)
  {
    hide ReadString, ReadMembers, ReadValue;
    NumberReads(n, text);
    MemberReads(name, Print(n), JNumber(n), text, members, rest);
    assert NumberMember(name, n) + text == "\"" + name + "\":" + Print(n) + text;
  }

  /** An item first in a list: the list reads if and only if the item reads as
      it should, up to what follows it, and the rest does. */
  lemma ItemReads(s: string, value: JsonValue, text: string, items: seq<JsonValue>, rest: string)
    requires ReadValue(s) == Some((value, text)) && text != [] && (text[0] == ']' || text[0] == ',')
    ensures ReadsItems(s, [value] + items, rest)
       <==> if text[0] == ']' then items == [] && rest == text[1..]
            else items != [] && ReadsItems(text[1..], items, rest)
  {
    hide ReadValue;
    assert [value] + [] == [value];
    forall others: seq<JsonValue> ensures [value] + others == [value] + items <==> others == items {
      assert ([value] + others)[1..] == others && ([value] + items)[1..] == items;
    }
    SomeItems(text[1..]);
  }

  lemma SomeItems(text: string)
    ensures ReadItems(text).Some? ==> ReadItems(text).value.0 != []
  {
    hide ReadValue;
  }

  lemma FirstItem(s: string, items: seq<JsonValue>, rest: string)
    requires ReadsItems(s, items, rest) && items != []
    ensures ReadValue(s).Some? && items[0] == ReadValue(s).value.0
  {
    hide ReadValue;
  }
}
