/**
 JSON texts without optional white space, made of strings, objects, booleans and null: a printer, a
 reader that follows section 7 of RFC 8259 for strings, and the exact condition under which the reader
 accepts what the printer wrote.
 */
module Json {
  import opened Wrappers
  import opened Escaping

  datatype Json =
    | JString(text: string)
    | JObject(members: seq<(string, Json)>)
    | JBool(value: bool)
    | JNull

  /** The replacements of `escape_json`, in their order. */
  const RULES: seq<(char, string)> := [
    ('\\', ['\\', '\\']), ('"', ['\\', '"']), ('\n', ['\\', 'n']), ('\r', ['\\', 'r']), ('\t', ['\\', 't'])]

  /** The escape as the source computes it: five whole-string replacements. */
  function EscapeJson(s: string): string {
    Replace(Replace(Replace(Replace(Replace(s,
      '\\', ['\\', '\\']), '"', ['\\', '"']), '\n', ['\\', 'n']), '\r', ['\\', 'r']), '\t', ['\\', 't'])
  }

  /** It is the one-pass escape by the same rules. */
  lemma EscapeIsOnePass(s: string)
    ensures EscapeJson(s) == Escape(s, RULES)
  {
    var s1 := Replace(s, '\\', ['\\', '\\']);
    var s2 := Replace(s1, '"', ['\\', '"']);
    var s3 := Replace(s2, '\n', ['\\', 'n']);
    var s4 := Replace(s3, '\r', ['\\', 'r']);
    var s5 := Replace(s4, '\t', ['\\', 't']);
    assert ReplaceAll(s5, RULES[1..][1..][1..][1..][1..]) == s5;
    assert ReplaceAll(s4, RULES[1..][1..][1..][1..]) == s5;
    assert ReplaceAll(s3, RULES[1..][1..][1..]) == s5;
    assert ReplaceAll(s2, RULES[1..][1..]) == s5;
    assert ReplaceAll(s1, RULES[1..]) == s5;
    ChainIsOnePass(s, RULES);
  }

  function Quoted(s: string): string {
    "\"" + EscapeJson(s) + "\""
  }

  function Print(v: Json): string {
    match v
    case JString(s) => Quoted(s)
    case JObject(ms) => "{" + PrintMembers(ms) + "}"
    case JBool(b) => if b then "true" else "false"
    case JNull => "null"
  }

  function PrintMembers(ms: seq<(string, Json)>): string {
    if ms == [] then ""
    else if |ms| == 1 then PrintMember(ms[0])
    else PrintMember(ms[0]) + "," + PrintMembers(ms[1..])
  }

  function PrintMember(m: (string, Json)): string {
    Quoted(m.0) + ":" + Print(m.1)
  }

  // The reader. Each function returns what it read and the unread rest.

  function HexValue(c: char): Option<nat> {
    if '0' <= c <= '9' then Some(c as nat - '0' as nat)
    else if 'a' <= c <= 'f' then Some(c as nat - 'a' as nat + 10)
    else if 'A' <= c <= 'F' then Some(c as nat - 'A' as nat + 10)
    else None
  }

  /** The four digits of a \u escape; halves of surrogate pairs are not read. */
  function ReadUnit(s: string): Option<char>
    requires |s| >= 4
  {
    match (HexValue(s[0]), HexValue(s[1]), HexValue(s[2]), HexValue(s[3]))
    case (Some(a), Some(b), Some(c), Some(d)) =>
      var unit := ((a * 16 + b) * 16 + c) * 16 + d;
      if unit < 0xD800 || 0xE000 <= unit < 0x1_0000 then Some(unit as char) else None
    case _ => None
  }

  function ReadEscape(c: char): Option<char> {
    match c
    case '"' => Some('"')
    case '\\' => Some('\\')
    case '/' => Some('/')
    case 'b' => Some(8 as char)
    case 'f' => Some(12 as char)
    case 'n' => Some('\n')
    case 'r' => Some('\r')
    case 't' => Some('\t')
    case _ => None
  }

  /** The characters of a string up to its closing quote. */
  function ReadChars(s: string): (r: Option<(string, string)>)
    ensures r.Some? ==> |r.value.1| < |s|
  {
    if s == "" then None
    else if s[0] == '"' then Some(("", s[1..]))
    else if s[0] == '\\' then
      if |s| >= 6 && s[1] == 'u' then Prepend(ReadUnit(s[2..]), ReadChars(s[6..]))
      else if |s| >= 2 then Prepend(ReadEscape(s[1]), ReadChars(s[2..]))
      else None
    else if s[0] < ' ' then None
    else Prepend(Some(s[0]), ReadChars(s[1..]))
  }

  function ReadString(s: string): (r: Option<(string, string)>)
    ensures r.Some? ==> |r.value.1| < |s|
  {
    if s != "" && s[0] == '"' then ReadChars(s[1..]) else None
  }

  function StartsWith(s: string, word: string): bool {
    |s| >= |word| && s[..|word|] == word
  }

  function ReadValue(s: string): (r: Option<(Json, string)>)
    ensures r.Some? ==> |r.value.1| < |s|
    decreases |s|, 2
  {
    if s == "" then None
    else if s[0] == '"' then
      match ReadString(s)
      case Some((text, rest)) => Some((JString(text), rest))
      case None => None
    else if StartsWith(s, "{}") then Some((JObject([]), s[2..]))
    else if s[0] == '{' then
      match ReadMembers(s[1..])
      case Some((ms, rest)) => Some((JObject(ms), rest))
      case None => None
    else if StartsWith(s, "true") then Some((JBool(true), s[4..]))
    else if StartsWith(s, "false") then Some((JBool(false), s[5..]))
    else if StartsWith(s, "null") then Some((JNull, s[4..]))
    else None
  }

  /** One member or more, and the closing brace. */
  function ReadMembers(s: string): (r: Option<(seq<(string, Json)>, string)>)
    ensures r.Some? ==> |r.value.1| < |s|
    decreases |s|, 1
  {
    match ReadMember(s)
    case None => None
    case Some((m, s')) =>
      if s' == "" then None
      else if s'[0] == '}' then Some(([m], s'[1..]))
      else if s'[0] == ',' then
        match ReadMembers(s'[1..])
        case Some((ms, rest)) => Some(([m] + ms, rest))
        case None => None
      else None
  }

  function ReadMember(s: string): (r: Option<((string, Json), string)>)
    ensures r.Some? ==> |r.value.1| < |s|
    decreases |s|, 0
  {
    match ReadString(s)
    case None => None
    case Some((name, s')) =>
      if s' == "" || s'[0] != ':' then None else
        match ReadValue(s'[1..])
        case None => None
        case Some((value, rest)) => Some(((name, value), rest))
  }

  // Strings.

  /** No control character other than the three that the printer escapes. */
  predicate Clean(s: string) {
    forall i :: 0 <= i < |s| && s[i] < ' ' ==> s[i] == '\n' || s[i] == '\r' || s[i] == '\t'
  }

  lemma EscapeCharForms(c: char)
    ensures EscapeChar(c, RULES) ==
      if c == '\\' then ['\\', '\\'] else if c == '"' then ['\\', '"'] else if c == '\n' then ['\\', 'n']
      else if c == '\r' then ['\\', 'r'] else if c == '\t' then ['\\', 't'] else [c]
  {
    var r1 := [('"', ['\\', '"']), ('\n', ['\\', 'n']), ('\r', ['\\', 'r']), ('\t', ['\\', 't'])];
    var r2 := [('\n', ['\\', 'n']), ('\r', ['\\', 'r']), ('\t', ['\\', 't'])];
    var r3 := [('\r', ['\\', 'r']), ('\t', ['\\', 't'])];
    var r4 := [('\t', ['\\', 't'])];
    assert RULES[1..] == r1 && r1[1..] == r2 && r2[1..] == r3 && r3[1..] == r4 && r4[1..] == [];
    assert EscapeChar(c, r4) == if c == '\t' then ['\\', 't'] else [c];
    assert EscapeChar(c, r3) == if c == '\r' then ['\\', 'r'] else EscapeChar(c, r4);
    assert EscapeChar(c, r2) == if c == '\n' then ['\\', 'n'] else EscapeChar(c, r3);
    assert EscapeChar(c, r1) == if c == '"' then ['\\', '"'] else EscapeChar(c, r2);
  }

  lemma ReadsOne(c: char, t: string)
    ensures var s := EscapeChar(c, RULES) + t;
      if Clean([c]) then ReadChars(s) == Prepend(Some(c), ReadChars(t)) else ReadChars(s) == None
  {
    EscapeCharForms(c);
    var s := EscapeChar(c, RULES) + t;
    if |EscapeChar(c, RULES)| == 2 {
      assert s[2..] == t && s[0] == '\\' && s[1] != 'u';
    } else {
      assert s[1..] == t && s[0] == c;
    }
    assert [c][0] == c;
  }

  /** A printed string reads back as itself, and one with another control character does not read. */
  lemma {:induction false} CharsRoundTrip(s: string, rest: string)
    ensures ReadChars(Escape(s, RULES) + "\"" + rest) == if Clean(s) then Some((s, rest)) else None
  {
    if s == "" {
      assert Escape(s, RULES) + "\"" + rest == "\"" + rest;
    } else {
      var t := Escape(s[1..], RULES) + "\"" + rest;
      assert Escape(s, RULES) + "\"" + rest == EscapeChar(s[0], RULES) + t;
      ReadsOne(s[0], t);
      CharsRoundTrip(s[1..], rest);
      CleanHead(s);
      assert [s[0]] + s[1..] == s;
    }
  }

  lemma CleanHead(s: string)
    requires s != ""
    ensures Clean(s) <==> Clean([s[0]]) && Clean(s[1..])
  {
    if Clean([s[0]]) && Clean(s[1..]) {
      forall i | 0 <= i < |s| && s[i] < ' ' ensures s[i] == '\n' || s[i] == '\r' || s[i] == '\t' {
        if i == 0 { assert [s[0]][0] == s[0]; } else { assert s[1..][i - 1] == s[i]; }
      }
    }
  }

  lemma StringRoundTrip(s: string, rest: string)
    ensures ReadString(Quoted(s) + rest) == if Clean(s) then Some((s, rest)) else None
  {
    EscapeIsOnePass(s);
    CharsRoundTrip(s, rest);
    assert (Quoted(s) + rest)[1..] == Escape(s, RULES) + "\"" + rest;
  }

  // Values.

  predicate CleanValue(v: Json) {
    match v
    case JString(s) => Clean(s)
    case JObject(ms) => CleanMembers(ms)
    case JBool(_) => true
    case JNull => true
  }

  predicate CleanMembers(ms: seq<(string, Json)>) {
    ms == [] || (CleanMember(ms[0]) && CleanMembers(ms[1..]))
  }

  predicate CleanMember(m: (string, Json)) {
    Clean(m.0) && CleanValue(m.1)
  }

  lemma {:induction false} ValueRoundTrip(v: Json, rest: string)
    ensures ReadValue(Print(v) + rest) == if CleanValue(v) then Some((v, rest)) else None
  {
    var s := Print(v) + rest;
    match v
    case JString(t) =>
      StringRoundTrip(t, rest);
    case JObject(ms) =>
      if ms == [] {
        assert PrintMembers(ms) == "";
        assert "{" + "" + "}" == "{}";
        assert s[..2] == "{}" && s[2..] == rest;
      } else {
        assert s == "{" + (PrintMembers(ms) + "}" + rest);
        assert s[1..] == PrintMembers(ms) + "}" + rest;
        MembersStart(ms);
        assert s[1] == '"';
        assert s[..2][1] == '"';
        MembersRoundTrip(ms, rest);
      }
    case JBool(b) =>
      if b {
        assert s[0] == 't' && s[..4] == "true" && s[4..] == rest;
      } else {
        assert s[0] == 'f' && s[..5] == "false" && s[5..] == rest;
      }
    case JNull =>
      assert s[0] == 'n' && s[..4] == "null" && s[4..] == rest;
  }

  lemma MembersStart(ms: seq<(string, Json)>)
    requires ms != []
    ensures |PrintMembers(ms)| > 0 && PrintMembers(ms)[0] == '"'
  {
    assert PrintMember(ms[0])[0] == '"';
  }

  lemma {:induction false} MembersRoundTrip(ms: seq<(string, Json)>, rest: string)
    requires ms != []
    ensures ReadMembers(PrintMembers(ms) + "}" + rest) == if CleanMembers(ms) then Some((ms, rest)) else None
  {
    var s := PrintMembers(ms) + "}" + rest;
    if |ms| == 1 {
      assert s == PrintMember(ms[0]) + ("}" + rest);
      MemberRoundTrip(ms[0], "}" + rest);
      assert ("}" + rest)[1..] == rest;
      assert ms == [ms[0]] && CleanMembers(ms[1..]);
    } else {
      var more := PrintMembers(ms[1..]) + "}" + rest;
      Regroup(PrintMember(ms[0]), PrintMembers(ms[1..]), rest);
      MemberRoundTrip(ms[0], "," + more);
      assert ("," + more)[1..] == more;
      MembersRoundTrip(ms[1..], rest);
      assert [ms[0]] + ms[1..] == ms;
    }
  }

  lemma Regroup(first: string, more: string, rest: string)
    ensures first + "," + more + "}" + rest == first + ("," + (more + "}" + rest))
  {
  }

  lemma {:induction false} MemberRoundTrip(m: (string, Json), rest: string)
    ensures ReadMember(PrintMember(m) + rest) == if CleanMember(m) then Some((m, rest)) else None
  {
    var after := ":" + (Print(m.1) + rest);
    assert PrintMember(m) + rest == Quoted(m.0) + after;
    StringRoundTrip(m.0, after);
    assert after[1..] == Print(m.1) + rest;
    ValueRoundTrip(m.1, rest);
  }

  /** The reader accepts a printed value completely exactly when all its strings are clean, and then
      returns the value itself. */
  lemma RoundTrip(v: Json)
    ensures ReadValue(Print(v)) == if CleanValue(v) then Some((v, "")) else None
  {
    ValueRoundTrip(v, "");
    assert Print(v) + "" == Print(v);
  }
}
